/** What migrated records say, field by field: the sources keep their order of preference, the segments of schema 2 keep their
    addresses, and everything else stays. Stated about the records that the migration plans and writes. */
module MigrationMeaning {
  import opened Net
  import opened Records
  import opened Allocation
  import opened Legacy
  import opened Migration

  // ---- Schema 2: one source for each segment ----

  /** A segment of a legacy source, for one address family. */
  datatype Segment = Segment(source: Source2, family: string, suffix: string, sid: Addr)

  /** All segments, source by source and IPv4 first. */
  function SegmentsOf(sources: seq<Source2>): seq<Segment> {
    if sources == [] then []
    else
      var last := sources[|sources| - 1];
      SegmentsOf(sources[..|sources| - 1])
      + (if last.sidV4.Some? then [Segment(last, "ipv4", "v4", last.sidV4.value)] else [])
      + (if last.sidV6.Some? then [Segment(last, "ipv6", "v6", last.sidV6.value)] else [])
  }

  /** The name to have: that of the legacy source, told apart by family where it has segments of both. */
  function Wanted(g: Segment): string {
    if g.source.sidV4.Some? && g.source.sidV6.Some? then g.source.name + "-" + g.suffix else g.source.name
  }

  /** The source at place j stands for the segment. */
  predicate Stands(feeds: Feeds, baseUrl: string, g: Segment, made: seq<Source>, j: nat)
    requires j < |made|
  {
    var r := made[j];
    && r.family == g.family && r.sid == g.sid && r.mtu == g.source.mtu && r.priority == j + 1
    && Some(r.url) == feeds(baseUrl, g.source.name + "_" + g.suffix + ".txt")
    && (forall i | 0 <= i < j :: made[i].name != r.name)
    && (|Wanted(g)| <= 64 && (forall i | 0 <= i < j :: made[i].name != Wanted(g)) ==> r.name == Wanted(g))
  }

  ghost predicate AllStand(feeds: Feeds, baseUrl: string, gs: seq<Segment>, made: seq<Source>) {
    |made| == |gs| && forall j | 0 <= j < |gs| :: Stands(feeds, baseUrl, gs[j], made, j)
  }

  lemma FamilyStands(feeds: Feeds, baseUrl: string, s: Source2, family: string, sid: Option<Addr>, gs: seq<Segment>,
                     made: seq<Source>)
    requires AllStand(feeds, baseUrl, gs, made) && AddFamily(feeds, baseUrl, s, family, sid, made).Some?
    requires (family == "ipv4" && sid == s.sidV4) || (family == "ipv6" && sid == s.sidV6)
    ensures AllStand(feeds, baseUrl,
                     gs + if sid.Some? then [Segment(s, family, if family == "ipv4" then "v4" else "v6", sid.value)] else [],
                     AddFamily(feeds, baseUrl, s, family, sid, made).value)
  {
    if sid.Some? {
      var g := Segment(s, family, if family == "ipv4" then "v4" else "v6", sid.value);
      var next := AddFamily(feeds, baseUrl, s, family, sid, made).value;
      assert forall i | 0 <= i < |made| :: made[i] in made && made[i].name in SourceNames(made);
      FirstAttempt(Wanted(g), SourceNames(made));
      assert next[..|made|] == made;
      forall j | 0 <= j < |made|
        ensures Stands(feeds, baseUrl, gs[j], next, j)
      {
        assert Stands(feeds, baseUrl, gs[j], made, j) && forall i | 0 <= i <= j :: next[i] == made[i];
      }
      assert Stands(feeds, baseUrl, g, next, |made|);
    }
  }

  lemma FirstAttempt(wanted: string, used: set<string>)
    ensures |wanted| <= 64 && wanted !in used ==> FirstFree(wanted, used, 1) == wanted
  {
    if |wanted| <= 64 {
      assert Attempted(wanted, 1) == wanted;
    }
  }

  lemma {:induction false} SegmentsStand(feeds: Feeds, baseUrl: string, sources: seq<Source2>)
    requires MigrateSources(feeds, baseUrl, sources).Some?
    ensures AllStand(feeds, baseUrl, SegmentsOf(sources), MigrateSources(feeds, baseUrl, sources).value)
  {
    hide AddFamily, AllStand;
    if sources == [] {
      NoneStand(feeds, baseUrl);
    } else {
      var n := |sources| - 1;
      SegmentsStand(feeds, baseUrl, sources[..n]);
      var front := MigrateSources(feeds, baseUrl, sources[..n]).value;
      FamilyStands(feeds, baseUrl, sources[n], "ipv4", sources[n].sidV4, SegmentsOf(sources[..n]), front);
      var v4 := AddFamily(feeds, baseUrl, sources[n], "ipv4", sources[n].sidV4, front).value;
      var gs := SegmentsOf(sources[..n])
                + if sources[n].sidV4.Some? then [Segment(sources[n], "ipv4", "v4", sources[n].sidV4.value)] else [];
      FamilyStands(feeds, baseUrl, sources[n], "ipv6", sources[n].sidV6, gs, v4);
    }
  }

  lemma NoneStand(feeds: Feeds, baseUrl: string)
    ensures AllStand(feeds, baseUrl, [], [])
  {
  }

  // ---- Schema 3: the preference turned round ----

  /** The same sources, numbered 1, 2, ... by preference: the greater number used to win, and of equal ones the first. */
  predicate Renumbered(before: seq<Source>, after: seq<Source>) {
    && |after| == |before|
    && (forall i | 0 <= i < |before| :: after[i] == before[i].(priority := after[i].priority) && 1 <= after[i].priority <= |before|)
    && forall i, j | 0 <= i < |before| && 0 <= j < |before| && i != j ::
         after[i].priority < after[j].priority <==>
           before[i].priority > before[j].priority || (before[i].priority == before[j].priority && i < j)
  }

  // ---- Whole records ----

  /** The name with the prefix of its kind. */
  predicate NamedFor(kind: Kind, before: string, after: string) {
    var prefix := match kind
      case GreKind => "gre-"
      case VxlanKind => "vxlan-"
      case WireGuardKind => "wg-"
      case AmneziaKind => "awg-"
      case XfrmStaticKind => "ipsec-"
      case XfrmIkeKind => "ipsec-"
      case Srv6Kind => "";
    after == if prefix <= before then before else prefix + before
  }

  /** Nothing but schema, name and SRv6 settings differs, and there are neither Babel nor MPTCP settings. */
  predicate CarriedOver(t: Tunnel, r: Tunnel) {
    && r == t.(schema := 4, name := r.name, spec := t.spec.(srv6 := r.spec.srv6, babel := None, mptcp := None))
    && NamedFor(t.kind, t.name, r.name)
  }

  predicate GivenPriority(priority: int) { 20000 <= priority <= 29999 }

  /** What a file says once it is migrated. */
  ghost predicate Means(feeds: Feeds, c: Content, r: Tunnel) {
    match c
    case Garbage => false
    case Present(t) => r == t.(name := r.name) && NamedFor(t.kind, t.name, r.name)
    case Schema3(t) =>
      && CarriedOver(t, r) && (t.spec.srv6.None? <==> r.spec.srv6.None?)
      && (t.spec.srv6.Some? && r.spec.srv6.Some? ==>
            var v, w := t.spec.srv6.value, r.spec.srv6.value;
            && w == v.(rulePriority := w.rulePriority, sources := w.sources) && Renumbered(v.sources, w.sources)
            && (t.kind == Srv6Kind ==> GivenPriority(w.rulePriority)))
    case Schema2(t, srv6) =>
      && CarriedOver(t, r) && (srv6.None? <==> r.spec.srv6.None?)
      && (srv6.Some? && r.spec.srv6.Some? ==>
            var v, w := srv6.value, r.spec.srv6.value;
            && w == Srv6(v.table, w.rulePriority, v.refresh, w.sources, v.rest)
            && AllStand(feeds, v.baseUrl, SegmentsOf(v.sources), w.sources)
            && (t.kind == Srv6Kind ==> GivenPriority(w.rulePriority)))
  }

  lemma NameMeans(kind: Kind, name: string)
    ensures NamedFor(kind, name, PrefixedName(kind, name))
    ensures PrefixedName(kind, PrefixedName(kind, name)) == PrefixedName(kind, name)
  {
  }

  lemma NormalizedIsRenumbered(sources: seq<Source>)
    ensures Renumbered(sources, Normalized(sources))
  {
    hide Normalized;
    NormalizedKeepsPreference(sources);
  }

  /** What is decoded, before rule priorities are handed out. */
  ghost predicate Decodes(feeds: Feeds, c: Content, x: Tunnel) {
    if x.kind == Srv6Kind && x.spec.srv6.Some? && !c.Present? then
      x.spec.srv6.value.rulePriority == 0 && forall p | GivenPriority(p) :: Means(feeds, c, WithPriority(x, p))
    else Means(feeds, c, x)
  }

  lemma DecodeMeans(env: Env, feeds: Feeds, f: File)
    requires Decode(env, feeds, f).Some?
    ensures Decodes(feeds, f.content, Decode(env, feeds, f).value.record)
  {
    hide Valid, MigrateSources, PrefixedName, Normalized, AllStand, Renumbered, NamedFor;
    match f.content
    case Present(t) => NameMeans(t.kind, t.name);
    case Schema3(t) =>
      NameMeans(t.kind, t.name);
      if t.spec.srv6.Some? {
        NormalizedIsRenumbered(t.spec.srv6.value.sources);
      }
    case Schema2(t, srv6) =>
      NameMeans(t.kind, t.name);
      if srv6.Some? {
        SegmentsStand(feeds, srv6.value.baseUrl, srv6.value.sources);
      }
  }

  /** A planned record is the decoded one, with a rule priority of the automatic range if it had none. */
  lemma {:induction false} AssignedFromRange(items: seq<Item>, i: nat, used: set<int>, j: nat)
    requires i <= j < |items| && Assigned(items, i, used).Some?
    ensures var t := Assigned(items, i, used).value[j - i];
            if NeedsPriority(items[j].record) then
              exists p :: GivenPriority(p) && t == WithPriority(items[j].record, p)
            else t == items[j].record
    decreases |items| - i
  {
    var p := LeastFree(used, AUTO_MIN, AUTO_MAX);
    if i < j {
      AssignedFromRange(items, i + 1, if NeedsPriority(items[i].record) then used + {p.value} else used, j);
    } else if NeedsPriority(items[i].record) {
      assert GivenPriority(p.value) && Assigned(items, i, used).value[0] == WithPriority(items[i].record, p.value);
    }
  }

  /** Every planned record, and so every record that a migration writes, says what its file said. */
  lemma PlanMeans(env: Env, feeds: Feeds, files: seq<File>, i: nat)
    requires Plan(env, feeds, files).Some? && i < |files|
    ensures Means(feeds, files[i].content, Plan(env, feeds, files).value[i])
  {
    hide Valid, Decode, DistinctNames, Means;
    var items := Items(env, feeds, files);
    DecodeMeans(env, feeds, files[i]);
    OldHasNoPriority(env, feeds, files[i]);
    AssignedFromRange(items, 0, Taken(items), i);
    PresentPriority(env, feeds, files[i]);
  }

  lemma PresentPriority(env: Env, feeds: Feeds, f: File)
    requires Decode(env, feeds, f).Some?
    ensures f.content.Present? ==> !NeedsPriority(Decode(env, feeds, f).value.record)
  {
    if f.content.Present? {
      PresentNeedsNothing(env, feeds, f);
    }
  }
}
