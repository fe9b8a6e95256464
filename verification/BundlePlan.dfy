/** Planning a bundle: every entry is matched with a stored record or becomes a new one, and the records that would
    result are checked as a whole. */
module BundlePlan {
  import opened Lists
  import opened Net
  import opened Records
  import opened Ownership
  import opened RecordSet
  import opened StoreState
  import opened Store
  import opened Restore
  import opened Allocation
  import opened Prepare
  import opened Secrets
  import opened BundleState

  const BUNDLE_VERSION := 1

  /** The first pass over the entries: names and identifiers given, records matched, changes, and the records that
      will be there; `known` are the records whose priorities are taken. */
  datatype Progress = Progress(names: set<string>, ids: set<string>, matched: set<string>, changes: seq<Change>,
                               finals: seq<Tunnel>, known: seq<Tunnel>)

  function ByName(rs: seq<Tunnel>): map<string, Tunnel> {
    if rs == [] then map[] else ByName(rs[..|rs| - 1])[rs[|rs| - 1].name := rs[|rs| - 1]]
  }

  /** validateStableOwnership */
  predicate StableOwnership(a: Tunnel, b: Tunnel) {
    match a.kind
    case XfrmStaticKind => XfrmIds(a) == XfrmIds(b)
    case XfrmIkeKind => XfrmIds(a) == XfrmIds(b)
    case Srv6Kind =>
      && a.spec.srv6.Some? && b.spec.srv6.Some?
      && a.spec.srv6.value.table == b.spec.srv6.value.table && a.spec.srv6.value.rulePriority == b.spec.srv6.value.rulePriority
    case _ => true
  }

  /** An entry for the stored record e; None is an error. */
  function PlanExisting(env: Env, e: Tunnel, d: Tunnel, now: nat, headers: seq<string>): Option<Change> {
    if d.kind != e.kind || d.iface != e.iface then None
    else
      var r := PrepareUpdate(env, d, e, now, headers);
      if r.None? || !StableOwnership(e, r.value) then None
      else if DesiredEqual(e, r.value) then Some(Keep(e)) else Some(Modify(e, r.value))
  }

  function TakenPriorities(env: Env, rs: seq<Tunnel>): set<int> { set r, p | r in rs && p in Priorities(env, r) :: p }

  /** allocateSRv6RulePriority; None is an error. */
  function WithRulePriority(env: Env, t: Tunnel, rs: seq<Tunnel>): Option<Tunnel> {
    if t.kind != Srv6Kind || t.spec.srv6.None? || t.spec.srv6.value.rulePriority != 0 then Some(t)
    else
      var p := LeastFree(TakenPriorities(env, rs), AUTO_MIN, AUTO_MAX);
      if p.None? then None else Some(t.(spec := t.spec.(srv6 := Some(t.spec.srv6.value.(rulePriority := p.value)))))
  }

  /** An entry for a new record; None is an error. */
  function PlanNewcomer(env: Env, d: Tunnel, known: seq<Tunnel>, now: nat, draws: Draws): Option<Change> {
    var t := WithRulePriority(env, d.(id := "", schema := 0, generation := 0), known);
    if t.None? then None
    else
      var r := PrepareNew(env, t.value, now, draws);
      if r.None? then None else Some(Insert(r.value))
  }

  /** The stored record an entry is for: by identifier if it is stored, by name otherwise. */
  datatype Match = NoMatch | Matched(record: Tunnel) | Ambiguous

  function FindExisting(have: Table, byName: map<string, Tunnel>, d: Tunnel): Match {
    if d.id != "" && d.id in have then
      if d.name in byName && byName[d.name].id != have[d.id].id then Ambiguous else Matched(have[d.id])
    else if d.name in byName then Matched(byName[d.name])
    else NoMatch
  }

  /** One entry of the bundle; None is an error. */
  function Entry(env: Env, have: Table, byName: map<string, Tunnel>, p: Progress, d: Tunnel, now: nat, draws: Draws): Option<Progress> {
    if d.name == "" || d.name in p.names then None
    else if d.id != "" && (!env.validId(d.id) || d.id in p.ids) then None
    else
      var q := p.(names := p.names + {d.name}, ids := if d.id == "" then p.ids else p.ids + {d.id});
      match FindExisting(have, byName, d)
      case Ambiguous => None
      case Matched(e) =>
        if e.id in p.matched then None
        else
          var c := PlanExisting(env, e, d, now, draws.headers);
          if c.None? then None
          else Some(q.(matched := p.matched + {e.id}, changes := p.changes + [c.value], finals := p.finals + [LeftBy(c.value)]))
      case NoMatch =>
        var c := PlanNewcomer(env, d, p.known, now, draws);
        if c.None? then None
        else Some(q.(changes := p.changes + [c.value], finals := p.finals + [LeftBy(c.value)], known := p.known + [LeftBy(c.value)]))
  }

  /** The record a change leaves; for a deletion the record it takes away. */
  function LeftBy(c: Change): Tunnel {
    match c
    case Keep(t) => t
    case Drop(b) => b
    case Modify(_, a) => a
    case Insert(a) => a
  }

  function Entries(env: Env, current: seq<Tunnel>, desired: seq<Tunnel>, now: nat, draws: nat -> Draws): Option<Progress> {
    if desired == [] then Some(Progress({}, {}, {}, [], [], current))
    else
      var n := |desired| - 1;
      var p := Entries(env, current, desired[..n], now, draws);
      if p.None? then None else Entry(env, TableOf(current), ByName(current), p.value, desired[n], now, draws(n))
  }

  /** Records no entry is for are deleted or stay. */
  function Unmatched(p: Progress, current: seq<Tunnel>, prune: bool): Progress {
    if current == [] then p
    else
      var q, r := Unmatched(p, current[..|current| - 1], prune), current[|current| - 1];
      if r.id in p.matched then q
      else if prune then q.(changes := q.changes + [Drop(r)])
      else q.(finals := q.finals + [r])
  }

  // ---- The plan describes the outcome ----

  /** Identifiers drawn for new records are new, and no two are alike. */
  ghost predicate FreshIds(draws: nat -> Draws, have: Table) {
    (forall n: nat :: draws(n).id !in have && draws(n).id != "") && forall m: nat, n: nat | m != n :: draws(m).id != draws(n).id
  }

  /** The records that will be there are those the changes leave and those of `kept`, which no change touches. */
  ghost predicate Covers(have: Table, p: Progress, kept: set<string>) {
    && kept <= have.Keys && kept !! Touched(p.changes)
    && (forall r :: r in p.finals <==> (exists c :: c in p.changes && !c.Drop? && LeftBy(c) == r) || (exists id :: id in kept && have[id] == r))
  }

  /** What holds of the first pass after n entries. */
  ghost predicate PassOk(env: Env, have: Table, p: Progress, draws: nat -> Draws, n: nat) {
    && SoundAll(env, have, p.changes) && Covers(have, p, {}) && p.matched <= have.Keys
    && (forall c | c in p.changes :: !c.Drop? && (c.Id() in p.matched || IsDrawn(draws, n, c.Id())))
    && p.matched <= Touched(p.changes)
  }

  ghost predicate IsDrawn(draws: nat -> Draws, n: nat, id: string) { exists k: nat :: k < n && id == draws(k).id }

  lemma OneMoreChange(env: Env, have: Table, cs: seq<Change>, c: Change)
    requires SoundAll(env, have, cs) && Sound(env, have, c) && c.Id() !in Touched(cs)
    ensures SoundAll(env, have, cs + [c]) && Touched(cs + [c]) == Touched(cs) + {c.Id()}
  {
    hide Sound;
    assert forall x | x in cs :: x.Id() in Touched(cs);
  }

  lemma OneMoreResult(have: Table, p: Progress, q: Progress, c: Change, kept: set<string>)
    requires Covers(have, p, kept) && c.Id() !in Touched(p.changes) + kept
    requires q.changes == p.changes + [c] && q.finals == if c.Drop? then p.finals else p.finals + [LeftBy(c)]
    ensures Covers(have, q, kept)
  {
    assert Touched(q.changes) == Touched(p.changes) + {c.Id()};
    forall r
      ensures r in q.finals <==> (exists x :: x in q.changes && !x.Drop? && LeftBy(x) == r) || (exists id :: id in kept && have[id] == r)
    {
      if x :| x in p.changes && !x.Drop? && LeftBy(x) == r {
        assert x in q.changes;
      }
      if !c.Drop? {
        assert c in q.changes;
      }
    }
  }

  lemma EntryKeepsPass(env: Env, have: Table, byName: map<string, Tunnel>, p: Progress, d: Tunnel, now: nat, draws: nat -> Draws, n: nat)
    requires Keyed(have) && (forall name | name in byName :: byName[name].id in have && have[byName[name].id] == byName[name])
    requires FreshIds(draws, have) && PassOk(env, have, p, draws, n) && Entry(env, have, byName, p, d, now, draws(n)).Some?
    ensures PassOk(env, have, Entry(env, have, byName, p, d, now, draws(n)).value, draws, n + 1)
  {
    hide Sound, SoundAll, Covers, PlanExisting, PlanNewcomer;
    var q := Entry(env, have, byName, p, d, now, draws(n)).value;
    assert forall c | c in p.changes && IsDrawn(draws, n, c.Id()) :: IsDrawn(draws, n + 1, c.Id());
    match FindExisting(have, byName, d)
    case Matched(e) =>
      var c := PlanExisting(env, e, d, now, draws(n).headers).value;
      ExistingIsSound(env, have, e, d, now, draws(n).headers);
      assert c.Id() !in Touched(p.changes);
      OneMoreChange(env, have, p.changes, c);
      OneMoreResult(have, p, q, c, {});
    case NoMatch =>
      var c := PlanNewcomer(env, d, p.known, now, draws(n)).value;
      NewcomerIsSound(env, have, d, p.known, now, draws(n));
      assert c.Id() !in Touched(p.changes);
      assert IsDrawn(draws, n + 1, c.Id());
      OneMoreChange(env, have, p.changes, c);
      OneMoreResult(have, p, q, c, {});
  }

  lemma {:induction false} ByNameOf(rs: seq<Tunnel>)
    ensures forall name | name in ByName(rs) :: ByName(rs)[name] in rs && ByName(rs)[name].name == name
  {
    if rs != [] {
      ByNameOf(rs[..|rs| - 1]);
    }
  }

  lemma {:induction false} EntriesPass(env: Env, current: seq<Tunnel>, desired: seq<Tunnel>, now: nat, draws: nat -> Draws)
    requires DistinctIds(current) && FreshIds(draws, TableOf(current)) && Entries(env, current, desired, now, draws).Some?
    ensures PassOk(env, TableOf(current), Entries(env, current, desired, now, draws).value, draws, |desired|)
  {
    hide Entry, Sound;
    if desired != [] {
      var n := |desired| - 1;
      EntriesPass(env, current, desired[..n], now, draws);
      TableOfList(current);
      ByNameOf(current);
      EntryKeepsPass(env, TableOf(current), ByName(current), Entries(env, current, desired[..n], now, draws).value, desired[n], now, draws, n);
    }
  }

  /** The second pass: which stored records are kept without a change. */
  function KeptIds(matched: set<string>, current: seq<Tunnel>, prune: bool): set<string> {
    if prune then {} else IdSet(current) - matched
  }

  lemma {:induction false} RestCovers(env: Env, have: Table, p: Progress, current: seq<Tunnel>, prune: bool)
    requires DistinctIds(current) && forall r | r in current :: r.id in have && have[r.id] == r
    requires SoundAll(env, have, p.changes) && Covers(have, p, {}) && p.matched == Touched(p.changes) * have.Keys
    ensures Rested(env, have, p, Unmatched(p, current, prune), IdSet(current), prune)
  {
    hide Sound, SoundAll, Covers, Rested, IdSet;
    if current == [] {
      NothingRested(env, have, p, prune);
    } else {
      var front, r := current[..|current| - 1], current[|current| - 1];
      assert forall x | x in front :: x in current;
      RestCovers(env, have, p, front, prune);
      ListStep(current, |front|);
      assert current[..|front| + 1] == current;
      OneMoreRested(env, have, p, Unmatched(p, front, prune), Unmatched(p, current, prune), IdSet(front), r, prune);
    }
  }

  /** What the second pass has made of p once it saw the stored records under these identifiers. */
  ghost predicate Rested(env: Env, have: Table, p: Progress, q: Progress, seen: set<string>, prune: bool) {
    && SoundAll(env, have, q.changes) && q.matched == p.matched
    && Covers(have, q, if prune then {} else seen - p.matched)
    && Touched(q.changes) == Touched(p.changes) + (if prune then seen - p.matched else {})
  }

  lemma NothingRested(env: Env, have: Table, p: Progress, prune: bool)
    requires SoundAll(env, have, p.changes) && Covers(have, p, {})
    ensures Rested(env, have, p, p, IdSet([]), prune)
  {
    hide SoundAll, Covers, Touched;
    assert IdSet([]) == {} && {} - p.matched == {};
  }

  lemma OneMoreRested(env: Env, have: Table, p: Progress, q: Progress, q': Progress, seen: set<string>, r: Tunnel, prune: bool)
    requires Rested(env, have, p, q, seen, prune) && p.matched == Touched(p.changes) * have.Keys
    requires r.id in have && have[r.id] == r && r.id !in seen
    requires q' == if r.id in p.matched then q
                   else if prune then q.(changes := q.changes + [Drop(r)]) else q.(finals := q.finals + [r])
    ensures Rested(env, have, p, q', seen + {r.id}, prune)
  {
    hide Sound, SoundAll, Covers, Touched;
    if r.id in p.matched {
      assert (seen + {r.id}) - p.matched == seen - p.matched;
    } else {
      assert (seen + {r.id}) - p.matched == (seen - p.matched) + {r.id};
      if prune {
        DropIsSound(env, have, r);
        OneMoreChange(env, have, q.changes, Drop(r));
        OneMoreResult(have, q, q', Drop(r), {});
      } else {
        OneMoreKept(have, q, q', r, seen - p.matched);
      }
    }
  }

  lemma DropIsSound(env: Env, have: Table, r: Tunnel)
    requires r.id in have && have[r.id] == r
    ensures Sound(env, have, Drop(r)) && Drop(r).Id() == r.id
  {
  }

  lemma OneMoreKept(have: Table, p: Progress, q: Progress, r: Tunnel, kept: set<string>)
    requires Covers(have, p, kept) && r.id in have && have[r.id] == r && r.id !in Touched(p.changes)
    requires q == p.(finals := p.finals + [r])
    ensures Covers(have, q, kept + {r.id})
  {
  }

  /** What a change leaves is there at the end. */
  lemma {:induction false} ResultAfter(env: Env, have: Table, cs: seq<Change>, i: nat)
    requires SoundAll(env, have, cs) && i < |cs|
    ensures if cs[i].Drop? then cs[i].Id() !in After(have, cs)
            else cs[i].Id() in After(have, cs) && After(have, cs)[cs[i].Id()] == LeftBy(cs[i]) && LeftBy(cs[i]).id == cs[i].Id()
  {
    var n := |cs| - 1;
    FrontIsSound(env, have, cs, n);
    assert cs[..n + 1] == cs;
    if i < n {
      ResultAfter(env, have, cs[..n], i);
      assert cs[..n][i].Id() in Touched(cs[..n]);
    } else {
      AboutToChange(env, have, cs, n);
    }
  }

  lemma FinalIsInOutcome(env: Env, have: Table, q: Progress, kept: set<string>, r: Tunnel)
    requires Keyed(have) && SoundAll(env, have, q.changes) && Covers(have, q, kept) && r in q.finals
    ensures r.id in After(have, q.changes) && After(have, q.changes)[r.id] == r
  {
    hide Sound, SoundAll;
    UntouchedAfter(env, have, q.changes);
    if c :| c in q.changes && !c.Drop? && LeftBy(c) == r {
      var i :| 0 <= i < |q.changes| && q.changes[i] == c;
      ResultAfter(env, have, q.changes, i);
    }
  }

  lemma OutcomeIsFinal(env: Env, have: Table, q: Progress, kept: set<string>, id: string)
    requires Keyed(have) && SoundAll(env, have, q.changes) && Covers(have, q, kept) && have.Keys <= kept + Touched(q.changes)
    requires id in After(have, q.changes)
    ensures id in IdSet(q.finals)
  {
    hide Sound, SoundAll;
    UntouchedAfter(env, have, q.changes);
    if id in Touched(q.changes) {
      var c :| c in q.changes && c.Id() == id;
      var i :| 0 <= i < |q.changes| && q.changes[i] == c;
      ResultAfter(env, have, q.changes, i);
      assert LeftBy(c) in q.finals;
    } else {
      assert have[id] in q.finals;
    }
  }

  /** The final records are the table after all changes. */
  lemma FinalsAreOutcome(env: Env, have: Table, q: Progress, kept: set<string>)
    requires Keyed(have) && SoundAll(env, have, q.changes) && Covers(have, q, kept) && have.Keys <= kept + Touched(q.changes)
    requires DistinctIds(q.finals)
    ensures TableOf(q.finals) == After(have, q.changes)
  {
    hide Sound, SoundAll, Covers;
    var t := After(have, q.changes);
    TableOfList(q.finals);
    forall r | r in q.finals
      ensures r.id in t && t[r.id] == r
    {
      FinalIsInOutcome(env, have, q, kept, r);
    }
    forall id | id in t
      ensures id in TableOf(q.finals)
    {
      OutcomeIsFinal(env, have, q, kept, id);
    }
  }

  lemma PreparedUpdate(env: Env, d: Tunnel, e: Tunnel, now: nat, headers: seq<string>)
    requires PrepareUpdate(env, d, e, now, headers).Some?
    ensures var r := PrepareUpdate(env, d, e, now, headers).value;
            && Valid(env, r) && r.id == e.id && r.generation == e.generation + 1 && r.createdAt == e.createdAt && r.kind == d.kind
  {
    hide Valid, DefaultSpec, WithKeys, StaticKeys, IkeKeys, MergeWireGuard, MergeStatic, MergeIke, NeedsFallback, SpecChosen;
  }

  lemma PreparedNew(env: Env, t: Tunnel, now: nat, draws: Draws)
    requires t.id == "" && PrepareNew(env, t, now, draws).Some?
    ensures Valid(env, PrepareNew(env, t, now, draws).value) && PrepareNew(env, t, now, draws).value.id == draws.id
  {
    hide Valid, DefaultSpec, WithKeys, StaticKeys, IkeKeys, NeedsFallback, SpecChosen;
  }

  lemma ExistingIsSound(env: Env, have: Table, e: Tunnel, d: Tunnel, now: nat, headers: seq<string>)
    requires e.id in have && have[e.id] == e && PlanExisting(env, e, d, now, headers).Some?
    ensures var c := PlanExisting(env, e, d, now, headers).value;
            Sound(env, have, c) && c.Id() == e.id && !c.Drop? && !c.Insert?
  {
    hide Valid, PrepareUpdate;
    PreparedUpdate(env, d, e, now, headers);
  }

  lemma NewcomerIsSound(env: Env, have: Table, d: Tunnel, known: seq<Tunnel>, now: nat, draws: Draws)
    requires draws.id !in have && PlanNewcomer(env, d, known, now, draws).Some?
    ensures var c := PlanNewcomer(env, d, known, now, draws).value;
            Sound(env, have, c) && c.Id() == draws.id && c.Insert?
  {
    hide Valid, PrepareNew;
    PreparedNew(env, WithRulePriority(env, d.(id := "", schema := 0, generation := 0), known).value, now, draws);
  }
}
