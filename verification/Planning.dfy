/** What the plan of a bundle says, entry by entry, and in which order its changes are made. */
module Planning {
  import opened Lists
  import opened Net
  import opened Records
  import opened Ownership
  import opened Conflicts
  import opened StoreState
  import opened Restore
  import opened Allocation
  import opened Prepare
  import opened Secrets
  import opened BundleState
  import opened BundlePlan
  import opened Bundle
  import opened ExportPlan

  // ---- The record an entry is for ----

  ghost predicate Identified(current: seq<Tunnel>, d: Tunnel) { d.id != "" && exists r :: r in current && r.id == d.id }

  /** The entry is for e: by identifier, and then no other record may have its name; or by name. */
  ghost predicate Target(current: seq<Tunnel>, d: Tunnel, e: Tunnel) {
    && e in current
    && if Identified(current, d) then e.id == d.id && forall r | r in current && r.name == d.name :: r.id == d.id
       else e.name == d.name
  }

  /** The entry is for a new record. */
  ghost predicate Untargeted(current: seq<Tunnel>, d: Tunnel) {
    !Identified(current, d) && forall r | r in current :: r.name != d.name
  }

  lemma NamesFound(env: Env, current: seq<Tunnel>)
    requires AcceptableList(env, current)
    ensures forall name | name in ByName(current) :: ByName(current)[name] in current && ByName(current)[name].name == name
    ensures forall r | r in current :: r.name in ByName(current) && ByName(current)[r.name] == r
    ensures forall id | id in TableOf(current) :: TableOf(current)[id] in current && TableOf(current)[id].id == id
    ensures forall r | r in current :: r.id in TableOf(current) && TableOf(current)[r.id] == r
  {
    hide ByName, TableOf, AcceptableList;
    NamesDiffer(env, current);
    ByNameOf(current);
    TableOfList(current);
    forall r | r in current
      ensures r.name in ByName(current) && ByName(current)[r.name] == r
    {
      var i :| 0 <= i < |current| && current[i] == r;
      NameIsFound(current, i);
    }
  }

  lemma FindMeans(env: Env, current: seq<Tunnel>, d: Tunnel)
    requires AcceptableList(env, current)
    ensures forall e :: FindExisting(TableOf(current), ByName(current), d) == Matched(e) <==> Target(current, d, e)
    ensures FindExisting(TableOf(current), ByName(current), d) == NoMatch <==> Untargeted(current, d)
  {
    hide AcceptableList, TableOf, ByName;
    NamesFound(env, current);
    var have, byName := TableOf(current), ByName(current);
    assert Identified(current, d) <==> d.id != "" && d.id in have;
    if d.name in byName {
      assert byName[d.name] in current;
    }
  }

  // ---- An entry for a stored record ----

  /** The identifiers, the table and the rule priority that a record keeps for good. */
  predicate KeepsNumbers(e: Tunnel, r: Tunnel) {
    match e.kind
    case XfrmStaticKind =>
      && e.spec.xfrmStatic.Some? && r.spec.xfrmStatic.Some?
      && e.spec.xfrmStatic.value.ifId == r.spec.xfrmStatic.value.ifId
      && e.spec.xfrmStatic.value.reqId == r.spec.xfrmStatic.value.reqId
    case XfrmIkeKind =>
      && e.spec.xfrmIke.Some? && r.spec.xfrmIke.Some?
      && e.spec.xfrmIke.value.ifId == r.spec.xfrmIke.value.ifId && e.spec.xfrmIke.value.reqId == r.spec.xfrmIke.value.reqId
    case Srv6Kind =>
      && e.spec.srv6.Some? && r.spec.srv6.Some?
      && e.spec.srv6.value.table == r.spec.srv6.value.table && e.spec.srv6.value.rulePriority == r.spec.srv6.value.rulePriority
    case _ => true
  }

  /** The records differ in generation and time of change at most. */
  predicate OnlyRevised(e: Tunnel, r: Tunnel) { r == e.(generation := r.generation, updatedAt := r.updatedAt) }

  /** The change for an entry d of the stored record e: none if the prepared record is only a revision. */
  predicate Updates(env: Env, e: Tunnel, d: Tunnel, now: nat, headers: seq<string>, c: Change) {
    && d.kind == e.kind && d.iface == e.iface && PrepareUpdate(env, d, e, now, headers).Some?
    && var r := PrepareUpdate(env, d, e, now, headers).value;
    KeepsNumbers(e, r) && c == if OnlyRevised(e, r) then Keep(e) else Modify(e, r)
  }

  lemma ChosenSpecs(env: Env, t: Tunnel)
    requires Valid(env, t)
    ensures SpecChosen(t) && t.schema == 4
  {
  }

  lemma NumbersMean(e: Tunnel, r: Tunnel)
    requires SpecChosen(e) && SpecChosen(r) && e.kind == r.kind
    ensures StableOwnership(e, r) <==> KeepsNumbers(e, r)
  {
  }

  lemma ExistingMeans(env: Env, e: Tunnel, d: Tunnel, now: nat, headers: seq<string>, c: Change)
    requires Valid(env, e)
    ensures PlanExisting(env, e, d, now, headers) == Some(c) <==> Updates(env, e, d, now, headers, c)
  {
    hide Valid, SpecChosen, PrepareUpdate, StableOwnership, KeepsNumbers;
    if d.kind == e.kind && PrepareUpdate(env, d, e, now, headers).Some? {
      var r := PrepareUpdate(env, d, e, now, headers).value;
      PreparedUpdate(env, d, e, now, headers);
      ChosenSpecs(env, e);
      ChosenSpecs(env, r);
      NumbersMean(e, r);
      assert DesiredEqual(e, r) <==> OnlyRevised(e, r);
    }
  }

  // ---- An entry for a new record ----

  ghost predicate Unruled(env: Env, known: seq<Tunnel>, p: int) { forall r | r in known :: !Rules(env, r, p) }

  /** u is t, with the least unused rule priority from 20000 to 29999 if it is an SRv6 record without one. */
  ghost predicate Numbered(env: Env, t: Tunnel, known: seq<Tunnel>, u: Tunnel) {
    if t.kind == Srv6Kind && t.spec.srv6.Some? && t.spec.srv6.value.rulePriority == 0 then
      exists p :: 20000 <= p <= 29999 && Unruled(env, known, p) && (forall x | 20000 <= x < p :: !Unruled(env, known, x))
        && u == t.(spec := t.spec.(srv6 := Some(t.spec.srv6.value.(rulePriority := p))))
    else u == t
  }

  lemma TakenMeans(env: Env, known: seq<Tunnel>, p: int)
    ensures p in TakenPriorities(env, known) <==> !Unruled(env, known, p)
  {
    hide Priorities, Rules;
    forall r | r in known
      ensures p in Priorities(env, r) <==> Rules(env, r, p)
    {
      PrioritiesMean(env, r, p);
    }
  }

  lemma NumberMeans(env: Env, t: Tunnel, known: seq<Tunnel>, u: Tunnel)
    ensures WithRulePriority(env, t, known) == Some(u) <==> Numbered(env, t, known, u)
  {
    hide TakenPriorities, Unruled, Rules;
    forall p
      ensures p in TakenPriorities(env, known) <==> !Unruled(env, known, p)
    {
      TakenMeans(env, known, p);
    }
  }

  /** The change for an entry d that is for no stored record: identifier, schema and generation of the entry do not count. */
  ghost predicate Creates(env: Env, d: Tunnel, known: seq<Tunnel>, now: nat, draws: Draws, c: Change) {
    exists u :: Numbered(env, d.(id := "", schema := 0, generation := 0), known, u)
      && PrepareNew(env, u, now, draws).Some? && c == Insert(PrepareNew(env, u, now, draws).value)
  }

  lemma NewcomerMeans(env: Env, d: Tunnel, known: seq<Tunnel>, now: nat, draws: Draws, c: Change)
    ensures PlanNewcomer(env, d, known, now, draws) == Some(c) <==> Creates(env, d, known, now, draws, c)
  {
    hide WithRulePriority, PrepareNew, Numbered;
    forall u
      ensures WithRulePriority(env, d.(id := "", schema := 0, generation := 0), known) == Some(u)
         <==> Numbered(env, d.(id := "", schema := 0, generation := 0), known, u)
    {
      NumberMeans(env, d.(id := "", schema := 0, generation := 0), known, u);
    }
  }

  // ---- All entries ----

  /** The records the changes create. */
  function Newcomers(cs: seq<Change>): seq<Tunnel> {
    if cs == [] then []
    else Newcomers(cs[..|cs| - 1]) + if cs[|cs| - 1].Insert? then [cs[|cs| - 1].after] else []
  }

  /** The stored record a change is about. */
  function Previous(c: Change): Option<Tunnel> {
    match c
    case Keep(e) => Some(e)
    case Drop(e) => Some(e)
    case Modify(e, _) => Some(e)
    case Insert(_) => None
  }

  /** Entry i has a name of its own and no identifier of another, and cs[i] is its change. */
  ghost predicate Fit(env: Env, current: seq<Tunnel>, desired: seq<Tunnel>, now: nat, draws: nat -> Draws, cs: seq<Change>,
                      i: nat)
    requires i < |cs| <= |desired|
  {
    var d, c, before := desired[i], cs[i], Previous(cs[i]);
    && d.name != "" && (forall j | 0 <= j < i :: desired[j].name != d.name)
    && (d.id != "" ==> env.validId(d.id) && forall j | 0 <= j < i :: desired[j].id != d.id)
    && !c.Drop?
    && if before.None? then Untargeted(current, d) && Creates(env, d, current + Newcomers(cs[..i]), now, draws(i), c)
       else
         && Target(current, d, before.value) && Updates(env, before.value, d, now, draws(i).headers, c)
         && forall j | 0 <= j < i :: Previous(cs[j]).None? || Previous(cs[j]).value.id != before.value.id
  }

  ghost predicate AllFit(env: Env, current: seq<Tunnel>, desired: seq<Tunnel>, now: nat, draws: nat -> Draws, cs: seq<Change>) {
    |cs| == |desired| && forall i | 0 <= i < |cs| :: Fit(env, current, desired, now, draws, cs, i)
  }

  function Left(cs: seq<Change>): seq<Tunnel> { seq(|cs|, i requires 0 <= i < |cs| => LeftBy(cs[i])) }

  ghost predicate NamesOfEntries(seen: seq<Tunnel>, p: Progress) {
    && (forall name :: name in p.names <==> exists d :: d in seen && d.name == name)
    && (forall id :: id in p.ids <==> id != "" && exists d :: d in seen && d.id == id)
  }

  /** The pass after the entries seen so far. */
  ghost predicate Describes(current: seq<Tunnel>, seen: seq<Tunnel>, p: Progress) {
    && NamesOfEntries(seen, p)
    && (forall id :: id in p.matched <==> exists c :: c in p.changes && Previous(c).Some? && Previous(c).value.id == id)
    && p.finals == Left(p.changes) && p.known == current + Newcomers(p.changes)
  }

  /** The progress with one more change, for an entry d. */
  function Extended(p: Progress, d: Tunnel, c: Change): Progress {
    Progress(p.names + {d.name}, if d.id == "" then p.ids else p.ids + {d.id},
             if Previous(c).None? then p.matched else p.matched + {Previous(c).value.id},
             p.changes + [c], p.finals + [LeftBy(c)], if Previous(c).None? then p.known + [LeftBy(c)] else p.known)
  }

  lemma ExtendedDescribes(current: seq<Tunnel>, seen: seq<Tunnel>, p: Progress, d: Tunnel, c: Change)
    requires Describes(current, seen, p) && !c.Drop?
    ensures Describes(current, seen + [d], Extended(p, d, c))
  {
    var q := Extended(p, d, c);
    OneMoreNamed(seen, p, d, c);
    hide NamesOfEntries;
    assert q.changes[..|p.changes|] == p.changes;
    assert forall x :: x in q.changes <==> x in p.changes || x == c;
  }

  lemma OneMoreNamed(seen: seq<Tunnel>, p: Progress, d: Tunnel, c: Change)
    requires NamesOfEntries(seen, p)
    ensures NamesOfEntries(seen + [d], Extended(p, d, c))
  {
    assert forall x :: x in seen + [d] <==> x in seen || x == d;
  }

  /** What makes c the change of one more entry. */
  ghost predicate FitsNext(env: Env, current: seq<Tunnel>, p: Progress, d: Tunnel, now: nat, draws: Draws, c: Change) {
    && d.name != "" && d.name !in p.names && (d.id != "" ==> env.validId(d.id) && d.id !in p.ids) && !c.Drop?
    && if Previous(c).None? then Untargeted(current, d) && Creates(env, d, p.known, now, draws, c)
       else
         && Target(current, d, Previous(c).value) && Previous(c).value.id !in p.matched
         && Updates(env, Previous(c).value, d, now, draws.headers, c)
  }

  lemma UpdateIsOfRecord(env: Env, e: Tunnel, d: Tunnel, now: nat, headers: seq<string>, c: Change)
    requires Updates(env, e, d, now, headers, c)
    ensures Previous(c) == Some(e) && !c.Drop?
  {
    hide PrepareUpdate, KeepsNumbers, OnlyRevised;
  }

  /** One more entry is planned exactly if a change fits it, and with that change. */
  lemma EntryMeans(env: Env, current: seq<Tunnel>, p: Progress, d: Tunnel, now: nat, draws: Draws, c: Change)
    requires AcceptableList(env, current)
    ensures Entry(env, TableOf(current), ByName(current), p, d, now, draws) == Some(Extended(p, d, c))
            <== FitsNext(env, current, p, d, now, draws, c)
    ensures var q := Entry(env, TableOf(current), ByName(current), p, d, now, draws);
            q.Some? ==> exists x :: FitsNext(env, current, p, d, now, draws, x) && q.value == Extended(p, d, x)
  {
    FindMeans(env, current, d);
    forall e | e in current
      ensures Valid(env, e)
    {
      assert e in AsSet(current);
    }
    hide Valid, AcceptableList, FindExisting, TableOf, ByName, Target, Untargeted, PlanExisting, PlanNewcomer, Updates, Creates;
    match FindExisting(TableOf(current), ByName(current), d)
    case Ambiguous =>
      AmbiguousFits(env, current, p, d, now, draws, c);
    case Matched(e) =>
      TargetIsStored(current, d, e);
      MatchedFits(env, current, p, d, now, draws, c, e);
    case NoMatch =>
      NewcomerFits(env, current, p, d, now, draws, c);
  }

  lemma AmbiguousFits(env: Env, current: seq<Tunnel>, p: Progress, d: Tunnel, now: nat, draws: Draws, c: Change)
    requires FindExisting(TableOf(current), ByName(current), d) == Ambiguous
    requires forall e :: FindExisting(TableOf(current), ByName(current), d) == Matched(e) <==> Target(current, d, e)
    requires FindExisting(TableOf(current), ByName(current), d) == NoMatch <==> Untargeted(current, d)
    ensures !FitsNext(env, current, p, d, now, draws, c)
  {
    hide FindExisting, TableOf, ByName, Target, Untargeted, Updates, Creates;
  }

  lemma TargetIsStored(current: seq<Tunnel>, d: Tunnel, e: Tunnel)
    requires Target(current, d, e)
    ensures e in current && !Untargeted(current, d)
  {
  }

  lemma MatchedFits(env: Env, current: seq<Tunnel>, p: Progress, d: Tunnel, now: nat, draws: Draws, c: Change, e: Tunnel)
    requires FindExisting(TableOf(current), ByName(current), d) == Matched(e) && Valid(env, e)
    requires (forall x :: Target(current, d, x) <==> x == e) && !Untargeted(current, d)
    ensures Entry(env, TableOf(current), ByName(current), p, d, now, draws) == Some(Extended(p, d, c))
            <== FitsNext(env, current, p, d, now, draws, c)
    ensures var q := Entry(env, TableOf(current), ByName(current), p, d, now, draws);
            q.Some? ==> exists x :: FitsNext(env, current, p, d, now, draws, x) && q.value == Extended(p, d, x)
  {
    hide Valid, FindExisting, TableOf, ByName, Target, Untargeted, PlanExisting, PlanNewcomer, Updates, Creates;
    ExistingMeans(env, e, d, now, draws.headers, c);
    var r := PlanExisting(env, e, d, now, draws.headers);
    if r.Some? {
      ExistingMeans(env, e, d, now, draws.headers, r.value);
      UpdateIsOfRecord(env, e, d, now, draws.headers, r.value);
      var q := Entry(env, TableOf(current), ByName(current), p, d, now, draws);
      if q.Some? {
        assert FitsNext(env, current, p, d, now, draws, r.value) && q.value == Extended(p, d, r.value);
      }
    }
  }

  lemma CreationIsNew(env: Env, d: Tunnel, known: seq<Tunnel>, now: nat, draws: Draws, c: Change)
    requires Creates(env, d, known, now, draws, c)
    ensures c.Insert?
  {
    hide PrepareNew, Numbered;
  }

  lemma NewcomerFits(env: Env, current: seq<Tunnel>, p: Progress, d: Tunnel, now: nat, draws: Draws, c: Change)
    requires FindExisting(TableOf(current), ByName(current), d) == NoMatch && Untargeted(current, d)
    requires forall x :: !Target(current, d, x)
    ensures Entry(env, TableOf(current), ByName(current), p, d, now, draws) == Some(Extended(p, d, c))
            <== FitsNext(env, current, p, d, now, draws, c)
    ensures var q := Entry(env, TableOf(current), ByName(current), p, d, now, draws);
            q.Some? ==> exists x :: FitsNext(env, current, p, d, now, draws, x) && q.value == Extended(p, d, x)
  {
    hide FindExisting, TableOf, ByName, Target, Untargeted, PlanExisting, PlanNewcomer, Updates, Creates;
    NewcomerMeans(env, d, p.known, now, draws, c);
    if Creates(env, d, p.known, now, draws, c) {
      CreationIsNew(env, d, p.known, now, draws, c);
    }
    var r := PlanNewcomer(env, d, p.known, now, draws);
    if r.Some? {
      NewcomerMeans(env, d, p.known, now, draws, r.value);
      CreationIsNew(env, d, p.known, now, draws, r.value);
      var q := Entry(env, TableOf(current), ByName(current), p, d, now, draws);
      if q.Some? {
        assert FitsNext(env, current, p, d, now, draws, r.value) && q.value == Extended(p, d, r.value);
      }
    }
  }

  /** Whether a change fits depends on the entries and changes up to it. */
  lemma FitsInFront(env: Env, current: seq<Tunnel>, desired: seq<Tunnel>, now: nat, draws: nat -> Draws, cs: seq<Change>, i: nat,
                    n: nat)
    requires i < n <= |cs| <= |desired|
    ensures Fit(env, current, desired, now, draws, cs, i) <==> Fit(env, current, desired[..n], now, draws, cs[..n], i)
  {
    hide Untargeted, Target, Updates, Creates, Newcomers, Previous;
    assert cs[..n][..i] == cs[..i];
    assert forall j | 0 <= j <= i :: desired[..n][j] == desired[j] && cs[..n][j] == cs[j];
  }

  lemma NextFits(env: Env, current: seq<Tunnel>, desired: seq<Tunnel>, now: nat, draws: nat -> Draws, cs: seq<Change>, p: Progress,
                 i: nat)
    requires i < |cs| <= |desired| && Describes(current, desired[..i], p) && p.changes == cs[..i]
    ensures Fit(env, current, desired, now, draws, cs, i) <==> FitsNext(env, current, p, desired[i], now, draws(i), cs[i])
  {
    hide Untargeted, Target, Updates, Creates, Newcomers;
    var d, c := desired[i], cs[i];
    assert d.name in p.names <==> exists j :: 0 <= j < i && desired[j].name == d.name by {
      if x :| x in desired[..i] && x.name == d.name {
        var j :| 0 <= j < i && desired[..i][j] == x;
      }
      if j :| 0 <= j < i && desired[j].name == d.name {
        assert desired[..i][j] in desired[..i];
      }
    }
    assert d.id != "" ==> (d.id in p.ids <==> exists j :: 0 <= j < i && desired[j].id == d.id) by {
      if x :| x in desired[..i] && x.id == d.id {
        var j :| 0 <= j < i && desired[..i][j] == x;
      }
      if j :| 0 <= j < i && desired[j].id == d.id {
        assert desired[..i][j] in desired[..i];
      }
    }
    if Previous(c).Some? {
      var id := Previous(c).value.id;
      if x :| x in p.changes && Previous(x).Some? && Previous(x).value.id == id {
        var j :| 0 <= j < i && cs[..i][j] == x;
        assert cs[j] == x;
      }
      if j :| 0 <= j < i && Previous(cs[j]).Some? && Previous(cs[j]).value.id == id {
        assert cs[..i][j] in p.changes;
      }
    }
  }

  lemma FrontFits(env: Env, current: seq<Tunnel>, desired: seq<Tunnel>, now: nat, draws: nat -> Draws, cs: seq<Change>, n: nat)
    requires |cs| == |desired| == n + 1
    ensures AllFit(env, current, desired, now, draws, cs)
       <==> AllFit(env, current, desired[..n], now, draws, cs[..n]) && Fit(env, current, desired, now, draws, cs, n)
  {
    hide Fit;
    forall i | 0 <= i < n
      ensures Fit(env, current, desired, now, draws, cs, i) <==> Fit(env, current, desired[..n], now, draws, cs[..n], i)
    {
      FitsInFront(env, current, desired, now, draws, cs, i, n);
    }
  }

  /** The entries are planned exactly if some changes fit them, and with those. */
  lemma {:induction false} EntriesMean(env: Env, current: seq<Tunnel>, desired: seq<Tunnel>, now: nat, draws: nat -> Draws,
                                       cs: seq<Change>)
    requires AcceptableList(env, current)
    ensures var r := Entries(env, current, desired, now, draws);
            && (r.Some? ==> Describes(current, desired, r.value) && AllFit(env, current, desired, now, draws, r.value.changes))
            && (AllFit(env, current, desired, now, draws, cs) ==> r.Some? && r.value.changes == cs)
  {
    hide AcceptableList, Describes, Fit, FitsNext, Entry, Extended, TableOf, ByName;
    if desired == [] {
      NothingSeen(current);
    } else {
      var n := |desired| - 1;
      var front, d := desired[..n], desired[n];
      EntriesMean(env, current, front, now, draws, if |cs| == n + 1 then cs[..n] else []);
      var p := Entries(env, current, front, now, draws);
      assert front + [d] == desired;
      if AllFit(env, current, desired, now, draws, cs) {
        FrontFits(env, current, desired, now, draws, cs, n);
        NextFits(env, current, desired, now, draws, cs, p.value, n);
        EntryMeans(env, current, p.value, d, now, draws(n), cs[n]);
        ExtendedIs(p.value, d, cs[n]);
      }
      var r := Entries(env, current, desired, now, draws);
      if r.Some? {
        EntryMeans(env, current, p.value, d, now, draws(n), Keep(d));
        var x :| FitsNext(env, current, p.value, d, now, draws(n), x) && r.value == Extended(p.value, d, x);
        ExtendedIs(p.value, d, x);
        FitsKeepsNoDrop(env, current, p.value, d, now, draws(n), x);
        ExtendedDescribes(current, front, p.value, d, x);
        assert r.value.changes[..n] == p.value.changes;
        NextFits(env, current, desired, now, draws, r.value.changes, p.value, n);
        FrontFits(env, current, desired, now, draws, r.value.changes, n);
      }
    }
  }

  lemma NothingSeen(current: seq<Tunnel>)
    ensures Describes(current, [], Progress({}, {}, {}, [], [], current))
  {
    assert current + [] == current;
  }

  lemma ExtendedIs(p: Progress, d: Tunnel, c: Change)
    ensures Extended(p, d, c).changes == p.changes + [c]
  {
  }

  lemma FitsKeepsNoDrop(env: Env, current: seq<Tunnel>, p: Progress, d: Tunnel, now: nat, draws: Draws, c: Change)
    requires FitsNext(env, current, p, d, now, draws, c)
    ensures !c.Drop?
  {
  }

  // ---- The plan ----

  predicate About(cs: seq<Change>, id: string) { exists c :: c in cs && Previous(c).Some? && Previous(c).value.id == id }

  /** The stored records that no change is about, in the order listed. */
  function Rest(current: seq<Tunnel>, cs: seq<Change>): seq<Tunnel> {
    if current == [] then []
    else Rest(current[..|current| - 1], cs) + if About(cs, current[|current| - 1].id) then [] else [current[|current| - 1]]
  }

  function Drops(rs: seq<Tunnel>): seq<Change> { seq(|rs|, i requires 0 <= i < |rs| => Drop(rs[i])) }

  lemma {:induction false} UnmatchedMeans(p: Progress, current: seq<Tunnel>, prune: bool)
    requires forall r | r in current :: r.id in p.matched <==> About(p.changes, r.id)
    ensures Unmatched(p, current, prune)
         == if prune then p.(changes := p.changes + Drops(Rest(current, p.changes)))
            else p.(finals := p.finals + Rest(current, p.changes))
  {
    hide About;
    if current == [] {
      assert p.changes + Drops([]) == p.changes && p.finals + [] == p.finals;
    } else {
      var front, r := current[..|current| - 1], current[|current| - 1];
      assert forall x | x in front :: x in current;
      UnmatchedMeans(p, front, prune);
      if !About(p.changes, r.id) {
        var rest := Rest(front, p.changes);
        assert Drops(rest + [r]) == Drops(rest) + [Drop(r)];
      }
    }
  }

  /** A bundle of version 1 with one to 1024 entries is planned exactly if changes fit its entries and the records that would be
      there are accepted; records without an entry are dropped or stay. */
  lemma PlanMeans(env: Env, current: seq<Tunnel>, version: int, desired: seq<Tunnel>, prune: bool, now: nat, draws: nat -> Draws,
                  cs: seq<Change>)
    requires AcceptableList(env, current)
    requires AllFit(env, current, desired, now, draws, cs) || forall x :: !AllFit(env, current, desired, now, draws, x)
    ensures var plan, rest := PlanOf(env, current, version, desired, prune, now, draws), Rest(current, cs);
            var finals := Left(cs) + if prune then [] else rest;
            if version == 1 && 1 <= |desired| <= 1024 && AllFit(env, current, desired, now, draws, cs)
               && AcceptableList(env, finals) then
              plan.Some? && plan.value.finals == finals && plan.value.changes == cs + if prune then Drops(rest) else []
            else plan == None
  {
    hide AcceptableList, AllFit, Describes;
    EntriesMean(env, current, desired, now, draws, cs);
    var p := Entries(env, current, desired, now, draws);
    if AllFit(env, current, desired, now, draws, cs) {
      FinalsMean(current, desired, p.value, cs);
      UnmatchedMeans(p.value, current, prune);
      assert Left(cs) + [] == Left(cs) && cs + [] == cs;
    }
  }

  lemma FinalsMean(current: seq<Tunnel>, seen: seq<Tunnel>, p: Progress, cs: seq<Change>)
    requires Describes(current, seen, p) && p.changes == cs
    ensures p.finals == Left(cs) && forall r | r in current :: r.id in p.matched <==> About(p.changes, r.id)
  {
  }

  // ---- The order of the changes ----

  predicate IsKeep(c: Change) { c.Keep? }

  predicate IsDrop(c: Change) { c.Drop? }

  predicate IsModify(c: Change) { c.Modify? }

  predicate IsInsert(c: Change) { c.Insert? }

  function Only(pick: Change -> bool, cs: seq<Change>): seq<Change> {
    if cs == [] then [] else Only(pick, cs[..|cs| - 1]) + if pick(cs[|cs| - 1]) then [cs[|cs| - 1]] else []
  }

  lemma {:induction false} OnlyPicked(pick: Change -> bool, cs: seq<Change>)
    ensures forall c | c in Only(pick, cs) :: pick(c)
  {
    if cs != [] {
      OnlyPicked(pick, cs[..|cs| - 1]);
    }
  }

  /** Confirmations, deletions, updates, creations: each in the order of the plan. */
  lemma {:induction false} OrderMeans(cs: seq<Change>)
    ensures SortStable(RankLess, cs)
         == Only(IsKeep, cs) + Only(IsDrop, cs) + Only(IsModify, cs) + Only(IsInsert, cs)
  {
    hide Lists.Insert, Only;
    if cs == [] {
      NonePicked();
    } else {
      var front, x := cs[..|cs| - 1], cs[|cs| - 1];
      OrderMeans(front);
      assert front + [x] == cs;
      OnlyPicked(IsKeep, front);
      OnlyPicked(IsDrop, front);
      OnlyPicked(IsModify, front);
      OnlyPicked(IsInsert, front);
      OnlyNext(IsKeep, front, x);
      OnlyNext(IsDrop, front, x);
      OnlyNext(IsModify, front, x);
      OnlyNext(IsInsert, front, x);
      SortNext(RankLess, front, x);
      PutInOrder(Only(IsKeep, front), Only(IsDrop, front), Only(IsModify, front), Only(IsInsert, front), x);
    }
  }

  lemma NonePicked()
    ensures forall pick :: Only(pick, []) == []
  {
  }

  lemma OnlyNext(pick: Change -> bool, cs: seq<Change>, x: Change)
    ensures Only(pick, cs + [x]) == if pick(x) then Only(pick, cs) + [x] else Only(pick, cs)
  {
    assert (cs + [x])[..|cs|] == cs;
  }

  lemma PutInOrder(k: seq<Change>, d: seq<Change>, m: seq<Change>, i: seq<Change>, x: Change)
    requires (forall c | c in k :: c.Keep?) && (forall c | c in d :: c.Drop?)
    requires (forall c | c in m :: c.Modify?) && (forall c | c in i :: c.Insert?)
    ensures Lists.Insert(RankLess, k + d + m + i, x)
         == (if x.Keep? then k + [x] else k) + (if x.Drop? then d + [x] else d)
            + (if x.Modify? then m + [x] else m) + (if x.Insert? then i + [x] else i)
  {
    hide Lists.Insert;
    match x
    case Keep(_) => PutBetween(k, d + m + i, k + d + m + i, x);
    case Drop(_) => PutBetween(k + d, m + i, k + d + m + i, x);
    case Modify(_, _) => PutBetween(k + d + m, i, k + d + m + i, x);
    case Insert(_) => PutBetween(k + d + m + i, [], k + d + m + i, x);
  }

  lemma PutBetween(a: seq<Change>, b: seq<Change>, all: seq<Change>, x: Change)
    requires all == a + b && (forall c | c in a :: !RankLess(x, c)) && (forall c | c in b :: RankLess(x, c))
    ensures Lists.Insert(RankLess, all, x) == a + [x] + b
  {
    hide Lists.Insert, RankLess;
    InsertBehind(RankLess, a, b, x);
    InsertAhead(b, x);
  }

  lemma {:induction false} InsertAhead(b: seq<Change>, x: Change)
    requires forall c | c in b :: RankLess(x, c)
    ensures Lists.Insert(RankLess, b, x) == [x] + b
  {
    if b != [] {
      var n := |b| - 1;
      InsertAhead(b[..n], x);
      assert b == b[..n] + [b[n]];
    }
  }

  /** Objects are taken down before an update of an IKE record, and of one that stops installing its routes where they are. */
  lemma CleanupMeans(env: Env, e: Tunnel, r: Tunnel)
    ensures NeedsCleanup(env, e, r) <==>
              || e.kind == XfrmIkeKind
              || exists v, w, table :: HasPart(e, v) && HasPart(r, w) && v.routeAllowedIPs
                   && Conflicts.Table(env, e, v, table) && !Conflicts.Table(env, r, w, table)
  {
    hide RouteTable, Conflicts.Table;
    var s, t := RoutingSpec(e), RoutingSpec(r);
    assert forall v :: HasPart(e, v) <==> s == Some(v);
    assert forall v :: HasPart(r, v) <==> t == Some(v);
    if s.Some? {
      TableMeans(env, e, s.value);
    }
    if t.Some? {
      TableMeans(env, r, t.value);
    }
    if NeedsCleanup(env, e, r) && e.kind != XfrmIkeKind {
      var table := RouteTable(env, e.id, s.value);
      assert Conflicts.Table(env, e, s.value, table) && !Conflicts.Table(env, r, t.value, table);
    }
  }
}
