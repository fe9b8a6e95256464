/** Applying a bundle: deletions, then updates, then creations, and the rollback of what was applied. */
module Bundle {
  import opened Lists
  import opened Net
  import opened Records
  import opened Ownership
  import opened RecordSet
  import opened StoreState
  import opened Store
  import opened Restore
  import opened Prepare
  import opened Secrets
  import opened BundleState
  import opened BundlePlan

  // ---- Planning ----

  /** buildBundlePlanLocked over the stored records in the order listed; None is an invalid request. */
  ghost function PlanOf(env: Env, current: seq<Tunnel>, version: int, desired: seq<Tunnel>, prune: bool, now: nat,
                        draws: nat -> Draws): Option<Progress>
  {
    if version != BUNDLE_VERSION || desired == [] || |desired| > MAX_RECORDS then None
    else
      var p := Entries(env, current, desired, now, draws);
      if p.None? then None
      else
        var q := Unmatched(p.value, current, prune);
        if AcceptableList(env, q.finals) then Some(q) else None
  }

  lemma PlanIsSound(env: Env, have: Table, current: seq<Tunnel>, version: int, desired: seq<Tunnel>, prune: bool, now: nat,
                    draws: nat -> Draws)
    requires Keyed(have) && DistinctIds(current) && TableOf(current) == have && FreshIds(draws, have)
    requires PlanOf(env, current, version, desired, prune, now, draws).Some?
    ensures var q := PlanOf(env, current, version, desired, prune, now, draws).value;
            && SoundAll(env, have, q.changes) && AcceptableList(env, q.finals)
            && After(have, q.changes) == TableOf(q.finals)
  {
    hide Sound, Covers, Valid, Entries, Unmatched, AcceptableList;
    var p := Entries(env, current, desired, now, draws).value;
    EntriesPass(env, current, desired, now, draws);
    TableOfList(current);
    MatchedAreTouched(env, have, p, draws, |desired|);
    RestCovers(env, have, p, current, prune);
    var q := Unmatched(p, current, prune);
    AcceptedListIsConsistent(env, q.finals);
    FinalsAreOutcome(env, have, q, KeptIds(p.matched, current, prune));
  }

  lemma MatchedAreTouched(env: Env, have: Table, p: Progress, draws: nat -> Draws, n: nat)
    requires PassOk(env, have, p, draws, n) && FreshIds(draws, have)
    ensures p.matched == Touched(p.changes) * have.Keys
  {
    hide Sound, Covers;
  }

  method PlanBundle(m: Manager, version: int, desired: seq<Tunnel>, prune: bool, now: nat, draws: nat -> Draws)
    returns (current: seq<Tunnel>, plan: Option<Progress>)
    requires m.store.Valid()
    ensures DistinctIds(current) && TableOf(current) == m.store.files
    ensures plan == PlanOf(m.store.env, current, version, desired, prune, now, draws)
  {
    hide AcceptableList, Entries, Unmatched, Consistent;
    current := m.store.List();
    ListedTable(m.store.env, m.store.files, current);
    if version != BUNDLE_VERSION || desired == [] || |desired| > MAX_RECORDS {
      return current, None;
    }
    var p := PlanEntries(m.store.env, current, desired, now, draws);
    if p.None? {
      return current, None;
    }
    var q := PlanRest(p.value, current, prune);
    var ok := ValidateRecordSet(m.store.env, q.finals);
    return current, if ok then Some(q) else None;
  }

  /** The pass over the entries of the bundle. */
  method PlanEntries(env: Env, current: seq<Tunnel>, desired: seq<Tunnel>, now: nat, draws: nat -> Draws) returns (r: Option<Progress>)
    requires DistinctIds(current)
    ensures r == Entries(env, current, desired, now, draws)
  {
    hide Entry;
    var byId := Index(current);
    var byName := IndexByName(current);
    var p := Progress({}, {}, {}, [], [], current);
    for i := 0 to |desired|
      invariant Entries(env, current, desired[..i], now, draws) == Some(p)
    {
      assert desired[..i + 1][..i] == desired[..i];
      var next := Entry(env, byId, byName, p, desired[i], now, draws(i));
      if next.None? {
        EntriesStop(env, current, desired, now, draws, i + 1);
        return None;
      }
      p := next.value;
    }
    assert desired[..|desired|] == desired;
    return Some(p);
  }

  method IndexByName(current: seq<Tunnel>) returns (byName: map<string, Tunnel>)
    ensures byName == ByName(current)
  {
    byName := map[];
    for i := 0 to |current|
      invariant byName == ByName(current[..i])
    {
      assert current[..i + 1][..i] == current[..i];
      byName := byName[current[i].name := current[i]];
    }
    assert current[..|current|] == current;
  }

  /** The stored records that no entry matched. */
  method PlanRest(p: Progress, current: seq<Tunnel>, prune: bool) returns (q: Progress)
    ensures q == Unmatched(p, current, prune)
  {
    q := p;
    for i := 0 to |current|
      invariant q == Unmatched(p, current[..i], prune) && q.matched == p.matched
    {
      assert current[..i + 1][..i] == current[..i];
      if current[i].id !in p.matched {
        if prune {
          q := q.(changes := q.changes + [Drop(current[i])]);
        } else {
          q := q.(finals := q.finals + [current[i]]);
        }
      }
    }
    assert current[..|current|] == current;
  }

  lemma {:induction false} EntriesStop(env: Env, current: seq<Tunnel>, desired: seq<Tunnel>, now: nat, draws: nat -> Draws, i: nat)
    requires i <= |desired| && Entries(env, current, desired[..i], now, draws).None?
    ensures Entries(env, current, desired, now, draws).None?
  {
    hide Entry;
    if i == |desired| {
      assert desired[..i] == desired;
    } else {
      assert desired[..|desired| - 1][..i] == desired[..i];
      EntriesStop(env, current, desired[..|desired| - 1], now, draws, i);
    }
  }

  // ---- Applying ----

  /** Changes touch different records, so their order does not matter for the outcome. */
  lemma AfterIgnoresOrder(env: Env, have: Table, a: seq<Change>, b: seq<Change>)
    requires SoundAll(env, have, a) && SoundAll(env, have, b) && multiset(a) == multiset(b)
    ensures After(have, a) == After(have, b)
  {
    hide Sound;
    Reordered(a, b);
    assert Touched(a) == Touched(b);
    UntouchedAfter(env, have, a);
    UntouchedAfter(env, have, b);
    forall id | id in Touched(a)
      ensures id in After(have, a) <==> id in After(have, b)
      ensures id in After(have, a) ==> After(have, a)[id] == After(have, b)[id]
    {
      var i :| 0 <= i < |a| && a[i].Id() == id;
      assert a[i] in b;
      var j :| 0 <= j < |b| && b[j] == a[i];
      ResultAfter(env, have, a, i);
      ResultAfter(env, have, b, j);
    }
  }

  lemma SortedIsSound(env: Env, have: Table, a: seq<Change>, b: seq<Change>)
    requires SoundAll(env, have, a) && multiset(a) == multiset(b)
    ensures SoundAll(env, have, b)
  {
    hide Sound;
    Reordered(a, b);
    assert Distinct(a);
    forall i, j | 0 <= i < j < |b|
      ensures b[i].Id() != b[j].Id()
    {
      assert b[i] in a && b[j] in a;
      var x :| 0 <= x < |a| && a[x] == b[i];
      var y :| 0 <= y < |a| && a[y] == b[j];
      assert x != y;
    }
  }

  /** requiresCleanupBeforeUpdate */
  predicate NeedsCleanup(env: Env, current: Tunnel, next: Tunnel) {
    current.kind == XfrmIkeKind
    || (RoutingSpec(current).Some? && RoutingSpec(next).Some? && RoutingSpec(current).value.routeAllowedIPs
        && RouteTable(env, current.id, RoutingSpec(current).value) != RouteTable(env, next.id, RoutingSpec(next).value))
  }

  /** The change stands on the store as it is. */
  predicate Ready(env: Env, s: Table, c: Change) { Undoable(env, s, c, if c.Modify? then c.before.createdAt else 0) && !c.Keep? }

  /** The backend has to take the old objects down before the change. */
  predicate TornDown(env: Env, c: Change) { c.Drop? || (c.Modify? && NeedsCleanup(env, c.before, c.after)) }

  /** applyBundleChangeLocked: the change is made, or the store is as it was unless the disk could not undo. The backend stops
      it exactly when it has objects to take down and fails. When neither backend nor disk fails, a sound change is made exactly
      when the records stay free of conflicts. */
  method ApplyChange(m: Manager, c: Change, a: Attempt) returns (cause: Option<Cause>)
    requires m.store.Valid() && !m.store.env.validId("") && Ready(m.store.env, m.store.files, c)
    modifies m.store`files
    ensures m.store.Valid()
    ensures cause.None? ==> m.store.files == Effect(old(m.store.files), c)
    ensures cause.Some? && a.disk.undo ==> m.store.files == old(m.store.files)
    ensures cause == Some(Backend) <==> !a.teardown && TornDown(m.store.env, c)
    ensures a.teardown && a.disk == WORKING && Sound(m.store.env, old(m.store.files), c) ==>
              (cause.None? <==> Consistent(m.store.env, Effect(old(m.store.files), c)))
  {
    hide Consistent, Valid, Fits;
    ghost var env, s := m.store.env, m.store.files;
    match c
    case Keep(_) => return None;
    case Drop(b) =>
      DeleteOfStored(env, s, b.id, a);
      PartIsConsistent(env, s - {b.id}, s);
      cause := m.DeleteManaged(b.id, b.generation, a);
    case Modify(b, next) =>
      StoredIsValid(env, s, b.id);
      ReplaceFitsIffConsistent(env, s, next);
      if NeedsCleanup(m.store.env, b, next) {
        var current := m.store.Get(b.id);
        if current.None? {
          return Some(FromStore(Missing));
        }
        if current.value.generation != b.generation {
          return Some(FromStore(Refused));
        }
        if !a.teardown {
          return Some(Backend);
        }
      }
      var outcome := m.store.Update(next, b.generation, a.disk);
      return if outcome == Done then None else Some(FromStore(outcome));
    case Insert(next) =>
      if Sound(env, s, c) {
        FitsIffConsistent(env, s, next);
      }
      var outcome := m.store.Create(next, a.disk);
      return if outcome == Done then None else Some(FromStore(outcome));
  }

  // ---- Rolling back ----

  /** The store held a conflict-free table after each of the applied changes. */
  ghost predicate ConsistentAll(env: Env, have: Table, cs: seq<Change>) {
    forall j | 0 <= j <= |cs| :: Consistent(env, After(have, cs[..j]))
  }

  lemma ValidTable(env: Env, s: Table)
    requires Consistent(env, s)
    ensures AllValid(env, s)
  {
    hide Valid, Clash, TotalClaims;
    assert forall id | id in s :: s[id] in Stored(s);
  }

  lemma WayBackIsConsistent(env: Env, have: Table, cs: seq<Change>, k: nat, clock: nat -> nat)
    requires Lawful(env) && AllValid(env, have) && SoundAll(env, have, cs) && ClockAhead(cs, clock) && k <= |cs|
    requires ConsistentAll(env, have, cs)
    ensures Consistent(env, BackTo(env, have, cs, k, clock))
  {
    hide Valid, Alike, Consistent;
    UndoneIsAlike(env, have, cs, k, clock);
    AlikeIsConsistent(env, BackTo(env, have, cs, k, clock), After(have, cs[..k]));
  }

  /** The record of change k stands, when its turn to be undone comes, exactly as the change left it. */
  lemma StandsAsLeft(env: Env, have: Table, cs: seq<Change>, k: nat, clock: nat -> nat)
    requires Lawful(env) && AllValid(env, have) && SoundAll(env, have, cs) && ClockAhead(cs, clock) && k < |cs|
    ensures var t := BackTo(env, have, cs, k + 1, clock);
            match cs[k]
            case Keep(_) => true
            case Drop(b) => b.id !in t
            case Modify(b, a) => a.id == b.id && a.id in t && t[a.id] == a
            case Insert(a) => a.id in t && t[a.id] == a
  {
    hide Valid, Sound, SameFootprint;
    UndoneIsAlike(env, have, cs, k + 1, clock);
    NotTouchedLater(env, have, cs, k);
    FrontIsSound(env, have, cs, k);
    ChangeIsUndoable(env, have, cs, k, clock);
    assert Effect(After(have, cs[..k]), cs[k]) == After(have, cs[..k + 1]);
  }

  /** Undoing one change with a working disk: the store refuses nothing. */
  method UndoChange(m: Manager, c: Change, now: nat, disk: StoreState.Disk, ghost s': Table)
    requires m.store.Valid() && Lawful(m.store.env) && !c.Keep?
    modifies m.store`files
    ensures m.store.Valid()
    ensures disk == WORKING && Undoes(m.store.env, old(m.store.files), c, now, s') ==> m.store.files == s'
  {
    hide Consistent, Valid, Fits, PrepareUpdate, Reinstated, Undoable;
    match c
    case Keep(_) =>
    case Insert(a) =>
      var current := m.store.Get(a.id);
      if current.Some? {
        ghost var s := m.store.files;
        var _ := m.store.Delete(current.value.id, current.value.generation, disk);
        UndoInsert(m.store.env, s, a, now, s');
      } else {
        UndoInsert(m.store.env, m.store.files, a, now, s');
      }
    case Modify(b, a) =>
      var current := m.store.Get(a.id);
      UndoModify(m.store.env, m.store.files, b, a, now, s');
      if current.Some? {
        var restored := PrepareUpdate(m.store.env, b, current.value, now, []);
        if restored.Some? {
          var _ := m.store.Update(restored.value, current.value.generation, disk);
        }
      }
    case Drop(b) =>
      UndoDrop(m.store.env, m.store.files, b, now, s');
      var _ := m.store.Create(b, disk);
  }

  /** s is a store on which c was the last change; s' is the consistent store to go back to. */
  ghost predicate Undoes(env: Env, s: Table, c: Change, now: nat, s': Table) {
    && Consistent(env, s) && Consistent(env, s') && s' == Undo(env, s, c, now)
    && match c
       case Keep(_) => true
       case Drop(b) => b.id !in s && b.id in s'
       case Modify(b, a) => a.id == b.id && a.id in s && s[a.id] == a && Valid(env, b) && b.kind == a.kind && b.createdAt == a.createdAt
                            && now >= b.createdAt
       case Insert(a) => a.id in s && s[a.id] == a
  }

  lemma StoredIsValid(env: Env, s: Table, id: string)
    requires Consistent(env, s) && id in s
    ensures Valid(env, s[id]) && env.validId(id) && s[id].id == id
  {
    assert s[id] in Stored(s);
  }

  lemma UndoInsert(env: Env, s: Table, a: Tunnel, now: nat, s': Table)
    ensures Undoes(env, s, Insert(a), now, s') ==>
              env.validId(a.id) && a.id in s && s[a.id] == a && DeleteIn(env, s, a.id, a.generation, WORKING).table == s'
  {
    hide Consistent;
    if Undoes(env, s, Insert(a), now, s') {
      StoredIsValid(env, s, a.id);
    }
  }

  lemma UndoDrop(env: Env, s: Table, b: Tunnel, now: nat, s': Table)
    ensures Undoes(env, s, Drop(b), now, s') ==> CreateIn(env, s, b, WORKING).table == s'
  {
    hide Consistent, CreateIn;
    if Undoes(env, s, Drop(b), now, s') {
      CreateIsNotRefused(env, s, b, s', WORKING);
    }
  }

  lemma UndoModify(env: Env, s: Table, b: Tunnel, a: Tunnel, now: nat, s': Table)
    requires Lawful(env)
    ensures Undoes(env, s, Modify(b, a), now, s') ==>
              && env.validId(a.id) && a.id in s && s[a.id] == a && PrepareUpdate(env, b, a, now, []).Some?
              && UpdateIn(env, s, PrepareUpdate(env, b, a, now, []).value, a.generation, WORKING).table == s'
  {
    if Undoes(env, s, Modify(b, a), now, s') {
      StoredIsValid(env, s, a.id);
      PrepareUpdateOfValid(env, b, a, now, []);
      ValidIsChosen(env, a);
      ValidIsChosen(env, b);
      var r := Reinstated(env, b, a, now);
      PreparedUpdate(env, b, a, now, []);
      hide Valid, Consistent, Fits, PrepareUpdate, Reinstated;
      ReplaceFitsIffConsistent(env, s, r);
    }
  }

  /** rollbackBundleChangesLocked: the last change is undone first. With a working disk, and a clock that has not gone
      back, nothing is refused on the way. */
  method RollbackChanges(m: Manager, applied: seq<Change>, ghost have: Table, disks: nat -> StoreState.Disk, clock: nat -> nat)
    requires m.store.Valid() && Lawful(m.store.env) && forall c | c in applied :: !c.Keep?
    requires Consistent(m.store.env, have) && SoundAll(m.store.env, have, applied) && ConsistentAll(m.store.env, have, applied)
    modifies m.store`files
    ensures m.store.Valid()
    ensures Working(disks) && ClockAhead(applied, clock) && old(m.store.files) == After(have, applied) ==>
              m.store.files == BackTo(m.store.env, have, applied, 0, clock)
  {
    hide Consistent, Sound, SoundAll, ConsistentAll, Undo, ClockAhead;
    ghost var env := m.store.env;
    ghost var good := Working(disks) && ClockAhead(applied, clock) && m.store.files == After(have, applied);
    ValidTable(env, have);
    for k := |applied| downto 0
      invariant m.store.Valid()
      invariant good ==> m.store.files == BackTo(env, have, applied, k, clock)
    {
      ghost var back := BackTo(env, have, applied, k, clock);
      if good {
        TurnOfChange(env, have, applied, k, clock);
      }
      assert applied[k] in applied;
      UndoChange(m, applied[k], clock(k), disks(k), back);
    }
  }

  lemma TurnOfChange(env: Env, have: Table, cs: seq<Change>, k: nat, clock: nat -> nat)
    requires Lawful(env) && AllValid(env, have) && SoundAll(env, have, cs) && ClockAhead(cs, clock) && k < |cs|
    requires ConsistentAll(env, have, cs) && !cs[k].Keep?
    ensures Undoes(env, BackTo(env, have, cs, k + 1, clock), cs[k], clock(k), BackTo(env, have, cs, k, clock))
  {
    hide Consistent, ConsistentAll, Reinstated;
    assert cs[k] in cs && Sound(env, have, cs[k]);
    if cs[k].Modify? {
      assert Valid(env, have[cs[k].before.id]);
    }
    hide Valid, SoundAll, Alike;
    WayBackIsConsistent(env, have, cs, k + 1, clock);
    WayBackIsConsistent(env, have, cs, k, clock);
    StandsAsLeft(env, have, cs, k, clock);
  }

  // ---- The whole bundle ----

  datatype BundleVerdict = Invalid | Completed | Undone(cause: Cause)

  /** Either the bundle is turned down before anything changes, or the store holds exactly the final records of the
      plan, or the changes made so far are rolled back. When neither backend nor disk fails, an accepted bundle is
      completed exactly when the records are free of conflicts after every one of its changes. Given a disk that undoes
      what fails, a rollback disk that works and a clock that has not gone back behind the creation of an updated record,
      the rollback is never refused and leaves the identifiers of before, each record as it was, or, had it been updated,
      reinstated. */
  method ApplyBundle(m: Manager, version: int, desired: seq<Tunnel>, prune: bool, now: nat, draws: nat -> Draws,
                     attempts: nat -> Attempt, undo: nat -> StoreState.Disk, clock: nat -> nat)
    returns (v: BundleVerdict, plan: Option<Progress>, applied: seq<Change>, ghost current: seq<Tunnel>)
    requires m.store.Valid() && Lawful(m.store.env) && FreshIds(draws, m.store.files)
    modifies m.store`files
    ensures m.store.Valid()
    ensures DistinctIds(current) && TableOf(current) == old(m.store.files)
    ensures plan == PlanOf(m.store.env, current, version, desired, prune, now, draws)
    ensures v == Invalid <==> plan == None
    ensures v == Invalid ==> m.store.files == old(m.store.files)
    ensures v == Completed ==> m.store.files == TableOf(plan.value.finals) && AcceptableList(m.store.env, plan.value.finals)
    ensures plan.Some? && Succeeding(attempts) ==>
              (v == Completed <==> ConsistentAll(m.store.env, old(m.store.files), Ordered(plan.value)))
    ensures v.Undone? && Undoing(attempts) && Working(undo) && ClockAhead(applied, clock) ==>
              && m.store.files.Keys == old(m.store.files).Keys
              && forall id | id in m.store.files ::
                   BackAsWas(m.store.env, old(m.store.files), applied, clock, id, m.store.files[id])
  {
    hide Consistent, Sound, SoundAll, PlanOf, AcceptableList, FreshIds, Ready, BackAsWas, ConsistentAll;
    ghost var env, have := m.store.env, m.store.files;
    ValidTable(env, have);
    var listed, p := PlanBundle(m, version, desired, prune, now, draws);
    current, plan := listed, p;
    applied := [];
    if plan.None? {
      return Invalid, plan, applied, current;
    }
    KeyedTable(env, have);
    PlanIsSound(env, have, current, version, desired, prune, now, draws);
    var ordered := Ordered(plan.value);
    SortedIsSound(env, have, plan.value.changes, ordered);
    AfterIgnoresOrder(env, have, plan.value.changes, ordered);
    NothingApplied(env, have);
    for i := 0 to |ordered|
      invariant m.store.Valid() && m.store.files == After(have, applied)
      invariant Selected(env, have, ordered, i, applied)
    {
      if !ordered[i].Keep? {
        NextIsReady(env, have, ordered, i, applied);
        var failed := ApplyChange(m, ordered[i], attempts(i));
        if failed.Some? {
          if Succeeding(attempts) {
            StopsAtConflict(env, have, ordered, i, applied);
          }
          RollbackChanges(m, applied, have, undo, clock);
          if ClockAhead(applied, clock) {
            RolledBackTable(env, have, applied, clock);
          }
          return Undone(failed.value), plan, applied, current;
        }
        OneMoreApplied(env, have, ordered, i, applied);
        applied := applied + [ordered[i]];
      } else {
        KeepIsSkipped(env, have, ordered, i, applied);
      }
    }
    assert ordered[..|ordered|] == ordered;
    return Completed, plan, applied, current;
  }

  /** orderBundleChanges: unchanged records, deletions, updates, creations, each in the order planned. */
  function Ordered(p: Progress): seq<Change> { SortStable(RankLess, p.changes) }

  /** The applied changes are those of the first i that are not mere confirmations. */
  ghost predicate Selected(env: Env, have: Table, ordered: seq<Change>, i: nat, applied: seq<Change>) {
    && i <= |ordered| && SoundAll(env, have, ordered) && SoundAll(env, have, applied)
    && Touched(applied) <= Touched(ordered[..i]) && (forall c | c in applied :: !c.Keep?)
    && After(have, applied) == After(have, ordered[..i]) && ConsistentAll(env, have, applied)
    && ConsistentAll(env, have, ordered[..i])
  }

  /** A conflict after the next change is one on the way of the bundle. */
  lemma StopsAtConflict(env: Env, have: Table, ordered: seq<Change>, i: nat, applied: seq<Change>)
    requires Selected(env, have, ordered, i, applied) && i < |ordered|
    requires !Consistent(env, Effect(After(have, applied), ordered[i]))
    ensures !ConsistentAll(env, have, ordered)
  {
    hide Consistent, SoundAll, Effect;
    assert ordered[..i + 1][..i] == ordered[..i];
    assert !Consistent(env, After(have, ordered[..i + 1]));
  }

  lemma KeyedTable(env: Env, s: Table)
    requires Consistent(env, s)
    ensures Keyed(s)
  {
  }

  lemma NothingApplied(env: Env, have: Table)
    requires Consistent(env, have)
    ensures SoundAll(env, have, []) && ConsistentAll(env, have, []) && After(have, []) == have && Touched([]) == {}
  {
  }

  lemma NextIsReady(env: Env, have: Table, ordered: seq<Change>, i: nat, applied: seq<Change>)
    requires Selected(env, have, ordered, i, applied) && i < |ordered| && !ordered[i].Keep?
    ensures Ready(env, After(have, applied), ordered[i]) && Sound(env, After(have, applied), ordered[i])
  {
    hide Valid, ConsistentAll;
    AboutToChange(env, have, ordered, i);
    assert ordered[i] in ordered && Sound(env, have, ordered[i]);
  }

  lemma OneMoreApplied(env: Env, have: Table, ordered: seq<Change>, i: nat, applied: seq<Change>)
    requires Selected(env, have, ordered, i, applied) && i < |ordered| && !ordered[i].Keep?
    requires Consistent(env, Effect(After(have, applied), ordered[i]))
    ensures Selected(env, have, ordered, i + 1, applied + [ordered[i]])
    ensures After(have, applied + [ordered[i]]) == Effect(After(have, applied), ordered[i])
  {
    hide Sound, SoundAll, Consistent, ConsistentAll, Effect, Touched;
    var c, next := ordered[i], applied + [ordered[i]];
    FrontIsSound(env, have, ordered, i);
    OneMoreChange(env, have, applied, c);
    OneMoreChange(env, have, ordered[..i], c);
    assert next[..|applied|] == applied;
    OneMoreConsistent(env, have, applied, c);
    OneMoreConsistent(env, have, ordered[..i], c);
  }

  lemma OneMoreConsistent(env: Env, have: Table, cs: seq<Change>, c: Change)
    requires ConsistentAll(env, have, cs) && Consistent(env, After(have, cs + [c]))
    ensures ConsistentAll(env, have, cs + [c])
  {
    hide Consistent, After;
    var next := cs + [c];
    forall j | 0 <= j <= |next|
      ensures Consistent(env, After(have, next[..j]))
    {
      if j <= |cs| {
        assert next[..j] == cs[..j];
      } else {
        assert next[..j] == next;
      }
    }
  }

  lemma KeepIsSkipped(env: Env, have: Table, ordered: seq<Change>, i: nat, applied: seq<Change>)
    requires Selected(env, have, ordered, i, applied) && i < |ordered| && ordered[i].Keep?
    ensures Selected(env, have, ordered, i + 1, applied)
  {
    hide Sound, SoundAll, Consistent, ConsistentAll, Touched;
    FrontIsSound(env, have, ordered, i);
    OneMoreChange(env, have, ordered[..i], ordered[i]);
    KeepIsConsistent(env, have, ordered, i);
  }

  lemma KeepIsConsistent(env: Env, have: Table, ordered: seq<Change>, i: nat)
    requires i < |ordered| && ConsistentAll(env, have, ordered[..i]) && ordered[i].Keep?
    requires After(have, ordered[..i + 1]) == Effect(After(have, ordered[..i]), ordered[i])
    ensures ConsistentAll(env, have, ordered[..i + 1])
  {
    hide Consistent, After;
    assert ordered[..i][..i] == ordered[..i] && ordered[..i + 1] == ordered[..i] + [ordered[i]];
    OneMoreConsistent(env, have, ordered[..i], ordered[i]);
  }
}
