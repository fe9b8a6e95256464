/** The changes of a bundle, what they do to the table of records, and what undoing them gives. */
module BundleState {
  import opened Lists
  import opened Net
  import opened Records
  import opened Ownership
  import opened StoreState
  import opened Prepare
  import opened Secrets

  datatype Change = Keep(record: Tunnel) | Drop(before: Tunnel) | Modify(before: Tunnel, after: Tunnel) | Insert(after: Tunnel)
  {
    function Id(): string {
      match this
      case Keep(t) => t.id
      case Drop(b) => b.id
      case Modify(b, _) => b.id
      case Insert(a) => a.id
    }
  }

  function Rank(c: Change): int {
    match c
    case Keep(_) => 0
    case Drop(_) => 1
    case Modify(_, _) => 2
    case Insert(_) => 3
  }

  predicate RankLess(a: Change, b: Change) { Rank(a) < Rank(b) }

  /** A change that fits the table it was planned for. */
  predicate Sound(env: Env, have: Table, c: Change) {
    match c
    case Keep(t) => t.id in have && have[t.id] == t
    case Drop(b) => b.id in have && have[b.id] == b
    case Modify(b, a) =>
      && b.id in have && have[b.id] == b && a.id == b.id && Valid(env, a)
      && a.kind == b.kind && a.createdAt == b.createdAt && a.generation == b.generation + 1
    case Insert(a) => a.id !in have && Valid(env, a)
  }

  /** Sound changes, no two for one record. */
  ghost predicate SoundAll(env: Env, have: Table, cs: seq<Change>) {
    && (forall c | c in cs :: Sound(env, have, c))
    && forall i, j | 0 <= i < j < |cs| :: cs[i].Id() != cs[j].Id()
  }

  function Effect(s: Table, c: Change): Table {
    match c
    case Keep(_) => s
    case Drop(b) => s - {b.id}
    case Modify(_, a) => s[a.id := a]
    case Insert(a) => s[a.id := a]
  }

  function After(have: Table, cs: seq<Change>): Table {
    if cs == [] then have else Effect(After(have, cs[..|cs| - 1]), cs[|cs| - 1])
  }

  function Touched(cs: seq<Change>): set<string> { set c | c in cs :: c.Id() }

  /** Records no change is for are as they were. */
  lemma {:induction false} UntouchedAfter(env: Env, have: Table, cs: seq<Change>)
    requires SoundAll(env, have, cs)
    ensures forall id | id !in Touched(cs) :: (id in After(have, cs) <==> id in have) && (id in have ==> After(have, cs)[id] == have[id])
  {
    if cs != [] {
      var front, c := cs[..|cs| - 1], cs[|cs| - 1];
      assert c in cs && Sound(env, have, c) && c.Id() in Touched(cs);
      assert Touched(front) <= Touched(cs);
      UntouchedAfter(env, have, front);
    }
  }

  lemma FrontIsSound(env: Env, have: Table, cs: seq<Change>, i: nat)
    requires SoundAll(env, have, cs) && i < |cs|
    ensures SoundAll(env, have, cs[..i]) && Sound(env, have, cs[i]) && cs[i].Id() !in Touched(cs[..i])
    ensures cs[..i + 1] == cs[..i] + [cs[i]]
    ensures After(have, cs[..i + 1]) == Effect(After(have, cs[..i]), cs[i])
  {
    hide Sound;
    assert cs[..i + 1][..i] == cs[..i];
  }

  /** The record a change is about, as it stands right before the change. */
  lemma AboutToChange(env: Env, have: Table, cs: seq<Change>, i: nat)
    requires SoundAll(env, have, cs) && i < |cs|
    ensures var s := After(have, cs[..i]);
            match cs[i]
            case Keep(t) => t.id in s && s[t.id] == t
            case Drop(b) => b.id in s && s[b.id] == b
            case Modify(b, _) => b.id in s && s[b.id] == b
            case Insert(a) => a.id !in s
  {
    FrontIsSound(env, have, cs, i);
    UntouchedAfter(env, have, cs[..i]);
  }

  // ---- Undoing ----

  /** rollbackBundleChangesLocked for one change: an update is undone by a further update. */
  function Undo(env: Env, s: Table, c: Change, now: nat): Table {
    match c
    case Keep(_) => s
    case Drop(b) => s[b.id := b]
    case Modify(b, a) => if SpecChosen(b) && SpecChosen(a) && b.kind == a.kind then s[b.id := Reinstated(env, b, a, now)] else s
    case Insert(a) => s - {a.id}
  }

  /** The table once the changes from k on are undone, the last first. */
  function BackTo(env: Env, have: Table, cs: seq<Change>, k: nat, clock: nat -> nat): Table
    requires k <= |cs|
    decreases |cs| - k
  {
    if k == |cs| then After(have, cs) else Undo(env, BackTo(env, have, cs, k + 1, clock), cs[k], clock(k))
  }

  /** Same identifiers, and every record valid with the footprint of its counterpart. */
  ghost predicate Alike(env: Env, s: Table, t: Table) {
    && s.Keys == t.Keys
    && forall id | id in s :: Valid(env, s[id]) && Valid(env, t[id]) && s[id].id == id == t[id].id && SameFootprint(env, s[id], t[id])
  }

  /** The clock has not gone back behind the creation of a changed record. */
  ghost predicate ClockAhead(cs: seq<Change>, clock: nat -> nat) {
    forall k: nat, c | c in cs && c.Modify? :: clock(k) >= c.before.createdAt
  }

  ghost predicate AllValid(env: Env, s: Table) { forall id | id in s :: Valid(env, s[id]) && s[id].id == id }

  lemma {:induction false} AfterIsValid(env: Env, have: Table, cs: seq<Change>)
    requires AllValid(env, have) && SoundAll(env, have, cs)
    ensures AllValid(env, After(have, cs))
  {
    hide Valid;
    if cs != [] {
      var n := |cs| - 1;
      assert cs[..n + 1] == cs;
      FrontIsSound(env, have, cs, n);
      AfterIsValid(env, have, cs[..n]);
    }
  }

  /** Undoing down to k leaves a table like the one before change k, and records whose change is not undone exactly
      as they are there. */
  lemma {:induction false} UndoneIsAlike(env: Env, have: Table, cs: seq<Change>, k: nat, clock: nat -> nat)
    requires Lawful(env) && AllValid(env, have) && SoundAll(env, have, cs) && ClockAhead(cs, clock) && k <= |cs|
    ensures Alike(env, BackTo(env, have, cs, k, clock), After(have, cs[..k]))
    ensures forall id | id in After(have, cs[..k]) && id !in Touched(cs[k..]) :: BackTo(env, have, cs, k, clock)[id] == After(have, cs[..k])[id]
    decreases |cs| - k
  {
    hide Valid, SameFootprint, Undo, Undoable, Effect, Sound, SoundAll, ClockAhead, AllValid, Touched;
    if k == |cs| {
      assert cs[..k] == cs;
      AfterIsValid(env, have, cs);
      AlikeItself(env, After(have, cs));
    } else {
      UndoneIsAlike(env, have, cs, k + 1, clock);
      FrontIsSound(env, have, cs, k);
      ChangeIsUndoable(env, have, cs, k, clock);
      TailTouched(cs, k);
      AfterIsValid(env, have, cs[..k]);
      OneUndone(env, After(have, cs[..k]), BackTo(env, have, cs, k + 1, clock), cs[k], clock(k), Touched(cs[k + 1..]));
    }
  }

  lemma AlikeItself(env: Env, s: Table)
    requires AllValid(env, s)
    ensures Alike(env, s, s)
  {
  }

  /** The change stood on the table it was planned for, and the clock allows to undo it. */
  predicate Undoable(env: Env, s: Table, c: Change, now: nat) {
    match c
    case Keep(_) => true
    case Drop(b) => b.id in s && s[b.id] == b
    case Modify(b, a) =>
      && b.id in s && s[b.id] == b && a.id == b.id && Valid(env, a) && a.kind == b.kind
      && a.createdAt == b.createdAt && now >= b.createdAt
    case Insert(a) => a.id !in s
  }

  lemma ChangeIsUndoable(env: Env, have: Table, cs: seq<Change>, k: nat, clock: nat -> nat)
    requires SoundAll(env, have, cs) && ClockAhead(cs, clock) && k < |cs|
    ensures Undoable(env, After(have, cs[..k]), cs[k], clock(k))
  {
    hide Valid;
    AboutToChange(env, have, cs, k);
    assert cs[k] in cs && Sound(env, have, cs[k]);
  }

  lemma TailTouched(cs: seq<Change>, k: nat)
    requires k < |cs|
    ensures Touched(cs[k..]) == Touched(cs[k + 1..]) + {cs[k].Id()}
  {
    assert cs[k..] == [cs[k]] + cs[k + 1..];
  }

  /** One step back, from a table like the one after the change. */
  lemma OneUndone(env: Env, s: Table, t: Table, c: Change, now: nat, others: set<string>)
    requires Lawful(env) && AllValid(env, s) && Alike(env, t, Effect(s, c))
    requires forall id | id in Effect(s, c) && id !in others :: t[id] == Effect(s, c)[id]
    requires Undoable(env, s, c, now)
    ensures Alike(env, Undo(env, t, c, now), s)
    ensures forall id | id in s && id !in others && id != c.Id() :: Undo(env, t, c, now)[id] == s[id]
  {
    hide Alike, AllValid, Valid, SameFootprint, Reinstated;
    match c
    case Keep(_) =>
    case Drop(b) => DropUndone(env, s, t, b, others);
    case Modify(b, a) => ModifyUndone(env, s, t, b, a, now, others);
    case Insert(a) => InsertUndone(env, s, t, a, others);
  }

  lemma InsertUndone(env: Env, s: Table, t: Table, a: Tunnel, others: set<string>)
    requires AllValid(env, s) && Alike(env, t, s[a.id := a]) && a.id !in s
    requires forall id | id in s[a.id := a] && id !in others :: t[id] == s[a.id := a][id]
    ensures Alike(env, t - {a.id}, s)
    ensures forall id | id in s && id !in others && id != a.id :: (t - {a.id})[id] == s[id]
  {
    hide Valid, SameFootprint;
    assert forall id | id in s :: id in s[a.id := a] && s[a.id := a][id] == s[id];
  }

  lemma FootprintItself(env: Env, t: Tunnel)
    ensures SameFootprint(env, t, t)
  {
    hide XfrmIds, Priorities, Claims, Exclusive;
  }

  lemma FootprintHasId(env: Env, a: Tunnel, b: Tunnel)
    requires SameFootprint(env, a, b)
    ensures a.id == b.id
  {
    hide XfrmIds, Priorities, Claims, Exclusive;
  }

  lemma DropUndone(env: Env, s: Table, t: Table, b: Tunnel, others: set<string>)
    requires AllValid(env, s) && Alike(env, t, s - {b.id}) && b.id in s && s[b.id] == b
    requires forall id | id in s - {b.id} && id !in others :: t[id] == s[id]
    ensures Alike(env, t[b.id := b], s)
    ensures forall id | id in s && id !in others && id != b.id :: t[b.id := b][id] == s[id]
  {
    hide Valid, SameFootprint;
    FootprintItself(env, b);
    assert forall id | id in s && id != b.id :: id in s - {b.id};
  }

  lemma StoredAreValid(env: Env, s: Table, id: string)
    requires AllValid(env, s) && id in s
    ensures Valid(env, s[id])
  {
    hide Valid;
  }

  lemma ModifyUndone(env: Env, s: Table, t: Table, b: Tunnel, a: Tunnel, now: nat, others: set<string>)
    requires Lawful(env) && AllValid(env, s) && Alike(env, t, s[a.id := a]) && b.id in s && s[b.id] == b
    requires a.id == b.id && Valid(env, a) && a.kind == b.kind && a.createdAt == b.createdAt && now >= b.createdAt
    requires forall id | id in s[a.id := a] && id !in others :: t[id] == s[a.id := a][id]
    ensures var u := Undo(env, t, Modify(b, a), now);
            Alike(env, u, s) && forall id | id in s && id !in others && id != b.id :: u[id] == s[id]
  {
    hide Valid, SameFootprint, Reinstated, PrepareUpdate, Alike, AllValid, Lawful;
    StoredAreValid(env, s, b.id);
    ValidIsChosen(env, a);
    ValidIsChosen(env, b);
    PrepareUpdateOfValid(env, b, a, now, []);
    var r := Reinstated(env, b, a, now);
    FootprintHasId(env, r, b);
    PutBack(env, s, t, b, a, r, others);
  }

  lemma PutBack(env: Env, s: Table, t: Table, b: Tunnel, a: Tunnel, r: Tunnel, others: set<string>)
    requires AllValid(env, s) && Alike(env, t, s[a.id := a]) && b.id in s && s[b.id] == b && a.id == b.id == r.id
    requires Valid(env, r) && SameFootprint(env, r, b)
    requires forall id | id in s[a.id := a] && id !in others :: t[id] == s[a.id := a][id]
    ensures Alike(env, t[b.id := r], s) && forall id | id in s && id !in others && id != b.id :: t[b.id := r][id] == s[id]
  {
    hide Valid, SameFootprint;
  }

  lemma ValidIsChosen(env: Env, t: Tunnel)
    requires Valid(env, t)
    ensures SpecChosen(t)
  {
  }

  // ---- Tables that are alike are consistent together ----

  lemma AlikeKeys(env: Env, s: Table, t: Table)
    requires Alike(env, s, t)
    ensures s.Keys == t.Keys && (forall id | id in s :: s[id].id == id == t[id].id)
  {
    hide Valid, SameFootprint;
  }

  lemma AlikeWithout(env: Env, s: Table, t: Table, id: string)
    requires Alike(env, s, t) && id in s
    ensures Alike(env, s - {id}, t - {id}) && id in t && Claims(env, s[id]) == Claims(env, t[id])
  {
    hide Valid, XfrmIds, Priorities, Claims, Exclusive;
    assert SameFootprint(env, s[id], t[id]);
  }

  lemma SameTotal(env: Env, s: Table, t: Table)
    requires Alike(env, s, t)
    ensures TotalClaims(env, Stored(s)) == TotalClaims(env, Stored(t))
    decreases |s|
  {
    hide Valid, TotalClaims, SameFootprint, Claims, Alike;
    AlikeKeys(env, s, t);
    if s == map[] {
      assert t == map[];
    } else {
      var id :| id in s;
      var s', t' := s - {id}, t - {id};
      AlikeWithout(env, s, t, id);
      SameTotal(env, s', t');
      OneRecordLess(env, s, id);
      OneRecordLess(env, t, id);
    }
  }

  lemma OneRecordLess(env: Env, s: Table, id: string)
    requires id in s && forall i | i in s :: s[i].id == i
    ensures TotalClaims(env, Stored(s)) == TotalClaims(env, Stored(s - {id})) + |Claims(env, s[id])|
  {
    hide Claims, TotalClaims;
    var rest := s - {id};
    assert rest[id := s[id]] == s;
    StoredAdds(rest, s[id]);
    assert s[id] !in Stored(rest);
    TotalAdds(env, Stored(rest), s[id]);
  }

  lemma NoClash(env: Env, s: Table, t: Table, i: string, j: string)
    requires Alike(env, s, t) && i in s && j in s && !Clash(env, t[i], t[j])
    ensures !Clash(env, s[i], s[j])
  {
    hide Valid, Clash, SameFootprint;
    FootprintDecidesClash(env, s[i], t[i], t[j]);
    ClashIsSymmetric(env, s[i], t[j]);
    FootprintDecidesClash(env, s[j], t[j], s[i]);
    ClashIsSymmetric(env, s[j], s[i]);
  }

  lemma AlikeIsConsistent(env: Env, s: Table, t: Table)
    requires Alike(env, s, t) && Consistent(env, t)
    ensures Consistent(env, s)
  {
    hide Valid, Clash, SameFootprint, TotalClaims;
    SameTotal(env, s, t);
    StoredSize(s);
    StoredSize(t);
    assert |s| == |t| by {
      assert s.Keys == t.Keys;
    }
    forall a, b | a in Stored(s) && b in Stored(s) && a != b
      ensures a.id != b.id && !Clash(env, a, b)
    {
      assert s[a.id] == a && s[b.id] == b;
      assert t[a.id] in Stored(t) && t[b.id] in Stored(t);
      assert !Clash(env, t[a.id], t[b.id]);
      NoClash(env, s, t, a.id, b.id);
    }
  }

  // ---- What a rollback leaves ----

  /** A reinstated record differs from the original in revision data and filled-in preshared keys only, exactly
      when the original is settled. */
  lemma ReinstatedIff(env: Env, b: Tunnel, a: Tunnel, now: nat)
    requires Lawful(env) && Valid(env, b) && Valid(env, a) && b.kind == a.kind && now >= b.createdAt
    ensures Reinstated(env, b, a, now) == Revised(b, a.generation + 1, now).(spec := MergedSpec(b.spec, a.spec, b.kind)) <==> Settled(env, b)
  {
    var m := Revised(b, a.generation + 1, now).(spec := MergedSpec(b.spec, a.spec, b.kind));
    MergedIsValid(env, b, a, m);
    SettleIff(env, m);
    SettledOfMerged(env, b, a, m);
    hide Valid, SettleSpec, SettleBabel, Settled;
    assert Settle(env, m) == m.(spec := Settle(env, m).spec);
  }

  lemma SettledOfMerged(env: Env, b: Tunnel, a: Tunnel, m: Tunnel)
    requires Lawful(env) && Valid(env, b) && Valid(env, a) && b.kind == a.kind
    requires m == Revised(b, m.generation, m.updatedAt).(spec := MergedSpec(b.spec, a.spec, b.kind))
    ensures Settled(env, m) <==> Settled(env, b)
  {
    if RoutingSpec(b).Some? {
      MergedWireGuardIsValid(env, RoutingSpec(b).value, RoutingSpec(a).value);
      SameAllowed(env, PeersOf(m), PeersOf(b));
    }
  }

  /** What the finished rollback leaves for one record of the table of before. */
  ghost predicate BackAsWas(env: Env, have: Table, cs: seq<Change>, clock: nat -> nat, id: string, r: Tunnel)
    requires id in have
  {
    || r == have[id]
    || exists k :: 0 <= k < |cs| && cs[k].Modify? && cs[k].before == have[id] && cs[k].Id() == id
         && SpecChosen(cs[k].before) && SpecChosen(cs[k].after) && cs[k].before.kind == cs[k].after.kind
         && r == Reinstated(env, cs[k].before, cs[k].after, clock(k))
  }

  lemma {:induction false} RolledBackRecord(env: Env, have: Table, cs: seq<Change>, k: nat, clock: nat -> nat, id: string)
    requires Lawful(env) && AllValid(env, have) && SoundAll(env, have, cs) && ClockAhead(cs, clock) && k <= |cs|
    requires id in have && id in BackTo(env, have, cs, k, clock) && id !in Touched(cs[..k])
    ensures BackAsWas(env, have, cs, clock, id, BackTo(env, have, cs, k, clock)[id])
    decreases |cs| - k
  {
    hide Valid, SameFootprint, Reinstated;
    if k == |cs| {
      assert cs[..k] == cs;
      UntouchedAfter(env, have, cs);
    } else {
      FrontIsSound(env, have, cs, k);
      var t := BackTo(env, have, cs, k + 1, clock);
      if cs[k].Id() == id {
        ModifiedRecord(env, have, cs, k, clock, t);
      } else {
        assert Touched(cs[..k + 1]) == Touched(cs[..k]) + {cs[k].Id()};
        assert id in t;
        RolledBackRecord(env, have, cs, k + 1, clock, id);
      }
    }
  }

  lemma ModifiedRecord(env: Env, have: Table, cs: seq<Change>, k: nat, clock: nat -> nat, t: Table)
    requires Lawful(env) && AllValid(env, have) && SoundAll(env, have, cs) && ClockAhead(cs, clock) && k < |cs|
    requires t == BackTo(env, have, cs, k + 1, clock) && cs[k].Id() in have && cs[k].Id() in Undo(env, t, cs[k], clock(k))
    requires cs[k].Id() !in Touched(cs[..k])
    ensures BackAsWas(env, have, cs, clock, cs[k].Id(), Undo(env, t, cs[k], clock(k))[cs[k].Id()])
  {
    var c := cs[k];
    assert c in cs && Sound(env, have, c);
    match c
    case Keep(r) =>
      UndoneIsAlike(env, have, cs, k + 1, clock);
      FrontIsSound(env, have, cs, k);
      AboutToChange(env, have, cs, k);
      NotTouchedLater(env, have, cs, k);
    case Drop(_) =>
    case Modify(b, a) =>
      ValidIsChosen(env, a);
      ValidIsChosen(env, have[b.id]);
    case Insert(_) =>
  }

  lemma NotTouchedLater(env: Env, have: Table, cs: seq<Change>, k: nat)
    requires SoundAll(env, have, cs) && k < |cs|
    ensures cs[k].Id() !in Touched(cs[k + 1..])
  {
    hide Sound;
  }

  /** After the whole rollback: the identifiers of before, each record as it was or reinstated. */
  lemma RolledBackTable(env: Env, have: Table, cs: seq<Change>, clock: nat -> nat)
    requires Lawful(env) && AllValid(env, have) && SoundAll(env, have, cs) && ClockAhead(cs, clock)
    ensures var t := BackTo(env, have, cs, 0, clock);
            t.Keys == have.Keys && forall id | id in have :: BackAsWas(env, have, cs, clock, id, t[id])
  {
    hide Valid, SameFootprint, Reinstated;
    UndoneIsAlike(env, have, cs, 0, clock);
    assert cs[..0] == [];
    forall id | id in have
      ensures BackAsWas(env, have, cs, clock, id, BackTo(env, have, cs, 0, clock)[id])
    {
      RolledBackRecord(env, have, cs, 0, clock, id);
    }
  }
}
