/** The record store as a map: what Create, Update and Delete do to the visible records, given how the disk behaves. */
module StoreState {
  import opened Lists
  import opened Net
  import opened Records
  import opened Ownership

  type Table = map<string, Tunnel>

  /** How the disk serves one operation. A write that cannot be synced is undone, if the undoing write succeeds. */
  datatype Disk = Disk(readable: bool, cache: bool, write: bool, sync: bool, undo: bool)

  const WORKING := Disk(true, true, true, true, true)

  /** Refused: the request is turned down. Failed: the disk failed. */
  datatype Outcome = Done | Refused | Missing | Failed

  datatype StoreOp = Create(t: Tunnel) | Update(t: Tunnel, expected: nat) | Delete(id: string, expected: nat)

  datatype Result = Result(outcome: Outcome, table: Table)

  function Stored(s: Table): set<Tunnel> { set id | id in s :: s[id] }

  /** The records other than that of one identifier. */
  function Others(s: Table, id: string): set<Tunnel> { set i | i in s && i != id :: s[i] }

  /** writeLocked, and the removal of Delete: `changed` is the table with the change made. */
  function Written(s: Table, changed: Table, disk: Disk): Result {
    if !disk.write then Result(Failed, s)
    else if disk.sync then Result(Done, changed)
    else Result(Failed, if disk.undo then s else changed)
  }

  ghost function CreateIn(env: Env, s: Table, t: Tunnel, disk: Disk): Result {
    if !Valid(env, t) || t.id in s then Result(Refused, s)
    else if !disk.readable then Result(Failed, s)
    else if |s| >= MAX_RECORDS || !Fits(env, Stored(s), t) then Result(Refused, s)
    else Written(s, s[t.id := t], disk)
  }

  ghost function UpdateIn(env: Env, s: Table, t: Tunnel, expected: nat, disk: Disk): Result {
    if !Valid(env, t) then Result(Refused, s)
    else if t.id !in s then Result(Missing, s)
    else if !disk.readable then Result(Failed, s)
    else if s[t.id].generation != expected || t.generation != expected + 1 then Result(Refused, s)
    else if !Fits(env, Others(s, t.id), t) then Result(Refused, s)
    else Written(s, s[t.id := t], disk)
  }

  function DeleteIn(env: Env, s: Table, id: string, expected: nat, disk: Disk): Result {
    if !env.validId(id) || id !in s then Result(Missing, s)
    else if !disk.readable then Result(Failed, s)
    else if s[id].generation != expected then Result(Refused, s)
    else if !disk.cache then Result(Failed, s)
    else Written(s, s - {id}, disk)
  }

  ghost function Apply(env: Env, s: Table, op: StoreOp, disk: Disk): Result {
    match op
    case Create(t) => CreateIn(env, s, t, disk)
    case Update(t, expected) => UpdateIn(env, s, t, expected, disk)
    case Delete(id, expected) => DeleteIn(env, s, id, expected, disk)
  }

  // ---- The invariant ----

  /** Every record is valid and stored under its identifier, no two conflict, and the limits are kept. */
  ghost predicate Consistent(env: Env, s: Table) {
    (forall id | id in s :: s[id].id == id) && Acceptable(env, Stored(s))
  }

  lemma StoredSize(s: Table)
    requires forall id | id in s :: s[id].id == id
    ensures |Stored(s)| == |s|
    decreases |s|
  {
    if s == map[] {
      assert Stored(s) == {};
    } else {
      var id :| id in s;
      var rest := s - {id};
      assert s == rest[id := s[id]];
      StoredSize(rest);
      assert Stored(s) == Stored(rest) + {s[id]} && s[id] !in Stored(rest);
    }
  }

  /** A smaller table of a consistent store is consistent. */
  lemma PartIsConsistent(env: Env, part: Table, whole: Table)
    requires Consistent(env, whole) && forall id | id in part :: id in whole && part[id] == whole[id]
    ensures Consistent(env, part)
  {
    hide Valid, Clash, TotalClaims, Acceptable;
    SubsetIsAcceptable(env, Stored(part), Stored(whole));
  }

  predicate Keyed(s: Table) { forall id | id in s :: s[id].id == id }

  lemma StoredAdds(s: Table, t: Tunnel)
    requires Keyed(s) && t.id !in s
    ensures Stored(s[t.id := t]) == Stored(s) + {t} && Keyed(s[t.id := t])
    ensures forall r | r in Stored(s) :: r.id != t.id
  {
    var s' := s[t.id := t];
    assert s'[t.id] in Stored(s');
    forall r | r in Stored(s)
      ensures r in Stored(s')
    {
      var id :| id in s && s[id] == r;
      assert s'[id] == r;
    }
  }

  lemma StoredWithout(s: Table, id: string)
    requires Keyed(s) && id in s
    ensures Stored(s - {id}) == Others(s, id) && |s - {id}| < |s| && Keyed(s - {id})
  {
    assert s.Keys == (s - {id}).Keys + {id};
  }

  /** Storing a valid record is allowed exactly when the table that results is consistent. */
  lemma FitsIffConsistent(env: Env, s: Table, t: Tunnel)
    requires Consistent(env, s) && Valid(env, t) && t.id !in s
    ensures |s| < MAX_RECORDS && Fits(env, Stored(s), t) <==> Consistent(env, s[t.id := t])
  {
    hide Valid, Fits, Acceptable, Stored;
    StoredSize(s);
    StoredAdds(s, t);
    FitsIffExtends(env, Stored(s), t);
  }

  lemma ReplaceFitsIffConsistent(env: Env, s: Table, t: Tunnel)
    requires Consistent(env, s) && Valid(env, t) && t.id in s
    ensures Fits(env, Others(s, t.id), t) <==> Consistent(env, s[t.id := t])
  {
    hide Valid, Fits, Acceptable, Stored, Others;
    var rest := s - {t.id};
    StoredWithout(s, t.id);
    PartIsConsistent(env, rest, s);
    SizeWithin(env, s);
    FitsIffConsistent(env, rest, t);
    assert rest[t.id := t] == s[t.id := t];
  }

  lemma SizeWithin(env: Env, s: Table)
    requires Consistent(env, s)
    ensures |s| <= MAX_RECORDS
  {
    hide Valid, Clash, TotalClaims;
    StoredSize(s);
  }

  /** Every operation, however the disk behaves, leaves a conflict-free store. */
  lemma ApplyKeepsConsistent(env: Env, s: Table, op: StoreOp, disk: Disk)
    requires Consistent(env, s)
    ensures Consistent(env, Apply(env, s, op, disk).table)
  {
    hide Consistent, Fits, Valid;
    match op
    case Create(t) =>
      if Valid(env, t) && t.id !in s {
        FitsIffConsistent(env, s, t);
      }
    case Update(t, _) =>
      if Valid(env, t) && t.id in s {
        ReplaceFitsIffConsistent(env, s, t);
      }
    case Delete(id, _) =>
      PartIsConsistent(env, s - {id}, s);
  }

  /** An operation that is not done leaves the visible records alone, unless the disk fails to sync and then
      fails to undo. */
  lemma UndoneIsUnchanged(env: Env, s: Table, op: StoreOp, disk: Disk)
    requires Apply(env, s, op, disk).outcome != Done
    requires Apply(env, s, op, disk).outcome == Failed ==> disk.undo
    ensures Apply(env, s, op, disk).table == s
  {
    hide Fits, Valid;
  }

  // ---- Runs ----

  /** states[i] --ops[i], disks[i]--> states[i + 1]. */
  ghost predicate StoreRun(env: Env, states: seq<Table>, ops: seq<StoreOp>, disks: seq<Disk>) {
    && |states| == |ops| + 1 && |disks| == |ops|
    && forall i | 0 <= i < |ops| :: RunAt(env, states, ops, disks, i)
  }

  ghost predicate RunAt(env: Env, states: seq<Table>, ops: seq<StoreOp>, disks: seq<Disk>, i: nat)
    requires |states| == |ops| + 1 && |disks| == |ops| && i < |ops|
  {
    states[i + 1] == Apply(env, states[i], ops[i], disks[i]).table
  }

  lemma {:induction false} RunStaysConsistent(env: Env, states: seq<Table>, ops: seq<StoreOp>, disks: seq<Disk>, i: nat)
    requires StoreRun(env, states, ops, disks) && Consistent(env, states[0]) && i < |states|
    ensures Consistent(env, states[i])
  {
    hide Consistent, Apply;
    if i > 0 {
      RunStaysConsistent(env, states, ops, disks, i - 1);
      assert RunAt(env, states, ops, disks, i - 1);
      ApplyKeepsConsistent(env, states[i - 1], ops[i - 1], disks[i - 1]);
    }
  }

  /** The update took effect. */
  ghost predicate Raises(env: Env, s: Table, op: StoreOp, disk: Disk, id: string, expected: nat) {
    && op.Update? && op.t.id == id && op.expected == expected
    && Apply(env, s, op, disk).outcome == Done
  }

  /** A completed update replaces one record by one of the next generation. */
  lemma UpdateRaisesByOne(env: Env, s: Table, t: Tunnel, expected: nat, disk: Disk)
    requires UpdateIn(env, s, t, expected, disk).outcome == Done
    ensures t.id in s && s[t.id].generation == expected
    ensures var s' := UpdateIn(env, s, t, expected, disk).table;
            s' == s[t.id := t] && s'[t.id].generation == s[t.id].generation + 1
  {
    hide Fits, Valid;
  }

  /** While a record stays, its generation never falls; it can only come back through Create. */
  lemma GenerationNeverFalls(env: Env, s: Table, op: StoreOp, disk: Disk, id: string)
    requires forall i | i in s :: s[i].id == i
    ensures var s' := Apply(env, s, op, disk).table;
            && (id in s && id in s' ==> s'[id].generation >= s[id].generation)
            && (id !in s && id in s' ==> op.Create? && op.t.id == id)
  {
    hide Fits, Valid;
  }

  /** The identifier is created anew by step k. */
  ghost predicate Recreated(states: seq<Table>, ops: seq<StoreOp>, k: nat, id: string)
    requires |states| == |ops| + 1 && k < |ops|
  {
    ops[k].Create? && ops[k].t.id == id && id !in states[k] && id in states[k + 1]
  }

  lemma {:induction false} GenerationGrows(env: Env, states: seq<Table>, ops: seq<StoreOp>, disks: seq<Disk>, i: nat, j: nat, id: string)
    requires StoreRun(env, states, ops, disks) && Consistent(env, states[0]) && i <= j < |states|
    requires forall k | i <= k < j :: !Recreated(states, ops, k, id)
    requires id in states[i]
    ensures id in states[j] ==> states[j][id].generation >= states[i][id].generation
  {
    hide Apply, Acceptable;
    if i < j {
      GenerationGrows(env, states, ops, disks, i, j - 1, id);
      assert RunAt(env, states, ops, disks, j - 1) && !Recreated(states, ops, j - 1, id);
      RunStaysConsistent(env, states, ops, disks, j - 1);
      GenerationNeverFalls(env, states[j - 1], ops[j - 1], disks[j - 1], id);
    }
  }

  /** Of several updates computed from one generation of a record at most one succeeds, unless the record is
      deleted and created again in between. */
  lemma OneUpdatePerGeneration(env: Env, states: seq<Table>, ops: seq<StoreOp>, disks: seq<Disk>, i: nat, j: nat,
                               id: string, expected: nat)
    requires StoreRun(env, states, ops, disks) && Consistent(env, states[0]) && i < j < |ops|
    requires Raises(env, states[i], ops[i], disks[i], id, expected) && Raises(env, states[j], ops[j], disks[j], id, expected)
    ensures exists k :: i < k < j && Recreated(states, ops, k, id)
  {
    hide Consistent, Fits, Valid;
    assert RunAt(env, states, ops, disks, i);
    UpdateRaisesByOne(env, states[i], ops[i].t, expected, disks[i]);
    UpdateRaisesByOne(env, states[j], ops[j].t, expected, disks[j]);
    if forall k | i + 1 <= k < j :: !Recreated(states, ops, k, id) {
      GenerationGrows(env, states, ops, disks, i + 1, j, id);
    }
  }

  lemma NextIsValid(env: Env, t: Tunnel, u: Tunnel)
    requires Valid(env, t) && u == t.(generation := t.generation + 1)
    ensures Valid(env, u) && Claims(env, u) == Claims(env, t) && env.validId(t.id)
  {
  }

  lemma AloneFits(env: Env, t: Tunnel)
    requires |Claims(env, t)| <= MAX_CLAIMS
    ensures Fits(env, {}, t)
  {
    assert Owned(env, {}) == {};
  }

  /** The exception is real: update, delete, create, update from the same generation, all done. */
  lemma RecreationReusesGeneration(env: Env, t: Tunnel) returns (states: seq<Table>, ops: seq<StoreOp>, disks: seq<Disk>)
    requires Valid(env, t) && |Claims(env, t)| <= MAX_CLAIMS
    ensures StoreRun(env, states, ops, disks) && |ops| == 5 && states[0] == map[]
    ensures Raises(env, states[1], ops[1], disks[1], t.id, t.generation)
    ensures Raises(env, states[4], ops[4], disks[4], t.id, t.generation)
  {
    var u := t.(generation := t.generation + 1);
    NextIsValid(env, t, u);
    AloneFits(env, t);
    AloneFits(env, u);
    OnlyRecord(env, t, u);
    hide Valid, Fits, Apply, Claims;
    var one, two := map[t.id := t], map[t.id := u];
    states := [map[], one, two, map[], one, two];
    ops := [Create(t), Update(u, t.generation), Delete(t.id, u.generation), Create(t), Update(u, t.generation)];
    disks := [WORKING, WORKING, WORKING, WORKING, WORKING];
    FiveSteps(env, states, ops, disks);
    RaisesTo(env, one, u, t.generation);
    hide Raises, StoreRun;
    assert states[1] == states[4] == one && ops[1] == ops[4] == Update(u, t.generation) && disks[1] == disks[4] == WORKING;
  }

  lemma RaisesTo(env: Env, s: Table, u: Tunnel, expected: nat)
    requires Apply(env, s, Update(u, expected), WORKING).outcome == Done
    ensures Raises(env, s, Update(u, expected), WORKING, u.id, expected)
  {
    hide Apply;
  }

  lemma FiveSteps(env: Env, states: seq<Table>, ops: seq<StoreOp>, disks: seq<Disk>)
    requires |states| == 6 && |ops| == |disks| == 5
    requires states[1] == Apply(env, states[0], ops[0], disks[0]).table && states[2] == Apply(env, states[1], ops[1], disks[1]).table
    requires states[3] == Apply(env, states[2], ops[2], disks[2]).table && states[4] == Apply(env, states[3], ops[3], disks[3]).table
    requires states[5] == Apply(env, states[4], ops[4], disks[4]).table
    ensures StoreRun(env, states, ops, disks)
  {
    hide Apply;
    forall i | 0 <= i < |ops|
      ensures RunAt(env, states, ops, disks, i)
    {
      assert i in {0, 1, 2, 3, 4};
    }
  }

  /** Creating, updating and deleting the only record. */
  lemma OnlyRecord(env: Env, t: Tunnel, u: Tunnel)
    requires Valid(env, t) && Valid(env, u) && Fits(env, {}, t) && Fits(env, {}, u) && u == t.(generation := t.generation + 1)
    requires env.validId(t.id)
    ensures Apply(env, map[], Create(t), WORKING) == Result(Done, map[t.id := t])
    ensures Apply(env, map[t.id := t], Update(u, t.generation), WORKING) == Result(Done, map[t.id := u])
    ensures Apply(env, map[t.id := u], Delete(t.id, u.generation), WORKING) == Result(Done, map[])
  {
    hide Valid, Fits;
    assert Stored(map[]) == {} && Others(map[t.id := t], t.id) == {};
    assert map[t.id := t][t.id := u] == map[t.id := u] && map[t.id := u] - {t.id} == map[];
    assert (map[])[t.id := t] == map[t.id := t];
  }
}
