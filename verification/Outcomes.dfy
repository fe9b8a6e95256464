/** When exactly an operation of the store is done, turned down or fails, and what it leaves. */
module Outcomes {
  import opened Net
  import opened Records
  import opened Ownership
  import opened StoreState
  import opened Restore

  /** What is left of an allowed change that the disk may spoil: the change is lost unless it is written, and, written but not
      synced, it is lost if the disk can undo it. */
  predicate LeftBy(s: Table, changed: Table, disk: StoreState.Disk, r: Result) {
    && (r.outcome == Done <==> disk.write && disk.sync) && (r.outcome == Failed <==> !(disk.write && disk.sync))
    && r.table == if disk.write && (disk.sync || !disk.undo) then changed else s
  }

  /** A record is created exactly if it is valid, its identifier is not in use and the records stay free of conflicts. */
  lemma CreateMeans(env: Env, s: Table, t: Tunnel, disk: StoreState.Disk)
    requires Consistent(env, s)
    ensures var r := CreateIn(env, s, t, disk);
            if !Valid(env, t) || t.id in s then r == Result(Refused, s)
            else if !disk.readable then r == Result(Failed, s)
            else if !Consistent(env, s[t.id := t]) then r == Result(Refused, s)
            else LeftBy(s, s[t.id := t], disk, r)
  {
    hide Valid, Consistent, Fits;
    if Valid(env, t) && t.id !in s {
      FitsIffConsistent(env, s, t);
    }
  }

  /** A record is replaced exactly if the new one is valid, the one it was computed from is still there, and the records stay
      free of conflicts. */
  lemma UpdateMeans(env: Env, s: Table, t: Tunnel, expected: nat, disk: StoreState.Disk)
    requires Consistent(env, s)
    ensures var r := UpdateIn(env, s, t, expected, disk);
            if !Valid(env, t) then r == Result(Refused, s)
            else if t.id !in s then r == Result(Missing, s)
            else if !disk.readable then r == Result(Failed, s)
            else if s[t.id].generation != expected || t.generation != s[t.id].generation + 1 || !Consistent(env, s[t.id := t]) then
              r == Result(Refused, s)
            else LeftBy(s, s[t.id := t], disk, r)
  {
    hide Valid, Consistent, Fits;
    if Valid(env, t) && t.id in s {
      ReplaceFitsIffConsistent(env, s, t);
    }
  }

  /** A record is deleted exactly if it is there in the expected generation; then only the disk can fail. */
  lemma DeleteMeans(env: Env, s: Table, id: string, expected: nat, disk: StoreState.Disk)
    requires Consistent(env, s)
    ensures var r := DeleteIn(env, s, id, expected, disk);
            if id !in s then r == Result(Missing, s)
            else if !disk.readable then r == Result(Failed, s)
            else if s[id].generation != expected then r == Result(Refused, s)
            else if !disk.cache then r == Result(Failed, s)
            else LeftBy(s, map other | other in s && other != id :: s[other], disk, r)
  {
    if id in s {
      assert s[id] in Stored(s) && Valid(env, s[id]);
    }
    hide Consistent, Valid;
    assert s - {id} == map other | other in s && other != id :: s[other];
  }

  /** The objects of a record are torn down, and then the record goes, only in the expected generation; if the backend fails the
      record stays. */
  lemma ManagedDeleteMeans(env: Env, s: Table, id: string, expected: nat, a: Attempt)
    requires Consistent(env, s)
    ensures var r, d := ManagedDelete(env, s, id, expected, a), DeleteIn(env, s, id, expected, a.disk);
            if id !in s then r == (Some(FromStore(Missing)), s)
            else if s[id].generation != expected then r == (Some(FromStore(Refused)), s)
            else if !a.teardown then r == (Some(Backend), s)
            else r.1 == d.table && (r.0 == None <==> d.outcome == Done) && (r.0 == Some(FromStore(Failed)) <==> d.outcome == Failed)
  {
    if id in s {
      assert s[id] in Stored(s) && Valid(env, s[id]);
    }
    hide Consistent, Valid;
    DeleteMeans(env, s, id, expected, a.disk);
  }
}
