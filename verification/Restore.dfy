/** Restoring a backup: a plan, a deletion phase, a creation phase, and the way back from any failure. */
module Restore {
  import opened Lists
  import opened Net
  import opened Records
  import opened Ownership
  import opened RecordSet
  import opened StoreState
  import opened Store

  datatype Action = Unchanged | Deletion | Replacement | Creation

  datatype Operation = Operation(action: Action, id: string, name: string)

  function Rank(o: Operation): int {
    match o.action
    case Unchanged => 0
    case Deletion => 1
    case Replacement => 2
    case Creation => 3
  }

  predicate Before(a: Operation, b: Operation) { Rank(a) < Rank(b) || (Rank(a) == Rank(b) && StringLess(a.name, b.name)) }

  /** Unchanged records first, then deletions, replacements and creations; those of one kind by name. */
  predicate NotAfter(a: Operation, b: Operation) {
    if a.action == b.action then !StringLess(b.name, a.name)
    else a.action == Unchanged || b.action == Creation || (a.action == Deletion && b.action == Replacement)
  }

  lemma PlanIsOrdered(ops: seq<Operation>)
    ensures Ascending(NotAfter, SortStable(Before, ops))
  {
    hide StringLess;
    forall a, b, c | a in ops && b in ops && c in ops
      ensures if Before(a, b) then NotAfter(a, b) else NotAfter(b, a)
      ensures NotAfter(a, b) && NotAfter(b, c) ==> NotAfter(a, c)
    {
      StringsAreOrdered(a.name, b.name, c.name);
      StringsAreOrdered(c.name, b.name, a.name);
      StringsAreOrdered(a.name, c.name, b.name);
    }
    SortAscends(Before, NotAfter, ops);
  }

  function IdSet(rs: seq<Tunnel>): set<string> { set r | r in rs :: r.id }

  predicate DistinctIds(rs: seq<Tunnel>) { forall i, j | 0 <= i < j < |rs| :: rs[i].id != rs[j].id }

  /** The records of a list under their identifiers. */
  function TableOf(rs: seq<Tunnel>): Table {
    if rs == [] then map[] else TableOf(rs[..|rs| - 1])[rs[|rs| - 1].id := rs[|rs| - 1]]
  }

  lemma {:induction false} TableOfList(rs: seq<Tunnel>)
    requires DistinctIds(rs)
    ensures TableOf(rs).Keys == IdSet(rs)
    ensures forall r | r in rs :: r.id in TableOf(rs) && TableOf(rs)[r.id] == r
    ensures forall id | id in TableOf(rs) :: TableOf(rs)[id] in rs && TableOf(rs)[id].id == id
  {
    if rs != [] {
      var front, last := rs[..|rs| - 1], rs[|rs| - 1];
      TableOfList(front);
      ListSplits(rs, front, last);
      assert TableOf(rs) == TableOf(front)[last.id := last];
      hide TableOf, IdSet, DistinctIds;
    }
  }

  lemma ListSplits(rs: seq<Tunnel>, front: seq<Tunnel>, last: Tunnel)
    requires rs == front + [last] && DistinctIds(rs)
    ensures IdSet(rs) == IdSet(front) + {last.id} && forall r | r in front :: r.id != last.id
    ensures forall r :: r in rs <==> r in front || r == last
  {
    forall r | r in front
      ensures r.id != last.id
    {
      var i :| 0 <= i < |front| && front[i] == r;
      assert rs[i].id != rs[|front|].id;
    }
  }

  lemma StoredList(rs: seq<Tunnel>)
    requires DistinctIds(rs)
    ensures Stored(TableOf(rs)) == AsSet(rs)
  {
    TableOfList(rs);
    forall r | r in rs
      ensures r in Stored(TableOf(rs))
    {
      assert TableOf(rs)[r.id] == r;
    }
  }

  lemma AcceptedListIsConsistent(env: Env, rs: seq<Tunnel>)
    requires AcceptableList(env, rs)
    ensures DistinctIds(rs) && Consistent(env, TableOf(rs)) && TableOf(rs).Keys == IdSet(rs)
    ensures forall r | r in rs :: r.id in TableOf(rs) && TableOf(rs)[r.id] == r
  {
    hide Valid, Clash, TotalClaims;
    forall i, j | 0 <= i < j < |rs|
      ensures rs[i].id != rs[j].id
    {
      assert rs[i] in AsSet(rs) && rs[j] in AsSet(rs);
    }
    TableOfList(rs);
    StoredList(rs);
  }

  // ---- The plan ----

  /** What the plan must say about one identifier. */
  predicate Planned(have: Table, want: Table, o: Operation) {
    && o.name == (if o.id in want then want[o.id].name else if o.id in have then have[o.id].name else "")
    && match o.action
       case Unchanged => o.id in have && o.id in want && have[o.id] == want[o.id]
       case Deletion => o.id in have && o.id !in want
       case Replacement => o.id in have && o.id in want && have[o.id] != want[o.id]
       case Creation => o.id !in have && o.id in want
  }

  function OpIds(ops: seq<Operation>): set<string> { set o | o in ops :: o.id }

  /** These identifiers are planned for, each once. */
  ghost predicate PlanOver(have: Table, want: Table, ops: seq<Operation>, ids: set<string>) {
    && (forall o | o in ops :: Planned(have, want, o)) && Distinct(ops) && OpIds(ops) == ids
  }

  /** Every identifier of either table is planned for, once. */
  ghost predicate PlanFor(have: Table, want: Table, ops: seq<Operation>) { PlanOver(have, want, ops, have.Keys + want.Keys) }

  lemma PlannedOnce(have: Table, want: Table, a: Operation, b: Operation)
    requires Planned(have, want, a) && Planned(have, want, b) && a.id == b.id
    ensures a == b
  {
  }

  lemma SortedPlan(have: Table, want: Table, ops: seq<Operation>, sorted: seq<Operation>)
    requires PlanFor(have, want, ops) && multiset(sorted) == multiset(ops)
    ensures PlanFor(have, want, sorted)
  {
    Reordered(sorted, ops);
    assert forall o | o in sorted :: Planned(have, want, o);
    assert OpIds(sorted) == OpIds(ops);
  }

  method Index(rs: seq<Tunnel>) returns (byId: Table)
    ensures byId == TableOf(rs)
  {
    byId := map[];
    for i := 0 to |rs|
      invariant byId == TableOf(rs[..i])
    {
      assert rs[..i + 1][..i] == rs[..i];
      byId := byId[rs[i].id := rs[i]];
    }
    assert rs[..|rs|] == rs;
  }

  /** One more operation, for an identifier not planned for yet. */
  lemma OneMore(have: Table, want: Table, ops: seq<Operation>, o: Operation, ids: set<string>)
    requires PlanOver(have, want, ops, ids) && Planned(have, want, o) && o.id !in ids
    ensures PlanOver(have, want, ops + [o], ids + {o.id})
  {
    hide Planned;
    assert forall p | p in ops :: p.id in OpIds(ops);
    AppendDistinct(ops, o);
  }

  method PlanArchive(current: Table, archive: seq<Tunnel>) returns (ops: seq<Operation>)
    requires DistinctIds(archive)
    ensures PlanOver(current, TableOf(archive), ops, IdSet(archive))
  {
    TableOfList(archive);
    ghost var want := TableOf(archive);
    ops := [];
    assert PlanOver(current, want, ops, IdSet(archive[..0]));
    hide PlanOver, IdSet, DistinctIds;
    for i := 0 to |archive|
      invariant PlanOver(current, want, ops, IdSet(archive[..i]))
    {
      var d := archive[i];
      var action := if d.id !in current then Creation else if current[d.id] == d then Unchanged else Replacement;
      ListStep(archive, i);
      OneMore(current, want, ops, Operation(action, d.id, d.name), IdSet(archive[..i]));
      ops := ops + [Operation(action, d.id, d.name)];
    }
    assert archive[..|archive|] == archive;
  }

  lemma DeletionStep(current: seq<Tunnel>, have: Table, want: Table, ops: seq<Operation>, i: nat)
    requires DistinctIds(current) && i < |current| && have == TableOf(current)
    requires PlanOver(have, want, ops, want.Keys + IdSet(current[..i]))
    ensures var e := current[i];
            PlanOver(have, want, if e.id !in want then ops + [Operation(Deletion, e.id, e.name)] else ops,
                     want.Keys + IdSet(current[..i + 1]))
  {
    hide PlanOver, IdSet, TableOf;
    var e, before := current[i], want.Keys + IdSet(current[..i]);
    TableOfList(current);
    ListStep(current, i);
    assert want.Keys + IdSet(current[..i + 1]) == before + {e.id};
    if e.id in want {
      assert before + {e.id} == before;
    } else {
      OneMore(have, want, ops, Operation(Deletion, e.id, e.name), before);
    }
  }

  method PlanDeletions(current: seq<Tunnel>, want: Table, planned: seq<Operation>) returns (ops: seq<Operation>)
    requires DistinctIds(current) && PlanOver(TableOf(current), want, planned, want.Keys)
    ensures PlanFor(TableOf(current), want, ops)
  {
    TableOfList(current);
    ghost var have := TableOf(current);
    ops := planned;
    assert want.Keys + IdSet(current[..0]) == want.Keys;
    hide PlanOver, IdSet, DistinctIds, TableOf;
    for i := 0 to |current|
      invariant PlanOver(have, want, ops, want.Keys + IdSet(current[..i]))
    {
      var e := current[i];
      DeletionStep(current, have, want, ops, i);
      if e.id !in want {
        ops := ops + [Operation(Deletion, e.id, e.name)];
      }
    }
    assert current[..|current|] == current;
  }

  /** planRestoreLocked, once the archive is accepted. */
  method PlanRestore(current: seq<Tunnel>, archive: seq<Tunnel>) returns (ops: seq<Operation>)
    requires DistinctIds(current) && DistinctIds(archive)
    ensures PlanFor(TableOf(current), TableOf(archive), ops) && Ascending(NotAfter, ops)
  {
    var currentById := Index(current);
    var desiredById := Index(archive);
    TableOfList(archive);
    var planned := PlanArchive(currentById, archive);
    planned := PlanDeletions(current, desiredById, planned);
    PlanIsOrdered(planned);
    SortedPlan(currentById, desiredById, planned, SortStable(Before, planned));
    ops := SortStable(Before, planned);
  }

  lemma ListStep(rs: seq<Tunnel>, i: nat)
    requires i < |rs|
    ensures IdSet(rs[..i + 1]) == IdSet(rs[..i]) + {rs[i].id}
    ensures DistinctIds(rs) ==> rs[i].id !in IdSet(rs[..i])
  {
    assert rs[..i + 1] == rs[..i] + [rs[i]];
  }

  // ---- Carrying it out ----

  /** One deletion of managed objects and record: whether the backend tears down, and how the disk behaves. */
  datatype Attempt = Attempt(teardown: bool, disk: Disk)

  /** Why a step did not succeed. */
  datatype Cause = Backend | FromStore(outcome: Outcome)

  datatype Verdict = Rejected | Checked | Applied | RolledBack(cause: Cause)

  /** Identifiers the plan deletes, and those it creates. */
  function Gone(ops: seq<Operation>): set<string> { set o | o in ops && o.action in {Deletion, Replacement} :: o.id }

  function Made(ops: seq<Operation>): set<string> { set o | o in ops && o.action in {Creation, Replacement} :: o.id }

  /** The table with the records of `ids` as in want. */
  function Joined(base: Table, want: Table, ids: set<string>): Table
    requires ids <= want.Keys
  {
    map id | id in base.Keys + ids :: if id in ids then want[id] else base[id]
  }

  /** Records deleted so far are those of `have` under these identifiers, each once. */
  ghost predicate Holds(rs: seq<Tunnel>, table: Table, ids: set<string>) {
    DistinctIds(rs) && IdSet(rs) == ids && forall r | r in rs :: r.id in table && table[r.id] == r
  }

  lemma HoldsOneMore(rs: seq<Tunnel>, table: Table, ids: set<string>, r: Tunnel)
    requires Holds(rs, table, ids) && r.id in table && table[r.id] == r && r.id !in ids
    ensures Holds(rs + [r], table, ids + {r.id})
  {
    assert forall x | x in rs :: x.id in IdSet(rs);
  }

  lemma GoneStep(ops: seq<Operation>, i: nat)
    requires i < |ops|
    ensures Gone(ops[..i + 1]) == Gone(ops[..i]) + if ops[i].action in {Deletion, Replacement} then {ops[i].id} else {}
    ensures Made(ops[..i + 1]) == Made(ops[..i]) + if ops[i].action in {Creation, Replacement} then {ops[i].id} else {}
  {
    assert ops[..i + 1] == ops[..i] + [ops[i]];
  }

  lemma PlannedSets(have: Table, want: Table, ops: seq<Operation>, i: nat)
    requires PlanFor(have, want, ops) && i < |ops|
    ensures Gone(ops[..i]) <= have.Keys && Made(ops[..i]) <= want.Keys
    ensures ops[i].id !in Gone(ops[..i]) && ops[i].id !in Made(ops[..i])
    ensures Planned(have, want, ops[i])
  {
    forall o | o in ops[..i]
      ensures o.id != ops[i].id && Planned(have, want, o)
    {
      var j :| 0 <= j < i && ops[j] == o;
      if o.id == ops[i].id {
        PlannedOnce(have, want, o, ops[i]);
      }
    }
  }

  lemma AllPlanned(have: Table, want: Table, ops: seq<Operation>)
    requires PlanFor(have, want, ops)
    ensures Gone(ops) <= have.Keys && Made(ops) <= want.Keys
    ensures forall id | id in have - Gone(ops) :: id in want && have[id] == want[id]
    ensures Joined(have - Gone(ops), want, Made(ops)) == want
    ensures (have - Gone(ops)).Keys !! Made(ops)
  {
    forall id | id in have.Keys + want.Keys
      ensures id in Gone(ops) <==> id in have && (id !in want || have[id] != want[id])
      ensures id in Made(ops) <==> id in want && (id !in have || have[id] != want[id])
    {
      assert id in OpIds(ops);
      var o :| o in ops && o.id == id;
      assert Planned(have, want, o);
      assert forall p | p in ops && p.id == id :: p == o by {
        forall p | p in ops && p.id == id
          ensures p == o
        {
          PlannedOnce(have, want, p, o);
        }
      }
    }
  }

  /** reconciler.Delete: nothing happens unless the record is there in the expected generation and the backend
      tears its objects down. */
  function ManagedDelete(env: Env, s: Table, id: string, expected: nat, a: Attempt): (Option<Cause>, Table) {
    if !env.validId(id) || id !in s then (Some(FromStore(Missing)), s)
    else if s[id].generation != expected then (Some(FromStore(Refused)), s)
    else if !a.teardown then (Some(Backend), s)
    else
      var r := DeleteIn(env, s, id, expected, a.disk);
      (if r.outcome == Done then None else Some(FromStore(r.outcome)), r.table)
  }

  /** No operation of the store is refused and none fails, whatever is left undone. */
  ghost predicate Working(disks: nat -> Disk) { forall n: nat :: disks(n) == WORKING }

  /** A failing operation is undone. */
  ghost predicate Undoing(attempts: nat -> Attempt) { forall n: nat :: attempts(n).disk.undo }

  /** Neither backend nor disk fails. */
  ghost predicate Succeeding(attempts: nat -> Attempt) { forall n: nat :: attempts(n).teardown && attempts(n).disk == WORKING }

  lemma DeleteOfStored(env: Env, s: Table, id: string, a: Attempt)
    requires Consistent(env, s) && id in s
    ensures var r := ManagedDelete(env, s, id, s[id].generation, a);
            && (r.0.None? ==> r.1 == s - {id})
            && (r.0.Some? ==> r.0.value in {Backend, FromStore(Failed)} && (a.disk.undo ==> r.1 == s))
            && (a.teardown && a.disk == WORKING ==> r.0.None?)
  {
    assert s[id] in Stored(s) && Valid(env, s[id]);
  }

  /** A record that belongs to a consistent table around the present one can be created. */
  lemma CreateIsNotRefused(env: Env, s: Table, r: Tunnel, around: Table, disk: StoreState.Disk)
    requires Consistent(env, around) && r.id in around && around[r.id] == r && r.id !in s
    requires forall id | id in s :: id in around && s[id] == around[id]
    ensures CreateIn(env, s, r, disk).outcome in {Done, Failed}
    ensures disk == WORKING ==> CreateIn(env, s, r, disk) == Result(Done, s[r.id := r])
    ensures CreateIn(env, s, r, disk).outcome == Done ==> CreateIn(env, s, r, disk).table == s[r.id := r]
    ensures CreateIn(env, s, r, disk).outcome == Failed && disk.undo ==> CreateIn(env, s, r, disk).table == s
  {
    hide Fits, Clash, TotalClaims;
    assert r in Stored(around);
    assert Valid(env, r);
    hide Valid, Acceptable;
    PartIsConsistent(env, s, around);
    PartIsConsistent(env, s[r.id := r], around);
    FitsIffConsistent(env, s, r);
  }

  class Manager {
    const store: FileStore

    constructor (store: FileStore)
      ensures this.store == store
    {
      this.store := store;
    }

    method DeleteManaged(id: string, expected: nat, a: Attempt) returns (cause: Option<Cause>)
      requires store.Valid()
      modifies store`files
      ensures (cause, store.files) == ManagedDelete(store.env, old(store.files), id, expected, a) && store.Valid()
    {
      hide Consistent;
      var current := store.Get(id);
      if current.None? {
        return Some(FromStore(Missing));
      }
      if current.value.generation != expected {
        return Some(FromStore(Refused));
      }
      if !a.teardown {
        return Some(Backend);
      }
      var outcome := store.Delete(id, expected, a.disk);
      return if outcome == Done then None else Some(FromStore(outcome));
    }

    /** Created records go in reverse order. */
    method UndoCreations(created: seq<Tunnel>, ghost rest: Table, disks: nat -> StoreState.Disk)
      requires store.Valid() && DistinctIds(created)
      modifies store`files
      ensures store.Valid()
      ensures Working(disks) && Reverts(old(store.files), created, rest) ==> store.files == rest
    {
      hide Consistent;
      ghost var good := Working(disks) && Reverts(store.files, created, rest);
      assert created[..|created|] == created;
      for i := |created| downto 0
        invariant store.Valid()
        invariant good ==> Reverts(store.files, created[..i], rest)
      {
        ghost var before := store.files;
        var _ := store.Delete(created[i].id, created[i].generation, disks(i));
        if good {
          UndoneCreation(store.env, before, created, i, rest);
        }
      }
      assert IdSet(created[..0]) == {};
    }

    /** Deleted records come back, in the order in which they went. */
    method UndoDeletions(deleted: seq<Tunnel>, ghost have: Table, disks: nat -> StoreState.Disk)
      requires store.Valid() && !store.env.validId("") && Consistent(store.env, have) && DistinctIds(deleted)
      requires forall r | r in deleted :: r.id in have && have[r.id] == r
      modifies store`files
      ensures store.Valid()
      ensures Working(disks) && old(store.files) == have - IdSet(deleted) ==> store.files == have
    {
      hide Consistent;
      ghost var good := Working(disks) && store.files == have - IdSet(deleted);
      assert deleted[0..] == deleted;
      for i := 0 to |deleted|
        invariant store.Valid()
        invariant good ==> store.files == have - IdSet(deleted[i..])
      {
        TailStep(deleted, i);
        ghost var before := store.files;
        var _ := store.Create(deleted[i], disks(i));
        if good {
          ReturnedDeletion(store.env, before, deleted, i, have);
        }
      }
      assert IdSet(deleted[|deleted|..]) == {};
    }

    /** rollbackRestoreLocked. With a working disk no step is refused, and the table of before the restore is back,
        generations included. */
    method Rollback(created: seq<Tunnel>, deleted: seq<Tunnel>, ghost have: Table, disks: nat -> StoreState.Disk)
      requires store.Valid() && !store.env.validId("") && Consistent(store.env, have)
      requires DistinctIds(created) && Holds(deleted, have, IdSet(deleted))
      modifies store`files
      ensures store.Valid()
      ensures Working(disks) && Reverts(old(store.files), created, have - IdSet(deleted)) ==> store.files == have
    {
      hide Consistent, Reverts;
      UndoCreations(created, have - IdSet(deleted), disks);
      UndoDeletions(deleted, have, (n: nat) => disks(|created| + n));
    }

    /** First phase: deletions, and the deletions of replacements. */
    method DeletePhase(ops: seq<Operation>, have: Table, ghost want: Table, attempts: nat -> Attempt)
      returns (deleted: seq<Tunnel>, cause: Option<Cause>)
      requires store.Valid() && store.files == have && PlanFor(have, want, ops)
      modifies store`files
      ensures store.Valid() && Holds(deleted, have, IdSet(deleted))
      ensures cause.None? ==> store.files == have - Gone(ops) && IdSet(deleted) == Gone(ops)
      ensures cause.Some? ==> cause.value in {Backend, FromStore(Failed)}
      ensures Undoing(attempts) ==> store.files == have - IdSet(deleted)
      ensures Succeeding(attempts) ==> cause.None?
    {
      hide Consistent, PlanFor;
      deleted := [];
      assert Gone(ops[..0]) == {};
      for i := 0 to |ops|
        invariant store.Valid()
        invariant store.files == have - Gone(ops[..i]) && Holds(deleted, have, Gone(ops[..i]))
      {
        PlannedSets(have, want, ops, i);
        GoneStep(ops, i);
        if ops[i].action == Deletion || ops[i].action == Replacement {
          var record := have[ops[i].id];
          DeleteOfStored(store.env, store.files, ops[i].id, attempts(i));
          KeyOf(store.env, store.files, ops[i].id);
          var failed := DeleteManaged(record.id, record.generation, attempts(i));
          if failed.Some? {
            return deleted, failed;
          }
          HoldsOneMore(deleted, have, Gone(ops[..i]), record);
          deleted := deleted + [record];
        }
      }
      assert ops[..|ops|] == ops;
      return deleted, None;
    }

    /** Second phase: creations, and the creations of replacements. No creation is refused. */
    method CreatePhase(ops: seq<Operation>, ghost have: Table, want: Table, ghost base: Table, disks: nat -> StoreState.Disk)
      returns (created: seq<Tunnel>, cause: Option<Cause>)
      requires store.Valid() && !store.env.validId("") && store.files == base && PlanFor(have, want, ops)
      requires Consistent(store.env, want) && base == have - Gone(ops)
      modifies store`files
      ensures store.Valid() && Holds(created, want, IdSet(created))
      ensures cause.None? ==> store.files == want
      ensures cause.Some? ==> cause.value == FromStore(Failed)
      ensures (forall n: nat :: disks(n).undo) ==> Reverts(store.files, created, base)
      ensures Working(disks) ==> cause.None?
    {
      hide Consistent, PlanFor, CreateIn, Joined, Reverts;
      created := [];
      AllPlanned(have, want, ops);
      NothingJoined(base, want, ops);
      for i := 0 to |ops|
        invariant store.Valid()
        invariant Made(ops[..i]) <= want.Keys && store.files == Joined(base, want, Made(ops[..i]))
        invariant Holds(created, want, Made(ops[..i]))
      {
        PlannedSets(have, want, ops, i);
        GoneStep(ops, i);
        MadeWithin(ops, i);
        if ops[i].action == Creation || ops[i].action == Replacement {
          var record := want[ops[i].id];
          JoinsOneMore(store.env, base, want, Made(ops), Made(ops[..i]), ops[i].id, disks(i));
          CreatedReverts(base, want, created, Made(ops[..i]));
          var outcome := store.Create(record, disks(i));
          if outcome != Done {
            return created, Some(FromStore(outcome));
          }
          HoldsOneMore(created, want, Made(ops[..i]), record);
          created := created + [record];
        } else {
          assert Made(ops[..i + 1]) == Made(ops[..i]);
        }
      }
      assert ops[..|ops|] == ops;
      CreatedReverts(base, want, created, Made(ops));
      return created, None;
    }

    /** A restore either is turned down before it changes anything, or leaves exactly the archive's records, or is
        rolled back. It is never the store that refuses a step, and with a disk that undoes what fails the rollback
        leaves exactly the records of before. */
    method RestoreBackup(archive: seq<Tunnel>, intact: bool, check: bool, attempts: nat -> Attempt,
                         creations: nat -> StoreState.Disk, undo: nat -> StoreState.Disk) returns (v: Verdict)
      requires store.Valid() && !store.env.validId("")
      modifies store`files
      ensures store.Valid()
      ensures v == Rejected <==> !(intact && AcceptableList(store.env, archive))
      ensures v == Checked <==> intact && AcceptableList(store.env, archive) && check
      ensures v in {Rejected, Checked} ==> store.files == old(store.files)
      ensures v == Applied ==> store.files == TableOf(archive)
      ensures v.RolledBack? ==> v.cause in {Backend, FromStore(Failed)}
      ensures Succeeding(attempts) && Working(creations) ==> !v.RolledBack?
      ensures v.RolledBack? && Undoing(attempts) && (forall n: nat :: creations(n).undo) && Working(undo) ==>
                store.files == old(store.files)
    {
      hide Consistent, AcceptableList, PlanFor, Reverts;
      if !intact {
        return Rejected;
      }
      var ok := ValidateRecordSet(store.env, archive);
      if !ok {
        return Rejected;
      }
      AcceptedListIsConsistent(store.env, archive);
      var current := store.List();
      ListedTable(store.env, store.files, current);
      var ops := PlanRestore(current, archive);
      if check {
        return Checked;
      }
      var have := Index(current);
      var want := Index(archive);
      var deleted, cause := DeletePhase(ops, have, want, attempts);
      if cause.Some? {
        NothingCreated(store.files);
        Rollback([], deleted, have, undo);
        return RolledBack(cause.value);
      }
      var created, cause' := CreatePhase(ops, have, want, have - Gone(ops), creations);
      if cause'.Some? {
        Rollback(created, deleted, have, undo);
        return RolledBack(cause'.value);
      }
      return Applied;
    }
  }

  /** Taking the created records out of the table leaves the rest. */
  ghost predicate Reverts(s: Table, created: seq<Tunnel>, rest: Table) {
    && (forall r | r in created :: r.id in s && s[r.id] == r)
    && s - IdSet(created) == rest
  }

  lemma NothingCreated(s: Table)
    ensures Reverts(s, [], s)
  {
    assert s - IdSet([]) == s;
  }

  lemma KeyOf(env: Env, s: Table, id: string)
    requires Consistent(env, s) && id in s
    ensures s[id].id == id
  {
  }

  lemma NothingJoined(base: Table, want: Table, ops: seq<Operation>)
    ensures Made(ops[..0]) == {} && Joined(base, want, {}) == base && Holds([], want, {})
  {
    assert Made(ops[..0]) == {};
  }

  lemma JoinsOneMore(env: Env, base: Table, want: Table, all: set<string>, ids: set<string>, id: string, disk: StoreState.Disk)
    requires Consistent(env, want) && ids <= all <= want.Keys && id in all && id !in ids && base.Keys !! all
    requires Joined(base, want, all) == want
    ensures want[id].id == id
    ensures var r := CreateIn(env, Joined(base, want, ids), want[id], disk);
            && r.outcome in {Done, Failed}
            && (r.outcome == Done ==> r.table == Joined(base, want, ids + {id}))
            && (r.outcome == Failed && disk.undo ==> r.table == Joined(base, want, ids))
            && (disk == WORKING ==> r.outcome == Done)
  {
    hide CreateIn, Consistent, Joined;
    KeyOf(env, want, id);
    JoinStep(base, want, all, ids, id);
    CreateIsNotRefused(env, Joined(base, want, ids), want[id], want, disk);
  }

  lemma JoinStep(base: Table, want: Table, all: set<string>, ids: set<string>, id: string)
    requires ids <= all <= want.Keys && id in all && id !in ids && base.Keys !! all && Joined(base, want, all) == want
    ensures var s := Joined(base, want, ids);
            && id !in s && s[id := want[id]] == Joined(base, want, ids + {id})
            && forall j | j in s :: j in want && s[j] == want[j]
  {
    var s := Joined(base, want, ids);
    forall j | j in s
      ensures j in want && s[j] == want[j]
    {
      assert j in Joined(base, want, all);
    }
  }

  lemma MadeWithin(ops: seq<Operation>, i: nat)
    requires i < |ops|
    ensures Made(ops[..i + 1]) <= Made(ops)
  {
  }

  lemma CreatedReverts(base: Table, want: Table, created: seq<Tunnel>, ids: set<string>)
    requires ids <= want.Keys && Holds(created, want, ids) && base.Keys !! ids
    ensures Reverts(Joined(base, want, ids), created, base)
  {
    assert forall r | r in created :: r.id in IdSet(created);
  }

  lemma ListedTable(env: Env, s: Table, rs: seq<Tunnel>)
    requires Consistent(env, s) && AsSet(rs) == Stored(s) && Distinct(rs)
    ensures DistinctIds(rs) && TableOf(rs) == s
  {
    hide Valid, Clash, TotalClaims;
    forall r | r in rs
      ensures r.id in s && s[r.id] == r
    {
      assert r in AsSet(rs);
      var id :| id in s && s[id] == r;
    }
    TableOfList(rs);
    forall id | id in s
      ensures id in TableOf(rs)
    {
      assert s[id] in AsSet(rs);
    }
  }

  lemma ReturnedDeletion(env: Env, s: Table, deleted: seq<Tunnel>, i: nat, have: Table)
    requires Consistent(env, have) && i < |deleted| && DistinctIds(deleted) && s == have - IdSet(deleted[i..])
    requires forall r | r in deleted :: r.id in have && have[r.id] == r
    ensures CreateIn(env, s, deleted[i], WORKING) == Result(Done, have - IdSet(deleted[i + 1..]))
  {
    hide Consistent, CreateIn, Working;
    TailStep(deleted, i);
    CreateIsNotRefused(env, s, deleted[i], have, WORKING);
    assert s[deleted[i].id := deleted[i]] == have - IdSet(deleted[i + 1..]);
  }

  lemma UndoneCreation(env: Env, s: Table, created: seq<Tunnel>, i: nat, rest: Table)
    requires Consistent(env, s) && i < |created| && DistinctIds(created) && Reverts(s, created[..i + 1], rest)
    ensures var c := created[i];
            DeleteIn(env, s, c.id, c.generation, WORKING) == Result(Done, s - {c.id}) && Reverts(s - {c.id}, created[..i], rest)
  {
    ListStep(created, i);
    var c := created[i];
    assert created[..i + 1][i] == c;
    assert s[c.id] in Stored(s) && Valid(env, s[c.id]);
    hide Valid, Clash, TotalClaims;
    forall r | r in created[..i]
      ensures r in created[..i + 1] && r.id != c.id
    {
      var j :| 0 <= j < i && created[j] == r;
      assert created[..i + 1][j] == r;
    }
  }

  lemma TailStep(rs: seq<Tunnel>, i: nat)
    requires i < |rs|
    ensures IdSet(rs[i..]) == IdSet(rs[i + 1..]) + {rs[i].id}
    ensures DistinctIds(rs) ==> rs[i].id !in IdSet(rs[i + 1..])
  {
    assert rs[i..] == [rs[i]] + rs[i + 1..];
  }
}
