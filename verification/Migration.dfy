/** Migration of the record directory when the store is opened. It first plans, in memory, what every record becomes,
    and only then rewrites records one by one; an interrupted migration is taken up where it stopped. */
module Migration {
  import opened Lists
  import opened Net
  import opened Records
  import opened Ownership
  import opened Allocation
  import opened Legacy

  const SCHEMA_2 := 2
  const SCHEMA_3 := 3

  /** What a record file holds. In the older schemas the record has neither Babel nor MPTCP settings, and the SRv6
      part of schema 2 is of its own kind. */
  datatype Content =
    | Present(record: Tunnel)
    | Schema3(record: Tunnel)
    | Schema2(record: Tunnel, srv6: Option<Srv6Schema2>)
    | Garbage

  /** The files of the directory, in the order of their names. */
  datatype File = File(id: string, content: Content)

  /** A decoded record: the schema it was stored in, its present form, and whether it must be rewritten. */
  datatype Item = Item(version: int, record: Tunnel, rewrite: bool)

  // ---- Decoding ----

  function Migrate2(feeds: Feeds, t: Tunnel, srv6: Option<Srv6Schema2>): Option<Tunnel> {
    var plain := t.(schema := SCHEMA, name := PrefixedName(t.kind, t.name), spec := t.spec.(srv6 := None, babel := None, mptcp := None));
    if srv6.None? then Some(plain)
    else
      var v := srv6.value;
      var sources := MigrateSources(feeds, v.baseUrl, v.sources);
      if sources.None? then None
      else Some(plain.(spec := plain.spec.(srv6 := Some(Srv6(v.table, 0, v.refresh, sources.value, v.rest)))))
  }

  function Migrate3(t: Tunnel): Tunnel {
    t.(schema := SCHEMA,
       spec := t.spec.(babel := None, mptcp := None,
                       srv6 := if t.spec.srv6.None? then None
                               else Some(t.spec.srv6.value.(rulePriority := 0, sources := Normalized(t.spec.srv6.value.sources)))))
  }

  function Prefixed(version: int, t: Tunnel): Item {
    var name := PrefixedName(t.kind, t.name);
    Item(version, t.(name := name), version != SCHEMA || name != t.name)
  }

  /** The first loop of migrateRecords for one file; None is an error. A present record must be valid as it is. */
  function Decode(env: Env, feeds: Feeds, f: File): Option<Item> {
    if !env.validId(f.id) then None
    else
      match f.content
      case Garbage => None
      case Present(t) => if Valid(env, t) && t.id == f.id then Some(Prefixed(SCHEMA, t)) else None
      case Schema3(t) => if t.id == f.id then Some(Prefixed(SCHEMA_3, Migrate3(t))) else None
      case Schema2(t, srv6) =>
        var m := Migrate2(feeds, t, srv6);
        if m.Some? && m.value.id == f.id then Some(Prefixed(SCHEMA_2, m.value)) else None
  }

  predicate Decodable(env: Env, feeds: Feeds, files: seq<File>) {
    |files| <= MAX_RECORDS && forall i | 0 <= i < |files| :: Decode(env, feeds, files[i]).Some?
  }

  function Items(env: Env, feeds: Feeds, files: seq<File>): (r: seq<Item>)
    requires Decodable(env, feeds, files)
    ensures |r| == |files| && forall i | 0 <= i < |files| :: Some(r[i]) == Decode(env, feeds, files[i])
  {
    seq(|files|, i requires 0 <= i < |files| => Decode(env, feeds, files[i]).value)
  }

  // ---- Priorities ----

  predicate IsSrv6(t: Tunnel) { t.kind == Srv6Kind && t.spec.srv6.Some? }

  function PriorityOf(t: Tunnel): int
    requires IsSrv6(t)
  {
    t.spec.srv6.value.rulePriority
  }

  /** Priorities of the records that were in the present schema already. */
  function Taken(items: seq<Item>): set<int> {
    set x | x in items && x.version == SCHEMA && IsSrv6(x.record) :: PriorityOf(x.record)
  }

  predicate NoneShared(items: seq<Item>) {
    forall i, j | 0 <= i < j < |items| && items[i].version == SCHEMA && items[j].version == SCHEMA
                  && IsSrv6(items[i].record) && IsSrv6(items[j].record) ::
      PriorityOf(items[i].record) != PriorityOf(items[j].record)
  }

  predicate NeedsPriority(t: Tunnel) { IsSrv6(t) && PriorityOf(t) == 0 }

  function WithPriority(t: Tunnel, p: int): Tunnel
    requires IsSrv6(t)
  {
    t.(spec := t.spec.(srv6 := Some(t.spec.srv6.value.(rulePriority := p))))
  }

  /** The records from i on, those without a priority given the least free one in turn; None is an error. */
  function Assigned(items: seq<Item>, i: nat, used: set<int>): (r: Option<seq<Tunnel>>)
    requires i <= |items|
    ensures r.Some? ==> |r.value| == |items| - i
    decreases |items| - i
  {
    if i == |items| then Some([])
    else if NeedsPriority(items[i].record) then
      var p := LeastFree(used, AUTO_MIN, AUTO_MAX);
      if p.None? then None
      else
        var rest := Assigned(items, i + 1, used + {p.value});
        if rest.None? then None else Some([WithPriority(items[i].record, p.value)] + rest.value)
    else
      var rest := Assigned(items, i + 1, used);
      if rest.None? then None else Some([items[i].record] + rest.value)
  }

  predicate DistinctNames(ts: seq<Tunnel>) { forall i, j | 0 <= i < j < |ts| :: ts[i].name != ts[j].name }

  /** What every record becomes; None is an error, which leaves all files alone. */
  function Plan(env: Env, feeds: Feeds, files: seq<File>): Option<seq<Tunnel>> {
    if !Decodable(env, feeds, files) then None
    else
      var items := Items(env, feeds, files);
      if !NoneShared(items) then None
      else
        var final := Assigned(items, 0, Taken(items));
        if final.Some? && (forall t | t in final.value :: Valid(env, t)) && DistinctNames(final.value) then final else None
  }

  /** The directory when the first m files are as planned. */
  function Committed(files: seq<File>, final: seq<Tunnel>, m: nat): (r: seq<File>)
    requires |final| == |files| && m <= |files|
    ensures |r| == |files|
  {
    seq(|files|, i requires 0 <= i < |files| => if i < m then File(files[i].id, Present(final[i])) else files[i])
  }

  // ---- Resuming ----

  /** Only the priority of an item changes. */
  lemma {:induction false} AssignedKeeps(items: seq<Item>, i: nat, used: set<int>, j: nat)
    requires i <= j < |items| && Assigned(items, i, used).Some?
    ensures var t := Assigned(items, i, used).value[j - i];
            && (!NeedsPriority(items[j].record) ==> t == items[j].record)
            && (NeedsPriority(items[j].record) ==> exists p :: p != 0 && t == WithPriority(items[j].record, p))
    decreases |items| - i
  {
    if i < j {
      var p := LeastFree(used, AUTO_MIN, AUTO_MAX);
      AssignedKeeps(items, i + 1, if NeedsPriority(items[i].record) then used + {p.value} else used, j);
    } else if NeedsPriority(items[i].record) {
      var p := LeastFree(used, AUTO_MIN, AUTO_MAX).value;
      assert p != 0 && Assigned(items, i, used).value[0] == WithPriority(items[i].record, p);
    }
  }

  function RecordsOf(items: seq<Item>, i: nat, m: nat): (r: seq<Tunnel>)
    requires i <= m <= |items|
    ensures |r| == m - i && forall k | 0 <= k < m - i :: r[k] == items[i + k].record
    decreases m - i
  {
    if i == m then [] else [items[i].record] + RecordsOf(items, i + 1, m)
  }

  /** Items before m that need nothing do not influence what comes after. */
  lemma {:induction false} AssignedSkips(items: seq<Item>, i: nat, m: nat, used: set<int>)
    requires i <= m <= |items| && forall j | i <= j < m :: !NeedsPriority(items[j].record)
    ensures Assigned(items, i, used).Some? <==> Assigned(items, m, used).Some?
    ensures Assigned(items, m, used).Some? ==> Assigned(items, i, used).value == RecordsOf(items, i, m) + Assigned(items, m, used).value
    decreases m - i
  {
    if i < m {
      AssignedSkips(items, i + 1, m, used);
    }
  }

  /** Later items decide alike in two lists that agree on them. */
  lemma {:induction false} AssignedDepends(a: seq<Item>, b: seq<Item>, i: nat, used: set<int>)
    requires |a| == |b| && i <= |a| && forall j | i <= j < |a| :: a[j].record == b[j].record
    ensures Assigned(a, i, used) == Assigned(b, i, used)
    decreases |a| - i
  {
    if i < |a| {
      AssignedDepends(a, b, i + 1, used);
      var p := LeastFree(used, AUTO_MIN, AUTO_MAX);
      if p.Some? {
        AssignedDepends(a, b, i + 1, used + {p.value});
      }
    }
  }

  /** A planned record, once written, decodes to itself and needs no rewriting. */
  lemma WrittenDecodes(env: Env, feeds: Feeds, id: string, t: Tunnel)
    requires Valid(env, t) && t.id == id && PrefixedName(t.kind, t.name) == t.name
    ensures Decode(env, feeds, File(id, Present(t))) == Some(Item(SCHEMA, t, false))
  {
    hide Valid;
    assert env.validId(id) by { ValidHasId(env, t); }
  }

  lemma ValidHasId(env: Env, t: Tunnel)
    requires Valid(env, t)
    ensures env.validId(t.id) && (IsSrv6(t) ==> PriorityOf(t) != 0)
  {
  }

  lemma DecodedIsPrefixed(env: Env, feeds: Feeds, f: File)
    requires Decode(env, feeds, f).Some?
    ensures var x := Decode(env, feeds, f).value;
            x.record.id == f.id && PrefixedName(x.record.kind, x.record.name) == x.record.name
  {
    hide Valid, MigrateSources;
    match f.content
    case Garbage =>
    case Present(t) => PrefixedOnce(t.kind, t.name);
    case Schema3(t) => PrefixedOnce(t.kind, t.name);
    case Schema2(t, srv6) => PrefixedOnce(t.kind, PrefixedName(t.kind, t.name));
  }

  /** A record from an older schema has no priority yet. */
  lemma OldHasNoPriority(env: Env, feeds: Feeds, f: File)
    requires Decode(env, feeds, f).Some?
    ensures var x := Decode(env, feeds, f).value; x.version != SCHEMA && IsSrv6(x.record) ==> PriorityOf(x.record) == 0
    ensures var x := Decode(env, feeds, f).value; x.version == SCHEMA && IsSrv6(x.record) ==> PriorityOf(x.record) != 0
  {
    if f.content.Present? && Valid(env, f.content.record) {
      ValidHasId(env, f.content.record);
    }
    hide Valid, MigrateSources, PrefixedName;
  }

  /** The items after the m-th file is written: one item is now present, with its planned record. */
  lemma ItemsAfterWrite(env: Env, feeds: Feeds, files: seq<File>, m: nat, t: Tunnel)
    requires Decodable(env, feeds, files) && m < |files|
    requires Decode(env, feeds, File(files[m].id, Present(t))) == Some(Item(SCHEMA, t, false))
    ensures var next := files[m := File(files[m].id, Present(t))];
            Decodable(env, feeds, next) && Items(env, feeds, next) == Items(env, feeds, files)[m := Item(SCHEMA, t, false)]
  {
    hide Decode;
  }

  /** The planned record of the first item that is not done yet. */
  lemma NextPlanned(items: seq<Item>, m: nat, used: set<int>, final: seq<Tunnel>)
    requires m < |items| && Assigned(items, 0, used) == Some(final) && forall j | 0 <= j < m :: !NeedsPriority(items[j].record)
    ensures !NeedsPriority(items[m].record) ==> final[m] == items[m].record
    ensures NeedsPriority(items[m].record) ==>
              var p := LeastFree(used, AUTO_MIN, AUTO_MAX);
              p.Some? && p.value !in used && final[m] == WithPriority(items[m].record, p.value)
              && Assigned(items, m + 1, used + {p.value}) == Some(final[m + 1..])
    ensures !NeedsPriority(items[m].record) ==> Assigned(items, m + 1, used) == Some(final[m + 1..])
    ensures final[..m] == RecordsOf(items, 0, m)
  {
    AssignedSkips(items, 0, m, used);
    var tail := Assigned(items, m, used).value;
    assert final == RecordsOf(items, 0, m) + tail;
    assert final[m] == tail[0] && final[m + 1..] == tail[1..];
  }

  /** With the m-th item done and its priority taken, the same records result. */
  lemma SameAfterWrite(items: seq<Item>, m: nat, used: set<int>, final: seq<Tunnel>, used': set<int>)
    requires m < |items| && Assigned(items, 0, used) == Some(final) && forall j | 0 <= j < m :: !NeedsPriority(items[j].record)
    requires !NeedsPriority(final[m]) && IsSrv6(final[m]) == IsSrv6(items[m].record)
    requires used' == if NeedsPriority(items[m].record) then used + {PriorityOf(final[m])} else used
    ensures Assigned(items[m := Item(SCHEMA, final[m], false)], 0, used') == Some(final)
  {
    NextPlanned(items, m, used, final);
    var next := items[m := Item(SCHEMA, final[m], false)];
    AssignedDepends(items, next, m + 1, used');
    AssignedSkips(next, 0, m, used');
    assert RecordsOf(next, 0, m) == RecordsOf(items, 0, m);
    assert final == final[..m] + ([final[m]] + final[m + 1..]);
  }

  lemma TakenAfterWrite(items: seq<Item>, m: nat, t: Tunnel)
    requires m < |items| && IsSrv6(items[m].record) == IsSrv6(t)
    requires items[m].version == SCHEMA ==> t == items[m].record
    ensures Taken(items[m := Item(SCHEMA, t, false)]) ==
            Taken(items) + if items[m].version != SCHEMA && IsSrv6(t) then {PriorityOf(t)} else {}
  {
    var next := items[m := Item(SCHEMA, t, false)];
    assert next[m] in next;
    forall x | x in items && x != items[m]
      ensures x in next
    {
      var i :| 0 <= i < |items| && items[i] == x;
      assert next[i] == x;
    }
    forall x | x in next && x != next[m]
      ensures x in items
    {
    }
  }

  lemma SharedAfterWrite(items: seq<Item>, m: nat, t: Tunnel)
    requires m < |items| && NoneShared(items)
    requires items[m].version == SCHEMA ==> t == items[m].record
    requires items[m].version != SCHEMA && IsSrv6(t) ==> PriorityOf(t) !in Taken(items)
    ensures NoneShared(items[m := Item(SCHEMA, t, false)])
  {
    forall i | 0 <= i < |items| && items[i].version == SCHEMA && IsSrv6(items[i].record)
      ensures PriorityOf(items[i].record) in Taken(items)
    {
      assert items[i] in items;
    }
  }

  /** One more file written: the plan is the same. */
  lemma WriteKeepsPlan(env: Env, feeds: Feeds, files: seq<File>, m: nat, final: seq<Tunnel>)
    requires Plan(env, feeds, files) == Some(final) && m < |files|
    requires forall j | 0 <= j < m :: files[j].content.Present?
    ensures Plan(env, feeds, files[m := File(files[m].id, Present(final[m]))]) == Some(final)
  {
    hide Valid, Decode, PrefixedName, DistinctNames;
    var items, t := Items(env, feeds, files), final[m];
    forall j | 0 <= j < m
      ensures !NeedsPriority(items[j].record)
    {
      PresentNeedsNothing(env, feeds, files[j]);
    }
    NextPlanned(items, m, Taken(items), final);
    assert t in final;
    ValidHasId(env, t);
    DecodedIsPrefixed(env, feeds, files[m]);
    OldHasNoPriority(env, feeds, files[m]);
    assert t.id == files[m].id && PrefixedName(t.kind, t.name) == t.name && IsSrv6(t) == IsSrv6(items[m].record);
    WrittenDecodes(env, feeds, files[m].id, t);
    ItemsAfterWrite(env, feeds, files, m, t);
    TakenAfterWrite(items, m, t);
    SharedAfterWrite(items, m, t);
    SameAfterWrite(items, m, Taken(items), final, Taken(items[m := Item(SCHEMA, t, false)]));
  }

  lemma PresentNeedsNothing(env: Env, feeds: Feeds, f: File)
    requires Decode(env, feeds, f).Some? && f.content.Present?
    ensures !NeedsPriority(Decode(env, feeds, f).value.record)
  {
    OldHasNoPriority(env, feeds, f);
    hide Valid, PrefixedName;
  }

  /** Stopping after any number of writes and planning again gives the same records. */
  lemma {:induction false} PlanSurvivesInterruption(env: Env, feeds: Feeds, files: seq<File>, final: seq<Tunnel>, m: nat)
    requires Plan(env, feeds, files) == Some(final) && m <= |files|
    ensures Plan(env, feeds, Committed(files, final, m)) == Some(final)
  {
    hide Plan;
    PlanHasLength(env, feeds, files);
    if m == 0 {
      assert Committed(files, final, 0) == files;
    } else {
      PlanSurvivesInterruption(env, feeds, files, final, m - 1);
      var before := Committed(files, final, m - 1);
      assert Committed(files, final, m) == before[m - 1 := File(before[m - 1].id, Present(final[m - 1]))];
      WriteKeepsPlan(env, feeds, before, m - 1, final);
    }
  }

  lemma PlanHasLength(env: Env, feeds: Feeds, files: seq<File>)
    requires Plan(env, feeds, files).Some?
    ensures |Plan(env, feeds, files).value| == |files|
  {
  }

  // ---- Allocation ----

  /** The list fits the number of priorities there are, so allocation cannot run out. */
  lemma {:induction false} AssignedSucceeds(items: seq<Item>, i: nat, used: set<int>)
    requires i <= |items| && |used| + (|items| - i) <= AUTO_MAX - AUTO_MIN + 1
    ensures Assigned(items, i, used).Some?
    decreases |items| - i
  {
    if i < |items| {
      if NeedsPriority(items[i].record) {
        RoomIsFound(used, AUTO_MIN, AUTO_MAX - AUTO_MIN + 1);
        AssignedSucceeds(items, i + 1, used + {LeastFree(used, AUTO_MIN, AUTO_MAX).value});
      } else {
        AssignedSucceeds(items, i + 1, used);
      }
    }
  }

  lemma {:induction false} TakenSize(items: seq<Item>)
    ensures |Taken(items)| <= |items|
  {
    if items == [] {
      assert Taken(items) == {};
    } else {
      var front, x := items[..|items| - 1], items[|items| - 1];
      TakenSize(front);
      assert items == front + [x];
      assert Taken(items) == Taken(front) + (if x.version == SCHEMA && IsSrv6(x.record) then {PriorityOf(x.record)} else {});
    }
  }

  /** Priority allocation never fails: there are more priorities than records. */
  lemma AllocationNeverFails(env: Env, feeds: Feeds, files: seq<File>)
    requires Decodable(env, feeds, files)
    ensures Assigned(Items(env, feeds, files), 0, Taken(Items(env, feeds, files))).Some?
  {
    hide Decode;
    TakenSize(Items(env, feeds, files));
    AssignedSucceeds(Items(env, feeds, files), 0, Taken(Items(env, feeds, files)));
  }

  predicate DistinctPrioritiesOf(ts: seq<Tunnel>) {
    forall i, j | 0 <= i < j < |ts| && IsSrv6(ts[i]) && IsSrv6(ts[j]) :: PriorityOf(ts[i]) != PriorityOf(ts[j])
  }

  /** From i on: priorities given are in use, distinct, and those handed out are neither in use nor alike. */
  lemma {:induction false} AssignedAreDistinct(items: seq<Item>, i: nat, used: set<int>)
    requires i <= |items| && Assigned(items, i, used).Some?
    requires forall j | i <= j < |items| && IsSrv6(items[j].record) && !NeedsPriority(items[j].record) :: PriorityOf(items[j].record) in used
    requires forall j, k | i <= j < k < |items| && IsSrv6(items[j].record) && IsSrv6(items[k].record)
                           && !NeedsPriority(items[j].record) && !NeedsPriority(items[k].record) ::
               PriorityOf(items[j].record) != PriorityOf(items[k].record)
    ensures var r := Assigned(items, i, used).value;
            && DistinctPrioritiesOf(r)
            && forall j | 0 <= j < |r| :: IsSrv6(r[j]) == IsSrv6(items[i + j].record)
                 && (NeedsPriority(items[i + j].record) ==> PriorityOf(r[j]) !in used)
                 && (!NeedsPriority(items[i + j].record) ==> r[j] == items[i + j].record)
    decreases |items| - i
  {
    if i < |items| {
      var r := Assigned(items, i, used).value;
      if NeedsPriority(items[i].record) {
        var p := LeastFree(used, AUTO_MIN, AUTO_MAX).value;
        AssignedAreDistinct(items, i + 1, used + {p});
        var rest := Assigned(items, i + 1, used + {p}).value;
        assert r == [WithPriority(items[i].record, p)] + rest;
      } else {
        AssignedAreDistinct(items, i + 1, used);
        var rest := Assigned(items, i + 1, used).value;
        assert r == [items[i].record] + rest;
      }
    }
  }

  /** After migration no two SRv6 records share a rule priority. */
  lemma PlannedPrioritiesAreDistinct(env: Env, feeds: Feeds, files: seq<File>)
    requires Plan(env, feeds, files).Some?
    ensures DistinctPrioritiesOf(Plan(env, feeds, files).value)
  {
    hide Valid, Decode, PrefixedName, DistinctNames;
    var items := Items(env, feeds, files);
    forall j | 0 <= j < |items| && IsSrv6(items[j].record) && !NeedsPriority(items[j].record)
      ensures items[j].version == SCHEMA && PriorityOf(items[j].record) in Taken(items)
    {
      OldHasNoPriority(env, feeds, files[j]);
      assert items[j] in items;
    }
    AssignedAreDistinct(items, 0, Taken(items));
  }

  // ---- The directory ----

  class RecordDirectory {
    var files: seq<File>

    constructor (files: seq<File>)
      ensures this.files == files
    {
      this.files := files;
    }

    /** First loop: decode every file. */
    method DecodeAll(env: Env, feeds: Feeds) returns (items: Option<seq<Item>>)
      ensures items.Some? <==> Decodable(env, feeds, files)
      ensures items.Some? ==> items.value == Items(env, feeds, files)
    {
      hide Decode;
      var decoded: seq<Item> := [];
      for i := 0 to |files|
        invariant |decoded| == i <= MAX_RECORDS && forall j | 0 <= j < i :: Decode(env, feeds, files[j]) == Some(decoded[j])
      {
        if i + 1 > MAX_RECORDS {
          return None;
        }
        var x := Decode(env, feeds, files[i]);
        if x.None? {
          return None;
        }
        decoded := decoded + [x.value];
      }
      assert decoded == Items(env, feeds, files);
      return Some(decoded);
    }

    /** Second loop: the priorities of the records in the present schema. */
    method TakenPriorities(items: seq<Item>) returns (used: Option<set<int>>)
      ensures used.Some? <==> NoneShared(items)
      ensures used.Some? ==> used.value == Taken(items)
    {
      var taken: set<int> := {};
      for i := 0 to |items|
        invariant taken == Taken(items[..i]) && NoneShared(items[..i])
      {
        assert items[..i + 1] == items[..i] + [items[i]];
        var x := items[i];
        if x.version == SCHEMA && IsSrv6(x.record) {
          var p := PriorityOf(x.record);
          if p in taken {
            var y :| y in items[..i] && y.version == SCHEMA && IsSrv6(y.record) && PriorityOf(y.record) == p;
            return None;
          }
          forall j | 0 <= j < i && items[j].version == SCHEMA && IsSrv6(items[j].record)
            ensures PriorityOf(items[j].record) != p
          {
            assert items[..i][j] in items[..i];
          }
          assert Taken(items[..i + 1]) == Taken(items[..i]) + {p};
          taken := taken + {p};
        } else {
          assert Taken(items[..i + 1]) == Taken(items[..i]);
        }
      }
      assert items[..|items|] == items;
      return Some(taken);
    }

    /** The record of item i with a priority, allocated if it has none. */
    method GivePriority(items: seq<Item>, i: nat, used: set<int>) returns (t: Option<Tunnel>, after: set<int>)
      requires i < |items|
      ensures t.None? ==> Assigned(items, i, used).None?
      ensures t.Some? && Assigned(items, i + 1, after).None? ==> Assigned(items, i, used).None?
      ensures t.Some? && Assigned(items, i + 1, after).Some? ==>
                Assigned(items, i, used) == Some([t.value] + Assigned(items, i + 1, after).value)
    {
      if !NeedsPriority(items[i].record) {
        return Some(items[i].record), used;
      }
      var p := AllocateRulePriority(used);
      if p.None? {
        return None, used;
      }
      return Some(WithPriority(items[i].record, p.value)), used + {p.value};
    }

    /** Third loop: priorities, validation and names. */
    method Finalize(env: Env, items: seq<Item>, taken: set<int>) returns (final: Option<seq<Tunnel>>)
      ensures final.Some? <==> Assigned(items, 0, taken).Some?
                               && (forall t | t in Assigned(items, 0, taken).value :: Valid(env, t))
                               && DistinctNames(Assigned(items, 0, taken).value)
      ensures final.Some? ==> final == Assigned(items, 0, taken)
    {
      hide Valid, Assigned, DistinctNames;
      var used, names := taken, {};
      NoNames();
      AssignedEnd(items);
      var records: seq<Tunnel> := [];
      ghost var whole := Assigned(items, 0, taken);
      assert whole.Some? ==> records + whole.value == whole.value;
      for i := 0 to |items|
        invariant |records| == i && (forall t | t in records :: Valid(env, t)) && DistinctNames(records)
        invariant names == NamesIn(records)
        invariant whole == if Assigned(items, i, used).None? then None else Some(records + Assigned(items, i, used).value)
      {
        var t, after := GivePriority(items, i, used);
        if t.None? {
          return None;
        }
        used := after;
        Pushed(items, i + 1, used, records, t.value, whole);
        if !Valid(env, t.value) || t.value.name in names {
          Spoiled(env, records, t.value, whole);
          return None;
        }
        NamesGrow(records, t.value);
        names := names + {t.value.name};
        records := records + [t.value];
      }
      assert records + [] == records;
      return Some(records);
    }

    /** Last loop: rewrite what must be rewritten. `budget` is how many writes succeed before the process stops. */
    method Commit(items: seq<Item>, final: seq<Tunnel>, budget: nat) returns (done: bool, ghost reached: nat)
      requires |items| == |final| == |files|
      requires forall i | 0 <= i < |files| && !items[i].rewrite :: files[i] == File(files[i].id, Present(final[i]))
      modifies this
      ensures reached <= |final| && files == Committed(old(files), final, reached)
      ensures done ==> reached == |final|
      ensures budget >= |final| ==> done
    {
      var left := budget;
      reached := 0;
      for i := 0 to |final|
        invariant reached == i && |files| == |old(files)| && files == Committed(old(files), final, i)
        invariant left >= budget - i
      {
        if items[i].rewrite {
          if left == 0 {
            return false, i;
          }
          left := left - 1;
          files := files[i := File(files[i].id, Present(final[i]))];
        }
        reached := i + 1;
        assert files == Committed(old(files), final, i + 1);
      }
      return true, |final|;
    }

    /** migrateRecords. A failure to decode, allocate or validate writes nothing. Otherwise the files up to some point
        are as planned, all of them if the process is not stopped; a later run goes on to the very same end. */
    method Migrate(env: Env, feeds: Feeds, budget: nat) returns (done: bool, ghost reached: nat)
      modifies this
      ensures Plan(env, feeds, old(files)).None? ==> !done && files == old(files)
      ensures Plan(env, feeds, old(files)).Some? ==>
                var final := Plan(env, feeds, old(files)).value;
                && |final| == |old(files)| && reached <= |final|
                && files == Committed(old(files), final, reached)
                && (done ==> reached == |final|) && (budget >= |final| ==> done)
                && Plan(env, feeds, files) == Some(final)
    {
      hide Decode, Valid, DistinctNames, Assigned;
      reached := 0;
      var items := DecodeAll(env, feeds);
      if items.None? {
        return false, 0;
      }
      var taken := TakenPriorities(items.value);
      if taken.None? {
        return false, 0;
      }
      var final := Finalize(env, items.value, taken.value);
      if final.None? {
        return false, 0;
      }
      PlanHasLength(env, feeds, files);
      Unrewritten(env, feeds, files, final.value);
      PlanSurvives(env, feeds, files, final.value);
      done, reached := Commit(items.value, final.value, budget);
    }
  }

  lemma PlanSurvives(env: Env, feeds: Feeds, files: seq<File>, final: seq<Tunnel>)
    requires Plan(env, feeds, files) == Some(final) && |final| == |files|
    ensures forall m: nat | m <= |files| :: Plan(env, feeds, Committed(files, final, m)) == Some(final)
  {
    forall m: nat | m <= |files|
      ensures Plan(env, feeds, Committed(files, final, m)) == Some(final)
    {
      PlanSurvivesInterruption(env, feeds, files, final, m);
    }
  }

  /** A file that is not rewritten is as planned already. */
  lemma Unrewritten(env: Env, feeds: Feeds, files: seq<File>, final: seq<Tunnel>)
    requires Plan(env, feeds, files) == Some(final) && |final| == |files|
    ensures forall i | 0 <= i < |files| && !Items(env, feeds, files)[i].rewrite :: files[i] == File(files[i].id, Present(final[i]))
  {
    var items := Items(env, feeds, files);
    forall i | 0 <= i < |files| && !items[i].rewrite
      ensures files[i] == File(files[i].id, Present(final[i]))
    {
      OldHasNoPriority(env, feeds, files[i]);
      AssignedKeeps(items, 0, Taken(items), i);
      NotRewrittenIsPresent(env, feeds, files[i]);
    }
  }

  lemma NotRewrittenIsPresent(env: Env, feeds: Feeds, f: File)
    requires Decode(env, feeds, f).Some? && !Decode(env, feeds, f).value.rewrite
    ensures f.content == Present(Decode(env, feeds, f).value.record) && !NeedsPriority(Decode(env, feeds, f).value.record)
  {
    OldHasNoPriority(env, feeds, f);
    hide Valid, MigrateSources, PrefixedName;
  }

  /** A migration interrupted any number of times ends, once a run completes, in the same directory as one that was
      not interrupted. */
  lemma {:induction false} InterruptedRunsConverge(env: Env, feeds: Feeds, files: seq<File>, final: seq<Tunnel>, reached: seq<nat>)
    requires Plan(env, feeds, files) == Some(final) && |final| == |files| && AllWithin(reached, |files|)
    ensures var there := AfterRuns(files, final, reached);
            && Plan(env, feeds, there) == Some(final)
            && Committed(there, final, |final|) == Committed(files, final, |final|)
  {
    hide Plan;
    if reached != [] {
      var n := |reached| - 1;
      InterruptedRunsConverge(env, feeds, files, final, reached[..n]);
      PlanSurvivesInterruption(env, feeds, AfterRuns(files, final, reached[..n]), final, reached[n]);
      SameIds(files, final, reached[..n]);
      assert Committed(AfterRuns(files, final, reached), final, |final|) == Committed(files, final, |final|);
    }
  }

  predicate AllWithin(reached: seq<nat>, n: nat) { forall k | 0 <= k < |reached| :: reached[k] <= n }

  /** The directory after runs that each reached so far. */
  function AfterRuns(files: seq<File>, final: seq<Tunnel>, reached: seq<nat>): (r: seq<File>)
    requires |final| == |files| && AllWithin(reached, |files|)
    ensures |r| == |files|
  {
    if reached == [] then files
    else
      Committed(AfterRuns(files, final, reached[..|reached| - 1]), final, reached[|reached| - 1])
  }

  lemma {:induction false} SameIds(files: seq<File>, final: seq<Tunnel>, reached: seq<nat>)
    requires |final| == |files| && AllWithin(reached, |files|)
    ensures forall i | 0 <= i < |files| :: AfterRuns(files, final, reached)[i].id == files[i].id
  {
    if reached != [] {
      SameIds(files, final, reached[..|reached| - 1]);
    }
  }

  function NamesIn(ts: seq<Tunnel>): set<string> { set t | t in ts :: t.name }

  lemma NoNames()
    ensures DistinctNames([]) && NamesIn([]) == {}
  {
  }

  lemma NamesGrow(ts: seq<Tunnel>, t: Tunnel)
    requires DistinctNames(ts) && t.name !in NamesIn(ts)
    ensures DistinctNames(ts + [t]) && NamesIn(ts + [t]) == NamesIn(ts) + {t.name}
  {
  }

  lemma AssignedEnd(items: seq<Item>)
    ensures forall used: set<int> :: Assigned(items, |items|, used) == Some([])
  {
  }

  lemma Pushed(items: seq<Item>, i: nat, used: set<int>, records: seq<Tunnel>, t: Tunnel, whole: Option<seq<Tunnel>>)
    requires i <= |items|
    requires whole == if Assigned(items, i, used).None? then None else Some(records + ([t] + Assigned(items, i, used).value))
    ensures whole == if Assigned(items, i, used).None? then None else Some(records + [t] + Assigned(items, i, used).value)
    ensures whole.Some? ==> t in whole.value && records + [t] <= whole.value
  {
    if Assigned(items, i, used).Some? {
      var rest := Assigned(items, i, used).value;
      assert records + ([t] + rest) == records + [t] + rest;
      assert (records + [t] + rest)[|records|] == t;
    }
  }

  lemma Spoiled(env: Env, records: seq<Tunnel>, t: Tunnel, whole: Option<seq<Tunnel>>)
    requires whole.Some? ==> t in whole.value && records + [t] <= whole.value
    requires !Valid(env, t) || exists r :: r in records && r.name == t.name
    ensures whole.Some? ==> !((forall x | x in whole.value :: Valid(env, x)) && DistinctNames(whole.value))
  {
    hide Valid;
    if whole.Some? && Valid(env, t) {
      var r :| r in records && r.name == t.name;
      var j :| 0 <= j < |records| && records[j] == r;
      assert whole.value[j] == (records + [t])[j] && whole.value[|records|] == (records + [t])[|records|];
    }
  }
}
