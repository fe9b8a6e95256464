/** The file store object: one record file per identifier, changed by Create, Update and Delete. */
module Store {
  import opened Lists
  import opened Net
  import opened Records
  import opened Ownership
  import opened RecordSet
  import opened StoreState

  /** The tables a candidate uses and owns, and its routes. */
  datatype Wanted = Wanted(claims: set<Claim>, used: set<int>, exclusive: set<int>)

  ghost predicate WantedBy(env: Env, t: Tunnel, w: Wanted) {
    w.claims == Claims(env, t) && w.exclusive == Exclusive(t) && w.used == Exclusive(t) + TablesOf(Claims(env, t))
  }

  /** The order of a listing: by name, records of one name by identifier. */
  predicate ListedBefore(a: Tunnel, b: Tunnel) {
    if a.name == b.name then StringLess(a.id, b.id) else StringLess(a.name, b.name)
  }

  predicate NotListedAfter(a: Tunnel, b: Tunnel) { !ListedBefore(b, a) }

  lemma ListingAscends(records: seq<Tunnel>)
    ensures Ascending(NotListedAfter, SortStable(ListedBefore, records))
  {
    hide StringLess;
    forall a, b, c | a in records && b in records && c in records
      ensures if ListedBefore(a, b) then NotListedAfter(a, b) else NotListedAfter(b, a)
      ensures NotListedAfter(a, b) && NotListedAfter(b, c) ==> NotListedAfter(a, c)
    {
      ListingIsOrdered(a, b, c);
    }
    SortAscends(ListedBefore, NotListedAfter, records);
  }

  lemma ListingIsOrdered(a: Tunnel, b: Tunnel, c: Tunnel)
    ensures ListedBefore(a, b) ==> NotListedAfter(a, b)
    ensures NotListedAfter(a, b) && NotListedAfter(b, c) ==> NotListedAfter(a, c)
  {
    hide StringLess;
    StringsAreOrdered(a.name, b.name, c.name);
    StringsAreOrdered(c.name, b.name, a.name);
    StringsAreOrdered(a.name, c.name, b.name);
    StringsAreOrdered(b.name, c.name, a.name);
    StringsAreOrdered(a.id, b.id, c.id);
    StringsAreOrdered(c.id, b.id, a.id);
    StringsAreOrdered(a.id, c.id, b.id);
    StringsAreOrdered(b.id, c.id, a.id);
  }

  class FileStore {
    const env: Env
    var files: Table

    ghost predicate Valid()
      reads this
    {
      Consistent(env, files)
    }

    constructor (env: Env)
      ensures Valid() && files == map[] && this.env == env
    {
      this.env := env;
      files := map[];
      new;
      assert Stored(map[]) == {} && Owned(env, {}) == {};
    }

    /** The records, sorted by name. */
    method List() returns (records: seq<Tunnel>)
      requires Valid()
      ensures AsSet(records) == Stored(files) && Distinct(records) && |records| == |files|
      ensures Ascending(NotListedAfter, records)
    {
      records := [];
      var rest := files.Keys;
      while rest != {}
        invariant rest <= files.Keys
        invariant AsSet(records) == set id | id in files.Keys - rest :: files[id]
        invariant Distinct(records) && forall r | r in records :: r.id in files && r.id !in rest
        decreases rest
      {
        var id :| id in rest;
        assert forall r | r in records :: r != files[id];
        AppendDistinct(records, files[id]);
        assert AsSet(records + [files[id]]) == AsSet(records) + {files[id]};
        records := records + [files[id]];
        rest := rest - {id};
      }
      assert AsSet(records) == Stored(files);
      DistinctSize(records);
      StoredSize(files);
      Reordered(SortStable(ListedBefore, records), records);
      ListingAscends(records);
      records := SortStable(ListedBefore, records);
    }

    method Get(id: string) returns (t: Option<Tunnel>)
      requires Valid()
      ensures t == if env.validId(id) && id in files then Some(files[id]) else None
    {
      if !env.validId(id) || id !in files {
        return None;
      }
      return Some(files[id]);
    }

    /** One record against the routes of the candidate: how many it claims, and whether they collide. */
    method RoutesCollide(ghost candidate: Tunnel, w: Wanted, r: Tunnel) returns (count: nat, hit: bool)
      requires WantedBy(env, candidate, w)
      ensures hit <==> SharesRoutes(env, candidate, r)
      ensures count == |Claims(env, r)|
    {
      hide Claims, RouteTable;
      var maps := new OwnerMaps();
      var claims := maps.ListClaims(env, r);
      DistinctSize(claims);
      count := |claims|;
      hit := false;
      if r.kind == Srv6Kind && r.spec.srv6.Some? && r.spec.srv6.value.table in w.used {
        hit := true;
        SharedTable(env, candidate, r, r.spec.srv6.value.table);
        return;
      }
      for i := 0 to |claims|
        invariant forall j | 0 <= j < i :: claims[j].table !in w.exclusive && claims[j] !in w.claims
      {
        if claims[i].table in w.exclusive || claims[i] in w.claims {
          hit := true;
          SharedClaim(env, candidate, r, claims, i);
          return;
        }
      }
      NothingShared(env, candidate, w, r, claims);
    }

    /** managedRouteCollision */
    method ManagedRouteCollision(candidate: Tunnel, records: seq<Tunnel>, exceptId: string) returns (total: nat, hit: bool)
      requires Distinct(records)
      ensures hit <==> exists r :: r in Rest(records, exceptId) && SharesRoutes(env, candidate, r)
      ensures !hit ==> total == |Claims(env, candidate)| + TotalClaims(env, Rest(records, exceptId))
    {
      hide SharesRoutes, Claims, TotalClaims;
      var maps := new OwnerMaps();
      var claims := maps.ListClaims(env, candidate);
      DistinctSize(claims);
      var exclusive := Exclusive(candidate);
      var wanted := Wanted(AsSet(claims), exclusive + TablesOf(AsSet(claims)), exclusive);
      total := |claims|;
      hit := false;
      NoClaims(env, records, exceptId);
      for i := 0 to |records|
        invariant total == |Claims(env, candidate)| + TotalClaims(env, Rest(records[..i], exceptId))
        invariant forall r | r in Rest(records[..i], exceptId) :: !SharesRoutes(env, candidate, r)
      {
        RestStep(env, records, exceptId, i);
        if records[i].id != exceptId {
          var count, collides := RoutesCollide(candidate, wanted, records[i]);
          total := total + count;
          if collides {
            hit := true;
            assert records[i] in Rest(records, exceptId);
            return;
          }
        }
      }
      assert records[..|records|] == records;
    }

    /** checkNamesLocked; the empty exceptId stands for a new record. */
    method CheckNames(candidate: Tunnel, exceptId: string) returns (ok: bool)
      requires Valid() && !env.validId("")
      ensures ok <==> (exceptId == "" ==> |files| < MAX_RECORDS) && Fits(env, Others(files, exceptId), candidate)
    {
      hide SharesRoutes, Claims, TotalClaims, SharesXfrm, SharesPriority;
      var records := List();
      RestIsOthers(files, records, exceptId);
      if exceptId == "" && |records| >= MAX_RECORDS {
        return false;
      }
      for i := 0 to |records|
        invariant forall j | 0 <= j < i && records[j].id != exceptId :: !NamesClash(env, candidate, records[j])
      {
        if records[i].id != exceptId && NamesClash(env, candidate, records[i]) {
          assert records[i] in Rest(records, exceptId);
          assert Clash(env, candidate, records[i]);
          return false;
        }
      }
      var total, hit := ManagedRouteCollision(candidate, records, exceptId);
      return !hit && total <= MAX_CLAIMS;
    }

    /** writeLocked and the undoing of a write that cannot be synced. */
    method Commit(changed: Table, disk: Disk) returns (outcome: Outcome)
      modifies this`files
      ensures Result(outcome, files) == Written(old(files), changed, disk)
    {
      if !disk.write {
        return Failed;
      }
      var previous := files;
      files := changed;
      if disk.sync {
        return Done;
      }
      if disk.undo {
        files := previous;
      }
      return Failed;
    }

    method Create(t: Tunnel, disk: Disk) returns (outcome: Outcome)
      requires Valid() && !env.validId("")
      modifies this`files
      ensures Result(outcome, files) == CreateIn(env, old(files), t, disk) && Valid()
    {
      hide Records.Valid, Fits, Acceptable;
      ApplyKeepsConsistent(env, files, StoreOp.Create(t), disk);
      if !Records.Valid(env, t) || t.id in files {
        return Refused;
      }
      if !disk.readable {
        return Failed;
      }
      NoEmptyId(env, files);
      var ok := CheckNames(t, "");
      if !ok {
        return Refused;
      }
      outcome := Commit(files[t.id := t], disk);
    }

    method Update(t: Tunnel, expected: nat, disk: Disk) returns (outcome: Outcome)
      requires Valid() && !env.validId("")
      modifies this`files
      ensures Result(outcome, files) == UpdateIn(env, old(files), t, expected, disk) && Valid()
    {
      ApplyKeepsConsistent(env, files, StoreOp.Update(t, expected), disk);
      if !Records.Valid(env, t) {
        return Refused;
      }
      assert t.id != "";
      hide Records.Valid, Fits, Acceptable;
      if t.id !in files {
        return Missing;
      }
      if !disk.readable {
        return Failed;
      }
      if files[t.id].generation != expected || t.generation != expected + 1 {
        return Refused;
      }
      var ok := CheckNames(t, t.id);
      if !ok {
        return Refused;
      }
      outcome := Commit(files[t.id := t], disk);
    }

    method Delete(id: string, expected: nat, disk: Disk) returns (outcome: Outcome)
      requires Valid()
      modifies this`files
      ensures Result(outcome, files) == DeleteIn(env, old(files), id, expected, disk) && Valid()
    {
      hide Records.Valid, Fits, Acceptable;
      ApplyKeepsConsistent(env, files, StoreOp.Delete(id, expected), disk);
      if !env.validId(id) || id !in files {
        return Missing;
      }
      if !disk.readable {
        return Failed;
      }
      if files[id].generation != expected {
        return Refused;
      }
      if !disk.cache {
        return Failed;
      }
      outcome := Commit(files - {id}, disk);
    }
  }

  /** Everything but routes. */
  predicate NamesClash(env: Env, t: Tunnel, r: Tunnel) {
    t.name == r.name || (t.iface != "" && t.iface == r.iface) || SharesXfrm(t, r) || SharesPriority(env, t, r)
  }

  /** The listed records other than that of one identifier. */
  function Rest(records: seq<Tunnel>, exceptId: string): set<Tunnel> { set r | r in records && r.id != exceptId }

  lemma RestIsOthers(s: Table, records: seq<Tunnel>, exceptId: string)
    requires Keyed(s) && AsSet(records) == Stored(s)
    ensures Rest(records, exceptId) == Others(s, exceptId)
  {
    forall r | r in Others(s, exceptId)
      ensures r in Rest(records, exceptId)
    {
      assert r in AsSet(records);
    }
    forall r | r in Rest(records, exceptId)
      ensures r in Others(s, exceptId)
    {
      assert r in AsSet(records);
    }
  }

  lemma NoEmptyId(env: Env, s: Table)
    requires Consistent(env, s) && !env.validId("")
    ensures "" !in s && Others(s, "") == Stored(s)
  {
    assert forall id | id in s :: s[id] in Stored(s) && env.validId(s[id].id);
  }

  lemma NoClaims(env: Env, records: seq<Tunnel>, exceptId: string)
    ensures Rest(records[..0], exceptId) == {} && TotalClaims(env, {}) == 0
  {
    assert Owned(env, {}) == {};
  }

  lemma RestStep(env: Env, records: seq<Tunnel>, exceptId: string, i: nat)
    requires i < |records| && Distinct(records)
    ensures records[i].id == exceptId ==> Rest(records[..i + 1], exceptId) == Rest(records[..i], exceptId)
    ensures records[i].id != exceptId ==> Rest(records[..i + 1], exceptId) == Rest(records[..i], exceptId) + {records[i]}
    ensures records[i].id != exceptId ==>
              TotalClaims(env, Rest(records[..i + 1], exceptId))
              == TotalClaims(env, Rest(records[..i], exceptId)) + |Claims(env, records[i])|
  {
    hide Claims, TotalClaims;
    var r := records[i];
    assert records[..i + 1] == records[..i] + [r];
    assert r !in records[..i];
    if r.id != exceptId {
      assert Rest(records[..i + 1], exceptId) == Rest(records[..i], exceptId) + {r};
      TotalAdds(env, Rest(records[..i], exceptId), r);
    } else {
      assert Rest(records[..i + 1], exceptId) == Rest(records[..i], exceptId);
    }
  }

  lemma SharedTable(env: Env, t: Tunnel, r: Tunnel, table: int)
    requires table in Exclusive(r) && table in Exclusive(t) + TablesOf(Claims(env, t))
    ensures SharesRoutes(env, t, r)
  {
    hide Claims;
    if table in Exclusive(t) {
      assert table in Exclusive(t) * Exclusive(r);
    }
  }

  lemma SharedClaim(env: Env, t: Tunnel, r: Tunnel, claims: seq<Claim>, i: nat)
    requires AsSet(claims) == Claims(env, r) && i < |claims|
    requires claims[i].table in Exclusive(t) || claims[i] in Claims(env, t)
    ensures SharesRoutes(env, t, r)
  {
    hide Claims;
    assert claims[i] in AsSet(claims);
    if claims[i] in Claims(env, t) {
      assert claims[i] in Claims(env, t) * Claims(env, r);
    }
  }

  lemma NothingShared(env: Env, t: Tunnel, w: Wanted, r: Tunnel, claims: seq<Claim>)
    requires WantedBy(env, t, w) && AsSet(claims) == Claims(env, r)
    requires forall x | x in Exclusive(r) :: x !in w.used
    requires forall j | 0 <= j < |claims| :: claims[j].table !in w.exclusive && claims[j] !in w.claims
    ensures !SharesRoutes(env, t, r)
  {
    hide Claims;
    assert forall c | c in Claims(env, t) :: c.table in TablesOf(Claims(env, t));
    assert forall c | c in Claims(env, r) :: c in AsSet(claims);
  }
}
