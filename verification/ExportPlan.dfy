/** Planning the redacted export of the store as it is: every record is reported unchanged, as long as it is settled. */
module ExportPlan {
  import opened Lists
  import opened Net
  import opened Records
  import opened Ownership
  import opened StoreState
  import opened Restore
  import opened Prepare
  import opened Secrets
  import opened BundleState
  import opened BundlePlan
  import opened Bundle

  function Exported(rs: seq<Tunnel>): seq<Tunnel> { seq(|rs|, i requires 0 <= i < |rs| => Redact(rs[i])) }

  /** What the plan says about the redacted copy of a record. */
  function ExportChange(env: Env, r: Tunnel, now: nat): Change
    requires Valid(env, r)
  {
    if Settled(env, r) then Keep(r)
    else
      var m := Revised(r, r.generation + 1, now);
      if Valid(env, m) then Modify(r, Settle(env, m)) else Keep(r)
  }

  lemma SettleKeepsOwnership(env: Env, r: Tunnel, m: Tunnel)
    requires Valid(env, r) && Valid(env, m) && m == Revised(r, m.generation, m.updatedAt)
    ensures StableOwnership(r, Settle(env, m))
  {
  }

  lemma ExportEntry(env: Env, r: Tunnel, now: nat, headers: seq<string>)
    requires Lawful(env) && Valid(env, r) && now >= r.createdAt
    ensures PlanExisting(env, r, Redact(r), now, headers) == Some(ExportChange(env, r, now))
    ensures var c := ExportChange(env, r, now);
            c.Id() == r.id && !c.Drop? && !c.Insert? && Valid(env, LeftBy(c)) && SameFootprint(env, LeftBy(c), r)
  {
    var m := Revised(r, r.generation + 1, now);
    RevisedIsValid(env, r, now);
    FootprintItself(env, r);
    hide Valid, Settle, Settled, Redact, PrepareUpdate, SameFootprint, StableOwnership;
    SettledIsValid(env, m);
    SettleKeepsOwnership(env, r, m);
    RedactKeepsIdentity(r);
    ExportIsPrepared(env, r, now, headers);
    FootprintsChain(env, Settle(env, m), m, r);
  }

  ghost predicate ExportReady(env: Env, current: seq<Tunnel>, now: nat) {
    && Lawful(env) && AcceptableList(env, current)
    && forall r | r in current :: Valid(env, r) && now >= r.createdAt
  }

  function ExportChanges(env: Env, rs: seq<Tunnel>, now: nat): seq<Change>
    requires forall r | r in rs :: Valid(env, r)
  {
    seq(|rs|, i requires 0 <= i < |rs| => ExportChange(env, rs[i], now))
  }

  function Results(cs: seq<Change>): seq<Tunnel> { seq(|cs|, i requires 0 <= i < |cs| => LeftBy(cs[i])) }

  function NamesOf(rs: seq<Tunnel>): set<string> { set r | r in rs :: r.name }

  /** How far the first pass is after the first n records. */
  function ExportProgress(env: Env, current: seq<Tunnel>, n: nat, now: nat): Progress
    requires n <= |current| && forall r | r in current :: Valid(env, r)
  {
    var cs := ExportChanges(env, current[..n], now);
    Progress(NamesOf(current[..n]), IdSet(current[..n]), IdSet(current[..n]), cs, Results(cs), current)
  }

  lemma {:induction false} NameIsFound(rs: seq<Tunnel>, i: nat)
    requires i < |rs| && forall j, k | 0 <= j < k < |rs| :: rs[j].name != rs[k].name
    ensures rs[i].name in ByName(rs) && ByName(rs)[rs[i].name] == rs[i]
  {
    var n := |rs| - 1;
    if i < n {
      NameIsFound(rs[..n], i);
    }
  }

  lemma NamesDiffer(env: Env, rs: seq<Tunnel>)
    requires AcceptableList(env, rs)
    ensures forall j, k | 0 <= j < k < |rs| :: rs[j].name != rs[k].name && rs[j].id != rs[k].id
  {
    hide Valid, TotalClaims, SharesXfrm, SharesPriority, SharesRoutes;
    forall j, k | 0 <= j < k < |rs|
      ensures rs[j].name != rs[k].name && rs[j].id != rs[k].id
    {
      assert rs[j] in AsSet(rs) && rs[k] in AsSet(rs);
    }
  }

  lemma ExportFinds(env: Env, current: seq<Tunnel>, n: nat, d: Tunnel)
    requires AcceptableList(env, current) && n < |current| && d.id == current[n].id && d.name == current[n].name && d.id != ""
    ensures FindExisting(TableOf(current), ByName(current), d) == Matched(current[n])
    ensures current[n].name !in NamesOf(current[..n]) && current[n].id !in IdSet(current[..n])
  {
    hide Valid, Acceptable;
    NamesDiffer(env, current);
    NameIsFound(current, n);
    TableOfList(current);
    assert current[n] in current;
  }

  lemma ExportStep(env: Env, current: seq<Tunnel>, n: nat, now: nat, draws: Draws)
    requires ExportReady(env, current, now) && n < |current|
    ensures Entry(env, TableOf(current), ByName(current), ExportProgress(env, current, n, now), Redact(current[n]), now, draws)
         == Some(ExportProgress(env, current, n + 1, now))
  {
    var r := current[n];
    NamedAndNumbered(env, r);
    RedactKeepsIdentity(r);
    ExportEntry(env, r, now, draws.headers);
    ExportFinds(env, current, n, Redact(r));
    hide Valid, Redact, PlanExisting, ExportChange, Settled, AcceptableList, FindExisting, ExportProgress, TableOf, ByName;
    ExportGrows(env, current, n, now);
    MatchedEntry(env, TableOf(current), ByName(current), ExportProgress(env, current, n, now), Redact(r), now, draws, r,
                 ExportChange(env, r, now));
  }

  lemma NamedAndNumbered(env: Env, r: Tunnel)
    requires Valid(env, r)
    ensures r.name != "" && env.validId(r.id)
  {
  }

  lemma MatchedEntry(env: Env, have: Table, byName: map<string, Tunnel>, p: Progress, d: Tunnel, now: nat, draws: Draws, e: Tunnel, c: Change)
    requires d.name != "" && d.name !in p.names && d.id != "" && env.validId(d.id) && d.id !in p.ids && e.id !in p.matched
    requires FindExisting(have, byName, d) == Matched(e) && PlanExisting(env, e, d, now, draws.headers) == Some(c)
    ensures Entry(env, have, byName, p, d, now, draws) ==
            Some(Progress(p.names + {d.name}, p.ids + {d.id}, p.matched + {e.id}, p.changes + [c], p.finals + [LeftBy(c)], p.known))
  {
    hide PlanExisting, FindExisting;
  }

  lemma ExportGrows(env: Env, current: seq<Tunnel>, n: nat, now: nat)
    requires n < |current| && forall r | r in current :: Valid(env, r)
    ensures var p, q, r := ExportProgress(env, current, n, now), ExportProgress(env, current, n + 1, now), current[n];
            p.names == NamesOf(current[..n]) && p.ids == p.matched == IdSet(current[..n]) &&
            q == Progress(p.names + {r.name}, p.ids + {r.id}, p.matched + {r.id}, p.changes + [ExportChange(env, r, now)],
                          p.finals + [LeftBy(ExportChange(env, r, now))], p.known)
  {
    hide Valid, ExportChange;
    assert current[..n + 1] == current[..n] + [current[n]];
  }

  lemma {:induction false} ExportPass(env: Env, current: seq<Tunnel>, n: nat, now: nat, draws: nat -> Draws)
    requires ExportReady(env, current, now) && n <= |current|
    ensures Entries(env, current, Exported(current)[..n], now, draws) == Some(ExportProgress(env, current, n, now))
  {
    hide Entry, Valid, Redact, ExportChange, AcceptableList;
    if n == 0 {
      assert NamesOf(current[..0]) == {} && IdSet(current[..0]) == {};
      assert ExportChanges(env, current[..0], now) == [] && Results([]) == [];
    } else {
      ExportPass(env, current, n - 1, now, draws);
      assert Exported(current)[..n][..n - 1] == Exported(current)[..n - 1];
      ExportStep(env, current, n - 1, now, draws(n - 1));
    }
  }

  lemma {:induction false} NothingUnmatched(p: Progress, current: seq<Tunnel>, prune: bool)
    requires IdSet(current) <= p.matched
    ensures Unmatched(p, current, prune) == p
  {
    if current != [] {
      var front, r := current[..|current| - 1], current[|current| - 1];
      assert r.id in IdSet(current) && IdSet(front) <= IdSet(current);
      NothingUnmatched(p, front, prune);
    }
  }

  /** Two valid records of the same footprint, each where its table says. */
  ghost predicate Paired(env: Env, a: Tunnel, b: Tunnel, s: Table, t: Table) {
    && Valid(env, a) && SameFootprint(env, a, b) && a.id == b.id
    && a.id in s && s[a.id] == a && b.id in t && t[b.id] == b
  }

  lemma ExportFinalsAreAcceptable(env: Env, current: seq<Tunnel>, finals: seq<Tunnel>)
    requires AcceptableList(env, current) && |finals| == |current|
    requires forall i | 0 <= i < |current| :: Valid(env, finals[i]) && SameFootprint(env, finals[i], current[i])
    ensures AcceptableList(env, finals)
  {
    hide Valid, Acceptable;
    AcceptedListIsConsistent(env, current);
    NamesDiffer(env, current);
    TableOfList(current);
    TableOfList(finals);
    var s, t := TableOf(finals), TableOf(current);
    forall i | 0 <= i < |current|
      ensures Paired(env, finals[i], current[i], s, t)
    {
      assert finals[i] in finals && current[i] in current;
    }
    ListsAreAlike(env, current, finals, s, t);
    AlikeIsConsistent(env, s, t);
    StoredList(finals);
  }

  lemma ListsAreAlike(env: Env, current: seq<Tunnel>, finals: seq<Tunnel>, s: Table, t: Table)
    requires |finals| == |current| && Consistent(env, t) && s.Keys == IdSet(finals) && t.Keys == IdSet(current)
    requires forall i | 0 <= i < |current| :: Paired(env, finals[i], current[i], s, t)
    ensures Alike(env, s, t)
  {
    hide Valid, SameFootprint, Consistent, Paired;
    ValidTable(env, t);
    forall id | id in t
      ensures id in s
    {
      CurrentIsPaired(env, current, finals, s, t, id);
    }
    forall id | id in s
      ensures id in t && Valid(env, s[id]) && s[id].id == id && SameFootprint(env, s[id], t[id])
    {
      FinalIsPaired(env, current, finals, s, t, id);
    }
  }

  lemma CurrentIsPaired(env: Env, current: seq<Tunnel>, finals: seq<Tunnel>, s: Table, t: Table, id: string)
    requires |finals| == |current| && id in IdSet(current)
    requires forall i | 0 <= i < |current| :: Paired(env, finals[i], current[i], s, t)
    ensures id in s
  {
    hide Valid, SameFootprint;
    var r :| r in current && r.id == id;
    var i :| 0 <= i < |current| && current[i] == r;
    assert Paired(env, finals[i], current[i], s, t);
  }

  lemma FinalIsPaired(env: Env, current: seq<Tunnel>, finals: seq<Tunnel>, s: Table, t: Table, id: string)
    requires |finals| == |current| && id in IdSet(finals)
    requires forall i | 0 <= i < |current| :: Paired(env, finals[i], current[i], s, t)
    ensures id in s && id in t && Valid(env, s[id]) && s[id].id == id && SameFootprint(env, s[id], t[id])
  {
    hide Valid, SameFootprint;
    var r :| r in finals && r.id == id;
    var i :| 0 <= i < |finals| && finals[i] == r;
    assert Paired(env, finals[i], current[i], s, t);
  }

  /** Redacting all records of the store and planning the result names every record once, in order, and reports it
      unchanged exactly when it is settled; the others are reported as updates to their settled form. */
  lemma RedactedExportIsUnchanged(env: Env, current: seq<Tunnel>, prune: bool, now: nat, draws: nat -> Draws)
    requires ExportReady(env, current, now) && current != []
    ensures var plan := PlanOf(env, current, BUNDLE_VERSION, Exported(current), prune, now, draws);
            && plan.Some? && |plan.value.changes| == |current|
            && (forall i | 0 <= i < |current| :: plan.value.changes[i] == ExportChange(env, current[i], now))
            && (forall i | 0 <= i < |current| :: plan.value.changes[i] == Keep(current[i]) <==> Settled(env, current[i]))
  {
    hide Entry, Redact, SameFootprint, Settle;
    ListIsShort(env, current);
    ExportPass(env, current, |current|, now, draws);
    assert Exported(current)[..|current|] == Exported(current) && current[..|current|] == current;
    var p := ExportProgress(env, current, |current|, now);
    NothingUnmatched(p, current, prune);
    forall i | 0 <= i < |current|
      ensures Valid(env, p.finals[i]) && SameFootprint(env, p.finals[i], current[i])
      ensures p.changes[i] == Keep(current[i]) <==> Settled(env, current[i])
    {
      ExportEntry(env, current[i], now, []);
      ExportChangeIff(env, current[i], now);
    }
    hide Valid, AcceptableList, ExportChange, Settled;
    ExportFinalsAreAcceptable(env, current, p.finals);
  }

  lemma ExportChangeIff(env: Env, r: Tunnel, now: nat)
    requires Valid(env, r) && now >= r.createdAt
    ensures ExportChange(env, r, now) == Keep(r) <==> Settled(env, r)
  {
    RevisedIsValid(env, r, now);
    hide Valid, Settle, Settled;
  }

  lemma ListIsShort(env: Env, rs: seq<Tunnel>)
    requires AcceptableList(env, rs)
    ensures |rs| <= MAX_RECORDS
  {
    hide Valid, TotalClaims, Clash;
    DistinctSize(rs);
  }
}
