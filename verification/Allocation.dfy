/** Allocation of policy-rule and source priorities: the least free number, or the one above the highest. */
module Allocation {
  import opened Net
  import opened Records

  const AUTO_MIN := 20000
  const AUTO_MAX := 29999

  /** The least number from lo to hi that is not used. */
  function LeastFree(used: set<int>, lo: int, hi: int): (r: Option<int>)
    ensures r.Some? ==> lo <= r.value <= hi && r.value !in used && forall p | lo <= p < r.value :: p in used
    ensures r.None? ==> forall p | lo <= p <= hi :: p in used
    decreases hi - lo + 1
  {
    if lo > hi then None
    else if lo !in used then Some(lo)
    else LeastFree(used, lo + 1, hi)
  }

  /** AllocateSRv6RulePriority */
  method AllocateRulePriority(used: set<int>) returns (r: Option<int>)
    ensures r == LeastFree(used, AUTO_MIN, AUTO_MAX)
  {
    var priority := AUTO_MIN;
    while priority <= AUTO_MAX
      invariant AUTO_MIN <= priority <= AUTO_MAX + 1
      invariant LeastFree(used, AUTO_MIN, AUTO_MAX) == LeastFree(used, priority, AUTO_MAX)
    {
      if priority !in used {
        return Some(priority);
      }
      priority := priority + 1;
    }
    return None;
  }

  function Interval(lo: int, n: nat): (r: set<int>)
    ensures forall p :: p in r <==> lo <= p < lo + n
    ensures |r| == n
  {
    if n == 0 then {} else Interval(lo, n - 1) + {lo + n - 1}
  }

  lemma Within(a: set<int>, b: set<int>)
    requires a <= b
    ensures |a| <= |b|
  {
    assert b == a + (b - a);
  }

  /** There is room as long as fewer numbers are used than there are. */
  lemma RoomIsFound(used: set<int>, lo: int, n: nat)
    requires |used| < n
    ensures LeastFree(used, lo, lo + n - 1).Some?
  {
    if LeastFree(used, lo, lo + n - 1).None? {
      Within(Interval(lo, n), used);
    }
  }

  // ---- Source priorities ----

  predicate InRange(p: int) { 1 <= p <= MAX_PRIORITY }

  function UsedBy(sources: seq<Source>): set<int> { set s | s in sources && InRange(s.priority) :: s.priority }

  function Highest(sources: seq<Source>): (h: int)
    ensures 0 <= h <= MAX_PRIORITY
    ensures forall p | p in UsedBy(sources) :: p <= h
    ensures h == 0 || h in UsedBy(sources)
  {
    if sources == [] then 0
    else
      var front, p := sources[..|sources| - 1], sources[|sources| - 1].priority;
      assert UsedBy(sources) == UsedBy(front) + (if InRange(p) then {p} else {}) by {
        assert sources == front + [sources[|sources| - 1]];
      }
      if InRange(p) && p > Highest(front) then p else Highest(front)
  }

  /** NextSRv6SourcePriority; 0 when every priority is used. */
  function NextPriority(sources: seq<Source>): int {
    var h := Highest(sources);
    if h < MAX_PRIORITY then h + 1
    else
      var free := LeastFree(UsedBy(sources), 1, MAX_PRIORITY);
      if free.Some? then free.value else 0
  }

  method NextSourcePriority(sources: seq<Source>) returns (r: int)
    ensures r == NextPriority(sources)
  {
    var used: set<int> := {};
    var highest := 0;
    for i := 0 to |sources|
      invariant used == UsedBy(sources[..i]) && highest == Highest(sources[..i])
    {
      assert sources[..i + 1][..i] == sources[..i] && sources[..i + 1] == sources[..i] + [sources[i]];
      var p := sources[i].priority;
      if InRange(p) {
        used := used + {p};
        if p > highest {
          highest := p;
        }
      }
    }
    assert sources[..|sources|] == sources;
    if highest < MAX_PRIORITY {
      return highest + 1;
    }
    for priority := 1 to MAX_PRIORITY + 1
      invariant LeastFree(used, 1, MAX_PRIORITY) == LeastFree(used, priority, MAX_PRIORITY)
    {
      if priority !in used {
        return priority;
      }
    }
    return 0;
  }

  lemma UsedSize(sources: seq<Source>)
    ensures |UsedBy(sources)| <= |sources|
  {
    if sources == [] {
      assert UsedBy(sources) == {};
    } else {
      var front, s := sources[..|sources| - 1], sources[|sources| - 1];
      UsedSize(front);
      assert sources == front + [s];
      assert UsedBy(sources) == UsedBy(front) + (if InRange(s.priority) then {s.priority} else {});
    }
  }

  /** The priority handed out is valid and no source has it, whenever there are fewer sources than priorities. */
  lemma NextPriorityIsNew(sources: seq<Source>)
    requires |sources| < MAX_PRIORITY
    ensures InRange(NextPriority(sources)) && NextPriority(sources) !in UsedBy(sources)
  {
    UsedSize(sources);
    RoomIsFound(UsedBy(sources), 1, MAX_PRIORITY);
  }

  /** The sources from i on with the zero priorities filled in, each seeing those filled in before it. */
  function Filled(sources: seq<Source>, i: nat): (r: seq<Source>)
    requires i <= |sources|
    ensures |r| == |sources|
    decreases |sources| - i
  {
    if i == |sources| then sources
    else if sources[i].priority != 0 then Filled(sources, i + 1)
    else Filled(sources[i := sources[i].(priority := NextPriority(sources))], i + 1)
  }

  method FillPriorities(sources: seq<Source>) returns (r: seq<Source>)
    ensures r == Filled(sources, 0)
  {
    r := sources;
    for i := 0 to |sources|
      invariant |r| == |sources| && Filled(sources, 0) == Filled(r, i)
    {
      if r[i].priority == 0 {
        var p := NextSourcePriority(r);
        r := r[i := r[i].(priority := p)];
      }
    }
  }

  /** No two sources with a valid priority share it. */
  predicate DistinctPriorities(sources: seq<Source>) {
    forall i, j | 0 <= i < j < |sources| && InRange(sources[i].priority) :: sources[i].priority != sources[j].priority
  }

  lemma NewPriorityIsDistinct(sources: seq<Source>, i: nat, p: int)
    requires DistinctPriorities(sources) && i < |sources| && InRange(p) && p !in UsedBy(sources)
    ensures DistinctPriorities(sources[i := sources[i].(priority := p)])
  {
    hide InRange;
    assert forall j | 0 <= j < |sources| && InRange(sources[j].priority) :: sources[j].priority in UsedBy(sources);
  }

  /** Filling in keeps priorities distinct, leaves the given ones alone and leaves none at 0. */
  lemma {:induction false} FilledIsDistinct(sources: seq<Source>, i: nat)
    requires i <= |sources| < MAX_PRIORITY && DistinctPriorities(sources)
    requires forall j | 0 <= j < i :: sources[j].priority != 0
    ensures var r := Filled(sources, i);
            && DistinctPriorities(r)
            && (forall j | 0 <= j < |r| :: r[j].priority != 0)
            && (forall j | 0 <= j < |r| :: sources[j].priority != 0 ==> r[j] == sources[j])
            && (forall j | 0 <= j < |r| :: r[j] == sources[j].(priority := r[j].priority))
    decreases |sources| - i
  {
    hide NextPriority, DistinctPriorities, UsedBy;
    if i < |sources| {
      if sources[i].priority != 0 {
        FilledIsDistinct(sources, i + 1);
      } else {
        NextPriorityIsNew(sources);
        NewPriorityIsDistinct(sources, i, NextPriority(sources));
        FilledIsDistinct(sources[i := sources[i].(priority := NextPriority(sources))], i + 1);
      }
    }
  }

  /** Sources whose priorities are all set are left as they are. */
  lemma {:induction false} FilledIsIdentity(sources: seq<Source>, i: nat)
    requires i <= |sources| && forall j | i <= j < |sources| :: sources[j].priority != 0
    ensures Filled(sources, i) == sources
    decreases |sources| - i
  {
    if i < |sources| {
      FilledIsIdentity(sources, i + 1);
    }
  }

  predicate Has(sources: seq<Source>, p: int) { exists i :: 0 <= i < |sources| && sources[i].priority == p }

  /** One above the highest valid priority in use, 1 if there is none; once 32765 is in use the least one that is not, or 0. */
  lemma NextPriorityMeans(sources: seq<Source>)
    ensures var p := NextPriority(sources);
            if Has(sources, 32765) then
              if p == 0 then forall q | 1 <= q <= 32765 :: Has(sources, q)
              else 1 <= p < 32765 && !Has(sources, p) && forall q | 1 <= q < p :: Has(sources, q)
            else
              1 <= p <= 32765 && (p == 1 || Has(sources, p - 1)) && forall q | p <= q <= 32765 :: !Has(sources, q)
  {
    forall q | 1 <= q <= 32765
      ensures Has(sources, q) <==> q in UsedBy(sources)
    {
      if i :| 0 <= i < |sources| && sources[i].priority == q {
        assert sources[i] in sources;
      }
    }
  }

  /** Every priority left out is filled in with the next one for the list as it is at that moment. */
  lemma {:induction false} FilledMeans(sources: seq<Source>, i: nat)
    requires i <= |sources|
    ensures var r := Filled(sources, i);
            && r[..i] == sources[..i]
            && forall j | i <= j < |r| ::
                 r[j] == if sources[j].priority != 0 then sources[j]
                         else sources[j].(priority := NextPriority(r[..j] + sources[j..]))
    decreases |sources| - i
  {
    hide NextPriority;
    if i < |sources| {
      var next := if sources[i].priority != 0 then sources else sources[i := sources[i].(priority := NextPriority(sources))];
      var r := Filled(next, i + 1);
      FilledMeans(next, i + 1);
      assert r == Filled(sources, i);
      assert r[..i + 1] == next[..i + 1];
      assert r[i] == r[..i + 1][i] == next[i];
      forall j | i <= j < |r|
        ensures r[j] == if sources[j].priority != 0 then sources[j] else sources[j].(priority := NextPriority(r[..j] + sources[j..]))
      {
        if i < j {
          assert next[j..] == sources[j..];
        } else {
          assert r[..j] == sources[..j] && r[..j] + sources[j..] == sources;
        }
      }
      assert r[..i] == r[..i + 1][..i] == sources[..i];
    } else {
      assert Filled(sources, i)[..i] == sources[..i];
    }
  }
}
