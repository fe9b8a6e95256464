/** Records of the older schemas, and how each becomes a present record. */
module Legacy {
  import opened Lists
  import opened Net
  import opened Records

  /** Schema 2 knows a source with one segment per family and a base URL; it has no priorities. */
  datatype Source2 = Source2(name: string, sidV4: Option<Addr>, sidV6: Option<Addr>, mtu: int)
  datatype Srv6Schema2 = Srv6Schema2(baseUrl: string, table: int, refresh: int, sources: seq<Source2>, rest: string)

  /** How a feed URL is made of a base URL and a file name; None is a parse error. */
  type Feeds = (string, string) -> Option<string>

  // ---- Names ----

  function NamePrefix(kind: Kind): string {
    match kind
    case GreKind => "gre-"
    case VxlanKind => "vxlan-"
    case WireGuardKind => "wg-"
    case AmneziaKind => "awg-"
    case XfrmStaticKind => "ipsec-"
    case XfrmIkeKind => "ipsec-"
    case Srv6Kind => ""
  }

  /** PrefixedTunnelName */
  function PrefixedName(kind: Kind, name: string): string {
    if NamePrefix(kind) <= name then name else NamePrefix(kind) + name
  }

  lemma PrefixedOnce(kind: Kind, name: string)
    ensures PrefixedName(kind, PrefixedName(kind, name)) == PrefixedName(kind, name)
  {
  }

  // ---- Unique source names ----

  function Digits(n: nat): (s: string)
    ensures s != [] && '-' !in s
  {
    if n < 10 then ["0123456789"[n]] else Digits(n / 10) + ["0123456789"[n % 10]]
  }

  lemma {:induction false} DigitsDiffer(m: nat, n: nat)
    requires Digits(m) == Digits(n)
    ensures m == n
  {
    var a, b := Digits(m), Digits(n);
    assert a[|a| - 1] == b[|b| - 1] && a[..|a| - 1] == b[..|b| - 1];
    assert a[|a| - 1] == "0123456789"[m % 10] && b[|b| - 1] == "0123456789"[n % 10];
    assert m % 10 == n % 10;
    if m >= 10 && n >= 10 {
      assert a[..|a| - 1] == Digits(m / 10) && b[..|b| - 1] == Digits(n / 10);
      DigitsDiffer(m / 10, n / 10);
    }
  }

  function Suffix(attempt: nat): string { if attempt > 1 then "-" + Digits(attempt) else "" }

  function Shortened(name: string, suffix: string): string {
    var limit := if |suffix| <= 64 then 64 - |suffix| else 0;
    if |name| > limit then name[..limit] else name
  }

  /** The name tried at an attempt: the preferred one, cut so that the suffix fits into 64 characters. */
  function Attempted(preferred: string, attempt: nat): string { Shortened(preferred, Suffix(attempt)) + Suffix(attempt) }

  /** Two strings that end in a dash and digits are equal only if the digits are. */
  lemma LastDash(a: string, d: string, b: string, e: string)
    requires '-' !in d && '-' !in e && a + "-" + d == b + "-" + e
    ensures d == e
  {
    var s := a + "-" + d;
    assert s[|a|] == '-' && s[|b|] == (b + "-" + e)[|b|] == '-';
    assert s[|a| + 1..] == d && (b + "-" + e)[|b| + 1..] == e;
  }

  lemma AttemptsDiffer(preferred: string, m: nat, n: nat)
    requires 2 <= m && 2 <= n && Attempted(preferred, m) == Attempted(preferred, n)
    ensures m == n
  {
    var a, b := Shortened(preferred, Suffix(m)), Shortened(preferred, Suffix(n));
    assert a + "-" + Digits(m) == a + Suffix(m) && b + "-" + Digits(n) == b + Suffix(n);
    LastDash(a, Digits(m), b, Digits(n));
    DigitsDiffer(m, n);
  }

  function Tried(preferred: string, upTo: nat): set<string> { set m | 2 <= m < upTo :: Attempted(preferred, m) }

  lemma TriedSize(preferred: string, upTo: nat)
    requires upTo >= 2
    ensures |Tried(preferred, upTo)| == upTo - 2
  {
    if upTo == 2 {
      assert Tried(preferred, upTo) == {};
    } else {
      TriedSize(preferred, upTo - 1);
      assert Tried(preferred, upTo) == Tried(preferred, upTo - 1) + {Attempted(preferred, upTo - 1)};
      if Attempted(preferred, upTo - 1) in Tried(preferred, upTo - 1) {
        var m :| 2 <= m < upTo - 1 && Attempted(preferred, m) == Attempted(preferred, upTo - 1);
        AttemptsDiffer(preferred, m, upTo - 1);
      }
    }
  }

  lemma TriedIsBounded(preferred: string, used: set<string>, upTo: nat)
    requires upTo >= 2 && Tried(preferred, upTo) <= used
    ensures upTo <= |used| + 2
  {
    TriedSize(preferred, upTo);
    assert used == Tried(preferred, upTo) + (used - Tried(preferred, upTo));
  }

  /** The first attempt, from the given one on, that is not in use. */
  function FirstFree(preferred: string, used: set<string>, attempt: nat): (r: string)
    requires attempt >= 1 && forall m | 1 <= m < attempt :: Attempted(preferred, m) in used
    ensures r !in used
    decreases |used| + 3 - attempt
  {
    if Attempted(preferred, attempt) !in used then Attempted(preferred, attempt)
    else
      TriedIsBounded(preferred, used, attempt + 1);
      FirstFree(preferred, used, attempt + 1)
  }

  /** uniqueSRv6SourceName: the loop ends, after at most one attempt more than there are names in use. */
  method UniqueSourceName(preferred: string, used: set<string>) returns (name: string, attempt: nat)
    ensures name == FirstFree(preferred, used, 1) && name !in used && 1 <= attempt <= |used| + 2
  {
    attempt := 1;
    while true
      invariant 1 <= attempt <= |used| + 2
      invariant forall m | 1 <= m < attempt :: Attempted(preferred, m) in used
      invariant FirstFree(preferred, used, 1) == FirstFree(preferred, used, attempt)
      decreases |used| + 3 - attempt
    {
      name := Attempted(preferred, attempt);
      if name !in used {
        return;
      }
      attempt := attempt + 1;
      TriedIsBounded(preferred, used, attempt);
    }
  }

  // ---- Schema 2 ----

  function FamilySuffix(family: string): string { if family == "ipv4" then "v4" else "v6" }

  /** The source of one family, if the legacy source has a segment for it; None is an error. */
  function AddFamily(feeds: Feeds, baseUrl: string, s: Source2, family: string, sid: Option<Addr>, made: seq<Source>): Option<seq<Source>> {
    if sid.None? then Some(made)
    else
      var both := s.sidV4.Some? && s.sidV6.Some?;
      var name := FirstFree(if both then s.name + "-" + FamilySuffix(family) else s.name, SourceNames(made), 1);
      var url := feeds(baseUrl, s.name + "_" + FamilySuffix(family) + ".txt");
      if url.None? then None
      else Some(made + [Source(name, family, url.value, sid.value, |made| + 1, s.mtu)])
  }

  function SourceNames(sources: seq<Source>): set<string> { set s | s in sources :: s.name }

  function MigrateSources(feeds: Feeds, baseUrl: string, sources: seq<Source2>): Option<seq<Source>> {
    if sources == [] then Some([])
    else
      var n := |sources| - 1;
      var front := MigrateSources(feeds, baseUrl, sources[..n]);
      if front.None? then None
      else
        var v4 := AddFamily(feeds, baseUrl, sources[n], "ipv4", sources[n].sidV4, front.value);
        if v4.None? then None else AddFamily(feeds, baseUrl, sources[n], "ipv6", sources[n].sidV6, v4.value)
  }

  /** Names differ, and the i-th source has priority i + 1. */
  predicate Numbered(sources: seq<Source>) {
    && (forall i, j | 0 <= i < j < |sources| :: sources[i].name != sources[j].name)
    && forall i | 0 <= i < |sources| :: sources[i].priority == i + 1
  }

  lemma FamilyKeepsNumbered(feeds: Feeds, baseUrl: string, s: Source2, family: string, sid: Option<Addr>, made: seq<Source>)
    requires Numbered(made) && AddFamily(feeds, baseUrl, s, family, sid, made).Some?
    ensures Numbered(AddFamily(feeds, baseUrl, s, family, sid, made).value)
  {
    assert forall x | x in made :: x.name in SourceNames(made);
  }

  /** However the legacy sources are named, the migrated ones have distinct names and the priorities 1, 2, ... */
  lemma {:induction false} MigratedSourcesAreNumbered(feeds: Feeds, baseUrl: string, sources: seq<Source2>)
    requires MigrateSources(feeds, baseUrl, sources).Some?
    ensures Numbered(MigrateSources(feeds, baseUrl, sources).value)
  {
    if sources != [] {
      var n := |sources| - 1;
      MigratedSourcesAreNumbered(feeds, baseUrl, sources[..n]);
      var front := MigrateSources(feeds, baseUrl, sources[..n]).value;
      FamilyKeepsNumbered(feeds, baseUrl, sources[n], "ipv4", sources[n].sidV4, front);
      var v4 := AddFamily(feeds, baseUrl, sources[n], "ipv4", sources[n].sidV4, front).value;
      FamilyKeepsNumbered(feeds, baseUrl, sources[n], "ipv6", sources[n].sidV6, v4);
    }
  }

  // ---- Schema 3 ----

  predicate Higher(sources: seq<Source>, i: int, j: int) {
    0 <= i < |sources| && 0 <= j < |sources| && sources[i].priority > sources[j].priority
  }

  function Count(n: nat): (r: seq<int>)
    ensures |r| == n && forall i | 0 <= i < n :: r[i] == i
  {
    if n == 0 then [] else Count(n - 1) + [n - 1]
  }

  /** i comes before j: it had the higher priority, or the same and stood first. */
  predicate Precedes(sources: seq<Source>, i: int, j: int)
    requires 0 <= i < |sources| && 0 <= j < |sources|
  {
    sources[i].priority > sources[j].priority || (sources[i].priority == sources[j].priority && i < j)
  }

  predicate InOrder(sources: seq<Source>, order: seq<int>) {
    && (forall a | 0 <= a < |order| :: 0 <= order[a] < |sources|)
    && forall a, b | 0 <= a < b < |order| :: Precedes(sources, order[a], order[b])
  }

  lemma {:induction false} InsertKeepsOrder(sources: seq<Source>, order: seq<int>, x: int, less: (int, int) -> bool)
    requires forall i, j :: less(i, j) <==> Higher(sources, i, j)
    requires InOrder(sources, order) && 0 <= x < |sources| && forall a | 0 <= a < |order| :: order[a] < x
    ensures InOrder(sources, Insert(less, order, x))
  {
    if order != [] && less(x, order[|order| - 1]) {
      var front, last := order[..|order| - 1], order[|order| - 1];
      InsertKeepsOrder(sources, front, x, less);
      InsertMembers(less, front, x);
      var s := Insert(less, front, x);
      forall a | 0 <= a < |s|
        ensures Precedes(sources, s[a], last)
      {
        assert s[a] in s;
        if s[a] != x {
          var b :| 0 <= b < |front| && front[b] == s[a];
          assert Precedes(sources, order[b], order[|order| - 1]);
        }
      }
      assert Insert(less, order, x) == s + [last];
    } else {
      assert Insert(less, order, x) == order + [x];
      forall a | 0 <= a < |order|
        ensures Precedes(sources, order[a], x)
      {
        if a < |order| - 1 {
          assert Precedes(sources, order[a], order[|order| - 1]);
        }
      }
    }
  }

  lemma EmptyOrder(sources: seq<Source>)
    ensures InOrder(sources, [])
  {
  }

  /** Sorting the numbers below n lists numbers below n. */
  lemma SortedBelow(less: (int, int) -> bool, n: nat, order: seq<int>)
    requires order == SortStable(less, Count(n))
    ensures forall a | 0 <= a < |order| :: 0 <= order[a] < n
  {
    hide SortStable;
    Reordered(order, Count(n));
    forall a | 0 <= a < |order|
      ensures 0 <= order[a] < n
    {
      assert order[a] in Count(n);
    }
  }

  lemma {:induction false} SortedInOrder(sources: seq<Source>, n: nat, less: (int, int) -> bool)
    requires n <= |sources| && forall i, j :: less(i, j) <==> Higher(sources, i, j)
    ensures InOrder(sources, SortStable(less, Count(n)))
  {
    hide InOrder, Insert, Higher;
    if n == 0 {
      EmptyOrder(sources);
    } else {
      SortedInOrder(sources, n - 1, less);
      var front := SortStable(less, Count(n - 1));
      SortedBelow(less, n - 1, front);
      InsertKeepsOrder(sources, front, n - 1, less);
      assert Count(n)[..n - 1] == Count(n - 1);
    }
  }

  predicate Placed(order: seq<int>, i: int) { exists a :: 0 <= a < |order| && order[a] == i }

  predicate Within(sources: seq<Source>, order: seq<int>) { forall a | 0 <= a < |order| :: 0 <= order[a] < |sources| }

  /** The first k sources of the order have their ranks, counted from 1. */
  function Ranked(sources: seq<Source>, order: seq<int>, k: nat): (r: seq<Source>)
    requires Within(sources, order) && k <= |order|
    ensures |r| == |sources|
  {
    if k == 0 then sources
    else
      var r := Ranked(sources, order, k - 1);
      r[order[k - 1] := r[order[k - 1]].(priority := k)]
  }

  /** Indices of the sources, the highest legacy priority first, equal ones in their order. */
  function PreferenceOrder(sources: seq<Source>): (order: seq<int>)
    ensures InOrder(sources, order) && |order| == |sources| && forall i | 0 <= i < |sources| :: Placed(order, i)
  {
    var less: (int, int) -> bool := (i, j) => Higher(sources, i, j);
    SortedInOrder(sources, |sources|, less);
    AllPlaced(SortStable(less, Count(|sources|)), |sources|);
    SortStable(less, Count(|sources|))
  }

  lemma {:induction false} RankedPriorities(sources: seq<Source>, order: seq<int>, k: nat)
    requires InOrder(sources, order) && k <= |order|
    ensures var r := Ranked(sources, order, k);
            && (forall i | 0 <= i < |r| :: r[i] == sources[i].(priority := r[i].priority))
            && forall a | 0 <= a < k :: r[order[a]].priority == a + 1
  {
    if k > 0 {
      RankedPriorities(sources, order, k - 1);
      assert forall a | 0 <= a < k - 1 :: Precedes(sources, order[a], order[k - 1]);
    }
  }

  /** normalizeLegacySRv6SourcePriorities */
  function Normalized(sources: seq<Source>): seq<Source> {
    Ranked(sources, PreferenceOrder(sources), |PreferenceOrder(sources)|)
  }

  method NormalizePriorities(sources: seq<Source>) returns (r: seq<Source>)
    ensures r == Normalized(sources)
  {
    hide PreferenceOrder;
    var order := PreferenceOrder(sources);
    r := sources;
    for rank := 0 to |order|
      invariant r == Ranked(sources, order, rank)
    {
      r := r[order[rank] := r[order[rank]].(priority := rank + 1)];
    }
  }

  /** The normalized priorities are 1, 2, ... in the order of preference, and nothing else changes. Of two sources the
      one preferred before is preferred now: the greater number used to win, the smaller one does now. */
  lemma NormalizedKeepsPreference(sources: seq<Source>)
    ensures var r := Normalized(sources);
            && |r| == |sources|
            && (forall i | 0 <= i < |r| :: r[i] == sources[i].(priority := r[i].priority) && 1 <= r[i].priority <= |r|)
            && forall i, j | 0 <= i < |r| && 0 <= j < |r| && i != j :: r[i].priority < r[j].priority <==> Precedes(sources, i, j)
  {
    hide PreferenceOrder;
    RankedPriorities(sources, PreferenceOrder(sources), |sources|);
    RanksDecide(sources, PreferenceOrder(sources), Normalized(sources));
  }

  lemma AllPlaced(order: seq<int>, n: nat)
    requires multiset(order) == multiset(Count(n))
    ensures |order| == n && forall i | 0 <= i < n :: Placed(order, i)
  {
    Reordered(order, Count(n));
    forall i | 0 <= i < n
      ensures Placed(order, i)
    {
      assert Count(n)[i] == i && i in order;
    }
  }

  lemma RanksDecide(sources: seq<Source>, order: seq<int>, r: seq<Source>)
    requires InOrder(sources, order) && |r| == |sources| == |order|
    requires forall a | 0 <= a < |order| :: r[order[a]].priority == a + 1
    requires forall i | 0 <= i < |r| :: Placed(order, i)
    ensures forall i | 0 <= i < |r| :: 1 <= r[i].priority <= |r|
    ensures forall i, j | 0 <= i < |r| && 0 <= j < |r| && i != j :: r[i].priority < r[j].priority <==> Precedes(sources, i, j)
  {
    forall i | 0 <= i < |r|
      ensures 1 <= r[i].priority <= |r|
    {
      assert Placed(order, i);
    }
    forall i, j | 0 <= i < |r| && 0 <= j < |r| && i != j
      ensures r[i].priority < r[j].priority <==> Precedes(sources, i, j)
    {
      assert Placed(order, i) && Placed(order, j);
      var a :| 0 <= a < |order| && order[a] == i;
      var b :| 0 <= b < |order| && order[b] == j;
      assert a < b ==> Precedes(sources, order[a], order[b]);
      assert b < a ==> Precedes(sources, order[b], order[a]);
    }
  }
}
