/** Metrics, sequence numbers and feasibility distances of internal/babel. */
module BabelTypes {
  import opened Net

  type Metric = U16
  type SeqNo = U16
  type RouterId = seq<Byte>

  /** The infinite metric. */
  const RETRACTION: Metric := 0xffff

  const UNSPECIFIED_ID: RouterId := [0, 0, 0, 0, 0, 0, 0, 0]
  const ALL_ONES_ID: RouterId := [255, 255, 255, 255, 255, 255, 255, 255]

  /** (int16)(b - a). */
  function SeqnoDistance(a: SeqNo, b: SeqNo): int {
    var d := (b - a) % 0x1_0000;
    if d < 0x8000 then d else d - 0x1_0000
  }

  predicate SeqnoLess(a: SeqNo, b: SeqNo) { SeqnoDistance(a, b) > 0 }

  /** M(cost, advertised): addition that saturates just below infinity. */
  function LinkMetric(cost: Metric, advertised: Metric): Metric {
    if cost == RETRACTION || advertised == RETRACTION then RETRACTION
    else if cost + advertised >= RETRACTION then RETRACTION - 1
    else cost + advertised
  }

  /** A feasibility distance: the content of a source table entry. */
  datatype Distance = Distance(seqno: SeqNo, metric: int)

  /** Source.Feasible. */
  predicate Feasible(d: Distance, seqno: SeqNo, metric: Metric) {
    SeqnoLess(d.seqno, seqno) || (d.seqno == seqno && metric < d.metric)
  }

  /** Source.UpdateFeasibility. */
  function Tighten(d: Distance, seqno: SeqNo, metric: int): Distance {
    if SeqnoLess(d.seqno, seqno) then Distance(seqno, metric)
    else if d.seqno == seqno && metric < d.metric then d.(metric := metric)
    else d
  }

  // ---- Sequence numbers inside one half window ----

  /** q lies in the half window of 2^15 sequence numbers that starts at base. */
  predicate InWindow(base: SeqNo, q: SeqNo) { Offset(base, q) < 0x8000 }

  function Offset(base: SeqNo, q: SeqNo): nat { (q - base) % 0x1_0000 }

  /** Inside a half window the circular order is the order of the offsets, hence total. */
  lemma WindowIsLinear(base: SeqNo, a: SeqNo, b: SeqNo)
    requires InWindow(base, a) && InWindow(base, b)
    ensures SeqnoLess(a, b) <==> Offset(base, a) < Offset(base, b)
    ensures a == b <==> Offset(base, a) == Offset(base, b)
  {
  }

  /** One number more and the order is lost: base and base + 2^15 are unequal and unordered. */
  lemma FullHalfTurnIsUnordered(base: SeqNo)
    ensures var q: SeqNo := (base + 0x8000) % 0x1_0000;
            q != base && !SeqnoLess(base, q) && !SeqnoLess(q, base)
  {
  }

  /** x is strictly better than y: newer, or as new with a smaller metric. */
  predicate Better(base: SeqNo, x: Distance, y: Distance) {
    Offset(base, x.seqno) > Offset(base, y.seqno) || (x.seqno == y.seqno && x.metric < y.metric)
  }

  predicate AllInWindow(base: SeqNo, ds: seq<Distance>) {
    forall i | 0 <= i < |ds| :: InWindow(base, ds[i].seqno)
  }

  /** The source entry after these finite updates were sent, the first one creating it. */
  function AfterSends(sends: seq<Distance>): Distance
    requires |sends| > 0
  {
    if |sends| == 1 then sends[0]
    else Tighten(AfterSends(sends[..|sends| - 1]), sends[|sends| - 1].seqno, sends[|sends| - 1].metric)
  }

  /** The entry is one of the updates sent, and none of them is better. */
  lemma {:induction false} AfterSendsIsBest(base: SeqNo, sends: seq<Distance>)
    requires |sends| > 0 && AllInWindow(base, sends)
    ensures AfterSends(sends) in sends
    ensures forall i | 0 <= i < |sends| :: !Better(base, sends[i], AfterSends(sends))
  {
    if |sends| > 1 {
      var front := sends[..|sends| - 1];
      AfterSendsIsBest(base, front);
      var d, last := AfterSends(front), sends[|sends| - 1];
      assert InWindow(base, d.seqno);
      WindowIsLinear(base, d.seqno, last.seqno);
      forall i | 0 <= i < |sends|
        ensures !Better(base, sends[i], AfterSends(sends))
      {
        if i < |front| {
          assert front[i] == sends[i];
          WindowIsLinear(base, sends[i].seqno, d.seqno);
        }
        WindowIsLinear(base, sends[i].seqno, last.seqno);
      }
    }
  }

  /** The feasibility condition, in full: an update is feasible exactly when it is strictly better than
      every finite update ever sent for the source. */
  lemma FeasibleIffBetterThanEverySend(base: SeqNo, sends: seq<Distance>, seqno: SeqNo, metric: Metric)
    requires |sends| > 0 && AllInWindow(base, sends) && InWindow(base, seqno)
    ensures Feasible(AfterSends(sends), seqno, metric) <==>
            forall i | 0 <= i < |sends| :: Better(base, Distance(seqno, metric), sends[i])
  {
    AfterSendsIsBest(base, sends);
    var d := AfterSends(sends);
    WindowIsLinear(base, d.seqno, seqno);
    var k :| 0 <= k < |sends| && sends[k] == d;
    if Feasible(d, seqno, metric) {
      forall i | 0 <= i < |sends|
        ensures Better(base, Distance(seqno, metric), sends[i])
      {
        WindowIsLinear(base, sends[i].seqno, d.seqno);
        WindowIsLinear(base, sends[i].seqno, seqno);
      }
    }
  }

  /** Advertising a feasible route at its own metric leaves it feasible exactly when that metric is
      above the one advertised to us; a positive link cost whose sum does not saturate guarantees it. */
  lemma AdvertisingKeepsFeasible(base: SeqNo, sends: seq<Distance>, seqno: SeqNo, advertised: Metric, cost: Metric)
    requires AllInWindow(base, sends) && InWindow(base, seqno)
    requires |sends| > 0 ==> Feasible(AfterSends(sends), seqno, advertised)
    requires cost != RETRACTION && advertised != RETRACTION
    ensures var after := AfterSends(sends + [Distance(seqno, LinkMetric(cost, advertised))]);
            && (Feasible(after, seqno, advertised) <==> advertised < LinkMetric(cost, advertised))
            && (cost > 0 && cost + advertised < RETRACTION ==> Feasible(after, seqno, advertised))
  {
    var m := LinkMetric(cost, advertised);
    var all := sends + [Distance(seqno, m)];
    assert all[..|all| - 1] == sends;
    if |sends| > 0 {
      AfterSendsIsBest(base, sends);
      WindowIsLinear(base, AfterSends(sends).seqno, seqno);
    }
  }
}
