/** The event hub: numbered events, a bounded history for replay, and bounded streams that are closed rather than
    have a hole. */
module Events {
  import opened Net

  /** The status snapshot goes to live subscribers only. */
  datatype Event = Event(sequence: nat, body: string, status: Option<string>)

  /** A subscriber's channel, with what its reader has taken out so far; `start` is the last event before it. */
  datatype Stream = Stream(open: bool, buffer: seq<Event>, start: nat, taken: seq<Event>)

  datatype Subscription = Subscription(replay: seq<Event>, id: nat, current: nat, oldest: nat, gap: bool)

  const BUFFER := 64

  // ---- Runs of numbers ----

  /** The events are numbered from + 1, from + 2, ... without hole or repetition. */
  predicate Follows(from: nat, es: seq<Event>) { forall i | 0 <= i < |es| :: es[i].sequence == from + 1 + i }

  lemma FollowsJoin(from: nat, a: seq<Event>, b: seq<Event>)
    requires Follows(from, a)
    ensures Follows(from, a + b) <==> Follows(from + |a|, b)
  {
    if Follows(from, a + b) {
      forall i | 0 <= i < |b|
        ensures b[i].sequence == from + |a| + 1 + i
      {
        assert (a + b)[|a| + i] == b[i];
      }
    }
  }

  /** What a stream has carried so far, in order. */
  function Carried(s: Stream): seq<Event> { s.taken + s.buffer }

  /** Publishing to one subscriber: a full channel is closed. */
  function Deliver(s: Stream, e: Event): Stream {
    if !s.open then s
    else if |s.buffer| < BUFFER then s.(buffer := s.buffer + [e])
    else s.(open := false)
  }

  ghost predicate StreamOk(s: Stream, next: nat) {
    && |s.buffer| <= BUFFER && s.start <= next
    && Follows(s.start, Carried(s))
    && (s.open ==> s.start + |Carried(s)| == next)
  }

  lemma DeliverKeepsOk(s: Stream, e: Event, next: nat)
    requires StreamOk(s, next) && e.sequence == next + 1
    ensures StreamOk(Deliver(s, e), next + 1)
  {
    if s.open && |s.buffer| < BUFFER {
      assert Carried(Deliver(s, e)) == Carried(s) + [e];
    }
  }

  lemma NewStream(next: nat)
    ensures StreamOk(Stream(true, [], next, []), next)
  {
  }

  function Newer(history: seq<Event>, after: nat): seq<Event> {
    if history == [] then []
    else
      var front, e := Newer(history[..|history| - 1], after), history[|history| - 1];
      if e.sequence > after then front + [e] else front
  }

  /** The events of a run of numbers that are newer than `after` are its tail. */
  lemma {:induction false} NewerIsTail(from: nat, history: seq<Event>, after: nat)
    requires Follows(from, history)
    ensures var skip := if after <= from then 0 else if after - from <= |history| then after - from else |history|;
            Newer(history, after) == history[skip..]
  {
    if history != [] {
      var n := |history| - 1;
      NewerIsTail(from, history[..n], after);
      assert history == history[..n] + [history[n]];
    }
  }

  /** The history with one more event, cut to its capacity. */
  lemma HistoryGrows(next: nat, history: seq<Event>, e: Event, capacity: nat)
    requires |history| <= next && Follows(next - |history|, history) && e.sequence == next + 1
    ensures var h := history + [e.(status := None)]; Follows(next - |history|, h) && Follows(next + 1 - |history|, h[1..])
  {
  }

  // ---- The hub as a value, and its steps ----

  datatype Hub = Hub(next: nat, capacity: nat, history: seq<Event>, streams: map<nat, Stream>, nextSub: nat)

  datatype Step = Publishing(body: string, status: Option<string>) | Subscribing(after: nat) | Taking(id: nat) | Cancelling(id: nat)

  predicate Enabled(h: Hub, step: Step) {
    match step
    case Taking(id) => id in h.streams
    case Cancelling(id) => id in h.streams
    case _ => true
  }

  function Recorded(h: Hub, e: Event): seq<Event> {
    (if |h.history| < h.capacity || h.history == [] then h.history else h.history[1..]) + [e.(status := None)]
  }

  function TakeOne(s: Stream): Stream {
    if s.buffer == [] then s else s.(buffer := s.buffer[1..], taken := s.taken + [s.buffer[0]])
  }

  function After(h: Hub, step: Step): Hub
    requires Enabled(h, step)
  {
    match step
    case Publishing(body, status) =>
      var e := Event(h.next + 1, body, status);
      h.(next := h.next + 1, history := Recorded(h, e), streams := map id | id in h.streams :: Deliver(h.streams[id], e))
    case Subscribing(_) => h.(streams := h.streams[h.nextSub + 1 := Stream(true, [], h.next, [])], nextSub := h.nextSub + 1)
    case Taking(id) => h.(streams := h.streams[id := TakeOne(h.streams[id])])
    case Cancelling(id) => h.(streams := h.streams[id := h.streams[id].(open := false)])
  }

  class EventHub {
    var next: nat
    const capacity: nat
    var history: seq<Event>
    var streams: map<nat, Stream>
    var nextSub: nat

    /** The history is always the last min(next, capacity) events; every stream carries consecutive events from its
        start on, and an open one all of them. */
    ghost predicate Valid()
      reads this
    {
      && capacity >= 1
      && |history| == (if next < capacity then next else capacity) && Follows(next - |history|, history)
      && (forall id | id in streams :: id <= nextSub && StreamOk(streams[id], next))
    }

    ghost function View(): Hub
      reads this
    {
      Hub(next, capacity, history, streams, nextSub)
    }

    constructor (capacity: int)
      ensures Valid() && View() == Hub(0, this.capacity, [], map[], 0) && next == 0 && streams == map[]
      ensures this.capacity == if capacity < 1 then 1 else capacity
    {
      this.capacity := if capacity < 1 then 1 else capacity;
      next, history, streams, nextSub := 0, [], map[], 0;
    }

    method Publish(body: string, status: Option<string>) returns (e: Event)
      requires Valid()
      modifies this`next, this`history, this`streams
      ensures Valid()
      ensures View() == After(old(View()), Publishing(body, status))
      ensures next == old(next) + 1 && e == Event(next, body, status)
      ensures streams.Keys == old(streams).Keys
      ensures forall id | id in streams :: streams[id] == Deliver(old(streams)[id], e)
      ensures history == if old(|history|) < capacity then old(history) + [e.(status := None)] else old(history)[1..] + [e.(status := None)]
    {
      hide Follows, StreamOk, Deliver;
      next := next + 1;
      e := Event(next, body, status);
      HistoryGrows(next - 1, history, e, capacity);
      history := history + [e.(status := None)];
      if |history| > capacity {
        history := history[|history| - capacity..];
      }
      ghost var before := streams;
      Broadcast(e);
      forall id | id in streams
        ensures StreamOk(streams[id], next)
      {
        DeliverKeepsOk(before[id], e, next - 1);
      }
    }

    /** Hand the event to every subscriber; one that has no room is closed. */
    method Broadcast(e: Event)
      modifies this`streams
      ensures streams.Keys == old(streams).Keys
      ensures forall id | id in streams :: streams[id] == Deliver(old(streams)[id], e)
    {
      ghost var before := streams;
      var ids := streams.Keys;
      while ids != {}
        invariant ids <= before.Keys && streams.Keys == before.Keys
        invariant forall id | id in before :: streams[id] == if id in ids then before[id] else Deliver(before[id], e)
        decreases ids
      {
        var id :| id in ids;
        ids := ids - {id};
        var s := streams[id];
        if s.open {
          if |s.buffer| < BUFFER {
            streams := streams[id := s.(buffer := s.buffer + [e])];
          } else {
            streams := streams[id := s.(open := false)];
          }
        }
      }
    }

    method Subscribe(after: nat) returns (sub: Subscription)
      requires Valid()
      modifies this`nextSub, this`streams
      ensures Valid()
      ensures View() == After(old(View()), Subscribing(after))
      ensures sub.id == nextSub == old(nextSub) + 1 && streams == old(streams)[sub.id := Stream(true, [], next, [])]
      ensures sub.current == next && sub.replay == Newer(history, after)
      ensures sub.oldest == next + 1 - |history|
      ensures sub.gap <==> after != 0 && sub.oldest > 1 && after < sub.oldest - 1
    {
      nextSub := nextSub + 1;
      streams := streams[nextSub := Stream(true, [], next, [])];
      NewStream(next);
      hide StreamOk, Newer;
      var oldest := next + 1;
      if |history| != 0 {
        oldest := history[0].sequence;
      }
      var replay := Replay(after);
      return Subscription(replay, nextSub, next, oldest, after != 0 && oldest > 1 && after < oldest - 1);
    }

    /** The events of the history that are newer. */
    method Replay(after: nat) returns (replay: seq<Event>)
      ensures replay == Newer(history, after)
    {
      replay := [];
      for i := 0 to |history|
        invariant replay == Newer(history[..i], after)
      {
        assert history[..i + 1][..i] == history[..i];
        if history[i].sequence > after {
          replay := replay + [history[i]];
        }
      }
      assert history[..|history|] == history;
    }

    /** The reader takes the next event out of its channel; a closed channel is drained first. */
    method Take(id: nat) returns (e: Option<Event>)
      requires Valid() && id in streams
      modifies this`streams
      ensures Valid()
      ensures View() == After(old(View()), Taking(id))
      ensures e == if old(streams)[id].buffer == [] then None else Some(old(streams)[id].buffer[0])
      ensures e.None? ==> streams == old(streams)
      ensures e.Some? ==>
                var s := old(streams)[id];
                streams == old(streams)[id := s.(buffer := s.buffer[1..], taken := s.taken + [e.value])]
    {
      var s := streams[id];
      if s.buffer == [] {
        return None;
      }
      e := Some(s.buffer[0]);
      var t := s.(buffer := s.buffer[1..], taken := s.taken + [s.buffer[0]]);
      assert Carried(t) == Carried(s);
      streams := streams[id := t];
    }

    /** The subscriber gives up: nothing more is delivered. */
    method Cancel(id: nat)
      requires Valid() && id in streams
      modifies this`streams
      ensures Valid() && streams == old(streams)[id := old(streams)[id].(open := false)]
      ensures View() == After(old(View()), Cancelling(id))
    {
      streams := streams[id := streams[id].(open := false)];
    }
  }

  // ---- What a subscriber sees ----

  /** The hub as a value. */
  ghost predicate HistoryOk(next: nat, capacity: nat, history: seq<Event>) {
    capacity >= 1 && |history| == (if next < capacity then next else capacity) && Follows(next - |history|, history)
  }

  /** For a subscriber that has seen `after` > 0, the replay continues without a hole up to the current event exactly
      when it has not seen more than there is and no gap is reported. */
  lemma GapIsExact(next: nat, capacity: nat, history: seq<Event>, after: nat)
    requires HistoryOk(next, capacity, history) && after > 0
    ensures var oldest := next + 1 - |history|;
            var gap := oldest > 1 && after < oldest - 1;
            var replay := Newer(history, after);
            after <= next && !gap <==> Follows(after, replay) && after + |replay| == next
  {
    NewerIsTail(next - |history|, history, after);
    var skip := if after <= next - |history| then 0 else if after - (next - |history|) <= |history| then after - (next - |history|) else |history|;
    assert Newer(history, after) == history[skip..];
    if next - |history| > after {
      if history[skip..] != [] {
        assert history[skip..][0].sequence == next - |history| + 1;
      }
    }
  }

  /** Replay followed by what the reader took, or by everything the stream carries, is numbered after + 1, after + 2, ...
      while the stream is open and after it is closed; while it is open nothing published is missing. */
  lemma ReplayThenLive(next: nat, after: nat, replay: seq<Event>, s: Stream)
    requires Follows(after, replay) && after + |replay| == s.start && StreamOk(s, next)
    ensures Follows(after, replay + s.taken) && Follows(after, replay + Carried(s))
    ensures s.open ==> after + |replay + Carried(s)| == next
  {
    FollowsJoin(after, replay, Carried(s));
    assert forall i | 0 <= i < |s.taken| :: s.taken[i] == Carried(s)[i];
    FollowsJoin(after, replay, s.taken);
  }

  /** A subscriber that had seen the events up to `after` > 0, no more than there were, and is told of no gap: what it
      gets, from the replay and then from its stream, is after + 1, after + 2, ... however the hub goes on. */
  lemma SubscriberMissesNothing(next: nat, capacity: nat, history: seq<Event>, after: nat, s: Stream, later: nat)
    requires HistoryOk(next, capacity, history) && 0 < after <= next
    requires var oldest := next + 1 - |history|; !(oldest > 1 && after < oldest - 1)
    requires StreamOk(s, later) && s.start == next
    ensures var got := Newer(history, after) + Carried(s);
            Follows(after, got) && (s.open ==> after + |got| == later)
  {
    hide StreamOk, Newer, Carried;
    GapIsExact(next, capacity, history, after);
    ReplayThenLive(later, after, Newer(history, after), s);
  }

  // ---- Runs of the hub ----

  ghost predicate HubOk(h: Hub) {
    && HistoryOk(h.next, h.capacity, h.history)
    && forall id | id in h.streams :: id <= h.nextSub && StreamOk(h.streams[id], h.next)
  }

  lemma StepKeepsOk(h: Hub, step: Step)
    requires HubOk(h) && Enabled(h, step)
    ensures HubOk(After(h, step))
  {
    match step
    case Publishing(body, status) =>
      var e := Event(h.next + 1, body, status);
      HistoryGrows(h.next, h.history, e, h.capacity);
      forall id | id in h.streams
        ensures StreamOk(Deliver(h.streams[id], e), h.next + 1)
      {
        DeliverKeepsOk(h.streams[id], e, h.next);
      }
    case Subscribing(_) =>
    case Taking(id) =>
      assert Carried(TakeOne(h.streams[id])) == Carried(h.streams[id]);
    case Cancelling(_) =>
  }

  /** hubs[i] --steps[i]--> hubs[i + 1], from a hub without events. */
  ghost predicate HubRun(hubs: seq<Hub>, steps: seq<Step>) {
    && |hubs| == |steps| + 1 && hubs[0] == Hub(0, hubs[0].capacity, [], map[], 0) && hubs[0].capacity >= 1
    && forall i | 0 <= i < |steps| :: StepAt(hubs, steps, i)
  }

  ghost predicate StepAt(hubs: seq<Hub>, steps: seq<Step>, i: nat)
    requires |hubs| == |steps| + 1 && i < |steps|
  {
    Enabled(hubs[i], steps[i]) && hubs[i + 1] == After(hubs[i], steps[i])
  }

  lemma {:induction false} RunIsOk(hubs: seq<Hub>, steps: seq<Step>, i: nat)
    requires HubRun(hubs, steps) && i < |hubs|
    ensures HubOk(hubs[i])
  {
    if i > 0 {
      RunIsOk(hubs, steps, i - 1);
      assert StepAt(hubs, steps, i - 1);
      StepKeepsOk(hubs[i - 1], steps[i - 1]);
    }
  }

  /** A stream stays, with its start. */
  lemma {:induction false} StreamStays(hubs: seq<Hub>, steps: seq<Step>, i: nat, j: nat, id: nat)
    requires HubRun(hubs, steps) && i <= j < |hubs| && id in hubs[i].streams
    ensures id in hubs[j].streams && hubs[j].streams[id].start == hubs[i].streams[id].start
  {
    if i < j {
      StreamStays(hubs, steps, i, j - 1, id);
      RunIsOk(hubs, steps, j - 1);
      assert StepAt(hubs, steps, j - 1);
    }
  }

  /** One connection of a client: it subscribes in step `from` and has read `received` by state `to`. */
  datatype Session = Session(from: nat, to: nat, received: seq<Event>)

  /** Of the replay and then of its stream the client has read some first events, in order. It had seen events before,
      no more than there were, and was told of no gap. */
  ghost predicate Reads(hubs: seq<Hub>, steps: seq<Step>, s: Session) {
    && |hubs| == |steps| + 1 && s.from < s.to < |hubs| && steps[s.from].Subscribing?
    && var h, after, id := hubs[s.from], steps[s.from].after, hubs[s.from].nextSub + 1;
    && 0 < after <= h.next && !(h.next + 1 - |h.history| > 1 && after < h.next - |h.history|)
    && id in hubs[s.to].streams
    && s.received <= Newer(h.history, after) + hubs[s.to].streams[id].taken
  }

  /** Every session starts after the last event its client had seen in the session before. */
  ghost predicate Resumes(hubs: seq<Hub>, steps: seq<Step>, sessions: seq<Session>) {
    && (forall i | 0 <= i < |sessions| :: Reads(hubs, steps, sessions[i]))
    && forall i | 0 < i < |sessions| :: ResumesAt(steps, sessions, i)
  }

  predicate ResumesAt(steps: seq<Step>, sessions: seq<Session>, i: nat)
    requires 0 < i < |sessions|
  {
    && sessions[i].from < |steps| && steps[sessions[i].from].Subscribing?
    && sessions[i - 1].from < |steps| && steps[sessions[i - 1].from].Subscribing?
    && steps[sessions[i].from].after ==
         var before := sessions[i - 1];
         if before.received == [] then steps[before.from].after else before.received[|before.received| - 1].sequence
  }

  function AllReceived(sessions: seq<Session>): seq<Event> {
    if sessions == [] then [] else AllReceived(sessions[..|sessions| - 1]) + sessions[|sessions| - 1].received
  }

  lemma FollowsPrefix(from: nat, a: seq<Event>, b: seq<Event>)
    requires a <= b && Follows(from, b)
    ensures Follows(from, a) && (a != [] ==> a[|a| - 1].sequence == from + |a|)
  {
    assert forall i | 0 <= i < |a| :: a[i] == b[i];
  }

  /** What a session reads of a hub follows what its client had seen. */
  lemma SessionFollows(hubs: seq<Hub>, steps: seq<Step>, s: Session)
    requires HubRun(hubs, steps) && Reads(hubs, steps, s)
    ensures Follows(steps[s.from].after, s.received)
    ensures s.received != [] ==> s.received[|s.received| - 1].sequence == steps[s.from].after + |s.received|
  {
    var h, after, id := hubs[s.from], steps[s.from].after, hubs[s.from].nextSub + 1;
    RunIsOk(hubs, steps, s.from);
    RunIsOk(hubs, steps, s.to);
    assert StepAt(hubs, steps, s.from);
    StreamStays(hubs, steps, s.from + 1, s.to, id);
    var stream := hubs[s.to].streams[id];
    assert stream.start == h.next;
    hide StreamOk, Newer, HubRun;
    GapIsExact(h.next, h.capacity, h.history, after);
    ReplayThenLive(hubs[s.to].next, after, Newer(h.history, after), stream);
    FollowsPrefix(after, s.received, Newer(h.history, after) + stream.taken);
  }

  lemma FrontResumes(hubs: seq<Hub>, steps: seq<Step>, sessions: seq<Session>)
    requires Resumes(hubs, steps, sessions) && sessions != []
    ensures Resumes(hubs, steps, sessions[..|sessions| - 1])
  {
    hide Reads;
    var front := sessions[..|sessions| - 1];
    forall i | 0 < i < |front|
      ensures ResumesAt(steps, front, i)
    {
      assert ResumesAt(steps, sessions, i);
    }
  }

  lemma ReadsFromStart(hubs: seq<Hub>, steps: seq<Step>, s: Session)
    requires Reads(hubs, steps, s)
    ensures s.from < |steps| && steps[s.from].Subscribing?
  {
  }

  lemma LastReceived(sessions: seq<Session>)
    requires sessions != []
    ensures AllReceived(sessions) == AllReceived(sessions[..|sessions| - 1]) + sessions[|sessions| - 1].received
    ensures |sessions| == 1 ==> AllReceived(sessions) == sessions[0].received
  {
    assert AllReceived([]) == [];
  }

  /** However often a client reconnects to a running hub, what it has received altogether has no hole and no
      repetition. */
  lemma {:induction false} ReconnectsCompose(hubs: seq<Hub>, steps: seq<Step>, sessions: seq<Session>)
    requires HubRun(hubs, steps) && sessions != [] && Resumes(hubs, steps, sessions)
    ensures Follows(steps[sessions[0].from].after, AllReceived(sessions))
    ensures var last := sessions[|sessions| - 1];
            steps[sessions[0].from].after + |AllReceived(sessions)| == steps[last.from].after + |last.received|
  {
    hide HubRun, Follows, Reads, AllReceived;
    var n := |sessions| - 1;
    assert Reads(hubs, steps, sessions[n]) && Reads(hubs, steps, sessions[0]);
    ReadsFromStart(hubs, steps, sessions[0]);
    LastReceived(sessions);
    SessionFollows(hubs, steps, sessions[n]);
    if n == 0 {
    } else {
      FrontResumes(hubs, steps, sessions);
      ReconnectsCompose(hubs, steps, sessions[..n]);
      assert ResumesAt(steps, sessions, n) && Reads(hubs, steps, sessions[n - 1]);
      SessionFollows(hubs, steps, sessions[n - 1]);
      FollowsJoin(steps[sessions[0].from].after, AllReceived(sessions[..n]), sessions[n].received);
    }
  }
}
