/** What the subscribers of the event hub get over a whole run: the events as they were published, until a stream is closed, and
    when that happens. */
module Delivery {
  import opened Net
  import opened Events

  /** Step k published an event with this number, body and status. */
  predicate PublishedBy(hubs: seq<Hub>, steps: seq<Step>, k: nat, e: Event) {
    k < |steps| && k < |hubs| && steps[k] == Publishing(e.body, e.status) && e.sequence == hubs[k].next + 1
  }

  ghost predicate Published(hubs: seq<Hub>, steps: seq<Step>, i: nat, e: Event) {
    exists k :: 0 <= k < i && PublishedBy(hubs, steps, k, e)
  }

  /** The event of the history, with some status, was published. */
  ghost predicate Remembered(hubs: seq<Hub>, steps: seq<Step>, i: nat, e: Event) {
    e.status == None && exists s :: Published(hubs, steps, i, e.(status := s))
  }

  lemma PublishedStays(hubs: seq<Hub>, steps: seq<Step>, i: nat, e: Event)
    requires Published(hubs, steps, i, e)
    ensures Published(hubs, steps, i + 1, e)
  {
    var k :| 0 <= k < i && PublishedBy(hubs, steps, k, e);
  }

  lemma JustPublished(hubs: seq<Hub>, steps: seq<Step>, i: nat, e: Event)
    requires PublishedBy(hubs, steps, i, e)
    ensures Published(hubs, steps, i + 1, e)
  {
  }

  lemma RecordedBefore(h: Hub, e: Event, x: Event)
    requires x in Recorded(h, e)
    ensures x in h.history || x == e.(status := None)
  {
  }

  /** A step brings nothing new to a stream but an event it publishes. */
  lemma CarriedBefore(h: Hub, step: Step, id: nat, x: Event)
    requires Enabled(h, step) && id in After(h, step).streams && x in Carried(After(h, step).streams[id])
    ensures (id in h.streams && x in Carried(h.streams[id])) || (step.Publishing? && x == Event(h.next + 1, step.body, step.status))
  {
    if step.Taking? && step.id == id {
      assert Carried(TakeOne(h.streams[id])) == Carried(h.streams[id]);
    }
  }

  /** Every event in a stream, read or waiting, is one that was published, with its number, body and status; so is every event
      kept for replay, but for the status. */
  lemma {:induction false} EventsAreAsPublished(hubs: seq<Hub>, steps: seq<Step>, i: nat)
    requires HubRun(hubs, steps) && i < |hubs|
    ensures forall id, e | id in hubs[i].streams && e in Carried(hubs[i].streams[id]) :: Published(hubs, steps, i, e)
    ensures forall e | e in hubs[i].history :: Remembered(hubs, steps, i, e)
  {
    if i > 0 {
      EventsAreAsPublished(hubs, steps, i - 1);
      assert StepAt(hubs, steps, i - 1);
      hide Carried, Published, HubRun, Recorded, PublishedBy;
      forall id, e | id in hubs[i].streams && e in Carried(hubs[i].streams[id])
        ensures Published(hubs, steps, i, e)
      {
        StillPublished(hubs, steps, i - 1, id, e);
      }
      forall e | e in hubs[i].history
        ensures Remembered(hubs, steps, i, e)
      {
        StillRemembered(hubs, steps, i - 1, e);
      }
    }
  }

  lemma StillPublished(hubs: seq<Hub>, steps: seq<Step>, i: nat, id: nat, e: Event)
    requires |hubs| == |steps| + 1 && i < |steps| && StepAt(hubs, steps, i)
    requires forall id, e | id in hubs[i].streams && e in Carried(hubs[i].streams[id]) :: Published(hubs, steps, i, e)
    requires id in hubs[i + 1].streams && e in Carried(hubs[i + 1].streams[id])
    ensures Published(hubs, steps, i + 1, e)
  {
    CarriedBefore(hubs[i], steps[i], id, e);
    hide Carried, Published;
    if id in hubs[i].streams && e in Carried(hubs[i].streams[id]) {
      PublishedStays(hubs, steps, i, e);
    } else {
      JustPublished(hubs, steps, i, e);
    }
  }

  lemma StillRemembered(hubs: seq<Hub>, steps: seq<Step>, i: nat, e: Event)
    requires |hubs| == |steps| + 1 && i < |steps| && StepAt(hubs, steps, i)
    requires forall e | e in hubs[i].history :: Remembered(hubs, steps, i, e)
    requires e in hubs[i + 1].history
    ensures Remembered(hubs, steps, i + 1, e)
  {
    hide Published, Recorded;
    if e in hubs[i].history {
      var s :| Published(hubs, steps, i, e.(status := s));
      PublishedStays(hubs, steps, i, e.(status := s));
    } else {
      var x := Event(hubs[i].next + 1, steps[i].body, steps[i].status);
      RecordedBefore(hubs[i], x, e);
      JustPublished(hubs, steps, i, x);
    }
  }

  // ---- Reading, and the end of a stream ----

  /** Only its reader takes events out of a stream, one at a time, the oldest first. */
  lemma OnlyReaderTakes(h: Hub, step: Step, id: nat)
    requires Enabled(h, step) && id in h.streams && id <= h.nextSub
    ensures id in After(h, step).streams
    ensures var s, t := h.streams[id], After(h, step).streams[id];
            if step == Taking(id) && s.buffer != [] then
              t.open == s.open && t.taken == s.taken + s.buffer[..1] && s.buffer == s.buffer[..1] + t.buffer
            else t.taken == s.taken && s.buffer <= t.buffer
  {
  }

  /** The step closes an open stream: its subscriber gives up, or 64 events are waiting when another is published. */
  predicate Closes(h: Hub, step: Step, id: nat) {
    || (step.Cancelling? && step.id == id)
    || (step.Publishing? && id in h.streams && |h.streams[id].buffer| >= 64)
  }

  lemma ClosesOrStays(h: Hub, step: Step, id: nat)
    requires Enabled(h, step) && id in h.streams && id <= h.nextSub
    ensures id in After(h, step).streams
    ensures After(h, step).streams[id].open <==> h.streams[id].open && !Closes(h, step, id)
    ensures step.Publishing? ==>
              After(h, step).streams[id].buffer
              == if h.streams[id].open && !Closes(h, step, id) then
                   h.streams[id].buffer + [Event(h.next + 1, step.body, step.status)]
                 else h.streams[id].buffer
  {
  }

  /** An open stream is closed later exactly if a step in between closes it; it is never opened again. */
  lemma {:induction false} ClosedExactlyWhen(hubs: seq<Hub>, steps: seq<Step>, i: nat, j: nat, id: nat)
    requires HubRun(hubs, steps) && i <= j < |hubs| && id in hubs[i].streams
    ensures id in hubs[j].streams
    ensures hubs[j].streams[id].open <==> hubs[i].streams[id].open && forall k | i <= k < j :: !Closes(hubs[k], steps[k], id)
  {
    StreamStays(hubs, steps, i, j, id);
    if i < j {
      ClosedExactlyWhen(hubs, steps, i, j - 1, id);
      RunIsOk(hubs, steps, j - 1);
      assert StepAt(hubs, steps, j - 1);
      hide HubRun, StreamOk, HistoryOk, Closes, After;
      ClosesOrStays(hubs[j - 1], steps[j - 1], id);
    }
  }

  /** As long as nothing closes it, a stream gets every event published after its subscription, as published. */
  lemma EveryEventArrives(hubs: seq<Hub>, steps: seq<Step>, i: nat, j: nat, k: nat, id: nat)
    requires HubRun(hubs, steps) && i <= k < j < |hubs| && id in hubs[i].streams && hubs[j].streams.Keys >= {id}
    requires hubs[j].streams[id].open && steps[k].Publishing?
    ensures Event(hubs[k].next + 1, steps[k].body, steps[k].status) in Carried(hubs[j].streams[id])
    decreases j
  {
    ClosedExactlyWhen(hubs, steps, i, j - 1, id);
    RunIsOk(hubs, steps, j - 1);
    assert StepAt(hubs, steps, j - 1);
    ClosesOrStays(hubs[j - 1], steps[j - 1], id);
    KeepsCarried(hubs[j - 1], steps[j - 1], id);
    hide HubRun, StreamOk, HistoryOk, Closes, After, Carried;
    if k < j - 1 {
      EveryEventArrives(hubs, steps, i, j - 1, k, id);
    } else {
      LastIsCarried(hubs[j].streams[id]);
    }
  }

  lemma LastIsCarried(s: Stream)
    ensures s.buffer != [] ==> s.buffer[|s.buffer| - 1] in Carried(s)
  {
  }

  lemma KeepsCarried(h: Hub, step: Step, id: nat)
    requires Enabled(h, step) && id in h.streams && id <= h.nextSub
    ensures id in After(h, step).streams && Carried(h.streams[id]) <= Carried(After(h, step).streams[id])
  {
  }
}
