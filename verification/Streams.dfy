/**
 One open dashboard's events: a bounded queue that gives way to a single "resync" when it overflows, and what is
 promised of it. Every notice since the stream opened is delivered, queued, or followed by a resync.
 */
module Streams {
  import opened Runs

  const QUEUE_SIZE: nat := 100

  datatype Event = Notice(kind: string, message: nat) | Resync

  // An event and the notice it was put in the queue for, counted from the stream's opening.
  datatype Entry = Entry(event: Event, at: nat)

  // log: every notice of this mailbox since the stream opened, missed ones too, and every resync published.
  datatype Stream = Stream(log: seq<Event>, delivered: seq<Entry>, queued: seq<Entry>)

  const OPENED := Stream([], [], [])

  // A full queue is emptied for one resync.
  function Offered(s: Stream, event: Event): Stream {
    s.(log := s.log + [event],
       queued := if |s.queued| < QUEUE_SIZE then s.queued + [Entry(event, |s.log|)] else [Entry(Resync, |s.log|)])
  }

  // With room the event itself waits behind the others; without it one resync stands for all of them.
  lemma OfferedOnQueue(s: Stream, event: Event)
    ensures |s.queued| < 100 ==> Offered(s, event).queued == s.queued + [Entry(event, |s.log|)]
    ensures |s.queued| >= 100 ==> Offered(s, event).queued == [Entry(Resync, |s.log|)]
    ensures Offered(s, event).delivered == s.delivered && Offered(s, event).log == s.log + [event]
  {
  }

  // Raised while no listener was connected: nobody hears it.
  function Missed(s: Stream, event: Event): Stream {
    s.(log := s.log + [event])
  }

  function Taken(s: Stream): Stream
    requires s.queued != []
  {
    s.(delivered := s.delivered + [s.queued[0]], queued := s.queued[1..])
  }

  function Entries(s: Stream): seq<Entry> {
    s.delivered + s.queued
  }

  ghost predicate IsAnsweredBy(s: Stream, i: nat, entry: Entry)
    requires i < |s.log|
  {
    entry == Entry(s.log[i], i) || (entry.event.Resync? && entry.at >= i)
  }

  ghost predicate IsAnswered(s: Stream, i: nat)
    requires i < |s.log|
  {
    exists e :: e in Entries(s) && IsAnsweredBy(s, i, e)
  }

  ghost predicate NothingLost(s: Stream) {
    forall i :: 0 <= i < |s.log| ==> IsAnswered(s, i)
  }

  // Nothing made up, nothing out of order.
  ghost predicate IsTrueTo(log: seq<Event>, entries: seq<Entry>) {
    && (forall e :: e in entries ==> e.at < |log| && (e.event.Resync? || e.event == log[e.at]))
    && (forall k, l :: 0 <= k < l < |entries| ==> entries[k].at < entries[l].at)
  }

  ghost predicate IsFaithful(s: Stream) {
    |s.queued| <= QUEUE_SIZE && IsTrueTo(s.log, Entries(s))
  }

  lemma StaysTrueTo(log: seq<Event>, entries: seq<Entry>, event: Event)
    requires IsTrueTo(log, entries)
    ensures IsTrueTo(log + [event], entries)
    ensures IsTrueTo(log + [event], entries + [Entry(event, |log|)])
    ensures IsTrueTo(log + [event], entries + [Entry(Resync, |log|)])
  {
    assert forall e :: e in entries ==> (log + [event])[e.at] == log[e.at];
    assert forall k :: 0 <= k < |entries| ==> entries[k] in entries;
  }

  lemma OfferKeepsFaith(s: Stream, event: Event)
    requires IsFaithful(s)
    ensures IsFaithful(Offered(s, event)) && IsFaithful(Missed(s, event))
  {
    var t := Offered(s, event);
    if |s.queued| < QUEUE_SIZE {
      StaysTrueTo(s.log, Entries(s), event);
      assert Entries(t) == Entries(s) + [Entry(event, |s.log|)];
    } else {
      assert forall k :: 0 <= k < |s.delivered| ==> Entries(s)[k] == s.delivered[k];
      StaysTrueTo(s.log, s.delivered, event);
      assert Entries(t) == s.delivered + [Entry(Resync, |s.log|)];
    }
    StaysTrueTo(s.log, Entries(s), event);
    assert Entries(Missed(s, event)) == Entries(s);
  }

  lemma OfferLosesNothing(s: Stream, event: Event)
    requires NothingLost(s)
    ensures NothingLost(Offered(s, event))
  {
    var t := Offered(s, event);
    var new_ := t.queued[|t.queued| - 1];
    assert new_ in Entries(t) && IsAnsweredBy(t, |s.log|, new_);
    forall i | 0 <= i < |s.log| ensures IsAnswered(t, i) {
      assert IsAnswered(s, i) && t.log[i] == s.log[i];
      var e :| e in Entries(s) && IsAnsweredBy(s, i, e);
      if |s.queued| < QUEUE_SIZE {
        assert Entries(t) == Entries(s) + [new_];
        assert e in Entries(t) && IsAnsweredBy(t, i, e);
      } else {
        assert IsAnsweredBy(t, i, new_);
      }
    }
  }

  // However many were missed before it, a resync answers for them all.
  lemma ResyncAnswersForAll(s: Stream)
    ensures NothingLost(Offered(s, Resync))
  {
    var t := Offered(s, Resync);
    var new_ := t.queued[|t.queued| - 1];
    assert new_ in Entries(t);
    forall i | 0 <= i < |t.log| ensures IsAnswered(t, i) {
      assert IsAnsweredBy(t, i, new_);
    }
  }

  lemma TakeLosesNothing(s: Stream)
    requires s.queued != []
    ensures Entries(Taken(s)) == Entries(s)
    ensures NothingLost(s) ==> NothingLost(Taken(s))
    ensures IsFaithful(s) ==> IsFaithful(Taken(s))
  {
    assert s.queued == [s.queued[0]] + s.queued[1..];
    assert Entries(Taken(s)) == Entries(s);
    if NothingLost(s) {
      forall i | 0 <= i < |s.log| ensures IsAnswered(Taken(s), i) {
        assert IsAnswered(s, i);
        var e :| e in Entries(s) && IsAnsweredBy(s, i, e);
        assert IsAnsweredBy(Taken(s), i, e);
      }
    }
  }

  // ---------- Every run of one stream ----------

  datatype Watched = Watched(stream: Stream, isConnected: bool)

  datatype Step = Raise(event: Event) | Take | Connect | Lose

  predicate Enabled(w: Watched, step: Step) {
    match step
    case Raise(event) => event.Notice?
    case Take => w.stream.queued != []
    case Connect => true
    case Lose => true
  }

  // A listener that (re)connects tells every tab to refetch.
  function Apply(w: Watched, step: Step): Watched
    requires Enabled(w, step)
  {
    match step
    case Raise(event) => w.(stream := if w.isConnected then Offered(w.stream, event) else Missed(w.stream, event))
    case Take => w.(stream := Taken(w.stream))
    case Connect => Watched(Offered(w.stream, Resync), true)
    case Lose => w.(isConnected := false)
  }

  // A stream may open while the listener is connected or before it is.
  ghost function Protocol(): System<Watched> {
    System((w: Watched) => w.stream == OPENED, (v, w) => exists step :: Enabled(v, step) && w == Apply(v, step))
  }

  ghost predicate Inv(w: Watched) {
    IsFaithful(w.stream) && (w.isConnected ==> NothingLost(w.stream))
  }

  lemma StepKeepsInv(w: Watched, step: Step)
    requires Inv(w) && Enabled(w, step)
    ensures Inv(Apply(w, step))
  {
    match step
    case Raise(event) =>
      OfferKeepsFaith(w.stream, event);
      if w.isConnected {
        OfferLosesNothing(w.stream, event);
      }
    case Take => TakeLosesNothing(w.stream);
    case Connect =>
      OfferKeepsFaith(w.stream, Resync);
      ResyncAnswersForAll(w.stream);
    case Lose =>
  }

  /**
   In every run, whatever the listener dropped and however slowly the tab reads: while it is connected no notice
   since the stream opened is lost silently, what is delivered is what was raised, in that order, and at most
   QUEUE_SIZE events wait.
   */
  lemma NoEventIsLostSilently(w: Watched)
    requires Reachable(Protocol(), w)
    ensures w.isConnected ==> NothingLost(w.stream)
    ensures IsFaithful(w.stream)
  {
    forall v, u | Inv(v) && Protocol().next(v, u) ensures Inv(u) {
      var step :| Enabled(v, step) && u == Apply(v, step);
      StepKeepsInv(v, step);
    }
    Always(Protocol(), v => Inv(v), w);
  }

  // ---------- When an event gives way to a resync ----------

  // The queue was full as the notice came that is at this place of the log.
  predicate WasFullAt(w: Watched, at: nat) {
    |w.stream.log| == at && |w.stream.queued| >= 100 && w.isConnected
  }

  predicate StandsForNotice(s: Stream, e: Entry) {
    e in Entries(s) && e.event.Resync? && e.at < |s.log| && s.log[e.at].Notice?
  }

  /**
   In every run a resync stands in a notice's place only where the queue was full when that notice came: while there is
   room, every notice the listener hears is put in the queue itself.
   */
  lemma {:induction false} ResyncForAReason(trace: seq<Watched>, e: Entry) returns (j: nat)
    requires IsTrace(Protocol(), trace) && trace[0].stream == OPENED
    requires StandsForNotice(trace[|trace| - 1].stream, e)
    ensures j < |trace| - 1 && WasFullAt(trace[j], e.at)
    decreases |trace|
  {
    var n := |trace| - 1;
    assert n > 0;
    var v, w := trace[n - 1], trace[n];
    assert Protocol().next(v, w);
    var step :| Enabled(v, step) && w == Apply(v, step);
    if StandsForNotice(v.stream, e) {
      assert IsTrace(Protocol(), trace[..n]);
      j := ResyncForAReason(trace[..n], e);
    } else {
      BeforeTheLast(trace);
      NewIsForAReason(v, step, e);
      j := n - 1;
    }
  }

  lemma BeforeTheLast(trace: seq<Watched>)
    requires IsTrace(Protocol(), trace) && |trace| > 1 && trace[0].stream == OPENED
    ensures IsFaithful(trace[|trace| - 2].stream)
  {
    var front := trace[..|trace| - 1];
    assert IsTrace(Protocol(), front);
    assert Leads(Protocol(), trace[0], front[|front| - 1]);
    assert Protocol().init(trace[0]);
    NoEventIsLostSilently(front[|front| - 1]);
  }

  lemma NewIsForAReason(v: Watched, step: Step, e: Entry)
    requires Enabled(v, step) && StandsForNotice(Apply(v, step).stream, e) && !StandsForNotice(v.stream, e)
    requires IsTrueTo(v.stream.log, Entries(v.stream))
    ensures WasFullAt(v, e.at)
  {
    match step
    case Raise(event) => OfferedOnQueue(v.stream, event);
    case Connect => OfferedOnQueue(v.stream, Resync);
    case Take => TakeLosesNothing(v.stream);
    case Lose =>
  }
}
