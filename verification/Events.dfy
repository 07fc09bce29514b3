/**
 The live inbox's objects: a stream's bounded queue, and the fan-out of one listener's notices to the queues of
 the user they concern. Each method keeps what modules Streams and StreamRegistry promise of every run.
 */
module Events {
  import opened Streams
  import opened StreamRegistry

  class EventQueue {
    var items: seq<Event>
    // The stream's whole history, for the contracts.
    ghost var stream: Stream

    ghost predicate Valid()
      reads this
    {
      |items| == |stream.queued| && forall k :: 0 <= k < |items| ==> items[k] == stream.queued[k].event
    }

    // Sound, and with nothing lost while the listener is connected.
    ghost predicate IsWell(isConnected: bool)
      reads this
    {
      Valid() && IsFaithful(stream) && (isConnected ==> NothingLost(stream))
    }

    constructor ()
      ensures Valid() && stream == OPENED && IsWell(true)
    {
      items, stream := [], OPENED;
    }

    method Offer(event: Event)
      requires Valid()
      modifies this
      ensures Valid() && stream == Offered(old(stream), event)
      ensures items == if |old(items)| < 100 then old(items) + [event] else [Resync]
      ensures old(IsWell(false)) && event.Resync? ==> IsWell(true)
    {
      if IsFaithful(stream) && event.Resync? {
        OfferKeepsFaith(stream, event);
        ResyncAnswersForAll(stream);
      }
      stream := Offered(stream, event);
      if |items| < QUEUE_SIZE {
        items := items + [event];
      } else {
        while items != []
          invariant stream == Offered(old(stream), event)
        {
          items := items[1..];
        }
        items := items + [Resync];
      }
    }

    method Take() returns (event: Event)
      requires Valid() && items != []
      modifies this
      ensures Valid() && stream == Taken(old(stream))
      ensures event == stream.delivered[|stream.delivered| - 1].event
      ensures old(items) == [event] + items
    {
      event := items[0];
      items := items[1..];
      stream := Taken(stream);
    }

    // Nobody told the queue: the notice is only on record.
    ghost method Miss(event: Event)
      requires Valid()
      modifies this
      ensures Valid() && stream == Missed(old(stream), event) && items == old(items)
    {
      stream := Missed(stream, event);
    }
  }

  class MailboxEvents {
    var queues: map<nat, set<EventQueue>>
    var isListening: bool
    // Whether the listener's connection is up: between connecting and losing it.
    var isConnected: bool

    function AllQueues(): set<EventQueue>
      reads this
    {
      Handles(queues)
    }

    // No queue is two users', each is sound, and while connected none has lost anything.
    ghost predicate Valid()
      reads this, AllQueues()
    {
      && IsSound(Registry(queues, isListening))
      && (isConnected ==> isListening)
      && OwnedOnce(queues)
      && (forall q :: q in AllQueues() ==> q.IsWell(isConnected))
    }

    constructor ()
      ensures Valid() && queues == map[] && !isListening && !isConnected
    {
      queues, isListening, isConnected := map[], false, false;
      new;
      NoneOpen(queues);
    }

    // Refused (null) at either limit, and then nothing but the user's entry changes.
    method Subscribe(user: nat) returns (queue: EventQueue?)
      requires Valid()
      modifies this
      ensures Valid()
      ensures queue == null <==> |Mine(old(queues), user)| >= 3 || |Open(old(queues))| >= 200
      ensures queue == null ==>
        queues == old(queues)[user := Mine(old(queues), user)] && isListening == old(isListening)
      ensures queue != null ==> fresh(queue) && queue.stream == OPENED && isListening
                                && queues == old(queues)[user := Mine(old(queues), user) + {queue}]
      ensures isConnected == old(isConnected)
    {
      var openCount := Count();
      if |Mine(queues, user)| >= STREAMS_PER_USER || openCount >= STREAMS_IN_ALL {
        RefusalKeepsSound(Registry(queues, isListening), user);
        assert Handles(queues[user := Mine(queues, user)]) <= Handles(queues);
        queues := queues[user := Mine(queues, user)];
        return null;
      }
      queue := Admit(user);
    }

    method Admit(user: nat) returns (queue: EventQueue)
      requires Valid() && !IsFull(queues, user)
      modifies this
      ensures Valid() && isListening && isConnected == old(isConnected)
      ensures fresh(queue) && queue.stream == OPENED
      ensures queues == old(queues)[user := Mine(old(queues), user) + {queue}]
    {
      queue := new EventQueue();
      AdmissionKeepsSound(Registry(queues, isListening), user, queue);
      JoinKeepsOwners(queues, user, queue);
      var joined := queues[user := Mine(queues, user) + {queue}];
      assert forall q :: q in Handles(joined) ==> q in AllQueues() || q == queue;
      queues, isListening := joined, true;
    }

    method Unsubscribe(user: nat, queue: EventQueue)
      requires Valid()
      modifies this
      ensures Valid()
      ensures queues == Left(old(queues), user, queue)
      ensures Mine(queues, user) == Mine(old(queues), user) - {queue} && (user in queues ==> queues[user] != {})
      ensures queues - {user} == old(queues) - {user}
      ensures isListening == (old(isListening) && queues != map[])
      ensures isConnected == (old(isConnected) && isListening)
    {
      UnsubscribeKeepsSound(Registry(queues, isListening), user, queue);
      LeaveKeepsOwners(queues, user, queue);
      var mine := Mine(queues, user) - {queue};
      queues := if mine == {} then queues - {user} else queues[user := mine];
      if queues == map[] && isListening {
        isListening := false;
        isConnected := false;
      }
    }

    // One notice to the user's streams: offered while the listener is connected, missed while it is not.
    method OnNotice(user: nat, event: Event)
      requires Valid() && event.Notice?
      modifies Mine(queues, user)
      ensures Valid()
      ensures forall q :: q in Mine(queues, user) ==>
        q.stream == if isConnected then Offered(old(q.stream), event) else Missed(old(q.stream), event)
      ensures forall q :: q in Mine(queues, user) ==>
        q.items == (if !isConnected then old(q.items)
                    else if |old(q.items)| < 100 then old(q.items) + [event]
                    else [Resync])
    {
      var left := Mine(queues, user);
      while left != {}
        invariant left <= Mine(queues, user)
        invariant forall q :: q in AllQueues() ==> q.IsWell(isConnected)
        invariant forall q :: q in left ==> q.stream == old(q.stream) && q.items == old(q.items)
        invariant forall q :: q in Mine(queues, user) - left ==>
          q.items == (if !isConnected then old(q.items)
                      else if |old(q.items)| < 100 then old(q.items) + [event]
                      else [Resync])
        invariant forall q :: q in Mine(queues, user) - left ==>
          q.stream == if isConnected then Offered(old(q.stream), event) else Missed(old(q.stream), event)
        decreases left
      {
        var queue :| queue in left;
        assert queue in AllQueues() && queue.IsWell(isConnected);
        OfferKeepsFaith(queue.stream, event);
        if isConnected {
          OfferLosesNothing(queue.stream, event);
          queue.Offer(event);
        } else {
          queue.Miss(event);
        }
        left := left - {queue};
      }
    }

    // The connection is up: every stream is told to refetch, and from here on nothing is lost.
    method Connect()
      requires Valid() && isListening
      modifies this, AllQueues()
      ensures Valid() && isConnected && queues == old(queues) && isListening
      ensures forall q :: q in AllQueues() ==> q.stream == Offered(old(q.stream), Resync)
      ensures forall q :: q in AllQueues() ==> q.items != [] && q.items[|q.items| - 1] == Resync
    {
      var left := AllQueues();
      while left != {}
        invariant queues == old(queues) && isListening && isConnected == old(isConnected)
        invariant left <= AllQueues()
        invariant forall q :: q in AllQueues() ==> q.IsWell(isConnected)
        invariant forall q :: q in left ==> q.stream == old(q.stream)
        invariant forall q :: q in AllQueues() - left ==> q.IsWell(true) && q.stream == Offered(old(q.stream), Resync)
        decreases left
      {
        var queue :| queue in left;
        queue.Offer(Resync);
        left := left - {queue};
      }
      isConnected := true;
    }

    method Lose()
      requires Valid()
      modifies this
      ensures Valid() && !isConnected && queues == old(queues) && isListening == old(isListening)
    {
      assert forall q :: q in AllQueues() ==> q.IsWell(isConnected) && q.IsWell(false);
      isConnected := false;
    }

    // stream_count: the sum of the users' streams.
    method Count() returns (n: nat)
      ensures n == |Open(queues)|
    {
      n := 0;
      var left := queues.Keys;
      assert Open(queues - left) == {};
      while left != {}
        invariant left <= queues.Keys
        invariant n == |Open(queues - left)|
        decreases left
      {
        var user :| user in left;
        CountsUp(queues, left, user);
        n := n + |queues[user]|;
        left := left - {user};
      }
      assert queues - {} == queues;
    }
  }

  // Adding one user's streams to those of the users already counted.
  lemma CountsUp<Q>(queues: map<nat, set<Q>>, left: set<nat>, user: nat)
    requires user in left && left <= queues.Keys
    ensures |Open(queues - (left - {user}))| == |Open(queues - left)| + |queues[user]|
  {
    var hers := set q | q in queues[user] :: (user, q);
    assert Open(queues - (left - {user})) == Open(queues - left) + hers;
    PairedCount(user, queues[user]);
  }

  lemma PairedCount<Q>(user: nat, qs: set<Q>)
    ensures |set q | q in qs :: (user, q)| == |qs|
  {
    if qs != {} {
      var q :| q in qs;
      PairedCount(user, qs - {q});
      assert (set p | p in qs :: (user, p)) == (set p | p in qs - {q} :: (user, p)) + {(user, q)};
    }
  }
}
