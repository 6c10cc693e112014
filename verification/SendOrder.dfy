/** In which order, and how often, the requests of the queue in aptmethod.c are sent. */
module SendOrder {
  import opened DownloadQueue
  import Sequences

  /** What is still to be sent. */
  ghost function Unsent(q: Queue): seq<Item>
    requires q.sent <= |q.items|
  {
    q.items[q.sent..]
  }

  /** What the event sends: at most the first item that is not sent yet. */
  ghost function SentBy(q: Queue, e: Event): seq<Item>
    requires q.sent <= |q.items|
  {
    if e.Send? && Unsent(q) != [] then [Unsent(q)[0]] else []
  }

  /** What the event puts into the queue: what it starts, or an item for another try. */
  function Enqueued(q: Queue, e: Event): seq<Item> {
    if Reply(e) && Find(q.items, e.uri) < |q.items| && !Final(q, e) then [Again(q.items[Find(q.items, e.uri)], e)]
    else Started(q, e)
  }

  /** A reply is about an item that has been sent, or about none in the queue. */
  predicate Answers(q: Queue, e: Event) {
    Reply(e) ==> Find(q.items, e.uri) < q.sent || Find(q.items, e.uri) == |q.items|
  }

  /** The item that a reply takes out of the queue before it has been sent, if any. */
  ghost function Skipped(q: Queue, e: Event): multiset<nat> {
    if Answers(q, e) then multiset{} else multiset{q.items[Find(q.items, e.uri)].id}
  }

  /** Sending takes exactly the first item of those that are not sent, and there is nothing else that it changes. */
  lemma SendsHead(q: Queue)
    requires q.Shaped()
    ensures var r := Step(q, Send);
      && r.items == q.items && r.tail == q.tail && r.Shaped()
      && (Unsent(q) != [] ==> Unsent(q) == [Unsent(q)[0]] + Unsent(r))
      && (Unsent(q) == [] ==> r == q)
  {
    if q.sent < |q.items| {
      Sequences.Step(q.items, q.sent);
    }
  }

  lemma PutUnsent(q: Queue, item: Item)
    requires q.Good()
    ensures Put(q, item).Good() && Unsent(Put(q, item)) == Unsent(q) + [item]
  {
    assert (q.items + [item])[q.sent..] == q.items[q.sent..] + [item];
  }

  lemma PutAllUnsent(q: Queue, more: seq<Item>)
    requires q.Good()
    ensures PutAll(q, more).Good() && Unsent(PutAll(q, more)) == Unsent(q) + more
    ensures PutAll(q, more).items == q.items + more && PutAll(q, more).sent == q.sent
  {
    PutAllGood(q, more);
    assert (q.items + more)[q.sent..] == q.items[q.sent..] + more;
  }

  /** Taking out an item that was sent leaves all that is still to be sent. */
  lemma RemoveSent(q: Queue, i: nat)
    requires q.Shaped() && i < q.sent
    ensures Unsent(Remove(q, i)) == Unsent(q)
  {
    var items := q.items[..i] + q.items[i + 1..];
    assert items[q.sent - 1..] == q.items[q.sent..];
  }

  /** Taking out another one takes just that out of what is still to be sent. */
  lemma RemoveUnsent(q: Queue, i: nat)
    requires q.Shaped() && q.sent <= i < |q.items|
    ensures Remove(q, i).sent <= |Remove(q, i).items|
    ensures Ids(Unsent(q)) == Ids(Unsent(Remove(q, i))) + multiset{q.items[i].id}
  {
    var k, u := i - q.sent, Unsent(q);
    IdsRemove(u, k);
    assert Unsent(Remove(q, i)) == u[..k] + u[k + 1..];
  }

  lemma SendStep(q: Queue)
    requires q.Good()
    ensures Step(q, Send).Shaped() && SentBy(q, Send) + Unsent(Step(q, Send)) == Unsent(q) + Enqueued(q, Send)
  {
    SendsHead(q);
    Sequences.Nothing(Unsent(q));
  }

  /** What every event but sending makes of the queue, and of what is to be sent. */
  lemma NotSending(q: Queue, e: Event)
    requires q.Good() && !e.Send? && Step(q, e).Shaped()
    ensures SentBy(q, e) == []
    ensures e.Request? ==> Step(q, e) == Put(q, e.item) && Enqueued(q, e) == [e.item]
    ensures Reply(e) <==> !e.Request?
    ensures Reply(e) && Find(q.items, e.uri) == |q.items| ==> Step(q, e) == q && Enqueued(q, e) == []
  {
    hide PutAll, Find;
  }

  lemma AnswersIs(q: Queue, e: Event)
    requires Answers(q, e) && Reply(e)
    ensures Find(q.items, e.uri) <= |q.items| && (Find(q.items, e.uri) < |q.items| ==> Find(q.items, e.uri) < q.sent)
  {
    hide Find;
  }

  /** A safe event sends the first item that is not sent, or none, and what it enqueues comes behind all others. */
  lemma UnsentStep(q: Queue, e: Event)
    requires q.Good() && Safe(q, e) && Answers(q, e)
    ensures Step(q, e).Good() && SentBy(q, e) + Unsent(Step(q, e)) == Unsent(q) + Enqueued(q, e)
  {
    KeepsIfSafe(q, e);
    hide *;
    if e.Send? {
      SendStep(q);
    } else {
      NotSending(q, e);
      if e.Request? {
        PutUnsent(q, e.item);
      } else if Find(q.items, e.uri) == |q.items| {
        Sequences.Nothing(Unsent(q));
      } else {
        AnswersIs(q, e);
        UnsentReply(q, e, Find(q.items, e.uri));
      }
      Sequences.Nothing(Unsent(Step(q, e)));
    }
  }

  lemma EnqueuedIs(q: Queue, e: Event)
    requires Reply(e) && Find(q.items, e.uri) < |q.items|
    ensures Final(q, e) ==> Enqueued(q, e) == e.more
    ensures !Final(q, e) ==> !e.Done? && Enqueued(q, e) == [Again(q.items[Find(q.items, e.uri)], e)]
    ensures if e.Done? then Final(q, e) else e.Failed? || e.Redirect?
  {
    hide Find, Again;
  }

  lemma DoneStep(q: Queue, e: Event)
    requires q.Good() && e.Done? && Find(q.items, e.uri) < |q.items|
    ensures (PutAllGood(q, e.more); Step(q, e) == Remove(PutAll(q, e.more), Find(q.items, e.uri)))
  {
    hide Find, PutAll;
  }

  lemma EndStep(q: Queue, e: Event)
    requires q.Good() && (e.Failed? || e.Redirect?) && Find(q.items, e.uri) < |q.items| && Final(q, e)
    ensures Step(q, e) == PutAll(Remove(q, Find(q.items, e.uri)), e.more)
  {
    hide Find, PutAll, Remove;
  }

  lemma SafeRemoval(q: Queue, e: Event, i: nat)
    requires q.Good() && Safe(q, e) && (e.Failed? || e.Redirect?) && i == Find(q.items, e.uri) < |q.items|
    ensures Remove(q, i).Good()
  {
    RemoveGood(q, i);
    hide Find, Remove, Ids;
  }

  /** The three things that a reply about an item in the queue can do. */
  lemma ReplyStep(q: Queue, e: Event, i: nat)
    requires q.Good() && Safe(q, e) && Reply(e) && i == Find(q.items, e.uri) < |q.items|
    ensures e.Done? ==> (PutAllGood(q, e.more); Step(q, e) == Remove(PutAll(q, e.more), i) && Enqueued(q, e) == e.more)
    ensures !e.Done? ==> Remove(q, i).Good()
    ensures !e.Done? && Final(q, e) ==> Step(q, e) == PutAll(Remove(q, i), e.more) && Enqueued(q, e) == e.more
    ensures !e.Done? && !Final(q, e) ==>
              var again := Again(q.items[i], e); Step(q, e) == Put(Remove(q, i), again) && Enqueued(q, e) == [again]
  {
    hide *;
    EnqueuedIs(q, e);
    if e.Done? {
      DoneStep(q, e);
    } else {
      SafeRemoval(q, e, i);
      if Final(q, e) {
        EndStep(q, e);
      } else {
        StepAgain(q, e);
      }
    }
  }

  lemma UnsentReply(q: Queue, e: Event, i: nat)
    requires q.Good() && Safe(q, e) && Reply(e) && i == Find(q.items, e.uri) < q.sent && Step(q, e).Good()
    ensures Unsent(Step(q, e)) == Unsent(q) + Enqueued(q, e)
  {
    hide Ids, Find, PutAll, Put, Remove, Step, Safe, Final, Enqueued, Unsent, Started;
    ReplyStep(q, e, i);
    GoodIs(q);
    if e.Done? {
      PutAllUnsent(q, e.more);
      GoodIs(PutAll(q, e.more));
      RemoveSent(PutAll(q, e.more), i);
    } else {
      RemoveSent(q, i);
      if Final(q, e) {
        PutAllUnsent(Remove(q, i), e.more);
      } else {
        PutUnsent(Remove(q, i), Again(q.items[i], e));
      }
    }
  }

  // ----- whole runs

  ghost predicate AnswersRun(q: Queue, events: seq<Event>)
    requires SafeRun(q, events)
    decreases |events|
  {
    events == [] || (Answers(q, events[0]) && AnswersRun(Step(q, events[0]), events[1..]))
  }

  /**
    * What a failure or a redirect makes of an item: up to 10 redirects lead to their target, anything else to the
    * fallback, which is tried once, with redirects of its own, and then to the end of it.
    */
  lemma TriedAgain(q: Queue, e: Event, i: nat)
    requires q.Good() && Safe(q, e) && Reply(e) && !e.Done? && i == Find(q.items, e.uri) < |q.items|
    ensures var item := q.items[i];
      Step(q, e).items == q.items[..i] + q.items[i + 1..]
        + if e.Redirect? && item.redirects < 10 then [Item(item.id, e.target, item.lastTry, item.redirects + 1)]
          else if item.lastTry then e.more
          else [Item(item.id, e.fallback, true, 0)]
  {
    ReplyStep(q, e, i);
    PutAllGood(Remove(q, i), e.more);
    hide Safe, PutAll, Find;
  }

  /** All requests that are sent, in this order. */
  ghost function AllSent(q: Queue, events: seq<Event>): seq<Item>
    requires SafeRun(q, events)
    decreases |events|
  {
    if events == [] then [] else SentBy(q, events[0]) + AllSent(Step(q, events[0]), events[1..])
  }

  ghost function AllEnqueued(q: Queue, events: seq<Event>): seq<Item>
    requires SafeRun(q, events)
    decreases |events|
  {
    if events == [] then [] else Enqueued(q, events[0]) + AllEnqueued(Step(q, events[0]), events[1..])
  }

  lemma Rearrange<T>(sent: seq<T>, before: seq<T>, came: seq<T>, mid: seq<T>, sends: seq<T>, after: seq<T>,
                     comes: seq<T>)
    requires sent + mid == before + came && sends + after == mid + comes
    ensures sent + sends + after == before + (came + comes)
  {
    assert sent + sends + after == sent + (sends + after);
    assert sent + (mid + comes) == sent + mid + comes;
    assert before + came + comes == before + (came + comes);
  }

  /**
    * Over a whole run each request, and each further try of it, is sent exactly once and in the order in which they
    * were enqueued, or is still to be sent.
    */
  lemma {:induction false} SentInOrder(q: Queue, events: seq<Event>)
    requires SafeRun(q, events) && AnswersRun(q, events)
    ensures AllSent(q, events) + Unsent(Run(q, events)) == Unsent(q) + AllEnqueued(q, events)
    decreases |events|
  {
    if events == [] {
      Sequences.Nothing(Unsent(q));
    } else {
      var p := Step(q, events[0]);
      UnsentStep(q, events[0]);
      SentInOrder(p, events[1..]);
      var sent, came := SentBy(q, events[0]), Enqueued(q, events[0]);
      var sends, comes := AllSent(p, events[1..]), AllEnqueued(p, events[1..]);
      assert AllSent(q, events) == sent + sends && AllEnqueued(q, events) == came + comes;
      assert Run(q, events) == Run(p, events[1..]);
      hide *;
      Rearrange(sent, Unsent(q), came, Unsent(p), sends, Unsent(Run(p, events[1..])), comes);
    }
  }

  // ----- also with replies about items that were not sent

  /** A safe event keeps the balance of what is sent: only what a reply takes out early is not sent. */
  lemma UnsentBalance(q: Queue, e: Event)
    requires q.Good() && Safe(q, e)
    ensures Step(q, e).Good()
    ensures Ids(Unsent(Step(q, e))) + (Ids(SentBy(q, e)) + Skipped(q, e)) == Ids(Unsent(q)) + Ids(Enqueued(q, e))
  {
    KeepsIfSafe(q, e);
    hide *;
    SkippedIs(q, e);
    if Answers(q, e) {
      UnsentStep(q, e);
      IdsConcat(SentBy(q, e), Unsent(Step(q, e)));
      IdsConcat(Unsent(q), Enqueued(q, e));
      AddedNone(Ids(Unsent(Step(q, e))), Ids(SentBy(q, e)));
    } else {
      SkippedReply(q, e, Find(q.items, e.uri));
      NoneAdded(Skipped(q, e));
    }
  }

  lemma AddedNone<T>(a: multiset<T>, b: multiset<T>)
    ensures a + (b + multiset{}) == b + a
  {
  }

  lemma NoneAdded<T>(a: multiset<T>)
    ensures multiset{} + a == a
  {
  }

  lemma SkippedIs(q: Queue, e: Event)
    requires q.Good()
    ensures Answers(q, e) ==> Skipped(q, e) == multiset{}
    ensures !Answers(q, e) ==>
      && Reply(e) && !e.Request? && q.sent <= Find(q.items, e.uri) < |q.items|
      && Skipped(q, e) == multiset{q.items[Find(q.items, e.uri)].id} && SentBy(q, e) == [] && Ids([]) == multiset{}
  {
    hide Find;
  }

  lemma IdsNone()
    ensures Ids([]) == multiset{}
  {
  }

  lemma GoodIs(q: Queue)
    requires q.Good()
    ensures q.Shaped() && q.sent <= |q.items|
  {
  }

  lemma ItemOf(a: seq<Item>, b: seq<Item>, i: nat)
    requires i < |a|
    ensures i < |a + b| && (a + b)[i] == a[i]
  {
  }

  lemma Swapped<T>(a: multiset<T>, b: multiset<T>, c: multiset<T>)
    ensures a + b + c == a + c + b
  {
  }

  lemma SkippedReply(q: Queue, e: Event, i: nat)
    requires q.Good() && Safe(q, e) && Reply(e) && Step(q, e).Good()
    requires i == Find(q.items, e.uri) && q.sent <= i < |q.items|
    ensures Ids(Unsent(Step(q, e))) + multiset{q.items[i].id} == Ids(Unsent(q)) + Ids(Enqueued(q, e))
  {
    hide Ids, Find, PutAll, Put, Remove, Step, Safe, Final, Enqueued, Unsent, Started;
    ReplyStep(q, e, i);
    GoodIs(q);
    if e.Done? {
      PutAllUnsent(q, e.more);
      GoodIs(PutAll(q, e.more));
      ItemOf(q.items, e.more, i);
      RemoveUnsent(PutAll(q, e.more), i);
      IdsConcat(Unsent(q), e.more);
    } else {
      RemoveUnsent(q, i);
      if Final(q, e) {
        PutAllUnsent(Remove(q, i), e.more);
        IdsConcat(Unsent(Remove(q, i)), e.more);
      } else {
        PutUnsent(Remove(q, i), Again(q.items[i], e));
        IdsConcat(Unsent(Remove(q, i)), [Again(q.items[i], e)]);
      }
      Swapped(Ids(Unsent(Remove(q, i))), Ids(Enqueued(q, e)), multiset{q.items[i].id});
    }
  }

  ghost function AllSkipped(q: Queue, events: seq<Event>): multiset<nat>
    requires SafeRun(q, events)
    decreases |events|
  {
    if events == [] then multiset{} else Skipped(q, events[0]) + AllSkipped(Step(q, events[0]), events[1..])
  }

  /**
    * Over every safe run: what was to be sent, was started or is tried again has been sent, or is still to be sent,
    * or was answered before it was sent, and just as often.
    */
  lemma {:induction false} EachSent(q: Queue, events: seq<Event>)
    requires SafeRun(q, events)
    ensures Ids(Unsent(Run(q, events))) + (Ids(AllSent(q, events)) + AllSkipped(q, events))
         == Ids(Unsent(q)) + Ids(AllEnqueued(q, events))
    decreases |events|
  {
    if events == [] {
      IdsNone();
    } else {
      var e, p := events[0], Step(q, events[0]);
      UnsentBalance(q, e);
      EachSent(p, events[1..]);
      var sends, comes, skips := AllSent(p, events[1..]), AllEnqueued(p, events[1..]), AllSkipped(p, events[1..]);
      assert AllSent(q, events) == SentBy(q, e) + sends && AllEnqueued(q, events) == Enqueued(q, e) + comes;
      assert AllSkipped(q, events) == Skipped(q, e) + skips && Run(q, events) == Run(p, events[1..]);
      hide *;
      IdsConcat(SentBy(q, e), sends);
      IdsConcat(Enqueued(q, e), comes);
      Balance(Ids(Unsent(q)), Ids(Enqueued(q, e)), Ids(Unsent(p)), Ids(SentBy(q, e)) + Skipped(q, e), Ids(comes),
              Ids(Unsent(Run(p, events[1..]))), Ids(sends) + skips);
      Four(Ids(SentBy(q, e)), Skipped(q, e), Ids(sends), skips);
    }
  }

  lemma Four<T>(a: multiset<T>, b: multiset<T>, c: multiset<T>, d: multiset<T>)
    ensures a + b + (c + d) == a + c + (b + d)
  {
  }
}
