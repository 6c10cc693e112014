/** The queue of downloads of one method in aptmethod.c: what each event makes of it. */
module DownloadQueue {
  type Uri = seq<int>

  /** A download: `lastTry` if there is no fallback left, and how often it was redirected since. */
  datatype Item = Item(id: nat, uri: Uri, lastTry: bool, redirects: nat)

  /**
   The queue: its items, how many of them have been sent, and whether
   `lasttobedone` points to the last one (or is NULL).
   */
  datatype Queue = Queue(items: seq<Item>, sent: nat, tail: bool) {
    predicate Shaped() { sent <= |items| && (tail ==> items != []) }
    /** The pointers are as they should be. */
    predicate Good() { sent <= |items| && (tail <==> items != []) }
  }

  const EMPTY := Queue([], 0, false)
  const MAX_REDIRECTS := 10

  /** enqueue: an item behind the last one; without a last one the list begins anew. */
  function Put(q: Queue, item: Item): Queue {
    if q.tail then Queue(q.items + [item], q.sent, true) else Queue([item], 0, true)
  }

  function PutAll(q: Queue, items: seq<Item>): Queue {
    if items == [] then q else Put(PutAll(q, items[..|items| - 1]), items[|items| - 1])
  }

  /** The first item with this uri, or the number of items. */
  function Find(items: seq<Item>, uri: Uri): (i: nat)
    ensures i <= |items| && (i < |items| ==> items[i].uri == uri)
    ensures forall k :: 0 <= k < i ==> items[k].uri != uri
  {
    if items == [] || items[0].uri == uri then 0 else 1 + Find(items[1..], uri)
  }

  /** Takes an item out; if it was the last one there is no last one any more. */
  function Remove(q: Queue, i: nat): Queue
    requires q.sent <= |q.items| && i < |q.items|
  {
    Queue(q.items[..i] + q.items[i + 1..], if i < q.sent then q.sent - 1 else q.sent, q.tail && i < |q.items| - 1)
  }

  /** What happens: requests, sending, and the replies about an item; a callback may request more. */
  datatype Event =
    | Request(item: Item)
    | Send
    | Done(uri: Uri, more: seq<Item>)
    | Failed(uri: Uri, fallback: Uri, more: seq<Item>)
    | Redirect(uri: Uri, target: Uri, fallback: Uri, more: seq<Item>)

  predicate Reply(e: Event) { e.Done? || e.Failed? || e.Redirect? }

  /** What becomes of an item that could not be had: a last try with the fallback, or the end of it. */
  function RequeueOrFail(q: Queue, item: Item, fallback: Uri, more: seq<Item>): Queue {
    if item.lastTry then PutAll(q, more) else Put(q, Item(item.id, fallback, true, 0))
  }

  /**
   What the event makes of the queue is again a queue: not so if `lasttobedone` is
   lost and a callback requests more before its own item is taken out.
   */
  predicate Sound(q: Queue, e: Event) {
    q.Shaped() && (e.Done? ==> q.Good() || e.more == [] || Find(q.items, e.uri) == |q.items|)
  }

  function Step(q: Queue, e: Event): Queue
    requires Sound(q, e)
  {
    match e
    case Request(item) => Put(q, item)
    case Send => if q.sent < |q.items| then q.(sent := q.sent + 1) else q
    case Done(uri, more) =>
      var i := Find(q.items, uri);
      if i == |q.items| then q else PutAllLonger(q, e); Remove(PutAll(q, more), i)
    case Failed(uri, fallback, more) =>
      var i := Find(q.items, uri);
      if i == |q.items| then q else RequeueOrFail(Remove(q, i), q.items[i], fallback, more)
    case Redirect(uri, target, fallback, more) =>
      var i := Find(q.items, uri);
      if i == |q.items| then q
      else if q.items[i].redirects < MAX_REDIRECTS then
        Put(Remove(q, i), q.items[i].(uri := target, redirects := q.items[i].redirects + 1))
      else RequeueOrFail(Remove(q, i), q.items[i], fallback, more)
  }

  lemma {:induction false} PutAllGood(q: Queue, more: seq<Item>)
    requires q.Good()
    ensures PutAll(q, more) == Queue(q.items + more, q.sent, q.tail || more != []) && PutAll(q, more).Good()
  {
    if more == [] {
      assert q.items + more == q.items;
    } else {
      var before, last := more[..|more| - 1], more[|more| - 1];
      PutAllGood(q, before);
      assert more == before + [last] && q.items + more == q.items + before + [last];
    }
  }

  lemma PutAllLonger(q: Queue, e: Event)
    requires e.Done? && Sound(q, e) && Find(q.items, e.uri) < |q.items|
    ensures PutAll(q, e.more).Shaped() && |PutAll(q, e.more).items| >= |q.items|
  {
    if q.Good() {
      PutAllGood(q, e.more);
    }
  }

  // ----- when nothing is lost

  /** Whether the reply ends the download. */
  predicate Final(q: Queue, e: Event)
    requires Reply(e) && Find(q.items, e.uri) < |q.items|
  {
    var item := q.items[Find(q.items, e.uri)];
    e.Done? || (item.lastTry && (e.Failed? || item.redirects >= MAX_REDIRECTS))
  }

  ghost function Ids(items: seq<Item>): multiset<nat> {
    if items == [] then multiset{} else Ids(items[..|items| - 1]) + multiset{items[|items| - 1].id}
  }

  /** The downloads that an event starts. */
  function Started(q: Queue, e: Event): seq<Item> {
    if e.Request? then [e.item]
    else if e.Send? || Find(q.items, e.uri) == |q.items| then []
    else if Final(q, e) then e.more else []
  }

  /** The download that it ends, if any. */
  ghost function Ended(q: Queue, e: Event): multiset<nat> {
    if Reply(e) && Find(q.items, e.uri) < |q.items| && Final(q, e) then multiset{q.items[Find(q.items, e.uri)].id}
    else multiset{}
  }

  /** The queue afterwards is in order, and has what it had, what was started, and not what was ended. */
  ghost predicate Keeps(q: Queue, e: Event)
    requires q.Good()
  {
    Step(q, e).Good() && Ids(Step(q, e).items) + Ended(q, e) == Ids(q.items) + Ids(Started(q, e))
  }

  /** The reply is not about the last of several items, or a callback has requested more before that was taken out. */
  predicate Safe(q: Queue, e: Event) {
    Reply(e) ==>
      var i := Find(q.items, e.uri);
      i == 0 || i != |q.items| - 1 || (e.Done? && e.more != [])
  }

  lemma {:induction false} IdsConcat(a: seq<Item>, b: seq<Item>)
    ensures Ids(a + b) == Ids(a) + Ids(b)
  {
    if b == [] {
      assert a + b == a;
    } else {
      var before, last := b[..|b| - 1], multiset{b[|b| - 1].id};
      assert (a + b)[..|a + b| - 1] == a + before && Ids(b) == Ids(before) + last
        && Ids(a + b) == Ids(a + before) + last;
      hide Ids;
      IdsConcat(a, before);
    }
  }

  lemma {:induction false} IdsSize(items: seq<Item>)
    ensures |Ids(items)| == |items|
  {
    if items != [] {
      IdsSize(items[..|items| - 1]);
    }
  }

  lemma IdsOne(item: Item)
    ensures Ids([item]) == multiset{item.id}
  {
    assert [item][..0] == [];
  }

  lemma IdsRemove(items: seq<Item>, i: nat)
    requires i < |items|
    ensures Ids(items) == Ids(items[..i] + items[i + 1..]) + multiset{items[i].id}
  {
    hide Ids;
    assert items == items[..i] + ([items[i]] + items[i + 1..]);
    IdsConcat(items[..i], [items[i]] + items[i + 1..]);
    IdsConcat([items[i]], items[i + 1..]);
    IdsConcat(items[..i], items[i + 1..]);
    IdsOne(items[i]);
  }

  lemma IdsPut(q: Queue, item: Item)
    requires q.Good()
    ensures Put(q, item).Good() && Ids(Put(q, item).items) == Ids(q.items) + multiset{item.id}
  {
    IdsConcat(q.items, [item]);
    IdsOne(item);
    assert q.items == [] ==> [item] == q.items + [item];
  }

  lemma RemoveGood(q: Queue, i: nat)
    requires q.Good() && i < |q.items|
    ensures Remove(q, i).Good() <==> i == |q.items| - 1 ==> i == 0
    ensures Ids(q.items) == Ids(Remove(q, i).items) + multiset{q.items[i].id}
  {
    IdsRemove(q.items, i);
  }

  /** Requests and sending lose nothing. */
  lemma KeepsRequest(q: Queue, e: Event)
    requires q.Good() && !Reply(e)
    ensures Keeps(q, e)
  {
    if e.Request? {
      IdsPut(q, e.item);
      IdsOne(e.item);
    }
  }

  lemma KeepsRequeue(q: Queue, i: nat, item: Item)
    requires q.Good() && i < |q.items| && item.id == q.items[i].id
    ensures (i == |q.items| - 1 ==> i == 0) <==>
      Put(Remove(q, i), item).Good() && Ids(Put(Remove(q, i), item).items) == Ids(q.items)
  {
    RemoveGood(q, i);
    if Remove(q, i).Good() {
      IdsPut(Remove(q, i), item);
    } else {
      IdsSize(q.items);
      IdsSize([item]);
    }
  }

  lemma KeepsEnd(q: Queue, i: nat, more: seq<Item>)
    requires q.Good() && i < |q.items|
    ensures (i == |q.items| - 1 ==> i == 0) <==>
      && PutAll(Remove(q, i), more).Good()
      && Ids(PutAll(Remove(q, i), more).items) + multiset{q.items[i].id} == Ids(q.items) + Ids(more)
  {
    RemoveGood(q, i);
    if Remove(q, i).Good() {
      PutAllGood(Remove(q, i), more);
      IdsConcat(Remove(q, i).items, more);
    } else {
      PutAllBroken(Remove(q, i), more);
      IdsSize(q.items);
      IdsSize(more);
      IdsSize(PutAll(Remove(q, i), more).items);
      var left := Ids(PutAll(Remove(q, i), more).items) + multiset{q.items[i].id};
      assert more != [] ==> |left| == |more| + 1;
      assert |Ids(q.items) + Ids(more)| == |q.items| + |more|;
    }
  }

  lemma {:induction false} PutAllBroken(q: Queue, more: seq<Item>)
    requires !q.tail && q.items != []
    ensures more == [] ==> !PutAll(q, more).Good()
    ensures more != [] ==> PutAll(q, more).items == more
  {
    if more != [] {
      var before, last := more[..|more| - 1], more[|more| - 1];
      PutAllBroken(q, before);
      PutAllTail(q, before);
      assert more == before + [last];
    }
  }

  lemma {:induction false} PutAllTail(q: Queue, more: seq<Item>)
    ensures more != [] ==> PutAll(q, more).tail
  {
  }

  lemma KeepsDone(q: Queue, i: nat, more: seq<Item>)
    requires q.Good() && i < |q.items| && i < |PutAll(q, more).items| && PutAll(q, more).Good()
    ensures (i == |q.items| - 1 && more == [] ==> i == 0) <==>
      && Remove(PutAll(q, more), i).Good()
      && Ids(Remove(PutAll(q, more), i).items) + multiset{q.items[i].id} == Ids(q.items) + Ids(more)
  {
    PutAllGood(q, more);
    var p := PutAll(q, more);
    assert p.items[i] == q.items[i];
    RemoveGood(p, i);
    IdsConcat(q.items, more);
  }

  lemma KeepsIfSafeDone(q: Queue, e: Event)
    requires q.Good() && e.Done? && Find(q.items, e.uri) < |q.items|
    ensures Keeps(q, e) <==> Safe(q, e)
  {
    hide Ids, Find, PutAll;
    PutAllGood(q, e.more);
    KeepsDone(q, Find(q.items, e.uri), e.more);
  }

  lemma KeepsIfSafeEnd(q: Queue, e: Event)
    requires q.Good() && (e.Failed? || e.Redirect?) && Find(q.items, e.uri) < |q.items| && Final(q, e)
    ensures Keeps(q, e) <==> Safe(q, e)
  {
    hide Ids, Find, PutAll;
    KeepsEnd(q, Find(q.items, e.uri), e.more);
  }

  lemma KeepsIfSafeAgain(q: Queue, e: Event)
    requires q.Good() && (e.Failed? || e.Redirect?) && Find(q.items, e.uri) < |q.items| && !Final(q, e)
    ensures Keeps(q, e) <==> Safe(q, e)
  {
    var i := Find(q.items, e.uri);
    StepAgain(q, e);
    assert Safe(q, e) <==> i == 0 || i != |q.items| - 1;
    hide Ids, Find, PutAll, Step, Safe, Final, Started, Ended, Again, Put, Remove;
    KeepsRequeue(q, i, Again(q.items[i], e));
    assert Ids(Step(q, e).items) + multiset{} == Ids(Step(q, e).items) && Ids(q.items) + multiset{} == Ids(q.items);
  }

  lemma StepAgain(q: Queue, e: Event)
    requires q.Good() && (e.Failed? || e.Redirect?) && Find(q.items, e.uri) < |q.items| && !Final(q, e)
    ensures var i := Find(q.items, e.uri);
      && Step(q, e) == Put(Remove(q, i), Again(q.items[i], e)) && Again(q.items[i], e).id == q.items[i].id
      && Ended(q, e) == multiset{} && Ids(Started(q, e)) == multiset{}
  {
    assert Ids([]) == multiset{};
    hide Ids, Find, PutAll, Put, Remove;
  }

  /** The item as it is put into the queue again. */
  function Again(item: Item, e: Event): Item
    requires e.Failed? || e.Redirect?
  {
    if e.Redirect? && item.redirects < MAX_REDIRECTS then item.(uri := e.target, redirects := item.redirects + 1)
    else Item(item.id, e.fallback, true, 0)
  }

  /** An event loses nothing, and leaves the pointers as they should be, exactly if it is safe. */
  lemma KeepsIfSafe(q: Queue, e: Event)
    requires q.Good()
    ensures Keeps(q, e) <==> Safe(q, e)
  {
    if !Reply(e) {
      KeepsRequest(q, e);
    } else if Find(q.items, e.uri) == |q.items| {
      assert Ids([]) == multiset{} && Step(q, e) == q;
    } else if e.Done? {
      KeepsIfSafeDone(q, e);
    } else if Final(q, e) {
      KeepsIfSafeEnd(q, e);
    } else {
      KeepsIfSafeAgain(q, e);
    }
  }

  /** For example, when the second of two downloads fails first, the first one is lost. */
  lemma TailReplyLoses(a: Item, b: Item, fallback: Uri)
    requires a.uri != b.uri && !b.lastTry
    ensures var q := Queue([a, b], 2, true);
      q.Good() && Step(q, Failed(b.uri, fallback, [])) == Queue([Item(b.id, fallback, true, 0)], 0, true)
  {
    assert [a, b][1..] == [b] && Find([b], b.uri) == 0;
  }

  // ----- whole runs

  /** Replies come in the order of the requests: each is about the first item, or about none. */
  ghost predicate InOrder(q: Queue, e: Event) {
    Reply(e) ==> q.items == [] || e.uri == q.items[0].uri || Find(q.items, e.uri) == |q.items|
  }

  ghost predicate SafeRun(q: Queue, events: seq<Event>)
    decreases |events|
  {
    q.Good() && (events == [] ||
      (Safe(q, events[0]) && (KeepsIfSafe(q, events[0]); SafeRun(Step(q, events[0]), events[1..]))))
  }

  ghost predicate InOrderRun(q: Queue, events: seq<Event>)
    decreases |events|
  {
    q.Good() && (events == [] || (InOrder(q, events[0]) &&
      (InOrderIsSafe(q, events[0]); KeepsIfSafe(q, events[0]); InOrderRun(Step(q, events[0]), events[1..]))))
  }

  lemma InOrderIsSafe(q: Queue, e: Event)
    requires InOrder(q, e)
    ensures Safe(q, e)
  {
  }

  lemma {:induction false} InOrderRunIsSafe(q: Queue, events: seq<Event>)
    requires InOrderRun(q, events)
    ensures SafeRun(q, events)
    decreases |events|
  {
    if events != [] {
      InOrderIsSafe(q, events[0]);
      KeepsIfSafe(q, events[0]);
      InOrderRunIsSafe(Step(q, events[0]), events[1..]);
    }
  }

  ghost function Run(q: Queue, events: seq<Event>): (r: Queue)
    requires SafeRun(q, events)
    ensures r.Good()
    decreases |events|
  {
    if events == [] then q else Run(Step(q, events[0]), events[1..])
  }

  ghost function AllStarted(q: Queue, events: seq<Event>): multiset<nat>
    requires SafeRun(q, events)
    decreases |events|
  {
    if events == [] then multiset{} else Ids(Started(q, events[0])) + AllStarted(Step(q, events[0]), events[1..])
  }

  ghost function AllEnded(q: Queue, events: seq<Event>): multiset<nat>
    requires SafeRun(q, events)
    decreases |events|
  {
    if events == [] then multiset{} else Ended(q, events[0]) + AllEnded(Step(q, events[0]), events[1..])
  }

  lemma Balance<T>(before: multiset<T>, came: multiset<T>, mid: multiset<T>, went: multiset<T>,
                   comes: multiset<T>, after: multiset<T>, goes: multiset<T>)
    requires mid + went == before + came && after + goes == mid + comes
    ensures after + (went + goes) == before + (came + comes)
  {
    forall x ensures (after + (went + goes))[x] == (before + (came + comes))[x] {
      assert (mid + went)[x] == (before + came)[x] && (after + goes)[x] == (mid + comes)[x];
    }
  }

  /** Over a whole run every download that was started has ended or is still in the queue, and just as often. */
  lemma {:induction false} NothingLost(q: Queue, events: seq<Event>)
    requires SafeRun(q, events)
    ensures Ids(Run(q, events).items) + AllEnded(q, events) == Ids(q.items) + AllStarted(q, events)
    decreases |events|
  {
    if events != [] {
      KeepsIfSafe(q, events[0]);
      var p := Step(q, events[0]);
      NothingLost(p, events[1..]);
      hide Ids, Ended, Started, Step;
      Balance(Ids(q.items), Ids(Started(q, events[0])), Ids(p.items), Ended(q, events[0]),
              AllStarted(p, events[1..]), Ids(Run(p, events[1..]).items), AllEnded(p, events[1..]));
    }
  }

  /**
    * So from the empty queue, with replies in order, a download that is started once ends at most once, and
    * not before.
    */
  lemma OneOutcome(events: seq<Event>, id: nat)
    requires InOrderRun(EMPTY, events)
    ensures SafeRun(EMPTY, events)
    ensures AllStarted(EMPTY, events)[id] == Ids(Run(EMPTY, events).items)[id] + AllEnded(EMPTY, events)[id]
  {
    InOrderRunIsSafe(EMPTY, events);
    NothingLost(EMPTY, events);
    assert (Ids(Run(EMPTY, events).items) + AllEnded(EMPTY, events))[id]
      == Ids(Run(EMPTY, events).items)[id] + AllEnded(EMPTY, events)[id];
  }

  // ----- how often a download is put into the queue again

  /** How often an item can still be requeued. */
  function Budget(item: Item): nat {
    (if item.lastTry then 0 else MAX_REDIRECTS + 1)
      + (if item.redirects < MAX_REDIRECTS then MAX_REDIRECTS - item.redirects else 0)
  }

  function BudgetOf(items: seq<Item>, id: nat): nat {
    if items == [] then 0
    else
      var last := items[|items| - 1];
      BudgetOf(items[..|items| - 1], id) + (if last.id == id then Budget(last) else 0)
  }

  lemma {:induction false} BudgetConcat(a: seq<Item>, b: seq<Item>, id: nat)
    ensures BudgetOf(a + b, id) == BudgetOf(a, id) + BudgetOf(b, id)
  {
    if b == [] {
      assert a + b == a;
    } else {
      BudgetConcat(a, b[..|b| - 1], id);
      assert (a + b)[..|a + b| - 1] == a + b[..|b| - 1];
    }
  }

  lemma BudgetOne(item: Item, id: nat)
    ensures BudgetOf([item], id) == if item.id == id then Budget(item) else 0
  {
    assert [item][..0] == [];
  }

  lemma BudgetRemove(items: seq<Item>, i: nat, id: nat)
    requires i < |items|
    ensures BudgetOf(items, id)
      == BudgetOf(items[..i] + items[i + 1..], id) + if items[i].id == id then Budget(items[i]) else 0
  {
    hide BudgetOf, Budget;
    assert items == items[..i] + ([items[i]] + items[i + 1..]);
    BudgetConcat(items[..i], [items[i]] + items[i + 1..], id);
    BudgetConcat([items[i]], items[i + 1..], id);
    BudgetConcat(items[..i], items[i + 1..], id);
    BudgetOne(items[i], id);
  }

  /** 1 if the event puts the download into the queue again. */
  function Requeued(q: Queue, e: Event, id: nat): nat {
    if Reply(e) && Find(q.items, e.uri) < |q.items| && !Final(q, e)
      && q.items[Find(q.items, e.uri)].id == id then 1 else 0
  }

  ghost function AllRequeued(q: Queue, events: seq<Event>, id: nat): nat
    requires SafeRun(q, events)
    decreases |events|
  {
    if events == [] then 0 else Requeued(q, events[0], id) + AllRequeued(Step(q, events[0]), events[1..], id)
  }

  /** The budget of all downloads of this number that are started. */
  ghost function BudgetStarted(q: Queue, events: seq<Event>, id: nat): nat
    requires SafeRun(q, events)
    decreases |events|
  {
    if events == [] then 0
    else BudgetOf(Started(q, events[0]), id) + BudgetStarted(Step(q, events[0]), events[1..], id)
  }

  /** An item that is put into the queue again has used up some of its budget. */
  lemma BudgetAgain(q: Queue, i: nat, again: Item, id: nat)
    requires q.Good() && i < |q.items| && Remove(q, i).Good()
    requires again.id == q.items[i].id && Budget(again) < Budget(q.items[i])
    ensures (if again.id == id then 1 else 0) + BudgetOf(Put(Remove(q, i), again).items, id) <= BudgetOf(q.items, id)
  {
    var r := Remove(q, i);
    BudgetRemove(q.items, i, id);
    BudgetConcat(r.items, [again], id);
    BudgetOne(again, id);
    assert Put(r, again).items == r.items + [again];
  }

  lemma BudgetEnd(q: Queue, i: nat, more: seq<Item>, id: nat)
    requires q.Good() && i < |q.items| && Remove(q, i).Good()
    ensures BudgetOf(PutAll(Remove(q, i), more).items, id) <= BudgetOf(q.items, id) + BudgetOf(more, id)
  {
    BudgetRemove(q.items, i, id);
    PutAllGood(Remove(q, i), more);
    BudgetConcat(Remove(q, i).items, more, id);
  }

  lemma BudgetDone(q: Queue, i: nat, more: seq<Item>, id: nat)
    requires q.Good() && i < |q.items| && PutAll(q, more).Good() && i < |PutAll(q, more).items|
    ensures BudgetOf(Remove(PutAll(q, more), i).items, id) <= BudgetOf(q.items, id) + BudgetOf(more, id)
  {
    PutAllGood(q, more);
    BudgetConcat(q.items, more, id);
    BudgetRemove(q.items + more, i, id);
  }

  lemma BudgetReply(q: Queue, e: Event, i: nat, id: nat)
    requires q.Good() && Safe(q, e) && Reply(e) && i == Find(q.items, e.uri) < |q.items|
    ensures Requeued(q, e, id) + BudgetOf(Step(q, e).items, id) <= BudgetOf(q.items, id) + BudgetOf(Started(q, e), id)
  {
    hide BudgetOf, Find;
    if e.Done? {
      PutAllGood(q, e.more);
      hide PutAll;
      BudgetDone(q, i, e.more, id);
    } else if Final(q, e) {
      hide PutAll;
      BudgetEnd(q, i, e.more, id);
    } else {
      var again := Again(q.items[i], e);
      assert Step(q, e) == Put(Remove(q, i), again);
      hide Step;
      BudgetAgain(q, i, again, id);
    }
  }

  lemma BudgetStep(q: Queue, e: Event, id: nat)
    requires q.Good() && Safe(q, e)
    ensures Requeued(q, e, id) + BudgetOf(Step(q, e).items, id) <= BudgetOf(q.items, id) + BudgetOf(Started(q, e), id)
  {
    hide BudgetOf;
    if e.Request? {
      BudgetConcat(q.items, [e.item], id);
      assert q.items == [] ==> [e.item] == q.items + [e.item];
    } else if Reply(e) && Find(q.items, e.uri) < |q.items| {
      BudgetReply(q, e, Find(q.items, e.uri), id);
    }
  }

  lemma {:induction false} BudgetRun(q: Queue, events: seq<Event>, id: nat)
    requires SafeRun(q, events)
    ensures AllRequeued(q, events, id) + BudgetOf(Run(q, events).items, id)
      <= BudgetOf(q.items, id) + BudgetStarted(q, events, id)
    decreases |events|
  {
    if events != [] {
      BudgetStep(q, events[0], id);
      BudgetRun(Step(q, events[0]), events[1..], id);
    }
  }

  lemma {:induction false} BudgetAtMost(items: seq<Item>, id: nat)
    ensures BudgetOf(items, id) <= 21 * Ids(items)[id]
  {
    if items != [] {
      BudgetAtMost(items[..|items| - 1], id);
    }
  }

  lemma {:induction false} StartedAtMost(q: Queue, events: seq<Event>, id: nat)
    requires SafeRun(q, events)
    ensures BudgetStarted(q, events, id) <= 21 * AllStarted(q, events)[id]
    decreases |events|
  {
    if events != [] {
      var p, started := Step(q, events[0]), Started(q, events[0]);
      var a, b := Ids(started), AllStarted(p, events[1..]);
      assert BudgetStarted(q, events, id) == BudgetOf(started, id) + BudgetStarted(p, events[1..], id);
      assert AllStarted(q, events) == a + b;
      hide Ids, BudgetOf, Step, Started, AllStarted, BudgetStarted, Find;
      BudgetAtMost(started, id);
      StartedAtMost(p, events[1..], id);
      assert (a + b)[id] == a[id] + b[id];
    }
  }

  /** A download that is started once is requeued at most 21 times: 10 redirects, the fallback, 10 redirects. */
  lemma FewRequeues(events: seq<Event>, id: nat)
    requires SafeRun(EMPTY, events) && AllStarted(EMPTY, events)[id] <= 1
    ensures AllRequeued(EMPTY, events, id) <= 21
  {
    BudgetRun(EMPTY, events, id);
    StartedAtMost(EMPTY, events, id);
  }

  /** Redirects to where it was, one after the other. */
  function Redirects(uri: Uri, n: nat): (r: seq<Event>) {
    if n == 0 then [] else [Redirect(uri, uri, uri, [])] + Redirects(uri, n - 1)
  }

  lemma RedirectAlone(item: Item)
    requires Budget(item) > 0
    ensures var q, e := Queue([item], 0, true), Redirect(item.uri, item.uri, item.uri, []);
      && q.Good() && Safe(q, e) && Requeued(q, e, item.id) == 1 && Started(q, e) == []
      && Again(item, e).uri == item.uri && Again(item, e).id == item.id && Budget(Again(item, e)) == Budget(item) - 1
      && Step(q, e) == Queue([Again(item, e)], 0, true)
  {
    assert Find([item], item.uri) == 0 && [item][..0] + [item][1..] == [];
  }

  /** A download that is alone in the queue can use up its whole budget. */
  lemma {:induction false} BudgetReached(item: Item)
    ensures var q, events := Queue([item], 0, true), Redirects(item.uri, Budget(item));
      && SafeRun(q, events) && AllRequeued(q, events, item.id) == Budget(item)
      && AllStarted(q, events) == multiset{}
    decreases Budget(item)
  {
    if Budget(item) > 0 {
      var e := Redirect(item.uri, item.uri, item.uri, []);
      RedirectAlone(item);
      KeepsIfSafe(Queue([item], 0, true), e);
      BudgetReached(Again(item, e));
      assert Redirects(item.uri, Budget(item))[0] == e;
      assert Redirects(item.uri, Budget(item))[1..] == Redirects(item.uri, Budget(item) - 1);
      assert Ids([]) == multiset{};
      hide Budget, Again, Step, Requeued, Started, Find, Safe;
    }
  }

  /** The 21 requeues are reached: 10 redirects, the fallback, and 10 more. */
  lemma MostRequeues(id: nat, uri: Uri)
    ensures exists events :: SafeRun(EMPTY, events) && AllStarted(EMPTY, events)[id] == 1
                             && AllRequeued(EMPTY, events, id) == 21
  {
    var item := Item(id, uri, false, 0);
    var more := Redirects(uri, 21);
    var events := [Request(item)] + more;
    BudgetReached(item);
    assert Budget(item) == 21;
    IdsOne(item);
    KeepsIfSafe(EMPTY, Request(item));
    assert events[0] == Request(item) && events[1..] == more && Step(EMPTY, events[0]) == Queue([item], 0, true);
    assert Started(EMPTY, events[0]) == [item] && Requeued(EMPTY, events[0], id) == 0;
    hide Ids, Budget, Step, Started, Requeued, Find, Safe, Redirects;
    assert SafeRun(EMPTY, events) && AllRequeued(EMPTY, events, id) == 21;
    assert AllStarted(EMPTY, events) == multiset{id} + multiset{};
  }
}
