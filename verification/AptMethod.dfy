/** The linked list of downloads in aptmethod.c, with its three pointers. */
module AptMethod {
  import opened DownloadQueue

  class Todo {
    var next: Todo?
    const id: nat
    var uri: Uri
    var lastTry: bool
    var redirects: nat

    constructor (item: Item)
      ensures next == null && Value() == item
    {
      next, id, uri, lastTry, redirects := null, item.id, item.uri, item.lastTry, item.redirects;
    }

    method Follow(target: Uri)
      modifies `uri, `redirects
      ensures uri == target && redirects == old(redirects) + 1
    {
      uri := target;
      redirects := redirects + 1;
    }

    method TryLast(fallback: Uri)
      modifies `uri, `lastTry, `redirects
      ensures uri == fallback && lastTry && redirects == 0
    {
      uri := fallback;
      lastTry := true;
      redirects := 0;
    }

    ghost function Value(): Item
      reads `uri, `lastTry, `redirects
    {
      Item(id, uri, lastTry, redirects)
    }
  }

  ghost function Members(items: seq<Todo>): set<Todo> { set t | t in items }

  ghost function ItemAt(items: seq<Todo>, i: nat): Todo? {
    if i < |items| then items[i] else null
  }

  ghost function ItemBefore(items: seq<Todo>, i: nat): Todo?
    requires i <= |items|
  {
    if i == 0 then null else items[i - 1]
  }

  ghost predicate Chain(head: Todo?, items: seq<Todo>)
    reads Members(items)`next
  {
    head == ItemAt(items, 0)
    && forall i {:trigger items[i].next} :: 0 <= i < |items| ==> items[i].next == ItemAt(items, i + 1)
  }

  ghost predicate Apart(items: seq<Todo>) { forall i, j :: 0 <= i < j < |items| ==> items[i] != items[j] }

  ghost predicate Shows(items: seq<Todo>, values: seq<Item>)
    reads Members(items)
  {
    |items| == |values| && forall i :: 0 <= i < |items| ==> items[i].Value() == values[i]
  }

  ghost function Without(items: seq<Todo>, i: nat): seq<Todo>
    requires i < |items|
  {
    items[..i] + items[i + 1..]
  }

  class Method {
    var toBeDone: Todo?
    var lastToBeDone: Todo?
    var nextToSend: Todo?
    ghost var items: seq<Todo>
    ghost var queue: Queue

    ghost predicate Valid()
      reads this, Members(items)
    {
      && queue.Shaped() && Chain(toBeDone, items) && Apart(items) && Shows(items, queue.items)
      && nextToSend == ItemAt(items, queue.sent)
      && lastToBeDone == if queue.tail then ItemBefore(items, |items|) else null
    }

    constructor ()
      ensures Valid() && queue == EMPTY
    {
      toBeDone, lastToBeDone, nextToSend, items, queue := null, null, null, [], EMPTY;
    }

    /** enqueue */
    method Enqueue(todo: Todo)
      requires Valid() && todo !in items
      modifies this, todo`next, (if lastToBeDone == null then {} else {lastToBeDone})`next
      ensures Valid() && queue == Put(old(queue), todo.Value())
      ensures items == if old(queue).tail then old(items) + [todo] else [todo]
    {
      todo.next := null;
      if lastToBeDone == null {
        toBeDone, lastToBeDone, nextToSend := todo, todo, todo;
        items := [todo];
        queue := Put(queue, todo.Value());
      } else {
        EnqueueLast(todo);
      }
    }

    /** Links the item behind the last one. */
    method LinkLast(todo: Todo)
      requires Chain(toBeDone, items) && Apart(items + [todo]) && items != [] && todo.next == null
      requires lastToBeDone == items[|items| - 1]
      modifies lastToBeDone`next
      ensures Chain(toBeDone, items + [todo])
    {
      ghost var all, k0 := items + [todo], |items| - 1;
      assert all[k0] == lastToBeDone && all[k0 + 1] == todo && all[0] == items[0];
      lastToBeDone.next := todo;
      forall k | 0 <= k < |all| ensures all[k].next == ItemAt(all, k + 1) {
        if k < k0 {
          assert all[k] == items[k] && all[k + 1] == items[k + 1] && all[k] != all[k0];
        } else if k > k0 {
          assert all[k0] != all[k];
        }
      }
    }

    /** Behind the last item. */
    method EnqueueLast(todo: Todo)
      requires Valid() && todo !in items && todo.next == null && lastToBeDone != null
      modifies this, lastToBeDone`next
      ensures Valid() && queue == Put(old(queue), todo.Value()) && items == old(items) + [todo]
    {
      ghost var was, value := items, todo.Value();
      assert queue.tail && was != [] && lastToBeDone == was[|was| - 1];
      AppendedApart(was, todo, queue.items);
      LinkLast(todo);
      hide Chain, Shows, Apart, Todo.Value;
      lastToBeDone := todo;
      if nextToSend == null {
        nextToSend := todo;
      }
      items := was + [todo];
      queue := Put(queue, value);
    }

    /** Looks for the first item with this uri. */
    method Search(uri: Uri) returns (before: Todo?, todo: Todo?, ghost i: nat)
      requires Valid()
      ensures i == Find(queue.items, uri) && todo == ItemAt(items, i) && before == ItemBefore(items, i)
    {
      before, todo, i := null, toBeDone, 0;
      while todo != null
        invariant i <= |items| && todo == ItemAt(items, i) && before == ItemBefore(items, i)
        invariant forall k :: 0 <= k < i ==> queue.items[k].uri != uri
        decreases |items| - i
      {
        assert items[i].Value() == queue.items[i];
        if todo.uri == uri {
          break;
        }
        before, todo, i := todo, todo.next, i + 1;
      }
      FoundAt(queue.items, uri, i);
    }

    /** Links around an item. */
    method LinkOut(before: Todo?, todo: Todo, ghost i: nat)
      requires Chain(toBeDone, items) && Apart(items) && i < |items| && todo == items[i]
               && before == ItemBefore(items, i)
      modifies `toBeDone, `items, (if before == null then {} else {before})`next
      ensures items == Without(old(items), i) && Chain(toBeDone, items)
    {
      ghost var was := items;
      if before == null {
        toBeDone := todo.next;
      } else {
        before.next := todo.next;
      }
      items := Without(items, i);
      forall k | 0 <= k < |items| ensures items[k].next == ItemAt(items, k + 1) {
        assert items[k] == was[if k < i then k else k + 1];
      }
    }

    /** The two other pointers, if they are to an item that is being taken out. */
    method MovePointers(todo: Todo, next: Todo?, ghost was: seq<Todo>, ghost i: nat)
      requires queue.Shaped() && |was| == |queue.items| && i < |was| && todo == was[i] && next == ItemAt(was, i + 1)
      requires nextToSend == ItemAt(was, queue.sent)
               && lastToBeDone == if queue.tail then ItemBefore(was, |was|) else null
      requires Apart(was) && items == Without(was, i) && Apart(items) && Chain(toBeDone, items)
      requires Shows(items, queue.items[..i] + queue.items[i + 1..])
      modifies `nextToSend, `lastToBeDone, `queue
      ensures Valid() && queue == Remove(old(queue), i)
    {
      WithoutPointers(was, i, queue.sent);
      hide Chain, Shows, Apart, ItemAt, ItemBefore, Without;
      if nextToSend == todo {
        nextToSend := next;
      }
      if lastToBeDone == todo {
        lastToBeDone := next;
      }
      queue := Remove(queue, i);
    }

    /** Takes an item out of the list. */
    method Unlink(before: Todo?, todo: Todo, ghost i: nat)
      requires Valid() && i < |items| && todo == items[i] && before == ItemBefore(items, i)
      modifies this, (if before == null then {} else {before})`next
      ensures Valid() && queue == Remove(old(queue), i) && items == Without(old(items), i) && todo !in items
    {
      ghost var was := items;
      WithoutApart(items, i, queue.items);
      var next := todo.next;
      assert next == ItemAt(items, i + 1);
      hide Shows, Apart;
      LinkOut(before, todo, i);
      MovePointers(todo, next, was, i);
    }

    lemma LastListed()
      requires Valid()
      ensures lastToBeDone != null ==> lastToBeDone in Members(items)
    {
    }

    /** aptmethod_enqueue */
    method EnqueueNew(item: Item)
      requires Valid()
      modifies this, Members(items)
      ensures Valid() && queue == Put(old(queue), item) && (old(queue).tail ==> old(items) <= items)
      ensures forall t :: t in Members(items) ==> t in old(Members(items)) || fresh(t)
    {
      LastListed();
      var todo := new Todo(item);
      MembersMore(items, todo);
      hide Chain, Shows, Apart, Put, Members;
      Enqueue(todo);
    }

    /** aptmethod_enqueue, as often as a callback does it. */
    method EnqueueAll(more: seq<Item>)
      requires Valid()
      modifies this, Members(items)
      ensures Valid() && queue == PutAll(old(queue), more)
      ensures forall t :: t in Members(items) ==> t in old(Members(items)) || fresh(t)
      ensures old(queue).tail || more == [] ==> old(items) <= items
    {
      hide *;
      PutNone(queue, more);
      for k := 0 to |more|
        invariant Valid() && queue == PutAll(old(queue), more[..k])
        invariant forall t :: t in Members(items) ==> t in old(Members(items)) || fresh(t)
        invariant old(queue).tail ==> old(items) <= items && queue.tail
        invariant more == [] ==> items == old(items)
      {
        PutNext(old(queue), more, k);
        EnqueueNew(more[k]);
      }
    }

    /** The send step of senddata: the next request, and the pointer to the one after it. */
    method SendNext() returns (sent: Todo?)
      requires Valid()
      modifies `nextToSend, `queue
      ensures Valid() && queue == Step(old(queue), Send) && sent == ItemAt(items, old(queue).sent)
    {
      sent := nextToSend;
      if sent != null {
        nextToSend := nextToSend.next;
        queue := queue.(sent := queue.sent + 1);
      }
    }

    lemma DoneFound(uri: Uri, more: seq<Item>, todo: Todo, i: nat)
      requires Valid() && Sound(queue, Done(uri, more)) && i == Find(queue.items, uri) && todo == ItemAt(items, i)
      ensures i < |items| && todo == items[i] && (queue.tail || more == [])
      ensures PutAll(queue, more).Shaped() && i < |PutAll(queue, more).items|
      ensures Step(queue, Done(uri, more)) == Remove(PutAll(queue, more), i)
    {
      PutAllLonger(queue, Done(uri, more));
    }

    /** uridone: the callback may request more before the item is taken out. */
    method UriDone(uri: Uri, more: seq<Item>)
      requires Valid() && Sound(queue, Done(uri, more))
      modifies this, Members(items)
      ensures Valid() && queue == Step(old(queue), Done(uri, more))
    {
      var before, todo;
      ghost var i;
      before, todo, i := Search(uri);
      if todo == null {
        return;
      }
      DoneFound(uri, more, todo, i);
      hide PutAll, Find;
      EnqueueAll(more);
      Unlink(before, todo, i);
    }

    /** requeue_or_fail, for an item that has just been taken out. */
    method RequeueItem(todo: Todo, fallback: Uri, more: seq<Item>)
      requires Valid() && todo !in items
      modifies this, Members(items), todo
      ensures Valid() && queue == RequeueOrFail(old(queue), old(todo.Value()), fallback, more)
    {
      if todo.lastTry {
        EnqueueAll(more);
      } else {
        todo.TryLast(fallback);
        Enqueue(todo);
      }
    }

    /** The second half of uriredirect, for an item that has just been taken out. */
    method RedirectItem(todo: Todo, target: Uri, fallback: Uri, more: seq<Item>)
      requires Valid() && todo !in items
      modifies this, Members(items), todo
      ensures Valid()
      ensures var v := old(todo.Value());
        queue == if v.redirects < MAX_REDIRECTS then Put(old(queue), v.(uri := target, redirects := v.redirects + 1))
                 else RequeueOrFail(old(queue), v, fallback, more)
    {
      if todo.redirects < MAX_REDIRECTS {
        todo.Follow(target);
        Enqueue(todo);
      } else {
        RequeueItem(todo, fallback, more);
      }
    }

    /** urierror */
    method UriError(uri: Uri, fallback: Uri, more: seq<Item>)
      requires Valid()
      modifies this, Members(items)
      ensures Valid() && queue == Step(old(queue), Failed(uri, fallback, more))
    {
      hide Valid, Find;
      var before, todo;
      ghost var i;
      before, todo, i := Search(uri);
      FoundOrSame(todo, i, Failed(uri, fallback, more));
      if todo == null {
        return;
      }
      Unlink(before, todo, i);
      RequeueItem(todo, fallback, more);
    }

    /** Nothing happens for a uri that is not in the queue. */
    lemma FoundOrSame(todo: Todo?, i: nat, e: Event)
      requires Valid() && (e.Failed? || e.Redirect?) && i == Find(queue.items, e.uri)
               && todo == ItemAt(items, i)
      ensures todo == null ==> Step(queue, e) == queue
      ensures todo != null ==> i < |items| && todo == items[i] && i < |queue.items| && todo.Value() == queue.items[i]
    {
    }

    /** uriredirect */
    method UriRedirect(uri: Uri, target: Uri, fallback: Uri, more: seq<Item>)
      requires Valid()
      modifies this, Members(items)
      ensures Valid() && queue == Step(old(queue), Redirect(uri, target, fallback, more))
    {
      hide Valid, Find;
      var before, todo;
      ghost var i;
      before, todo, i := Search(uri);
      FoundOrSame(todo, i, Redirect(uri, target, fallback, more));
      if todo == null {
        return;
      }
      Unlink(before, todo, i);
      RedirectItem(todo, target, fallback, more);
    }
  }

  /** What the pointers at position k, and at the last item, become when an item is taken out. */
  lemma WithoutPointers(items: seq<Todo>, i: nat, k: nat)
    requires Apart(items) && i < |items| && k <= |items|
    ensures ItemAt(items, k) == items[i] <==> k == i
    ensures ItemAt(Without(items, i), if k <= i then k else k - 1)
            == if k == i then ItemAt(items, i + 1) else ItemAt(items, k)
    ensures ItemBefore(items, |items|) == items[i] <==> i == |items| - 1
    ensures i < |items| - 1 ==> ItemBefore(Without(items, i), |items| - 1) == ItemBefore(items, |items|)
    ensures i == |items| - 1 ==> ItemAt(items, i + 1) == null
    ensures |Without(items, i)| == |items| - 1
  {
  }

  lemma AppendedApart(items: seq<Todo>, todo: Todo, values: seq<Item>)
    requires Apart(items) && Shows(items, values) && todo !in items
    ensures Apart(items + [todo]) && Shows(items + [todo], values + [todo.Value()])
  {
  }

  lemma MembersMore(items: seq<Todo>, todo: Todo)
    ensures Members(items + [todo]) == Members(items) + {todo} && Members([todo]) == {todo}
  {
  }

  lemma PutNone(q: Queue, more: seq<Item>)
    ensures PutAll(q, more[..0]) == q && more[..|more|] == more
  {
    assert more[..0] == [] && more[..|more|] == more;
  }

  lemma PutNext(q: Queue, more: seq<Item>, k: nat)
    requires k < |more|
    ensures PutAll(q, more[..k + 1]) == Put(PutAll(q, more[..k]), more[k]) && PutAll(q, more[..k + 1]).tail
  {
    assert more[..k + 1][..k] == more[..k];
  }

  lemma WithoutApart(items: seq<Todo>, i: nat, values: seq<Item>)
    requires Apart(items) && Shows(items, values) && i < |items|
    ensures Apart(Without(items, i)) && items[i] !in Without(items, i)
    ensures Shows(Without(items, i), values[..i] + values[i + 1..])
    ensures forall k :: 0 <= k < |items| && k != i ==> items[k] != items[i]
  {
  }

  lemma {:induction false} FoundAt(items: seq<Item>, uri: Uri, i: nat)
    requires i <= |items| && (i < |items| ==> items[i].uri == uri) && forall k :: 0 <= k < i ==> items[k].uri != uri
    ensures i == Find(items, uri)
  {
    if i > 0 {
      assert items[0].uri != uri;
      forall k | 0 <= k < i - 1 ensures items[1..][k].uri != uri { assert items[1..][k] == items[k + 1]; }
      FoundAt(items[1..], uri, i - 1);
    }
  }
}
