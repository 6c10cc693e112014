/**
 The height-balanced trees of filelist.c.  The files of a directory and the
 subdirectories of a directory are kept in two trees with the same link fields
 and the same rebalancing code; `Node` holds those fields and leaves the rest of
 the record (the `packages` of a file, or a directory) as the type parameter V.
 */
module AvlTree {
  import opened Strings

  /** Which tree a node is in: that of the files or that of the subdirectories of a directory. */
  datatype Home = OfFiles(path: seq<Name>) | OfDirs(path: seq<Name>)

  class Node<V> {
    var nextl: Node?<V>
    var nextr: Node?<V>
    var balance: int
    const name: Name
    const value: V
    ghost const home: Home

    constructor (name: Name, value: V, ghost home: Home)
      ensures nextl == null && nextr == null && balance == 0
      ensures this.name == name && this.value == value && this.home == home
    {
      nextl, nextr, balance := null, null, 0;
      this.name, this.value, this.home := name, value, home;
    }
  }

  /** Which node hangs where: the ghost picture of a linked tree. */
  datatype Shape<V> = Nil | At(left: Shape<V>, node: Node<V>, right: Shape<V>)

  type Entry<V> = (Name, V)

  ghost function Nodes<V>(s: Shape<V>): set<Node<V>> {
    match s
    case Nil => {}
    case At(l, n, r) => Nodes(l) + {n} + Nodes(r)
  }

  function Max(a: int, b: int): int { if a < b then b else a }

  ghost function Height<V>(s: Shape<V>): nat {
    match s
    case Nil => 0
    case At(l, _, r) => 1 + Max(Height(l), Height(r))
  }

  ghost function Size<V>(s: Shape<V>): nat {
    match s
    case Nil => 0
    case At(l, _, r) => Size(l) + 1 + Size(r)
  }

  /** No node occurs twice. */
  ghost predicate Distinct<V>(s: Shape<V>) {
    match s
    case Nil => true
    case At(l, n, r) =>
      && n !in Nodes(l) && n !in Nodes(r) && Nodes(l) !! Nodes(r)
      && Distinct(l) && Distinct(r)
  }

  /** The two subtrees of every node differ in height by at most one. */
  ghost predicate Avl<V>(s: Shape<V>) {
    match s
    case Nil => true
    case At(l, _, r) => -1 <= Height(r) - Height(l) <= 1 && Avl(l) && Avl(r)
  }

  ghost function Item<V>(n: Node<V>): Entry<V> { (n.name, n.value) }

  /** The contents in search order. */
  ghost function Entries<V>(s: Shape<V>): seq<Entry<V>> {
    match s
    case Nil => []
    case At(l, n, r) => Entries(l) + [Item(n)] + Entries(r)
  }

  ghost predicate Sorted<V>(e: seq<Entry<V>>) {
    forall i, j :: 0 <= i < j < |e| ==> Before(e[i].0, e[j].0)
  }

  /** The contents as a map; with repeated keys the last one would count. */
  ghost function MapOf<V>(e: seq<Entry<V>>): map<Name, V> {
    if e == [] then map[] else MapOf(e[..|e| - 1])[e[|e| - 1].0 := e[|e| - 1].1]
  }

  lemma {:induction false} MapOfKeys<V>(e: seq<Entry<V>>, k: Name)
    ensures k in MapOf(e) <==> exists x :: x in e && x.0 == k
  {
    if e != [] {
      MapOfKeys(e[..|e| - 1], k);
      assert e == e[..|e| - 1] + [e[|e| - 1]];
    }
  }

  lemma MapOfSnoc<V>(a: seq<Entry<V>>, x: Entry<V>)
    ensures MapOf(a + [x]) == MapOf(a)[x.0 := x.1]
  {
    assert (a + [x])[..|a|] == a;
  }

  /** An entry whose key does not come again decides what the map has for that key, and for no other. */
  lemma {:induction false} MapOfMiddle<V>(a: seq<Entry<V>>, x: Entry<V>, b: seq<Entry<V>>)
    requires forall y :: y in b ==> y.0 != x.0
    ensures MapOf(a + [x] + b) == MapOf(a + b)[x.0 := x.1]
  {
    if b == [] {
      assert a + [x] + b == a + [x] && a + b == a;
      MapOfSnoc(a, x);
    } else {
      var b', y := b[..|b| - 1], b[|b| - 1];
      MapOfMiddle(a, x, b');
      assert a + [x] + b == (a + [x] + b') + [y];
      assert a + b == (a + b') + [y];
      MapOfSnoc(a + [x] + b', y);
      MapOfSnoc(a + b', y);
      assert y in b;
    }
  }

  /**
   The heap from p on is this picture: the links are as drawn, and every stored
   `balance` is the height of the right subtree minus that of the left.
   */
  ghost predicate Linked<V>(p: Node?<V>, s: Shape<V>)
    reads Nodes(s)
  {
    match s
    case Nil => p == null
    case At(l, n, r) =>
      && p == n && n.balance == Height(r) - Height(l)
      && Linked(n.nextl, l) && Linked(n.nextr, r)
  }

  // ----- rotations, on pictures

  lemma Regroup<T>(a: seq<T>, b: seq<T>, c: seq<T>, d: seq<T>, e: seq<T>)
    ensures a + (b + c + d) + e == a + b + ((c + d) + e)
    ensures a + (b + c + d) + e == (a + (b + c)) + d + e
    ensures a + (b + c + d) + e == (a + b) + c + (d + e)
  {
  }

  lemma RotateOnce<V>(a: Shape<V>, n: Node<V>, b: Shape<V>, p: Node<V>, c: Shape<V>)
    ensures Entries(At(At(a, n, b), p, c)) == Entries(At(a, n, At(b, p, c)))
    ensures Nodes(At(At(a, n, b), p, c)) == Nodes(At(a, n, At(b, p, c)))
    ensures Distinct(At(At(a, n, b), p, c)) <==> Distinct(At(a, n, At(b, p, c)))
  {
    Regroup(Entries(a), [Item(n)], Entries(b), [Item(p)], Entries(c));
  }

  lemma RotateTwice<V>(a: Shape<V>, n: Node<V>, b: Shape<V>, m: Node<V>, c: Shape<V>, p: Node<V>, d: Shape<V>)
    ensures var t := At(At(a, n, b), m, At(c, p, d));
      && Entries(At(At(a, n, At(b, m, c)), p, d)) == Entries(t) == Entries(At(a, n, At(At(b, m, c), p, d)))
      && Nodes(At(At(a, n, At(b, m, c)), p, d)) == Nodes(t) == Nodes(At(a, n, At(At(b, m, c), p, d)))
      && (Distinct(At(At(a, n, At(b, m, c)), p, d)) <==> Distinct(t))
      && (Distinct(At(a, n, At(At(b, m, c), p, d))) <==> Distinct(t))
  {
    RotateOnce(a, n, b, m, c);
    RotateOnce(At(a, n, b), m, c, p, d);
    RotateOnce(b, m, c, p, d);
    RotateOnce(a, n, b, m, At(c, p, d));
    RotateOnce(a, n, At(b, m, c), p, d);
  }

  // ----- rotations, in the heap: `p` has become two higher on one side

  method SingleFromLeft<V>(p: Node<V>, n: Node<V>, ghost a: Shape<V>, ghost b: Shape<V>, ghost c: Shape<V>)
    requires p.nextl == n && Linked(n, At(a, n, b)) && Linked(p.nextr, c)
    requires {p, n} !! Nodes(a) && {p, n} !! Nodes(b) && {p, n} !! Nodes(c) && p != n
    requires Height(a) == Height(b) + 1 == Height(c) + 1
    modifies p, n
    ensures Linked(n, At(a, n, At(b, p, c)))
  {
    p.nextl := n.nextr;
    p.balance := 0;
    n.nextr := p;
    n.balance := 0;
  }

  lemma PictureRight<V>(n: Node<V>, a: Shape<V>, b: Shape<V>, m: Node<V>, c: Shape<V>)
    requires Linked(n, At(a, n, At(b, m, c)))
    ensures n.nextr == m && Linked(n.nextl, a) && Linked(m.nextl, b) && Linked(m.nextr, c)
    ensures m.balance == Height(c) - Height(b)
  {
  }

  lemma PictureLeft<V>(n: Node<V>, b: Shape<V>, m: Node<V>, c: Shape<V>, d: Shape<V>)
    requires Linked(n, At(At(b, m, c), n, d))
    ensures n.nextl == m && Linked(n.nextr, d) && Linked(m.nextl, b) && Linked(m.nextr, c)
    ensures m.balance == Height(c) - Height(b)
  {
  }

  /** The picture after a double rotation. */
  lemma Drawn<V>(a: Shape<V>, n: Node<V>, b: Shape<V>, m: Node<V>, c: Shape<V>, p: Node<V>, d: Shape<V>)
    requires m.nextl == n && m.nextr == p && m.balance == 0 && Height(a) == Height(d) == Max(Height(b), Height(c))
    requires Linked(n.nextl, a) && Linked(n.nextr, b) && n.balance == Height(b) - Height(a)
    requires Linked(p.nextl, c) && Linked(p.nextr, d) && p.balance == Height(d) - Height(c)
    ensures Linked(m, At(At(a, n, b), m, At(c, p, d)))
  {
  }

  /** The balances of the two lower nodes, by which side of the new top is higher. */
  lemma TurnedBalances<V>(a: Shape<V>, b: Shape<V>, c: Shape<V>, d: Shape<V>)
    requires Height(a) == Height(d) == Max(Height(b), Height(c)) && -1 <= Height(c) - Height(b) <= 1
    ensures Height(b) - Height(a) == if Height(c) > Height(b) then -1 else 0
    ensures Height(d) - Height(c) == if Height(c) < Height(b) then 1 else 0
  {
    hide Height;
  }

  /** The right child of n goes above both n and its parent p. */
  method TurnFromLeft<V>(p: Node<V>, n: Node<V>) returns (last: Node<V>)
    requires p.nextl == n && n.nextr != null && p != n && p != n.nextr && n != n.nextr
    modifies p, n, n.nextr
    ensures last == old(n.nextr) && last.nextl == n && last.nextr == p && last.balance == 0
    ensures n.nextl == old(n.nextl) && n.nextr == old(n.nextr.nextl)
    ensures p.nextl == old(n.nextr.nextr) && p.nextr == old(p.nextr)
    ensures n.balance == if old(n.nextr.balance) > 0 then -1 else 0
    ensures p.balance == if old(n.nextr.balance) < 0 then 1 else 0
  {
    last := n.nextr;
    p.nextl := last.nextr;
    last.nextr := p;
    n.nextr := last.nextl;
    last.nextl := n;
    if last.balance == 0 {
      p.balance := 0;
      n.balance := 0;
    } else if last.balance < 0 {
      p.balance := 1;
      n.balance := 0;
    } else {
      p.balance := 0;
      n.balance := -1;
    }
    last.balance := 0;
  }

  /** The left child of n goes above both n and its parent p. */
  method TurnFromRight<V>(p: Node<V>, n: Node<V>) returns (last: Node<V>)
    requires p.nextr == n && n.nextl != null && p != n && p != n.nextl && n != n.nextl
    modifies p, n, n.nextl
    ensures last == old(n.nextl) && last.nextl == p && last.nextr == n && last.balance == 0
    ensures n.nextr == old(n.nextr) && n.nextl == old(n.nextl.nextr)
    ensures p.nextr == old(n.nextl.nextl) && p.nextl == old(p.nextl)
    ensures p.balance == if old(n.nextl.balance) > 0 then -1 else 0
    ensures n.balance == if old(n.nextl.balance) < 0 then 1 else 0
  {
    last := n.nextl;
    p.nextr := last.nextl;
    last.nextl := p;
    n.nextl := last.nextr;
    last.nextr := n;
    if last.balance == 0 {
      p.balance := 0;
      n.balance := 0;
    } else if last.balance > 0 {
      p.balance := -1;
      n.balance := 0;
    } else {
      p.balance := 0;
      n.balance := 1;
    }
    last.balance := 0;
  }

  method DoubleFromLeft<V>(p: Node<V>, n: Node<V>, ghost a: Shape<V>, ghost b: Shape<V>, ghost m: Node<V>,
                           ghost c: Shape<V>, ghost d: Shape<V>)
    returns (last: Node<V>)
    requires p.nextl == n && Linked(n, At(a, n, At(b, m, c))) && Linked(p.nextr, d)
    requires {p, n, m} !! Nodes(a) && {p, n, m} !! Nodes(b)
    requires {p, n, m} !! Nodes(c) && {p, n, m} !! Nodes(d) && p != n && p != m && n != m
    requires Height(a) == Height(d) == Max(Height(b), Height(c)) && -1 <= Height(c) - Height(b) <= 1
    modifies p, n, m
    ensures last == m && Linked(m, At(At(a, n, b), m, At(c, p, d)))
  {
    ghost var x, y, z, w := n.nextl, n.nextr.nextl, n.nextr.nextr, p.nextr;
    assert allocated(Nodes(a)) && allocated(Nodes(b)) && allocated(Nodes(c)) && allocated(Nodes(d));
    hide *;
    PictureRight(n, a, b, m, c);
    last := TurnFromLeft(p, n);
    TurnedBalances(a, b, c, d);
    assert Linked(x, a) && Linked(y, b) && Linked(z, c) && Linked(w, d);
    Drawn(a, n, b, m, c, p, d);
  }

  method SingleFromRight<V>(p: Node<V>, n: Node<V>, ghost a: Shape<V>, ghost b: Shape<V>, ghost c: Shape<V>)
    requires p.nextr == n && Linked(n, At(b, n, c)) && Linked(p.nextl, a)
    requires {p, n} !! Nodes(a) && {p, n} !! Nodes(b) && {p, n} !! Nodes(c) && p != n
    requires Height(c) == Height(b) + 1 == Height(a) + 1
    modifies p, n
    ensures Linked(n, At(At(a, p, b), n, c))
  {
    p.nextr := n.nextl;
    p.balance := 0;
    n.nextl := p;
    n.balance := 0;
  }

  method DoubleFromRight<V>(p: Node<V>, n: Node<V>, ghost a: Shape<V>, ghost b: Shape<V>, ghost m: Node<V>,
                            ghost c: Shape<V>, ghost d: Shape<V>)
    returns (last: Node<V>)
    requires p.nextr == n && Linked(n, At(At(b, m, c), n, d)) && Linked(p.nextl, a)
    requires {p, n, m} !! Nodes(a) && {p, n, m} !! Nodes(b)
    requires {p, n, m} !! Nodes(c) && {p, n, m} !! Nodes(d) && p != n && p != m && n != m
    requires Height(a) == Height(d) == Max(Height(b), Height(c)) && -1 <= Height(c) - Height(b) <= 1
    modifies p, n, m
    ensures last == m && Linked(m, At(At(a, p, b), m, At(c, n, d)))
  {
    ghost var x, y, z, w := p.nextl, n.nextl.nextl, n.nextl.nextr, n.nextr;
    assert allocated(Nodes(a)) && allocated(Nodes(b)) && allocated(Nodes(c)) && allocated(Nodes(d));
    hide *;
    PictureLeft(n, b, m, c, d);
    last := TurnFromRight(p, n);
    TurnedBalances(a, b, c, d);
    assert Linked(x, a) && Linked(y, b) && Linked(z, c) && Linked(w, d);
    Drawn(a, p, b, m, c, n, d);
  }

  /** What both single rotations need to know about the pictures before and after. */
  lemma SingleFits<V>(a: Shape<V>, n: Node<V>, b: Shape<V>, p: Node<V>, c: Shape<V>)
    requires Distinct(At(At(a, n, b), p, c)) || Distinct(At(a, n, At(b, p, c)))
    ensures {p, n} !! Nodes(a) && {p, n} !! Nodes(b) && {p, n} !! Nodes(c) && p != n
    ensures Distinct(At(At(a, n, b), p, c)) && Distinct(At(a, n, At(b, p, c)))
    ensures Nodes(At(At(a, n, b), p, c)) == Nodes(At(a, n, At(b, p, c)))
    ensures Entries(At(At(a, n, b), p, c)) == Entries(At(a, n, At(b, p, c)))
  {
    RotateOnce(a, n, b, p, c);
  }

  lemma DoubleFits<V>(a: Shape<V>, n: Node<V>, b: Shape<V>, m: Node<V>, c: Shape<V>, p: Node<V>, d: Shape<V>)
    requires Distinct(At(At(a, n, At(b, m, c)), p, d)) || Distinct(At(a, n, At(At(b, m, c), p, d)))
    ensures {p, n, m} !! Nodes(a) && {p, n, m} !! Nodes(b) && {p, n, m} !! Nodes(c) && {p, n, m} !! Nodes(d)
    ensures p != n && p != m && n != m
    ensures Distinct(At(At(a, n, b), m, At(c, p, d)))
  {
    RotateTwice(a, n, b, m, c, p, d);
    assert Distinct(At(a, n, b)) && Distinct(At(c, p, d));
  }

  /** The tree at p after its left subtree has grown by one to `sub`. */
  ghost function AfterLeft<V>(sub: Shape<V>, p: Node<V>, right: Shape<V>): Shape<V>
    requires Avl(sub)
  {
    if Height(sub) <= Height(right) + 1 then At(sub, p, right)
    else if Height(sub.left) > Height(sub.right) then At(sub.left, sub.node, At(sub.right, p, right))
    else if sub.right == Nil then At(sub, p, right)
    else At(At(sub.left, sub.node, sub.right.left), sub.right.node, At(sub.right.right, p, right))
  }

  ghost function AfterRight<V>(left: Shape<V>, p: Node<V>, sub: Shape<V>): Shape<V>
    requires Avl(sub)
  {
    if Height(sub) <= Height(left) + 1 then At(left, p, sub)
    else if Height(sub.left) < Height(sub.right) then At(At(left, p, sub.left), sub.node, sub.right)
    else if sub.left == Nil then At(left, p, sub)
    else At(At(left, p, sub.left.left), sub.left.node, At(sub.left.right, sub.node, sub.right))
  }

  /** A subtree that grew is a new leaf or leans to one side. */
  ghost predicate Leans<V>(s: Shape<V>) {
    s.At? && (Height(s) == 1 || Height(s.left) != Height(s.right))
  }

  ghost predicate SameContents<V>(s: Shape<V>, t: Shape<V>) {
    Nodes(s) == Nodes(t) && Entries(s) == Entries(t)
  }

  /** Rebalancing keeps the nodes and their order. */
  lemma AfterLeftSame<V>(sub: Shape<V>, p: Node<V>, right: Shape<V>)
    requires Distinct(At(sub, p, right)) && Avl(sub)
    ensures Distinct(AfterLeft(sub, p, right)) && SameContents(AfterLeft(sub, p, right), At(sub, p, right))
  {
    if Height(sub) > Height(right) + 1 {
      var a, n, b := sub.left, sub.node, sub.right;
      if Height(a) > Height(b) {
        SingleFits(a, n, b, p, right);
      } else if b != Nil {
        DoubleFits(a, n, b.left, b.node, b.right, p, right);
        RotateTwice(a, n, b.left, b.node, b.right, p, right);
      }
    }
  }

  lemma AfterRightSame<V>(left: Shape<V>, p: Node<V>, sub: Shape<V>)
    requires Distinct(At(left, p, sub)) && Avl(sub)
    ensures Distinct(AfterRight(left, p, sub)) && SameContents(AfterRight(left, p, sub), At(left, p, sub))
  {
    if Height(sub) > Height(left) + 1 {
      var b, n, d := sub.left, sub.node, sub.right;
      if Height(b) < Height(d) {
        SingleFits(left, p, b, n, d);
      } else if b != Nil {
        DoubleFits(left, p, b.left, b.node, b.right, n, d);
        RotateTwice(left, p, b.left, b.node, b.right, n, d);
      }
    }
  }

  /**
   Rebalancing restores balance, and the growth is passed on exactly when the
   other side is as high as the grown side was.
   */
  lemma AfterLeftBalanced<V>(sub: Shape<V>, p: Node<V>, right: Shape<V>)
    requires Avl(sub) && Avl(right) && Leans(sub)
    requires -1 <= Height(right) - (Height(sub) - 1) <= 1
    ensures var t, h := AfterLeft(sub, p, right), Max(Height(sub) - 1, Height(right));
      Avl(t) && if Height(right) == Height(sub) - 1 then Height(t) == h + 2 && Leans(t) else Height(t) == h + 1
  {
    if Height(sub) == Height(right) + 2 {
      var a, n, b := sub.left, sub.node, sub.right;
      if Height(a) < Height(b) {
        assert Avl(At(a, n, b.left)) && Avl(At(b.right, p, right));
      } else {
        assert Avl(At(b, p, right));
      }
      hide Avl;
    } else {
      assert Avl(At(sub, p, right));
      hide Avl;
    }
  }

  lemma AfterRightBalanced<V>(left: Shape<V>, p: Node<V>, sub: Shape<V>)
    requires Avl(sub) && Avl(left) && Leans(sub)
    requires -1 <= (Height(sub) - 1) - Height(left) <= 1
    ensures var t, h := AfterRight(left, p, sub), Max(Height(left), Height(sub) - 1);
      Avl(t) && if Height(left) == Height(sub) - 1 then Height(t) == h + 2 && Leans(t) else Height(t) == h + 1
  {
    if Height(sub) == Height(left) + 2 {
      var b, n, d := sub.left, sub.node, sub.right;
      if Height(b) > Height(d) {
        assert Avl(At(left, p, b.left)) && Avl(At(b.right, n, d));
      } else {
        assert Avl(At(left, p, b));
      }
    }
  }

  /** The height that the rest of the tree has accounted for. */
  ghost function HoleHeight<V>(sub: Shape<V>, absorbed: bool): int {
    if absorbed then Height(sub) else Height(sub) - 1
  }

  /**
   t holds what `grown` holds and is balanced.  It is as high as the tree was
   before (h) if the growth is absorbed, and one higher otherwise.
   */
  ghost predicate Regrown<V>(grown: Shape<V>, h: int, t: Shape<V>, absorbed: bool) {
    && Distinct(t) && SameContents(t, grown) && Avl(t) && (absorbed || Leans(t))
    && HoleHeight(t, absorbed) == h
  }

  lemma AfterLeftRegrown<V>(sub: Shape<V>, p: Node<V>, right: Shape<V>)
    requires Distinct(At(sub, p, right)) && Avl(sub) && Avl(right) && Leans(sub)
    requires -1 <= Height(right) - (Height(sub) - 1) <= 1
    ensures Regrown(At(sub, p, right), 1 + Max(Height(sub) - 1, Height(right)),
                    AfterLeft(sub, p, right), Height(right) != Height(sub) - 1)
  {
    AfterLeftSame(sub, p, right);
    AfterLeftBalanced(sub, p, right);
  }

  lemma AfterRightRegrown<V>(left: Shape<V>, p: Node<V>, sub: Shape<V>)
    requires Distinct(At(left, p, sub)) && Avl(sub) && Avl(left) && Leans(sub)
    requires -1 <= (Height(sub) - 1) - Height(left) <= 1
    ensures Regrown(At(left, p, sub), 1 + Max(Height(sub) - 1, Height(left)),
                    AfterRight(left, p, sub), Height(left) != Height(sub) - 1)
  {
    AfterRightSame(left, p, sub);
    AfterRightBalanced(left, p, sub);
  }

  method RotateFromLeft<V>(p: Node<V>, n: Node<V>, ghost sub: Shape<V>, ghost right: Shape<V>)
    returns (top: Node<V>)
    requires p.nextl == n && Linked(n, sub) && Linked(p.nextr, right)
    requires Distinct(At(sub, p, right)) && Avl(sub) && Leans(sub) && Height(sub) == Height(right) + 2
    modifies p, Nodes(sub)
    ensures Linked(top, AfterLeft(sub, p, right))
  {
    ghost var a, b := sub.left, sub.right;
    if n.balance == -1 {
      SingleFits(a, n, b, p, right);
      SingleFromLeft(p, n, a, b, right);
      top := n;
    } else {
      DoubleFits(a, n, b.left, b.node, b.right, p, right);
      top := DoubleFromLeft(p, n, a, b.left, b.node, b.right, right);
    }
  }

  method RotateFromRight<V>(p: Node<V>, n: Node<V>, ghost left: Shape<V>, ghost sub: Shape<V>)
    returns (top: Node<V>)
    requires p.nextr == n && Linked(n, sub) && Linked(p.nextl, left)
    requires Distinct(At(left, p, sub)) && Avl(sub) && Leans(sub) && Height(sub) == Height(left) + 2
    modifies p, Nodes(sub)
    ensures Linked(top, AfterRight(left, p, sub))
  {
    ghost var b, d := sub.left, sub.right;
    if n.balance == 1 {
      SingleFits(left, p, b, n, d);
      SingleFromRight(p, n, left, b, d);
      top := n;
    } else {
      DoubleFits(left, p, b.left, b.node, b.right, n, d);
      top := DoubleFromRight(p, n, left, b.left, b.node, b.right, d);
    }
  }

  /** One turn of the loop that climbs back up: the subtree left of p has grown by one, to `sub`. */
  method GrownLeft<V>(p: Node<V>, n: Node<V>, ghost sub: Shape<V>, ghost right: Shape<V>)
    returns (top: Node<V>, absorbed: bool, ghost t: Shape<V>)
    requires p.nextl == n && Linked(n, sub) && Linked(p.nextr, right)
    requires Distinct(At(sub, p, right)) && Avl(sub) && Avl(right) && Leans(sub)
    requires p.balance == Height(right) - (Height(sub) - 1) && -1 <= p.balance <= 1
    modifies p, Nodes(sub)
    ensures Linked(top, t)
    ensures Regrown(At(sub, p, right), 1 + Max(Height(sub) - 1, Height(right)), t, absorbed)
  {
    p.balance := p.balance - 1;
    assert Linked(n, sub) && Linked(p.nextr, right);
    top, absorbed, t := p, p.balance != -1, AfterLeft(sub, p, right);
    AfterLeftRegrown(sub, p, right);
    if p.balance < -1 {
      top := RotateFromLeft(p, n, sub, right);
    }
  }

  method GrownRight<V>(p: Node<V>, n: Node<V>, ghost left: Shape<V>, ghost sub: Shape<V>)
    returns (top: Node<V>, absorbed: bool, ghost t: Shape<V>)
    requires p.nextr == n && Linked(n, sub) && Linked(p.nextl, left)
    requires Distinct(At(left, p, sub)) && Avl(sub) && Avl(left) && Leans(sub)
    requires p.balance == (Height(sub) - 1) - Height(left) && -1 <= p.balance <= 1
    modifies p, Nodes(sub)
    ensures Linked(top, t)
    ensures Regrown(At(left, p, sub), 1 + Max(Height(sub) - 1, Height(left)), t, absorbed)
  {
    p.balance := p.balance + 1;
    assert Linked(n, sub) && Linked(p.nextl, left);
    top, absorbed, t := p, p.balance != 1, AfterRight(left, p, sub);
    AfterRightRegrown(left, p, sub);
    if p.balance > 1 {
      top := RotateFromRight(p, n, left, sub);
    }
  }

  // ----- where a search stands: the way from the root down to one link

  /** The last step goes to the left or right link of `node`, past the subtree `other`. */
  datatype Path<V> = Top | Step(up: Path<V>, node: Node<V>, toLeft: bool, other: Shape<V>)

  /** The address of a link, as in `struct filelist **`. */
  datatype Link<V> = Head | LeftOf(node: Node<V>) | RightOf(node: Node<V>)

  /** The tree one level up, if the link holds s. */
  ghost function Hung<V>(c: Path<V>, s: Shape<V>): Shape<V>
    requires c != Top
  {
    if c.toLeft then At(s, c.node, c.other) else At(c.other, c.node, s)
  }

  /** Its height, if the link holds a tree of height h. */
  ghost function Level<V>(c: Path<V>, h: int): int
    requires c != Top
  {
    1 + Max(h, Height(c.other))
  }

  ghost function Plug<V>(c: Path<V>, s: Shape<V>): Shape<V>
    decreases c
  {
    if c == Top then s else Plug(c.up, Hung(c, s))
  }

  ghost function LinkOf<V>(c: Path<V>): Link<V> {
    if c == Top then Head else if c.toLeft then LeftOf(c.node) else RightOf(c.node)
  }

  /** `stack[..=sp]` holds the addresses of the links on the way down, the root link first. */
  ghost predicate OnStack<V>(stack: seq<Link<V>>, sp: int, c: Path<V>)
    decreases c
  {
    && 0 <= sp < |stack| && stack[sp] == LinkOf(c)
    && if c == Top then sp == 0 else OnStack(stack, sp - 1, c.up)
  }

  ghost function PathNodes<V>(c: Path<V>): set<Node<V>> {
    if c == Top then {} else PathNodes(c.up) + {c.node} + Nodes(c.other)
  }

  ghost predicate PathDistinct<V>(c: Path<V>) {
    c == Top ||
    (c.node !in PathNodes(c.up) && c.node !in Nodes(c.other) && PathNodes(c.up) !! Nodes(c.other)
     && Distinct(c.other) && PathDistinct(c.up))
  }

  /** The tree is balanced if the link holds a balanced tree of height h. */
  ghost predicate PathAvl<V>(c: Path<V>, h: int)
    decreases c
  {
    c == Top || (Avl(c.other) && -1 <= Height(c.other) - h <= 1 && PathAvl(c.up, Level(c, h)))
  }

  ghost function EntriesBefore<V>(c: Path<V>): seq<Entry<V>> {
    if c == Top then []
    else if c.toLeft then EntriesBefore(c.up)
    else EntriesBefore(c.up) + (Entries(c.other) + [Item(c.node)])
  }

  ghost function EntriesAfter<V>(c: Path<V>): seq<Entry<V>> {
    if c == Top then []
    else if c.toLeft then ([Item(c.node)] + Entries(c.other)) + EntriesAfter(c.up)
    else EntriesAfter(c.up)
  }

  /** The last step of the path is as the heap has it. */
  ghost predicate Here<V>(c: Path<V>, hole: Node?<V>, h: int)
    requires c != Top
    reads PathNodes(c)
  {
    if c.toLeft then
      c.node.nextl == hole && c.node.balance == Height(c.other) - h && Linked(c.node.nextr, c.other)
    else
      c.node.nextr == hole && c.node.balance == h - Height(c.other) && Linked(c.node.nextl, c.other)
  }

  /** The heap has this path, from root to a link that holds `hole`, where a tree of height h belongs. */
  ghost predicate OnPath<V>(root: Node?<V>, c: Path<V>, hole: Node?<V>, h: int)
    reads PathNodes(c)
    decreases c
  {
    if c == Top then root == hole
    else Here(c, hole, h) && OnPath(root, c.up, c.node, Level(c, h))
  }

  lemma {:induction false} PlugNodes<V>(c: Path<V>, s: Shape<V>)
    ensures Nodes(Plug(c, s)) == PathNodes(c) + Nodes(s)
    decreases c
  {
    if c != Top { PlugNodes(c.up, Hung(c, s)); }
  }

  lemma {:induction false} PlugDistinct<V>(c: Path<V>, s: Shape<V>)
    ensures Distinct(Plug(c, s)) <==> PathDistinct(c) && Distinct(s) && PathNodes(c) !! Nodes(s)
    decreases c
  {
    if c != Top { PlugDistinct(c.up, Hung(c, s)); }
  }

  lemma {:induction false} PlugAvl<V>(c: Path<V>, s: Shape<V>)
    requires PathAvl(c, Height(s)) && Avl(s)
    ensures Avl(Plug(c, s))
    decreases c
  {
    if c != Top { PlugAvl(c.up, Hung(c, s)); }
  }

  lemma {:induction false} PlugLinked<V>(root: Node?<V>, c: Path<V>, hole: Node?<V>, s: Shape<V>)
    requires OnPath(root, c, hole, Height(s)) && Linked(hole, s)
    ensures Linked(root, Plug(c, s))
    decreases c
  {
    if c != Top { PlugLinked(root, c.up, c.node, Hung(c, s)); }
  }

  lemma {:induction false} PlugEntries<V>(c: Path<V>, s: Shape<V>)
    ensures Entries(Plug(c, s)) == EntriesBefore(c) + Entries(s) + EntriesAfter(c)
    decreases c
  {
    if c != Top {
      PlugEntries(c.up, Hung(c, s));
      if c.toLeft {
        Regroup(EntriesBefore(c.up), Entries(s), [Item(c.node)], Entries(c.other), EntriesAfter(c.up));
      } else {
        Regroup(EntriesBefore(c.up), Entries(c.other), [Item(c.node)], Entries(s), EntriesAfter(c.up));
      }
    }
  }

  lemma PlugSame<V>(c: Path<V>, s: Shape<V>, t: Shape<V>)
    requires SameContents(s, t)
    ensures SameContents(Plug(c, s), Plug(c, t))
  {
    PlugNodes(c, s);
    PlugNodes(c, t);
    PlugEntries(c, s);
    PlugEntries(c, t);
  }

  ghost function Depth<V>(c: Path<V>): nat {
    if c == Top then 0 else 1 + Depth(c.up)
  }

  lemma {:induction false} PathDepth<V>(c: Path<V>, s: Shape<V>)
    ensures Depth(c) + Height(s) <= Height(Plug(c, s))
    decreases c
  {
    if c != Top { PathDepth(c.up, Hung(c, s)); }
  }

  /** The climb at the link after path c: the tree has the nodes and contents of `goal`. */
  ghost predicate Holds<V>(c: Path<V>, sub: Shape<V>, goal: Shape<V>) {
    Distinct(Plug(c, sub)) && SameContents(Plug(c, sub), goal) && PathNodes(c) + Nodes(sub) == Nodes(goal)
  }

  /** The climb at the link after path c: only the growth of `sub` may still upset the balance. */
  ghost predicate Settled<V>(c: Path<V>, sub: Shape<V>, absorbed: bool) {
    Avl(sub) && (absorbed || Leans(sub)) && PathAvl(c, HoleHeight(sub, absorbed))
  }

  lemma HungApart<V>(c: Path<V>, sub: Shape<V>, goal: Shape<V>)
    requires c != Top && Holds(c, sub, goal)
    ensures Distinct(Hung(c, sub)) && PathNodes(c.up) !! Nodes(Hung(c, sub)) && PathDistinct(c.up)
  {
    PlugDistinct(c.up, Hung(c, sub));
  }

  lemma HoldsUp<V>(c: Path<V>, sub: Shape<V>, goal: Shape<V>, t: Shape<V>)
    requires c != Top && Holds(c, sub, goal) && Distinct(t) && SameContents(t, Hung(c, sub))
    ensures Holds(c.up, t, goal) && PathDistinct(c.up) && PathNodes(c.up) !! Nodes(t)
  {
    PlugSame(c.up, Hung(c, sub), t);
    PlugDistinct(c.up, Hung(c, sub));
    PlugDistinct(c.up, t);
    PlugNodes(c.up, t);
  }

  lemma SettledUp<V>(c: Path<V>, sub: Shape<V>, t: Shape<V>, absorbed: bool)
    requires c != Top && PathAvl(c, HoleHeight(sub, false))
    requires HoleHeight(t, absorbed) == Level(c, Height(sub) - 1)
    ensures PathAvl(c.up, HoleHeight(t, absorbed))
  {
  }

  lemma ClimbDone<V>(root: Node?<V>, c: Path<V>, n: Node<V>, sub: Shape<V>, absorbed: bool, goal: Shape<V>)
    requires Holds(c, sub, goal) && Settled(c, sub, absorbed)
    requires Linked(n, sub) && OnPath(root, c, n, HoleHeight(sub, absorbed))
    requires absorbed || c == Top
    ensures var s := Plug(c, sub); Linked(root, s) && Avl(s) && Distinct(s) && SameContents(s, goal)
  {
    if absorbed {
      PlugLinked(root, c, n, sub);
      PlugAvl(c, sub);
    }
  }

  /** Everything left of the path is smaller than the key, everything right of it larger. */
  ghost predicate Splits<V>(c: Path<V>, key: Name) {
    && (forall e :: e in EntriesBefore(c) ==> Before(e.0, key))
    && (forall e :: e in EntriesAfter(c) ==> Before(key, e.0))
  }

  lemma {:induction false} OnStackPush<V>(stack: seq<Link<V>>, sp: int, c: Path<V>, link: Link<V>)
    requires OnStack(stack, sp, c)
    ensures OnStack(stack + [link], sp, c)
    decreases c
  {
    if c != Top { OnStackPush(stack, sp - 1, c.up, link); }
  }

  lemma {:induction false} StackDepth<V>(stack: seq<Link<V>>, sp: int, c: Path<V>)
    requires OnStack(stack, sp, c)
    ensures sp == Depth(c)
    decreases c
  {
    if c != Top { StackDepth(stack, sp - 1, c.up); }
  }

  lemma SortedParts<V>(l: seq<Entry<V>>, m: Entry<V>, r: seq<Entry<V>>)
    requires Sorted(l + [m] + r)
    ensures Sorted(l) && Sorted(r)
    ensures (forall x :: x in l ==> Before(x.0, m.0)) && (forall x :: x in r ==> Before(m.0, x.0))
  {
    var e := l + [m] + r;
    assert forall i :: 0 <= i < |l| ==> e[i] == l[i];
    assert e[|l|] == m;
    assert forall i :: 0 <= i < |r| ==> e[|l| + 1 + i] == r[i];
  }

  lemma SplitsRight<V>(c: Path<V>, s: Shape<V>, key: Name)
    requires s.At? && Splits(c, key) && forall x :: x in Entries(s.left) ==> Before(x.0, s.node.name)
    ensures Compare(key, s.node.name) == Greater ==> Splits(Step(c, s.node, false, s.left), key)
  {
    var n, l, d := s.node, Entries(s.left), Step(c, s.node, false, s.left);
    assert EntriesBefore(d) == EntriesBefore(c) + (l + [Item(n)]) && EntriesAfter(d) == EntriesAfter(c);
    hide Compare, EntriesBefore, EntriesAfter, Entries;
    CompareSwap(n.name, key);
    if Compare(key, n.name) == Greater {
      forall x | x in l ensures Before(x.0, key) { BeforeTransitive(x.0, n.name, key); }
    }
  }

  lemma SplitsLeft<V>(c: Path<V>, s: Shape<V>, key: Name)
    requires s.At? && Splits(c, key) && forall x :: x in Entries(s.right) ==> Before(s.node.name, x.0)
    ensures Compare(key, s.node.name) == Less ==> Splits(Step(c, s.node, true, s.right), key)
  {
    var n, r, d := s.node, Entries(s.right), Step(c, s.node, true, s.right);
    assert EntriesAfter(d) == ([Item(n)] + r) + EntriesAfter(c) && EntriesBefore(d) == EntriesBefore(c);
    hide Compare, EntriesBefore, EntriesAfter, Entries;
    if Compare(key, n.name) == Less {
      forall x | x in r ensures Before(key, x.0) { BeforeTransitive(key, n.name, x.0); }
    }
  }

  lemma LinkPushed<V>(c: Path<V>, s: Shape<V>, stack: seq<Link<V>>)
    requires s.At? && OnStack(stack, |stack| - 1, c)
    ensures OnStack(stack + [RightOf(s.node)], |stack|, Step(c, s.node, false, s.left))
    ensures OnStack(stack + [LeftOf(s.node)], |stack|, Step(c, s.node, true, s.right))
  {
    OnStackPush(stack, |stack| - 1, c, RightOf(s.node));
    OnStackPush(stack, |stack| - 1, c, LeftOf(s.node));
  }

  /** Going to the side of the key keeps it between what lies left and right of the path. */
  lemma GoDown<V>(c: Path<V>, s: Shape<V>, key: Name, stack: seq<Link<V>>)
    requires s.At? && Splits(c, key) && Sorted(Entries(s)) && OnStack(stack, |stack| - 1, c)
    ensures Sorted(Entries(s.left)) && Sorted(Entries(s.right))
    ensures Compare(key, s.node.name) == Greater ==> Splits(Step(c, s.node, false, s.left), key)
    ensures Compare(key, s.node.name) == Less ==> Splits(Step(c, s.node, true, s.right), key)
    ensures OnStack(stack + [RightOf(s.node)], |stack|, Step(c, s.node, false, s.left))
    ensures OnStack(stack + [LeftOf(s.node)], |stack|, Step(c, s.node, true, s.right))
  {
    SortedParts(Entries(s.left), Item(s.node), Entries(s.right));
    assert Entries(s) == Entries(s.left) + [Item(s.node)] + Entries(s.right);
    hide *;
    SplitsRight(c, s, key);
    SplitsLeft(c, s, key);
    LinkPushed(c, s, stack);
  }

  /** The search stands at the link after path c, which holds p, the tree s of the whole. */
  ghost predicate Reached<V>(root: Node?<V>, c: Path<V>, p: Node?<V>, s: Shape<V>, whole: Shape<V>)
    reads PathNodes(c), Nodes(s)
  {
    && OnPath(root, c, p, Height(s)) && Linked(p, s) && Plug(c, s) == whole
    && PathAvl(c, Height(s)) && Avl(s)
  }

  lemma LinkedIn<V>(p: Node?<V>, s: Shape<V>)
    requires Linked(p, s)
    ensures p == null <==> s == Nil
    ensures p != null ==> s.node == p && p in Nodes(s) && Nodes(s.left) <= Nodes(s) && Nodes(s.right) <= Nodes(s)
  {
  }

  lemma ReachedLinks<V>(root: Node?<V>, c: Path<V>, p: Node<V>, s: Shape<V>, whole: Shape<V>)
    requires Reached(root, c, p, s, whole)
    ensures s.At? && s.node == p
    ensures (p.nextl != null ==> p.nextl in Nodes(whole)) && (p.nextr != null ==> p.nextr in Nodes(whole))
  {
    PlugNodes(c, s);
    LinkedIn(p, s);
    LinkedIn(p.nextl, s.left);
    LinkedIn(p.nextr, s.right);
  }

  lemma ReachedIs<V>(root: Node?<V>, c: Path<V>, p: Node?<V>, s: Shape<V>, whole: Shape<V>)
    ensures Reached(root, c, p, s, whole) <==>
      && OnPath(root, c, p, Height(s)) && Linked(p, s) && Plug(c, s) == whole
      && PathAvl(c, Height(s)) && Avl(s)
  {
  }

  lemma ReachedStep<V>(root: Node?<V>, c: Path<V>, p: Node<V>, s: Shape<V>, whole: Shape<V>, toLeft: bool)
    requires Reached(root, c, p, s, whole) && s.At? && s.node == p
    ensures if toLeft then Reached(root, Step(c, p, true, s.right), p.nextl, s.left, whole)
            else Reached(root, Step(c, p, false, s.left), p.nextr, s.right, whole)
  {
    var d := if toLeft then Step(c, p, true, s.right) else Step(c, p, false, s.left);
    var child, sub := if toLeft then p.nextl else p.nextr, if toLeft then s.left else s.right;
    ReachedIs(root, c, p, s, whole);
    assert Hung(d, sub) == s && Plug(d, sub) == Plug(c, s) && Level(d, Height(sub)) == Height(s);
    assert Here(d, child, Height(sub)) && Linked(child, sub);
    assert Avl(sub) && PathAvl(d, Height(sub));
    hide *;
    OnPathIs(root, d, child, Height(sub));
    ReachedIs(root, d, child, sub, whole);
  }

  lemma ReachedDown<V>(root: Node?<V>, c: Path<V>, p: Node<V>, s: Shape<V>, whole: Shape<V>)
    requires Reached(root, c, p, s, whole)
    ensures s.At? && s.node == p
    ensures Reached(root, Step(c, p, false, s.left), p.nextr, s.right, whole)
    ensures Reached(root, Step(c, p, true, s.right), p.nextl, s.left, whole)
    ensures (p.nextl != null ==> p.nextl in Nodes(whole)) && (p.nextr != null ==> p.nextr in Nodes(whole))
  {
    hide *;
    ReachedLinks(root, c, p, s, whole);
    ReachedStep(root, c, p, s, whole, false);
    ReachedStep(root, c, p, s, whole, true);
  }

  /** All that the search loop maintains. */
  ghost predicate Searching<V>(root: Node?<V>, c: Path<V>, p: Node?<V>, s: Shape<V>, whole: Shape<V>,
                               key: Name, stack: seq<Link<V>>)
    reads PathNodes(c), Nodes(s)
  {
    && Reached(root, c, p, s, whole) && OnStack(stack, |stack| - 1, c)
    && Splits(c, key) && Sorted(Entries(s)) && (p != null ==> p in Nodes(whole))
  }

  lemma SearchFromTop<V>(root: Node?<V>, whole: Shape<V>, key: Name)
    requires Linked(root, whole) && Avl(whole) && Sorted(Entries(whole))
    ensures Searching(root, Top, root, whole, whole, key, [Head])
  {
  }

  /** Where the search ends, and how far it went. */
  lemma SearchEnds<V>(root: Node?<V>, c: Path<V>, p: Node?<V>, s: Shape<V>, whole: Shape<V>,
                      key: Name, stack: seq<Link<V>>)
    requires Searching(root, c, p, s, whole, key, stack)
    ensures |stack| <= Height(whole) + 1
  {
    PathDepth(c, s);
    StackDepth(stack, |stack| - 1, c);
  }

  lemma SearchRight<V>(root: Node?<V>, c: Path<V>, p: Node<V>, s: Shape<V>, whole: Shape<V>,
                       key: Name, stack: seq<Link<V>>)
    requires Searching(root, c, p, s, whole, key, stack) && Compare(key, p.name) == Greater
    ensures s.At?
    ensures Searching(root, Step(c, p, false, s.left), p.nextr, s.right, whole, key, stack + [RightOf(p)])
  {
    hide Reached, OnStack, Splits, Sorted, Entries;
    ReachedDown(root, c, p, s, whole);
    GoDown(c, s, key, stack);
  }

  lemma SearchLeft<V>(root: Node?<V>, c: Path<V>, p: Node<V>, s: Shape<V>, whole: Shape<V>,
                      key: Name, stack: seq<Link<V>>)
    requires Searching(root, c, p, s, whole, key, stack) && Compare(key, p.name) == Less
    ensures s.At?
    ensures Searching(root, Step(c, p, true, s.right), p.nextl, s.left, whole, key, stack + [LeftOf(p)])
  {
    hide Reached, OnStack, Splits, Sorted, Entries;
    ReachedDown(root, c, p, s, whole);
    GoDown(c, s, key, stack);
  }

  lemma SortedWith<V>(a: seq<Entry<V>>, x: Entry<V>, b: seq<Entry<V>>)
    requires Sorted(a + b)
    requires (forall e :: e in a ==> Before(e.0, x.0)) && (forall e :: e in b ==> Before(x.0, e.0))
    ensures Sorted(a + [x] + b)
  {
    var e := a + [x] + b;
    forall i, j | 0 <= i < j < |e| ensures Before(e[i].0, e[j].0) {
      if i < |a| && j > |a| {
        assert (a + b)[i] == e[i] && (a + b)[j - 1] == e[j];
      } else if i > |a| {
        assert (a + b)[i - 1] == e[i] && (a + b)[j - 1] == e[j];
      } else if j < |a| {
        assert (a + b)[i] == e[i] && (a + b)[j] == e[j];
      } else if i == |a| {
        assert e[j] == b[j - |a| - 1];
      } else {
        assert e[i] == a[i];
      }
    }
  }

  lemma AddedEntry<V>(a: seq<Entry<V>>, key: Name, value: V, b: seq<Entry<V>>)
    requires (forall e :: e in a ==> Before(e.0, key)) && (forall e :: e in b ==> Before(key, e.0))
    ensures key !in MapOf(a + b) && MapOf(a + [(key, value)] + b) == MapOf(a + b)[key := value]
  {
    CompareEqual(key, key);
    MapOfMiddle(a, (key, value), b);
    MapOfKeys(a + b, key);
  }

  /** What a new node at the end of the path makes of the whole tree. */
  lemma AddedNode<V>(whole: Shape<V>, c: Path<V>, key: Name, node: Node<V>)
    requires Plug(c, Nil) == whole && Sorted(Entries(whole)) && Splits(c, key) && node.name == key
    ensures var goal := Plug(c, At(Nil, node, Nil));
      && Sorted(Entries(goal)) && MapOf(Entries(goal)) == MapOf(Entries(whole))[key := node.value]
    ensures key !in MapOf(Entries(whole))
  {
    hide Sorted, MapOf, Plug, EntriesBefore, EntriesAfter;
    var a, b := EntriesBefore(c), EntriesAfter(c);
    PlugEntries(c, Nil);
    PlugEntries(c, At(Nil, node, Nil));
    assert Entries(At(Nil, node, Nil)) == [Item(node)];
    assert a + [] + b == a + b;
    AddedEntry(a, key, node.value, b);
    SortedWith(a, Item(node), b);
  }

  lemma AddedDistinct<V>(whole: Shape<V>, c: Path<V>, node: Node<V>)
    requires Plug(c, Nil) == whole && Distinct(whole)
    ensures PathDistinct(c) && PathNodes(c) == Nodes(whole)
    ensures Nodes(Plug(c, At(Nil, node, Nil))) == Nodes(whole) + {node}
  {
    PlugDistinct(c, Nil);
    PlugNodes(c, Nil);
    PlugNodes(c, At(Nil, node, Nil));
  }

  /** The tree s with another node at its root. */
  ghost function Headed<V>(s: Shape<V>, node: Node<V>): Shape<V>
    requires s.At?
  {
    At(s.left, node, s.right)
  }

  /** What a node with a new value makes of the whole tree. */
  lemma ChangedNode<V>(whole: Shape<V>, c: Path<V>, s: Shape<V>, key: Name, node: Node<V>)
    requires s.At? && Plug(c, s) == whole && Sorted(Entries(whole)) && Splits(c, key) && Sorted(Entries(s))
    requires s.node.name == key == node.name
    ensures var goal := Plug(c, Headed(s, node));
      && Sorted(Entries(goal)) && MapOf(Entries(goal)) == MapOf(Entries(whole))[key := node.value]
    ensures key in MapOf(Entries(whole)) && MapOf(Entries(whole))[key] == s.node.value
  {
    var a, b, l, r := EntriesBefore(c), EntriesAfter(c), Entries(s.left), Entries(s.right);
    PlugEntries(c, s);
    PlugEntries(c, Headed(s, node));
    Regroup(a, l, [Item(s.node)], r, b);
    Regroup(a, l, [Item(node)], r, b);
    ChangedEntry(a + l, Item(s.node), Item(node), r + b);
  }

  lemma ChangedShape<V>(s: Shape<V>, node: Node<V>)
    requires s.At? && Avl(s)
    ensures Avl(Headed(s, node)) && Height(Headed(s, node)) == Height(s)
  {
  }

  lemma ChangedEntry<V>(a: seq<Entry<V>>, x: Entry<V>, y: Entry<V>, b: seq<Entry<V>>)
    requires Sorted(a + [x] + b) && x.0 == y.0
    ensures Sorted(a + [y] + b)
    ensures MapOf(a + [y] + b) == MapOf(a + [x] + b)[x.0 := y.1]
    ensures x.0 in MapOf(a + [x] + b) && MapOf(a + [x] + b)[x.0] == x.1
  {
    var e, f := a + [x] + b, a + [y] + b;
    assert e[|a|] == x;
    forall k | 0 <= k < |b| ensures b[k].0 != x.0 {
      assert e[|a| + 1 + k] == b[k];
      CompareEqual(x.0, b[k].0);
    }
    MapOfMiddle(a, x, b);
    MapOfMiddle(a, y, b);
    forall i, j | 0 <= i < j < |f| ensures Before(f[i].0, f[j].0) {
      assert e[i].0 == f[i].0 && e[j].0 == f[j].0;
    }
  }

  lemma ChangedDistinct<V>(whole: Shape<V>, c: Path<V>, s: Shape<V>, node: Node<V>)
    requires s.At? && Plug(c, s) == whole && Distinct(whole) && node !in Nodes(whole)
    ensures PathDistinct(c) && PathNodes(c) !! Nodes(Headed(s, node)) && Distinct(Headed(s, node))
    ensures PathNodes(c) <= Nodes(whole) && Nodes(s) <= Nodes(whole)
    ensures Nodes(Plug(c, Headed(s, node))) <= Nodes(whole) + {node}
  {
    PlugDistinct(c, s);
    PlugNodes(c, s);
    PlugNodes(c, Headed(s, node));
  }

  /** Another node with the links of p. */
  method Moved<V>(p: Node<V>, value: V, ghost home: Home, ghost s: Shape<V>) returns (node: Node<V>)
    requires Linked(p, s)
    ensures fresh(node) && node.name == p.name && node.value == value && node.home == home
    ensures Linked(node, Headed(s, node))
  {
    assert allocated(Nodes(s));
    node := new Node(p.name, value, home);
    node.nextl := p.nextl;
    node.nextr := p.nextr;
    node.balance := p.balance;
  }

  /** The end of a path whose link holds something, apart from the tree t. */
  lemma LastStep<V>(root: Node?<V>, c: Path<V>, hole: Node?<V>, h: int, t: Shape<V>)
    requires OnPath(root, c, hole, h) && PathDistinct(c) && PathNodes(c) !! Nodes(t) && c != Top
    ensures Here(c, hole, h) && OnPath(root, c.up, c.node, Level(c, h)) && c.node in PathNodes(c)
    ensures c.node !in PathNodes(c.up) && c.node !in Nodes(c.other) && c.node !in Nodes(t)
    ensures PathNodes(c.up) <= PathNodes(c) && Nodes(c.other) <= PathNodes(c)
    ensures LinkOf(c) == if c.toLeft then LeftOf(c.node) else RightOf(c.node)
  {
  }

  lemma HereIs<V>(c: Path<V>, hole: Node?<V>, h: int)
    requires c != Top
    ensures Here(c, hole, h) <==>
      && (if c.toLeft then c.node.nextl else c.node.nextr) == hole
      && (c.node.balance == if c.toLeft then Height(c.other) - h else h - Height(c.other))
      && Linked(if c.toLeft then c.node.nextr else c.node.nextl, c.other)
  {
  }

  lemma OnPathIs<V>(root: Node?<V>, c: Path<V>, hole: Node?<V>, h: int)
    ensures c == Top ==> (OnPath(root, c, hole, h) <==> root == hole)
    ensures LinkOf(c) == Head <==> c == Top
    ensures c != Top && Here(c, hole, h) && OnPath(root, c.up, c.node, Level(c, h)) ==> OnPath(root, c, hole, h)
  {
  }

  /** One level below a path's end: the parent is apart from the rest of the path. */
  lemma ClimbFrom<V>(root: Node?<V>, c: Path<V>, n: Node<V>, sub: Shape<V>)
    requires c != Top && OnPath(root, c, n, Height(sub) - 1) && PathNodes(c.up) !! Nodes(Hung(c, sub))
    ensures Here(c, n, Height(sub) - 1) && OnPath(root, c.up, c.node, Level(c, Height(sub) - 1))
    ensures {c.node} + Nodes(sub) + Nodes(c.other) == Nodes(Hung(c, sub))
    ensures c.node in PathNodes(c) && PathNodes(c.up) <= PathNodes(c)
    ensures c.up != Top ==> c.up.node in PathNodes(c.up)
    ensures Holding(root, c.up) == c.node && c.node !in PathNodes(c.up) && PathNodes(c.up) !! Nodes(sub)
  {
  }

  /** What the link after the path holds. */
  ghost function Holding<V>(root: Node?<V>, c: Path<V>): Node?<V>
    reads if c == Top then {} else {c.node}
  {
    if c == Top then root else if c.toLeft then c.node.nextl else c.node.nextr
  }

  lemma ClimbToFrom<V>(root: Node?<V>, c: Path<V>, n: Node<V>, sub: Shape<V>, goal: Shape<V>)
    requires c != Top && Climbing(root, c, n, sub, false, goal)
    ensures Distinct(Hung(c, sub)) && PathNodes(c.up) !! Nodes(Hung(c, sub)) && PathDistinct(c.up)
    ensures Avl(sub) && Leans(sub) && PathAvl(c, Height(sub) - 1) && OnPath(root, c, n, Height(sub) - 1)
    ensures HoleHeight(sub, false) == Height(sub) - 1
  {
    HungApart(c, sub, goal);
  }

  lemma RegrownIs<V>(grown: Shape<V>, h: int, t: Shape<V>, absorbed: bool)
    requires Regrown(grown, h, t, absorbed)
    ensures Distinct(t) && SameContents(t, grown) && Avl(t) && (absorbed || Leans(t)) && HoleHeight(t, absorbed) == h
  {
  }

  lemma SettledIs<V>(c: Path<V>, sub: Shape<V>, absorbed: bool)
    requires Avl(sub) && (absorbed || Leans(sub)) && PathAvl(c, HoleHeight(sub, absorbed))
    ensures Settled(c, sub, absorbed)
  {
  }

  lemma RegrownNodes<V>(grown: Shape<V>, h: int, t: Shape<V>, absorbed: bool)
    requires Regrown(grown, h, t, absorbed)
    ensures Nodes(t) == Nodes(grown)
  {
  }

  /** The state of the loop that climbs back up. */
  ghost predicate Climbing<V>(root: Node?<V>, c: Path<V>, n: Node<V>, sub: Shape<V>, absorbed: bool, goal: Shape<V>)
    reads PathNodes(c), Nodes(sub)
  {
    && Holds(c, sub, goal) && Settled(c, sub, absorbed)
    && Linked(n, sub) && OnPath(root, c, n, HoleHeight(sub, absorbed))
  }

  lemma ClimbingIs<V>(root: Node?<V>, c: Path<V>, n: Node<V>, sub: Shape<V>, absorbed: bool, goal: Shape<V>)
    ensures Climbing(root, c, n, sub, absorbed, goal) <==>
      && Holds(c, sub, goal) && Settled(c, sub, absorbed)
      && Linked(n, sub) && OnPath(root, c, n, HoleHeight(sub, absorbed))
    ensures Holds(c, sub, goal) ==> PathNodes(c) <= Nodes(goal) && Nodes(sub) <= Nodes(goal)
  {
  }

  lemma OnStackIs<V>(stack: seq<Link<V>>, sp: int, c: Path<V>)
    requires OnStack(stack, sp, c)
    ensures 0 <= sp < |stack| && stack[sp] == LinkOf(c) && (sp == 0 <==> c == Top)
    ensures sp > 0 ==> OnStack(stack, sp - 1, c.up) && stack[sp - 1] == LinkOf(c.up)
  {
    if sp > 0 {
      assert OnStack(stack, sp - 1, c.up);
    }
  }

  /** A new leaf in the empty link at the end of a path. */
  lemma LeafFits<V>(c: Path<V>, node: Node<V>)
    requires PathAvl(c, 0) && PathDistinct(c) && node !in PathNodes(c)
    ensures var leaf := At(Nil, node, Nil);
      && PathNodes(c) !! Nodes(leaf) && Nodes(leaf) == {node} && Nodes(Plug(c, leaf)) == PathNodes(c) + {node}
      && Holds(c, leaf, Plug(c, leaf)) && Settled(c, leaf, false) && HoleHeight(leaf, false) == 0
  {
    PlugDistinct(c, At(Nil, node, Nil));
    PlugNodes(c, At(Nil, node, Nil));
  }

  lemma LeafLinked<V>(node: Node<V>)
    requires node.nextl == null && node.nextr == null && node.balance == 0
    ensures Linked(node, At(Nil, node, Nil))
  {
  }

  /** Another tree in the place of the one at the end of a path. */
  lemma Fits<V>(c: Path<V>, t: Shape<V>)
    requires PathDistinct(c) && PathNodes(c) !! Nodes(t) && Distinct(t) && Avl(t) && PathAvl(c, Height(t))
    ensures Holds(c, t, Plug(c, t)) && Settled(c, t, true) && HoleHeight(t, true) == Height(t)
  {
    PlugDistinct(c, t);
    PlugNodes(c, t);
  }

  /** The root link of a tree (`parent->files`, `dir->subdirs`), with the operations through it. */
  class Tree<V> {
    var root: Node?<V>
    ghost var shape: Shape<V>
    ghost const home: Home

    constructor (ghost home: Home)
      ensures Valid() && shape == Nil && this.home == home
    {
      root, shape := null, Nil;
      this.home := home;
    }

    ghost predicate Valid()
      reads this, Nodes(shape)
    {
      && Linked(root, shape) && Distinct(shape) && Avl(shape) && Sorted(Entries(shape))
      && forall n :: n in Nodes(shape) ==> n.home == home
    }

    function Load(link: Link<V>): (p: Node?<V>)
      reads this, if link.Head? then {} else {link.node}
    {
      match link
      case Head => root
      case LeftOf(n) => n.nextl
      case RightOf(n) => n.nextr
    }

    /** The link is in the last node of the path. */
    method StoreAt(link: Link<V>, p: Node?<V>, ghost t: Shape<V>, ghost c: Path<V>, ghost hole: Node?<V>, ghost h: int)
      requires c != Top && Here(c, hole, h) && OnPath(root, c.up, c.node, Level(c, h)) && Linked(p, t)
      requires c.node !in PathNodes(c.up) && c.node !in Nodes(c.other) && c.node !in Nodes(t)
      requires link == if c.toLeft then LeftOf(c.node) else RightOf(c.node)
      modifies c.node`nextl, c.node`nextr
      ensures Here(c, p, h) && OnPath(root, c.up, c.node, Level(c, h)) && Linked(p, t)
    {
      assert allocated(PathNodes(c.up)) && allocated(Nodes(c.other)) && allocated(Nodes(t));
      hide *;
      HereIs(c, hole, h);
      if link.LeftOf? {
        link.node.nextl := p;
      } else {
        link.node.nextr := p;
      }
      HereIs(c, p, h);
    }

    /** Writes p, which heads the tree t, through a link. */
    method Store(link: Link<V>, p: Node?<V>, ghost t: Shape<V>, ghost c: Path<V>, ghost hole: Node?<V>, ghost h: int)
      requires OnPath(root, c, hole, h) && PathDistinct(c) && link == LinkOf(c)
      requires Linked(p, t) && PathNodes(c) !! Nodes(t)
      modifies this`root, PathNodes(c)
      ensures OnPath(root, c, p, h) && Linked(p, t)
    {
      assert allocated(PathNodes(c)) && allocated(Nodes(t));
      hide *;
      OnPathIs(root, c, hole, h);
      if link.Head? {
        root := p;
        assert Linked(p, t);
        OnPathIs(root, c, p, h);
      } else {
        LastStep(root, c, hole, h, t);
        StoreAt(link, p, t, c, hole, h);
        OnPathIs(root, c, p, h);
      }
    }

    /** Rebalances the tree one level up from a link whose tree has grown by one, to `sub`. */
    method Raise(p: Node<V>, n: Node<V>, ghost c: Path<V>, ghost sub: Shape<V>)
      returns (top: Node<V>, absorbed: bool, ghost t: Shape<V>)
      requires c != Top && p == c.node && Avl(sub) && Leans(sub) && Distinct(Hung(c, sub))
      requires PathAvl(c, Height(sub) - 1) && Here(c, n, Height(sub) - 1) && Linked(n, sub)
      requires OnPath(root, c.up, p, Level(c, Height(sub) - 1)) && PathNodes(c.up) !! {p} + Nodes(sub)
      modifies p, Nodes(sub)
      ensures OnPath(root, c.up, p, Level(c, Height(sub) - 1))
      ensures Linked(top, t) && Regrown(Hung(c, sub), Level(c, Height(sub) - 1), t, absorbed) && root == old(root)
    {
      ghost var above, level := PathNodes(c.up), Level(c, Height(sub) - 1);
      assert allocated(above);
      if p.nextl == n {
        assert c.toLeft;
        top, absorbed, t := GrownLeft(p, n, sub, c.other);
      } else {
        assert !c.toLeft;
        top, absorbed, t := GrownRight(p, n, c.other, sub);
      }
      hide *;
      assert unchanged(above);
    }

    /** One turn of the loop that climbs back up. */
    method Climb(link: Link<V>, n: Node<V>, ghost c: Path<V>, ghost sub: Shape<V>)
      returns (top: Node<V>, absorbed: bool, ghost t: Shape<V>)
      requires c != Top && link == LinkOf(c.up) && Avl(sub) && Leans(sub) && PathAvl(c, Height(sub) - 1)
      requires Distinct(Hung(c, sub)) && PathNodes(c.up) !! Nodes(Hung(c, sub)) && PathDistinct(c.up)
      requires OnPath(root, c, n, Height(sub) - 1) && Linked(n, sub)
      modifies this`root, PathNodes(c), Nodes(sub)
      ensures Regrown(Hung(c, sub), Level(c, Height(sub) - 1), t, absorbed)
      ensures Linked(top, t) && OnPath(root, c.up, top, Level(c, Height(sub) - 1))
    {
      ghost var above, level := PathNodes(c.up), Level(c, Height(sub) - 1);
      assert allocated(above);
      hide *;
      ClimbFrom(root, c, n, sub);
      var p := Load(link);
      top, absorbed, t := Raise(p, n, c, sub);
      RegrownNodes(Hung(c, sub), level, t, absorbed);
      Store(link, top, t, c.up, p, level);
    }

    method ClimbTo(link: Link<V>, n: Node<V>, ghost c: Path<V>, ghost sub: Shape<V>, ghost goal: Shape<V>)
      returns (top: Node<V>, absorbed: bool, ghost t: Shape<V>)
      requires c != Top && link == LinkOf(c.up)
      requires Climbing(root, c, n, sub, false, goal)
      modifies this`root, PathNodes(c), Nodes(sub)
      ensures Climbing(root, c.up, top, t, absorbed, goal)
    {
      hide *;
      ClimbingIs(root, c, n, sub, false, goal);
      ClimbToFrom(root, c, n, sub, goal);
      top, absorbed, t := Climb(link, n, c, sub);
      RegrownIs(Hung(c, sub), Level(c, Height(sub) - 1), t, absorbed);
      HoldsUp(c, sub, goal, t);
      SettledUp(c, sub, t, absorbed);
      SettledIs(c.up, t, absorbed);
      ClimbingIs(root, c.up, top, t, absorbed, goal);
    }

    /** The tree has taken another shape. */
    ghost method Reshape(s: Shape<V>)
      requires Linked(root, s)
      modifies `shape
      ensures Linked(root, shape) && shape == s && root == old(root)
    {
      hide *;
      assert allocated(Nodes(s));
      shape := s;
    }

    /** The loop back up the stack of links. */
    method Rebalance(node: Node<V>, stack: seq<Link<V>>, ghost c: Path<V>, ghost leaf: Shape<V>, ghost goal: Shape<V>)
      requires OnStack(stack, |stack| - 1, c)
      requires Climbing(root, c, node, leaf, false, goal)
      modifies this, Nodes(goal)
      ensures Linked(root, shape) && Avl(shape) && Distinct(shape) && SameContents(shape, goal)
    {
      hide *;
      ghost var up, sub := c, leaf;
      var sp, n, absorbed := |stack| - 1, node, false;
      OnStackIs(stack, sp, up);
      ghost var nodes := Nodes(goal);
      while sp > 0 && !absorbed
        invariant OnStack(stack, sp, up) && Climbing(root, up, n, sub, absorbed, goal)
      {
        OnStackIs(stack, sp, up);
        ClimbingIs(root, up, n, sub, absorbed, goal);
        sp := sp - 1;
        n, absorbed, sub := ClimbTo(stack[sp], n, up, sub, goal);
        up := up.up;
      }
      OnStackIs(stack, sp, up);
      ClimbingIs(root, up, n, sub, absorbed, goal);
      ClimbDone(root, up, n, sub, absorbed, goal);
      Reshape(Plug(up, sub));
    }

    /** Hangs a new node into the empty link at the end of the path and rebalances. */
    method Insert(node: Node<V>, stack: seq<Link<V>>, ghost c: Path<V>)
      requires OnStack(stack, |stack| - 1, c)
      requires OnPath(root, c, null, 0) && PathAvl(c, 0) && PathDistinct(c) && node !in PathNodes(c)
      requires node.nextl == null && node.nextr == null && node.balance == 0
      modifies this, PathNodes(c), node
      ensures Linked(root, shape) && Avl(shape) && Distinct(shape)
      ensures SameContents(shape, Plug(c, At(Nil, node, Nil)))
    {
      ghost var leaf := At(Nil, node, Nil);
      hide *;
      LeafFits(c, node);
      LeafLinked(node);
      OnStackIs(stack, |stack| - 1, c);
      Store(stack[|stack| - 1], node, leaf, c, null, 0);
      ClimbingIs(root, c, node, leaf, false, Plug(c, leaf));
      Rebalance(node, stack, c, leaf, Plug(c, leaf));
    }

    /** Puts a tree of the same height in the place of the one at the end of the path. */
    method Replace(node: Node<V>, link: Link<V>, ghost c: Path<V>, ghost t: Shape<V>, ghost hole: Node?<V>)
      requires link == LinkOf(c) && OnPath(root, c, hole, Height(t)) && Linked(node, t)
      requires PathDistinct(c) && PathNodes(c) !! Nodes(t) && Distinct(t) && Avl(t) && PathAvl(c, Height(t))
      modifies this, PathNodes(c)
      ensures Linked(root, shape) && Avl(shape) && Distinct(shape) && shape == Plug(c, t)
    {
      hide *;
      Fits(c, t);
      Store(link, node, t, c, hole, Height(t));
      ClimbDone(root, c, node, t, true, Plug(c, t));
      Reshape(Plug(c, t));
    }

    /**
     The search loop: from the root down to the key, or to the empty link where
     it belongs.  The stack of links gets no longer than the tree is high, plus one.
     */
    method Descend(key: Name, order: Name -> Ordering)
      returns (p: Node?<V>, stack: seq<Link<V>>, ghost c: Path<V>, ghost s: Shape<V>)
      requires Valid()
      requires forall n :: n in Nodes(shape) ==> order(n.name) == Compare(key, n.name)
      ensures Searching(root, c, p, s, shape, key, stack)
      ensures |stack| <= Height(shape) + 1 && (p != null ==> p.name == key)
    {
      p, stack, c, s := root, [Head], Top, shape;
      hide Reached, OnStack, Splits, Sorted, Entries;
      SearchFromTop(root, shape, key);
      while p != null && order(p.name) != Equal
        invariant Searching(root, c, p, s, shape, key, stack)
        decreases s
      {
        if order(p.name) == Greater {
          SearchRight(root, c, p, s, shape, key, stack);
          stack := stack + [RightOf(p)];
          c, s := Step(c, p, false, s.left), s.right;
          p := p.nextr;
        } else {
          SearchLeft(root, c, p, s, shape, key, stack);
          stack := stack + [LeftOf(p)];
          c, s := Step(c, p, true, s.right), s.left;
          p := p.nextl;
        }
      }
      if p != null {
        CompareEqual(key, p.name);
      }
      SearchEnds(root, c, p, s, shape, key, stack);
    }

    ghost function Contents(): map<Name, V>
      reads this
    {
      MapOf(Entries(shape))
    }

    /** Adds a key that the search did not find. */
    method Add(key: Name, value: V, stack: seq<Link<V>>, ghost c: Path<V>)
      requires Valid() && Searching(root, c, null, Nil, shape, key, stack)
      modifies this, Nodes(shape)
      ensures Valid() && forall n :: n in Nodes(shape) ==> n in old(Nodes(shape)) || fresh(n)
      ensures key !in old(Contents()) && Contents() == old(Contents())[key := value]
    {
      PlugNodes(c, Nil);
      assert allocated(Nodes(shape)) && allocated(PathNodes(c));
      var node := new Node(key, value, home);
      AddedNode(shape, c, key, node);
      AddedDistinct(shape, c, node);
      Insert(node, stack, c);
    }

    lemma ChangeFrom(p: Node<V>, stack: seq<Link<V>>, c: Path<V>, s: Shape<V>)
      requires Valid() && Searching(root, c, p, s, shape, p.name, stack)
      ensures s.At? && s.node == p && Linked(p, s) && Avl(s) && Plug(c, s) == shape && Distinct(shape)
      ensures stack != [] && stack[|stack| - 1] == LinkOf(c)
      ensures OnPath(root, c, p, Height(s)) && PathAvl(c, Height(s)) && Splits(c, p.name)
      ensures Sorted(Entries(s)) && Sorted(Entries(shape)) && Contents() == MapOf(Entries(shape))
      ensures forall n :: n in Nodes(shape) ==> n.home == home
    {
      hide Splits, Sorted, Entries, PathAvl, Distinct, Plug, OnPath;
    }

    lemma Whole(nodes: set<Node<V>>)
      requires Linked(root, shape) && Distinct(shape) && Avl(shape) && Sorted(Entries(shape))
      requires Nodes(shape) <= nodes && forall n :: n in nodes ==> n.home == home
      ensures Valid() && Contents() == MapOf(Entries(shape))
    {
    }

    /** Gives a key that the search has found another value: the node moves, as by `realloc`. */
    method Change(p: Node<V>, value: V, stack: seq<Link<V>>, ghost c: Path<V>, ghost s: Shape<V>)
      requires Valid() && Searching(root, c, p, s, shape, p.name, stack)
      modifies this, Nodes(shape)
      ensures Valid() && forall n :: n in Nodes(shape) ==> n in old(Nodes(shape)) || fresh(n)
      ensures p.name in old(Contents()) && old(Contents())[p.name] == p.value
      ensures Contents() == old(Contents())[p.name := value]
    {
      ghost var whole, all, path := shape, Nodes(shape), PathNodes(c);
      assert allocated(all) && allocated(path) && allocated(Nodes(s));
      hide *;
      ChangeFrom(p, stack, c, s);
      var node := Moved(p, value, home, s);
      ghost var t := Headed(s, node);
      ChangedDistinct(whole, c, s, node);
      ChangedNode(whole, c, s, p.name, node);
      ChangedShape(s, node);
      Replace(node, stack[|stack| - 1], c, t, p);
      Whole(all + {node});
    }
  }
}
