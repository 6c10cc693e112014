/** Why a stack of 128 links is enough for the searches in filelist.c. */
module StackBound {
  import opened AvlTree

  const STACK_SIZE := 128

  /** Two to the 64: more nodes than a process can have addresses for. */
  const ADDRESSES := 0x1_0000_0000_0000_0000

  function Fib(n: nat): nat { if n < 2 then n else Fib(n - 2) + Fib(n - 1) }

  function Pow2(n: nat): nat { if n == 0 then 1 else 2 * Pow2(n - 1) }

  lemma {:induction false} FibMonotone(m: nat, n: nat)
    requires m <= n
    ensures Fib(m) <= Fib(n)
    decreases n - m
  {
    if m < n { FibMonotone(m + 1, n); }
  }

  lemma {:induction false} FibDoubles(k: nat)
    requires k >= 2
    ensures Fib(2 * k + 2) > Pow2(k)
  {
    FibMonotone(2 * k, 2 * k + 1);
    if k > 2 {
      FibDoubles(k - 1);
    } else {
      assert Fib(2) == 1 && Fib(3) == 2 && Fib(4) == 3 && Fib(5) == 5;
    }
  }

  lemma FibSides(l: nat, r: nat)
    ensures -1 <= l - r <= 1 ==> Fib(l + 2) + Fib(r + 2) >= Fib(1 + Max(l, r) + 2)
  {
    if -1 <= l - r <= 1 {
      var h := 1 + Max(l, r);
      assert Fib(h + 2) == Fib(h) + Fib(h + 1);
      hide Fib;
      FibMonotone(h, if l < r then l + 2 else r + 2);
    }
  }

  /** A balanced tree of height h has at least Fib(h + 2) - 1 nodes. */
  lemma {:induction false} AvlSize<V>(s: Shape<V>)
    requires Avl(s)
    ensures Size(s) + 1 >= Fib(Height(s) + 2)
  {
    if s.At? {
      AvlSize(s.left);
      AvlSize(s.right);
      FibSides(Height(s.left), Height(s.right));
      assert Height(s) == 1 + Max(Height(s.left), Height(s.right)) && Size(s) == Size(s.left) + 1 + Size(s.right);
      assert -1 <= Height(s.left) - Height(s.right) <= 1;
      hide *;
    } else {
      assert Fib(2) == 1;
    }
  }

  /** Distinct nodes: the size counts addresses. */
  lemma {:induction false} SizeIsCount<V>(s: Shape<V>)
    requires Distinct(s)
    ensures Size(s) == |Nodes(s)|
  {
    if s.At? {
      SizeIsCount(s.left);
      SizeIsCount(s.right);
      assert |Nodes(s.left) + {s.node}| == |Nodes(s.left)| + 1;
      assert |Nodes(s)| == |Nodes(s.left) + {s.node}| + |Nodes(s.right)|;
    }
  }

  lemma Twice(m: int, n: int)
    ensures 2 * m * n == 2 * (m * n)
  {
  }

  lemma {:induction false} Pow2Sum(a: nat, b: nat)
    ensures Pow2(a + b) == Pow2(a) * Pow2(b)
  {
    if a > 0 {
      Pow2Sum(a - 1, b);
      assert Pow2(a + b) == 2 * Pow2(a - 1 + b) && Pow2(a) == 2 * Pow2(a - 1);
      hide Pow2;
      Twice(Pow2(a - 1), Pow2(b));
    }
  }

  lemma AddressesIsPow2(k: nat)
    requires k == 64
    ensures Pow2(k) == ADDRESSES
  {
    assert Pow2(1) == 2;
    hide Pow2;
    Pow2Sum(1, 1);
    Pow2Sum(2, 2);
    Pow2Sum(4, 4);
    Pow2Sum(8, 8);
    Pow2Sum(16, 16);
    Pow2Sum(32, 32);
  }

  /** Many more nodes than there are addresses would be needed to fill the stack. */
  lemma FibIsHuge(n: nat)
    requires n == STACK_SIZE + 2
    ensures Fib(n) > ADDRESSES
  {
    FibDoubles(64);
    AddressesIsPow2(64);
  }

  /** The links from the root down to any link are at most `STACK_SIZE`, unless the tree has this many nodes. */
  lemma StackNeeded<V>(s: Shape<V>, n: nat)
    requires Avl(s) && Distinct(s) && n == STACK_SIZE + 2 && |Nodes(s)| + 1 < Fib(n)
    ensures Height(s) + 1 <= STACK_SIZE
  {
    SizeIsCount(s);
    AvlSize(s);
    if n <= Height(s) + 2 {
      FibMonotone(n, Height(s) + 2);
    }
  }

  /** The stack never overflows as long as the nodes have different addresses. */
  lemma StackSuffices<V>(s: Shape<V>)
    requires Avl(s) && Distinct(s) && |Nodes(s)| < 0x1_0000_0000_0000_0000
    ensures Height(s) + 1 <= 128
  {
    FibIsHuge(STACK_SIZE + 2);
    StackNeeded(s, STACK_SIZE + 2);
  }
}
