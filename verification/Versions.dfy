/** Debian version numbers: how dpkgversions.c compares them, and why that is an order. */
module Versions {
  import opened CText

  const TILDE: Code := 126

  predicate IsAlpha(c: Code) { 65 <= c <= 90 || 97 <= c <= 122 }

  /** The weight of a character that is not a digit; a digit counts as the end. */
  function Order(c: Code): int {
    if c == TILDE then -1 else if IsDigit(c) then 0 else if c == 0 then 0 else if IsAlpha(c) then c else c + 256
  }

  /** Different characters have different weights; a tilde sorts before the end, letters before all others. */
  lemma OrderInjective(a: Code, b: Code)
    requires !IsDigit(a) && !IsDigit(b)
    ensures Order(a) == Order(b) <==> a == b
    ensures a != 0 ==> Order(a) != 0
    ensures a != TILDE && a != 0 ==> Order(TILDE) < Order(0) < Order(a)
    ensures IsAlpha(a) && !IsAlpha(b) && b != TILDE && b != 0 ==> Order(a) < Order(b)
  {
  }

  // ----- the key of a version

  function Digit(c: Code): nat
    requires IsDigit(c)
  {
    c - ZERO
  }

  /** The number whose digits go on with those at the start of s. */
  function Number(sofar: nat, s: CString): nat
    decreases |s|
  {
    if s == [] || !IsDigit(s[0]) then sofar else Number(10 * sofar + Digit(s[0]), s[1..])
  }

  function AfterDigits(s: CString): (r: CString)
    ensures |r| <= |s| && (s != [] && IsDigit(s[0]) ==> |r| < |s|)
  {
    if s == [] || !IsDigit(s[0]) then s else AfterDigits(s[1..])
  }

  /** The weights of the characters before the first digit. */
  function Text(s: CString): seq<int> {
    if s == [] || IsDigit(s[0]) then [] else [Order(s[0])] + Text(s[1..])
  }

  function AfterText(s: CString): (r: CString)
    ensures |r| <= |s| && (s != [] && !IsDigit(s[0]) ==> |r| < |s|)
  {
    if s == [] || IsDigit(s[0]) then s else AfterText(s[1..])
  }

  /** The text up to the first digit, ended by a 0, the number after it, and so on. */
  function Key(s: CString): seq<int>
    decreases |s|
  {
    if s == [] then [] else Text(s) + [0, Number(0, AfterText(s))] + Key(AfterDigits(AfterText(s)))
  }

  function Sign(x: int): int { if x < 0 then -1 else if x > 0 then 1 else 0 }

  function Head(a: seq<int>): int { if a == [] then 0 else a[0] }
  function Tail(a: seq<int>): seq<int> { if a == [] then [] else a[1..] }

  /** Lexicographic order of keys, as if they went on with zeros for ever. */
  function KeyOrder(a: seq<int>, b: seq<int>): int
    decreases |a| + |b|
  {
    if a == [] && b == [] then 0
    else if Head(a) != Head(b) then Sign(Head(a) - Head(b))
    else KeyOrder(Tail(a), Tail(b))
  }

  // ----- a total preorder

  lemma {:induction false} KeyOrderReflexive(a: seq<int>)
    ensures KeyOrder(a, a) == 0
    decreases |a|
  {
    if a != [] { KeyOrderReflexive(a[1..]); }
  }

  lemma {:induction false} KeyOrderSwap(a: seq<int>, b: seq<int>)
    ensures KeyOrder(b, a) == -KeyOrder(a, b)
    decreases |a| + |b|
  {
    if (a != [] || b != []) && Head(a) == Head(b) { KeyOrderSwap(Tail(a), Tail(b)); }
  }

  lemma {:induction false} KeyOrderTransitive(a: seq<int>, b: seq<int>, c: seq<int>)
    requires KeyOrder(a, b) <= 0 && KeyOrder(b, c) <= 0
    ensures KeyOrder(a, c) <= 0
    ensures KeyOrder(a, c) == 0 ==> KeyOrder(a, b) == 0 && KeyOrder(b, c) == 0
    decreases |a| + |b| + |c|
  {
    if a != [] || b != [] || c != [] {
      if Head(a) == Head(b) && Head(b) == Head(c) {
        KeyOrderStep(a, b);
        KeyOrderStep(b, c);
        KeyOrderStep(a, c);
        KeyOrderTransitive(Tail(a), Tail(b), Tail(c));
      } else {
        KeyOrderStep(a, b);
        KeyOrderStep(b, c);
        KeyOrderStep(a, c);
      }
    }
  }

  lemma KeyOrderStep(a: seq<int>, b: seq<int>)
    ensures KeyOrder(a, b)
      == if Head(a) != Head(b) then Sign(Head(a) - Head(b)) else KeyOrder(Tail(a), Tail(b))
  {
  }

  // ----- verrevcmp

  /** As the key, but also for the empty string with an end of text and a number. */
  function Whole(s: CString): seq<int> {
    Text(s) + [0, Number(0, AfterText(s))] + Key(AfterDigits(AfterText(s)))
  }

  lemma WholeOrder(v: CString, r: CString)
    ensures KeyOrder(Key(v), Key(r)) == KeyOrder(Whole(v), Whole(r))
  {
    if v == [] {
      EndPadded(Key(r));
      if r == [] {
        KeyOrderReflexive(Whole([]));
      }
    } else if r == [] {
      EndPadded(Key(v));
      KeyOrderSwap(Key(v), []);
      KeyOrderSwap(Key(v), [0, 0]);
    }
  }

  lemma EndPadded(b: seq<int>)
    ensures Whole([]) == [0, 0] && KeyOrder([], b) == KeyOrder([0, 0], b)
  {
    assert [0, 0][1..] == [0] && [0][1..] == [];
    KeyOrderStep([0, 0], b);
    KeyOrderStep([], b);
    KeyOrderStep([0], Tail(b));
    KeyOrderStep([], Tail(b));
  }

  /** The first character of both, if one of them is not a digit or the end. */
  lemma TextStep(v: CString, r: CString)
    requires (v != [] && !IsDigit(v[0])) || (r != [] && !IsDigit(r[0]))
    ensures Order(At(v, 0)) != Order(At(r, 0)) ==>
             KeyOrder(Whole(v), Whole(r)) == Sign(Order(At(v, 0)) - Order(At(r, 0)))
    ensures Order(At(v, 0)) == Order(At(r, 0)) ==>
      v != [] && r != [] && KeyOrder(Whole(v), Whole(r)) == KeyOrder(Whole(v[1..]), Whole(r[1..]))
  {
    WholeHead(v);
    WholeHead(r);
    KeyOrderStep(Whole(v), Whole(r));
  }

  lemma JoinHead(x: int, a: seq<int>, b: seq<int>, c: seq<int>)
    ensures Head([x] + a + b + c) == x && Tail([x] + a + b + c) == a + b + c
  {
  }

  lemma WholeText(s: CString)
    requires s != [] && !IsDigit(s[0])
    ensures Head(Whole(s)) == Order(s[0]) && Tail(Whole(s)) == Whole(s[1..])
  {
    hide Key, Number, AfterDigits, Order, Head, Tail;
    var t := AfterText(s[1..]);
    assert Text(s) == [Order(s[0])] + Text(s[1..]) && AfterText(s) == t;
    JoinHead(Order(s[0]), Text(s[1..]), [0, Number(0, t)], Key(AfterDigits(t)));
  }

  lemma WholeNumber(s: CString)
    requires s == [] || IsDigit(s[0])
    ensures Head(Whole(s)) == 0 && Tail(Whole(s)) == [Number(0, s)] + Key(AfterDigits(s))
  {
    hide Key, Number, AfterDigits;
    assert Whole(s) == [] + [0, Number(0, s)] + Key(AfterDigits(s));
  }

  lemma WholeHead(s: CString)
    ensures Head(Whole(s)) == Order(At(s, 0))
    ensures s != [] && !IsDigit(s[0]) ==> Tail(Whole(s)) == Whole(s[1..])
    ensures (s == [] || IsDigit(s[0])) ==> Tail(Whole(s)) == [Number(0, s)] + Key(AfterDigits(s))
  {
    hide Whole, Head, Tail;
    if s != [] && !IsDigit(s[0]) {
      WholeText(s);
    } else {
      WholeNumber(s);
    }
  }

  /** Both stand at a number. */
  lemma NumberStep(v: CString, r: CString)
    requires (v == [] || IsDigit(v[0])) && (r == [] || IsDigit(r[0]))
    ensures KeyOrder(Whole(v), Whole(r))
      == if Number(0, v) != Number(0, r) then Sign(Number(0, v) - Number(0, r))
         else KeyOrder(Key(AfterDigits(v)), Key(AfterDigits(r)))
  {
    WholeHead(v);
    WholeHead(r);
    KeyOrderStep(Whole(v), Whole(r));
    var a, b := Tail(Whole(v)), Tail(Whole(r));
    assert a[1..] == Key(AfterDigits(v)) && b[1..] == Key(AfterDigits(r));
    KeyOrderStep(a, b);
  }

  function Pow10(n: nat): nat { if n == 0 then 1 else 10 * Pow10(n - 1) }

  lemma {:induction false} NumberGrows(sofar: nat, s: CString)
    ensures Number(sofar, s) >= sofar
    decreases |s|
  {
    if s != [] && IsDigit(s[0]) { NumberGrows(10 * sofar + Digit(s[0]), s[1..]); }
  }

  /**
   After n digits each, of which the first is not 0, with the values a and b so
   far, and the difference of the first two digits that differed.
   */
  predicate InStep(n: nat, a: nat, b: nat, diff: int) {
    && a < Pow10(n) && b < Pow10(n) && Sign(diff) == Sign(a - b)
    && (n > 0 ==> 10 * a >= Pow10(n) && 10 * b >= Pow10(n))
  }

  lemma InStepStart()
    ensures InStep(0, 0, 0, 0)
  {
  }

  lemma InStepEnd(n: nat, a: nat, b: nat, diff: int)
    requires InStep(n, a, b, diff)
    ensures Sign(diff) == Sign(a - b)
  {
  }

  lemma InStepMore(n: nat, a: nat, b: nat, diff: int, x: nat, y: nat)
    requires InStep(n, a, b, diff) && x < 10 && y < 10 && (n == 0 ==> x > 0 && y > 0)
    ensures InStep(n + 1, 10 * a + x, 10 * b + y, if diff == 0 then x - y else diff)
  {
  }

  /** Of the digits from i on those before k are read, and have the value sofar. */
  ghost predicate Reading(s: CString, i: nat, k: nat, sofar: nat)
    requires i <= k <= |s|
  {
    Number(sofar, s[k..]) == Number(0, s[i..]) && AfterDigits(s[k..]) == AfterDigits(s[i..])
  }

  /** The digits from i on end before k. */
  ghost predicate PastDigits(s: CString, i: nat, k: nat)
    requires i <= k <= |s|
  {
    s[k..] == AfterDigits(s[i..]) && (IsDigit(At(s, i)) ==> i < k)
  }

  method SkipZeros(s: CString, i: nat) returns (k: nat)
    requires i <= |s|
    ensures i <= k <= |s| && At(s, k) != ZERO && Reading(s, i, k, 0)
  {
    k := i;
    while At(s, k) == ZERO
      invariant i <= k <= |s| && Reading(s, i, k, 0)
      decreases |s| - k
    {
      DigitRead(s, i, k, 0);
      k := k + 1;
    }
  }

  /** One digit is read. */
  lemma DigitRead(s: CString, i: nat, k: nat, sofar: nat)
    requires i <= k < |s| && IsDigit(s[k]) && Reading(s, i, k, sofar)
    ensures Reading(s, i, k + 1, 10 * sofar + Digit(s[k]))
  {
    assert s[k..][0] == s[k] && s[k..][1..] == s[k + 1..];
  }

  lemma ReadingEnd(s: CString, i: nat, k: nat, sofar: nat)
    requires i <= k <= |s| && !IsDigit(At(s, k)) && Reading(s, i, k, sofar)
    ensures Number(0, s[i..]) == sofar && PastDigits(s, i, k)
  {
  }

  /** More digits make the larger number. */
  lemma LongerIsLarger(s: CString, i: nat, k: nat, n: nat, a: nat, b: nat, diff: int)
    requires i <= k < |s| && IsDigit(s[k]) && InStep(n, a, b, diff) && (n == 0 ==> s[k] != ZERO)
    ensures Reading(s, i, k, a) ==> Number(0, s[i..]) > b
    ensures Reading(s, i, k, b) ==> Number(0, s[i..]) > a
  {
    assert s[k..][0] == s[k];
    NumberGrows(10 * a + Digit(s[k]), s[k..][1..]);
    NumberGrows(10 * b + Digit(s[k]), s[k..][1..]);
  }

  lemma Inside(s: CString, i: nat)
    requires i <= |s| && IsDigit(At(s, i))
    ensures i < |s| && At(s, i) == s[i]
  {
  }

  lemma SignIs(a: int, b: int)
    requires (a > 0 && b > 0) || (a < 0 && b < 0)
    ensures Sign(a) == Sign(b)
  {
  }

  /** Goes through the digits as long as both have one. */
  method CompareDigits(val: CString, ref: CString, i: nat, j: nat, i0: nat, j0: nat)
    returns (diff: int, i': nat, j': nat, ghost n: nat, ghost a: nat, ghost b: nat)
    requires i <= i0 <= |val| && j <= j0 <= |ref| && Reading(val, i, i0, 0) && Reading(ref, j, j0, 0)
    requires At(val, i0) != ZERO && At(ref, j0) != ZERO
    ensures i <= i' <= |val| && j <= j' <= |ref| && !(IsDigit(At(val, i')) && IsDigit(At(ref, j')))
    ensures n == 0 ==> At(val, i') != ZERO && At(ref, j') != ZERO
    ensures InStep(n, a, b, diff) && Reading(val, i, i', a) && Reading(ref, j, j', b)
  {
    hide *;
    diff, i', j', n, a, b := 0, i0, j0, 0, 0, 0;
    InStepStart();
    while IsDigit(At(val, i')) && IsDigit(At(ref, j'))
      invariant i <= i' <= |val| && j <= j' <= |ref|
      invariant n == 0 ==> At(val, i') != ZERO && At(ref, j') != ZERO
      invariant InStep(n, a, b, diff) && Reading(val, i, i', a) && Reading(ref, j, j', b)
      decreases |val| - i'
    {
      Inside(val, i');
      Inside(ref, j');
      DigitRead(val, i, i', a);
      DigitRead(ref, j, j', b);
      DigitIs(val[i']);
      DigitIs(ref[j']);
      InStepMore(n, a, b, diff, Digit(val[i']), Digit(ref[j']));
      n, a, b := n + 1, 10 * a + Digit(val[i']), 10 * b + Digit(ref[j']);
      if diff == 0 {
        diff := val[i'] - ref[j'];
      }
      i', j' := i' + 1, j' + 1;
    }
  }

  lemma DigitIs(c: Code)
    requires IsDigit(c)
    ensures Digit(c) == c - ZERO && Digit(c) < 10 && (Digit(c) == 0 <==> c == ZERO)
  {
  }

  /** Compares the numbers at i and j; if they are equal, i' and j' are after them. */
  method CompareNumbers(val: CString, ref: CString, i: nat, j: nat) returns (diff: int, i': nat, j': nat)
    requires i <= |val| && j <= |ref|
    ensures Sign(diff) == Sign(Number(0, val[i..]) - Number(0, ref[j..]))
    ensures i <= i' <= |val| && j <= j' <= |ref|
    ensures diff == 0 ==> PastDigits(val, i, i') && PastDigits(ref, j, j')
  {
    hide *;
    i' := SkipZeros(val, i);
    j' := SkipZeros(ref, j);
    ghost var n: nat, a: nat, b: nat;
    diff, i', j', n, a, b := CompareDigits(val, ref, i, j, i', j');
    if IsDigit(At(val, i')) {
      Inside(val, i');
      ReadingEnd(ref, j, j', b);
      LongerIsLarger(val, i, i', n, a, b, diff);
      SignIs(1, Number(0, val[i..]) - Number(0, ref[j..]));
      return 1, i', j';
    }
    ReadingEnd(val, i, i', a);
    if IsDigit(At(ref, j')) {
      Inside(ref, j');
      LongerIsLarger(ref, j, j', n, a, b, diff);
      SignIs(-1, Number(0, val[i..]) - Number(0, ref[j..]));
      return -1, i', j';
    }
    ReadingEnd(ref, j, j', b);
    InStepEnd(n, a, b, diff);
  }

  /** The rest from i on and from j on decides the comparison; at the start of a text or within one. */
  ghost predicate KeysDecide(val: CString, ref: CString, i: nat, j: nat)
    requires i <= |val| && j <= |ref|
  {
    KeyOrder(Key(val), Key(ref)) == KeyOrder(Key(val[i..]), Key(ref[j..]))
  }

  ghost predicate WholesDecide(val: CString, ref: CString, i: nat, j: nat)
    requires i <= |val| && j <= |ref|
  {
    KeyOrder(Key(val), Key(ref)) == KeyOrder(Whole(val[i..]), Whole(ref[j..]))
  }

  lemma KeysThenWholes(val: CString, ref: CString, i: nat, j: nat)
    requires i <= |val| && j <= |ref| && KeysDecide(val, ref, i, j)
    ensures WholesDecide(val, ref, i, j)
  {
    WholeOrder(val[i..], ref[j..]);
  }

  predicate AtText(s: CString, i: nat)
    requires i <= |s|
  {
    At(s, i) != 0 && !IsDigit(At(s, i))
  }

  lemma TextDecides(val: CString, ref: CString, i: nat, j: nat)
    requires i <= |val| && j <= |ref| && WholesDecide(val, ref, i, j) && (AtText(val, i) || AtText(ref, j))
    ensures var d := Order(At(val, i)) - Order(At(ref, j));
      if d != 0 then Sign(d) == KeyOrder(Key(val), Key(ref))
      else i < |val| && j < |ref| && WholesDecide(val, ref, i + 1, j + 1)
  {
    hide Key, Whole, KeyOrder, Order;
    TextStep(val[i..], ref[j..]);
    assert i < |val| ==> val[i..][1..] == val[i + 1..];
    assert j < |ref| ==> ref[j..][1..] == ref[j + 1..];
  }

  lemma NumbersDecide(val: CString, ref: CString, i: nat, j: nat, diff: int, i': nat, j': nat)
    requires i <= i' <= |val| && j <= j' <= |ref| && WholesDecide(val, ref, i, j) && !AtText(val, i) && !AtText(ref, j)
    requires Sign(diff) == Sign(Number(0, val[i..]) - Number(0, ref[j..]))
    requires diff == 0 ==> PastDigits(val, i, i') && PastDigits(ref, j, j')
    ensures if diff != 0 then Sign(diff) == KeyOrder(Key(val), Key(ref)) else KeysDecide(val, ref, i', j')
  {
    hide Key, Whole, KeyOrder, Number, AfterDigits;
    NumberStep(val[i..], ref[j..]);
  }

  lemma AtInside(s: CString)
    ensures forall i | 0 <= i <= |s| :: (At(s, i) != 0 <==> i < |s|) && (AtText(s, i) ==> i < |s|)
  {
  }

  lemma KeysStart(val: CString, ref: CString)
    ensures KeysDecide(val, ref, 0, 0)
  {
    assert val[0..] == val && ref[0..] == ref;
  }

  /** The texts at these places, which decide unless all their characters have equal weights. */
  method TextTurn(val: CString, ref: CString, i: nat, j: nat) returns (diff: int, i': nat, j': nat)
    requires i <= |val| && j <= |ref| && WholesDecide(val, ref, i, j)
    ensures i <= i' <= |val| && j <= j' <= |ref|
    ensures if diff != 0 then Sign(diff) == KeyOrder(Key(val), Key(ref))
            else WholesDecide(val, ref, i', j') && !AtText(val, i') && !AtText(ref, j')
  {
    i', j' := i, j;
    hide *;
    while AtText(val, i') || AtText(ref, j')
      invariant i <= i' <= |val| && j <= j' <= |ref| && WholesDecide(val, ref, i', j')
      decreases |val| - i'
    {
      diff := Order(At(val, i')) - Order(At(ref, j'));
      TextDecides(val, ref, i', j');
      if diff != 0 {
        return;
      }
      i', j' := i' + 1, j' + 1;
    }
    diff := 0;
  }

  /** The numbers at these places, which decide unless they are equal. */
  method NumberTurn(val: CString, ref: CString, i: nat, j: nat) returns (diff: int, i': nat, j': nat)
    requires i <= |val| && j <= |ref| && WholesDecide(val, ref, i, j) && !AtText(val, i) && !AtText(ref, j)
    ensures i <= i' <= |val| && j <= j' <= |ref|
    ensures if diff != 0 then Sign(diff) == KeyOrder(Key(val), Key(ref)) else KeysDecide(val, ref, i', j')
    ensures diff == 0 ==> (At(val, i) != 0 ==> i < i') && (At(ref, j) != 0 ==> j < j')
  {
    hide KeysDecide, WholesDecide, KeyOrder, Key, Order, Number;
    diff, i', j' := CompareNumbers(val, ref, i, j);
    NumbersDecide(val, ref, i, j, diff, i', j');
  }

  /** verrevcmp: compares the keys, without building them. */
  method VerRevCmp(val: CString, ref: CString) returns (r: int)
    ensures Sign(r) == KeyOrder(Key(val), Key(ref))
  {
    var i: nat, j: nat := 0, 0;
    KeysStart(val, ref);
    hide *;
    AtInside(val);
    AtInside(ref);
    while At(val, i) != 0 || At(ref, j) != 0
      invariant i <= |val| && j <= |ref| && KeysDecide(val, ref, i, j)
      decreases |val| - i + |ref| - j
    {
      KeysThenWholes(val, ref, i, j);
      ghost var i0, j0 := i, j;
      r, i, j := TextTurn(val, ref, i, j);
      if r != 0 {
        return;
      }
      r, i, j := NumberTurn(val, ref, i, j);
      if r != 0 {
        return;
      }
    }
    EndDecides(val, ref, i, j);
    r := 0;
  }

  lemma EndDecides(val: CString, ref: CString, i: nat, j: nat)
    requires i == |val| && j == |ref| && KeysDecide(val, ref, i, j)
    ensures KeyOrder(Key(val), Key(ref)) == 0
  {
    assert val[i..] == [] && ref[j..] == [];
  }

  // ----- whole versions

  datatype Version = Version(epoch: nat, version: CString, revision: CString)

  datatype Parsed = Ok(value: Version) | EmptyVersion | EmbeddedSpaces | EpochNotNumber | NothingAfterColon

  /** versioncompare: the larger epoch, then the larger version, then the larger revision wins. */
  function VersionOrder(v: Version, w: Version): int {
    if v.epoch != w.epoch then Sign(v.epoch - w.epoch)
    else if KeyOrder(Key(v.version), Key(w.version)) != 0 then KeyOrder(Key(v.version), Key(w.version))
    else KeyOrder(Key(v.revision), Key(w.revision))
  }

  method VersionCompare(v: Version, w: Version) returns (r: int)
    ensures Sign(r) == VersionOrder(v, w)
  {
    hide Key, KeyOrder;
    if v.epoch > w.epoch {
      return 1;
    }
    if v.epoch < w.epoch {
      return -1;
    }
    r := VerRevCmp(v.version, w.version);
    if r != 0 {
      return;
    }
    r := VerRevCmp(v.revision, w.revision);
  }

  /** Comparing versions is a total preorder. */
  lemma VersionOrderIsOrder(u: Version, v: Version, w: Version)
    ensures VersionOrder(v, v) == 0
    ensures VersionOrder(w, v) == -VersionOrder(v, w)
    ensures VersionOrder(u, v) <= 0 && VersionOrder(v, w) <= 0 ==> VersionOrder(u, w) <= 0
    ensures VersionOrder(u, v) <= 0 && VersionOrder(v, w) <= 0 && VersionOrder(u, w) == 0 ==>
      VersionOrder(u, v) == 0 && VersionOrder(v, w) == 0
  {
    var a, b, c := Key(u.version), Key(v.version), Key(w.version);
    var d, e, f := Key(u.revision), Key(v.revision), Key(w.revision);
    hide Key, KeyOrder;
    KeyOrderReflexive(b);
    KeyOrderReflexive(e);
    KeyOrderSwap(b, c);
    KeyOrderSwap(e, f);
    if KeyOrder(a, b) <= 0 && KeyOrder(b, c) <= 0 {
      KeyOrderTransitive(a, b, c);
    }
    if KeyOrder(d, e) <= 0 && KeyOrder(e, f) <= 0 {
      KeyOrderTransitive(d, e, f);
    }
    KeyOrderRange(a, b);
    KeyOrderRange(b, c);
    KeyOrderRange(a, c);
  }

  lemma {:induction false} KeyOrderRange(a: seq<int>, b: seq<int>)
    ensures -1 <= KeyOrder(a, b) <= 1
    decreases |a| + |b|
  {
    if (a != [] || b != []) && Head(a) == Head(b) { KeyOrderRange(Tail(a), Tail(b)); }
  }

  // ----- parseversion

  const HYPHEN: Code := 45
  const PLUS: Code := 43
  const ULONG_MAX: nat := 0xffff_ffff_ffff_ffff

  /** The length of the blanks, of the word, at the start of s. */
  function Blanks(s: CString): (n: nat)
    ensures n <= |s| && (forall k :: 0 <= k < n ==> IsBlank(s[k])) && (n < |s| ==> !IsBlank(s[n]))
  {
    if s != [] && IsBlank(s[0]) then 1 + Blanks(s[1..]) else 0
  }

  function Word(s: CString): (n: nat)
    ensures n <= |s| && (forall k :: 0 <= k < n ==> !IsBlank(s[k])) && (n < |s| ==> IsBlank(s[n]))
  {
    if s != [] && !IsBlank(s[0]) then 1 + Word(s[1..]) else 0
  }

  /** The first place of a character, or the length. */
  function Find(s: CString, c: Code): (n: nat)
    ensures n <= |s| && c !in s[..n] && (n < |s| ==> s[n] == c)
  {
    if s == [] || s[0] == c then 0
    else
      assert s[..1 + Find(s[1..], c)] == [s[0]] + s[1..][..Find(s[1..], c)];
      1 + Find(s[1..], c)
  }

  function Digits(s: CString): (n: nat)
    ensures n <= |s|
  {
    if s != [] && IsDigit(s[0]) then 1 + Digits(s[1..]) else 0
  }

  function Spaces(s: CString): (n: nat)
    ensures n <= |s|
  {
    if s != [] && IsSpace(s[0]) then 1 + Spaces(s[1..]) else 0
  }

  /**
   strtoul in base 10, for 64 bits: skips white space, takes a sign, stays at
   the largest value on overflow.  Also how many characters it has used, 0 if
   there is no number.
   */
  function Strtoul(s: CString): (r: (nat, nat))
    ensures r.1 <= |s|
  {
    var t := s[Spaces(s)..];
    var sign := if t != [] && (t[0] == PLUS || t[0] == HYPHEN) then 1 else 0;
    var digits := t[sign..];
    var n := Number(0, digits);
    if Digits(digits) == 0 then (0, 0)
    else
      (if n > ULONG_MAX then ULONG_MAX
       else if sign == 1 && t[0] == HYPHEN then (ULONG_MAX + 1 - n) % (ULONG_MAX + 1)
       else n,
       Spaces(s) + sign + Digits(digits))
  }

  /** A version is a word between blanks. */
  function Parse(s: CString): Parsed {
    if s == [] then EmptyVersion
    else
      var t := s[Blanks(s)..];
      if Blanks(t[Word(t)..]) < |t| - Word(t) then EmbeddedSpaces else ParseWord(t, Word(t))
  }

  /** An epoch and a colon if there is one, and a revision after the last hyphen; the word has n characters. */
  function ParseWord(t: CString, n: nat): Parsed
    requires n <= |t|
  {
    var (epoch, used) := Strtoul(t);
    if COLON !in t[..n] then Ok(Split(0, t[..n]))
    else if Find(t[..n], COLON) != used then EpochNotNumber
    else if used + 1 == |t| then NothingAfterColon
    else Ok(Split(epoch, t[used + 1..n]))
  }

  /** The last place of a hyphen, or the length. */
  function LastHyphen(s: CString): (n: nat)
    ensures n <= |s| && (n < |s| ==> s[n] == HYPHEN && HYPHEN !in s[n + 1..]) && (n == |s| ==> HYPHEN !in s)
    decreases |s|
  {
    if HYPHEN !in s then |s|
    else if HYPHEN !in s[1..] then 0
    else
      assert s[1 + LastHyphen(s[1..])..] == s[1..][LastHyphen(s[1..])..];
      1 + LastHyphen(s[1..])
  }

  function Split(epoch: nat, s: CString): Version {
    var h := LastHyphen(s);
    if h == |s| then Version(epoch, s, []) else Version(epoch, s[..h], s[h + 1..])
  }

  method SkipBlanks(s: CString, i: nat) returns (k: nat)
    requires i <= |s|
    ensures k == i + Blanks(s[i..])
  {
    k := i;
    while IsBlank(At(s, k))
      invariant i <= k <= |s| && i + Blanks(s[i..]) == k + Blanks(s[k..])
      decreases |s| - k
    {
      assert s[k..][1..] == s[k + 1..];
      k := k + 1;
    }
  }

  method SkipWord(s: CString, i: nat) returns (k: nat)
    requires i <= |s|
    ensures k == i + Word(s[i..])
  {
    k := i;
    while At(s, k) != 0 && !IsBlank(At(s, k))
      invariant i <= k <= |s| && i + Word(s[i..]) == k + Word(s[k..])
      decreases |s| - k
    {
      assert s[k..][1..] == s[k + 1..];
      k := k + 1;
    }
  }

  lemma FindFirst(s: CString, c: Code)
    ensures Find(s, c) == if s == [] || s[0] == c then 0 else 1 + Find(s[1..], c)
  {
  }

  lemma {:induction false} FindNone(s: CString, c: Code)
    requires c !in s
    ensures Find(s, c) == |s|
  {
    FindFirst(s, c);
    if s != [] {
      FindNone(s[1..], c);
    }
  }

  lemma {:induction false} FindInWord(s: CString, n: nat, c: Code)
    requires n <= |s| && c !in s[n..]
    ensures Find(s, c) < |s| <==> c in s[..n]
    ensures Find(s, c) < |s| ==> Find(s, c) == Find(s[..n], c)
  {
    hide *;
    FindFirst(s, c);
    if s == [] {
      assert s[..n] == s;
    } else if n == 0 {
      assert s[0..] == s && s[..0] == [];
      FindNone(s, c);
    } else {
      assert s[1..][n - 1..] == s[n..] && s[..n][1..] == s[1..][..n - 1] && s[..n] == [s[0]] + s[1..][..n - 1];
      FindFirst(s[..n], c);
      if s[0] != c {
        FindInWord(s[1..], n - 1, c);
      }
    }
  }

  /** The part of parseversion after the blanks. */
  method ParseAt(s: CString, start: nat, end: nat) returns (r: Parsed)
    requires start <= end <= |s| && forall k :: end <= k < |s| ==> IsBlank(s[k])
    ensures r == ParseWord(s[start..], end - start)
  {
    hide Find, Strtoul, Split;
    ghost var t, n := s[start..], end - start;
    assert t[..n] == s[start..end];
    FindInWord(t, n, COLON);
    var colon := Find(s[start..], COLON);
    if colon == |s| - start {
      return Ok(Split(0, s[start..end]));
    }
    var (epoch, used) := Strtoul(s[start..]);
    if colon != used {
      return EpochNotNumber;
    }
    if At(s, start + colon + 1) == 0 {
      return NothingAfterColon;
    }
    assert t[used + 1..n] == s[start + colon + 1..end];
    return Ok(Split(epoch, s[start + colon + 1..end]));
  }

  /** parseversion */
  method ParseVersion(s: CString) returns (r: Parsed)
    ensures r == Parse(s)
  {
    hide Blanks, Word, ParseWord;
    if At(s, 0) == 0 {
      return EmptyVersion;
    }
    assert s[0..] == s;
    var start := SkipBlanks(s, 0);
    var end := SkipWord(s, start);
    var ptr := SkipBlanks(s, end);
    assert s[end..] == s[start..][end - start..];
    if At(s, ptr) != 0 {
      return EmbeddedSpaces;
    }
    forall k | end <= k < |s| ensures IsBlank(s[k]) { assert s[k] == s[end..][k - end]; }
    r := ParseAt(s, start, end);
  }

  datatype Comparison = Compared(r: int) | Failed

  /** dpkgversions_cmp */
  method Compare(first: CString, second: CString) returns (r: Comparison)
    ensures r.Compared? <==> Parse(first).Ok? && Parse(second).Ok?
    ensures r.Compared? ==> Sign(r.r) == VersionOrder(Parse(first).value, Parse(second).value)
  {
    hide Parse, VersionOrder;
    var v := ParseVersion(first);
    if !v.Ok? {
      return Failed;
    }
    var w := ParseVersion(second);
    if !w.Ok? {
      return Failed;
    }
    var d := VersionCompare(v.value, w.value);
    return Compared(d);
  }

  // ----- writing a version and reading it back

  predicate AllBlank(s: CString) { forall c :: c in s ==> IsBlank(c) }
  predicate NoBlank(s: CString) { forall c :: c in s ==> !IsBlank(c) }
  predicate AllDigits(s: CString) { forall c :: c in s ==> IsDigit(c) }

  lemma {:induction false} BlanksBefore(a: CString, t: CString)
    requires AllBlank(a) && (t == [] || !IsBlank(t[0]))
    ensures Blanks(a + t) == |a|
  {
    if a != [] {
      assert (a + t)[1..] == a[1..] + t && a[0] in a;
      BlanksBefore(a[1..], t);
    } else {
      assert a + t == t;
    }
  }

  lemma {:induction false} WordBefore(w: CString, b: CString)
    requires NoBlank(w) && AllBlank(b)
    ensures Word(w + b) == |w|
  {
    if w != [] {
      assert (w + b)[1..] == w[1..] + b && w[0] in w;
      WordBefore(w[1..], b);
    } else {
      assert w + b == b && (b != [] ==> b[0] in b);
    }
  }

  lemma {:induction false} DigitsBefore(d: CString, sofar: nat, t: CString)
    requires AllDigits(d) && t != [] && t[0] == COLON
    ensures Digits(d + t) == |d| && Number(sofar, d + t) == Number(sofar, d)
    ensures Find(d + t, COLON) == |d|
    decreases |d|
  {
    if d != [] {
      assert (d + t)[1..] == d[1..] + t && d[0] in d;
      DigitsBefore(d[1..], 10 * sofar + Digit(d[0]), t);
    } else {
      assert d + t == t;
    }
  }

  lemma {:induction false} LastHyphenAt(u: CString, r: CString)
    requires HYPHEN !in r
    ensures LastHyphen(u + [HYPHEN] + r) == |u|
  {
    var s := u + [HYPHEN] + r;
    if u == [] {
      assert s[1..] == r && s[0] == HYPHEN;
    } else {
      assert s[1..] == u[1..] + [HYPHEN] + r;
      assert s[1..][|u| - 1] == HYPHEN && s[|u|] == HYPHEN;
      LastHyphenAt(u[1..], r);
    }
  }

  lemma EpochRead(d: CString, t: CString)
    requires d != [] && AllDigits(d) && t != [] && t[0] == COLON
    ensures Strtoul(d + t) == (if Number(0, d) > ULONG_MAX then ULONG_MAX else Number(0, d), |d|)
  {
    var s := d + t;
    assert d[0] in d && s[0] == d[0] && s[0..] == s && Spaces(s) == 0;
    hide Number, Digits, Find, Spaces;
    DigitsBefore(d, 0, t);
  }

  function Rendered(d: CString, u: CString, r: CString): CString { d + ([COLON] + (u + [HYPHEN] + r)) }

  /** Epoch, version and revision, written with colon and hyphen between any blanks, are read back. */
  lemma ParseRendered(a: CString, d: CString, u: CString, r: CString, b: CString)
    requires AllBlank(a) && AllBlank(b) && d != [] && AllDigits(d) && NoBlank(u) && NoBlank(r) && HYPHEN !in r
    ensures Parse(a + (Rendered(d, u, r) + b))
      == Ok(Version(if Number(0, d) > ULONG_MAX then ULONG_MAX else Number(0, d), u, r))
  {
    var w := Rendered(d, u, r);
    var t := w + b;
    assert w[0] == d[0] && d[0] in d && NoBlank(w);
    BlanksBefore(a, t);
    WordBefore(w, b);
    BlanksBefore(b, []);
    assert b + [] == b && (a + t)[|a|..] == t && t[|w|..] == b && t[..|w|] == w;
    hide Blanks, Word;
    WordRendered(d, u, r, b);
  }

  lemma Pieces(d: CString, x: CString, b: CString)
    ensures var w := d + ([COLON] + x);
      && COLON in w && (w + b)[..|w|] == w && w + b == d + ([COLON] + x + b)
      && (w + b)[|d| + 1..|w|] == x
  {
    var w := d + ([COLON] + x);
    assert w[|d|] == COLON;
  }

  lemma SplitRendered(epoch: nat, u: CString, r: CString)
    requires HYPHEN !in r
    ensures Split(epoch, u + [HYPHEN] + r) == Version(epoch, u, r)
  {
    var x := u + [HYPHEN] + r;
    assert x[..|u|] == u && x[|u| + 1..] == r;
    hide LastHyphen;
    LastHyphenAt(u, r);
  }

  lemma WordRendered(d: CString, u: CString, r: CString, b: CString)
    requires d != [] && AllDigits(d) && HYPHEN !in r
    ensures ParseWord(Rendered(d, u, r) + b, |Rendered(d, u, r)|)
      == Ok(Version(if Number(0, d) > ULONG_MAX then ULONG_MAX else Number(0, d), u, r))
  {
    hide Strtoul, Number, Find, Split, AllDigits, Digits;
    var x := u + [HYPHEN] + r;
    Pieces(d, x, b);
    EpochRead(d, [COLON] + x + b);
    DigitsBefore(d, 0, [COLON] + x);
    SplitRendered(Strtoul(Rendered(d, u, r) + b).0, u, r);
  }
}
