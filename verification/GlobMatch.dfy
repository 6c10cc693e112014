/** Shell patterns: the simulation of globmatch.c, and what it means for a string to match. */
module GlobMatch {
  import opened CText

  const STAR: Code := 42
  const QUESTION: Code := 63
  const OPEN: Code := 91
  const CLOSE: Code := 93
  const BANG: Code := 33
  const CARET: Code := 94
  const INT_MAX := 0x7fff_ffff

  // ----- what patterns mean

  /** An item of a bracket expression: three characters for a range, else one. */
  predicate IsRange(p: CString, j: nat)
    requires j < |p|
  {
    At(p, j + 1) == DASH && At(p, j + 2) != CLOSE && At(p, j + 2) != 0
  }

  function NextItem(p: CString, j: nat): (k: nat)
    requires j < |p|
    ensures j < k <= |p|
  {
    if IsRange(p, j) then j + 3 else j + 1
  }

  predicate InItem(p: CString, j: nat, c: Code)
    requires j < |p|
  {
    if IsRange(p, j) then At(p, j) <= c <= At(p, j + 2) else c == At(p, j)
  }

  /** Where the pattern goes on after the bracket whose items begin at j, or 0 if it is never closed. */
  function BracketEnd(p: CString, j: nat): (k: nat)
    requires j < |p|
    ensures k != 0 ==> j < k <= |p|
    decreases |p| - j
  {
    var k := NextItem(p, j);
    if k == |p| then 0 else if p[k] == CLOSE then k + 1 else BracketEnd(p, k)
  }

  /** The first item counts even if it begins with the closing bracket. */
  predicate InBracket(p: CString, j: nat, c: Code)
    requires j < |p|
    decreases |p| - j
  {
    var k := NextItem(p, j);
    InItem(p, j, c) || (k < |p| && p[k] != CLOSE && InBracket(p, k, c))
  }

  predicate Negated(p: CString, i: nat)
    requires i < |p|
  {
    At(p, i + 1) == BANG || At(p, i + 1) == CARET
  }

  function FirstItem(p: CString, i: nat): (j: nat)
    requires i < |p|
    ensures j <= |p|
  {
    if Negated(p, i) then i + 2 else i + 1
  }

  /** Where the pattern goes on after the one-character element at i, or 0 if that matches nothing. */
  function ElementEnd(p: CString, i: nat): (k: nat)
    requires i < |p|
    ensures k != 0 ==> i < k <= |p|
  {
    if p[i] != OPEN then i + 1
    else if FirstItem(p, i) == |p| then 0
    else BracketEnd(p, FirstItem(p, i))
  }

  predicate ElementMatches(p: CString, i: nat, c: Code)
    requires i < |p|
  {
    if p[i] == QUESTION then true
    else if p[i] == OPEN then FirstItem(p, i) < |p| && InBracket(p, FirstItem(p, i), c) != Negated(p, i)
    else p[i] == c
  }

  /** The string matches the pattern from position i on. */
  predicate Match(s: CString, p: CString, i: nat)
    requires i <= |p|
    decreases |s|, |p| - i
  {
    if i == |p| then s == []
    else if p[i] == STAR then Match(s, p, i + 1) || (s != [] && Match(s[1..], p, i))
    else
      && s != [] && ElementEnd(p, i) != 0 && ElementMatches(p, i, s[0])
      && Match(s[1..], p, ElementEnd(p, i))
  }

  /** A star stands for any string. */
  lemma {:induction false} StarMatches(s: CString, p: CString, i: nat)
    requires i < |p| && p[i] == STAR
    ensures Match(s, p, i) <==> exists k :: 0 <= k <= |s| && Match(s[k..], p, i + 1)
  {
    assert s[0..] == s;
    if s != [] {
      StarMatches(s[1..], p, i);
      if exists k :: 0 <= k <= |s[1..]| && Match(s[1..][k..], p, i + 1) {
        var k :| 0 <= k <= |s[1..]| && Match(s[1..][k..], p, i + 1);
        assert s[1..][k..] == s[k + 1..];
      }
      if exists k :: 0 < k <= |s| && Match(s[k..], p, i + 1) {
        var k :| 0 < k <= |s| && Match(s[k..], p, i + 1);
        assert s[1..][k - 1..] == s[k..];
      }
    }
  }

  /** Without special characters a pattern matches only itself. */
  lemma {:induction false} LiteralMatches(s: CString, p: CString, i: nat)
    requires i <= |p| && forall c :: c in p ==> c != STAR && c != QUESTION && c != OPEN
    ensures Match(s, p, i) <==> s == p[i..]
    decreases |p| - i
  {
    if i < |p| {
      assert p[i] in p && p[i..][0] == p[i] && p[i..][1..] == p[i + 1..];
      if s != [] {
        LiteralMatches(s[1..], p, i + 1);
        assert s == [s[0]] + s[1..] && p[i..] == [p[i]] + p[i + 1..];
      }
    }
  }

  // ----- runs of stars

  function AfterStars(p: CString, i: nat): (j: nat)
    requires i <= |p|
    ensures i <= j <= |p| && At(p, j) != STAR && forall k :: i <= k < j ==> p[k] == STAR
    decreases |p| - i
  {
    if At(p, i) == STAR then AfterStars(p, i + 1) else i
  }

  /** Nothing but stars can be passed without a character. */
  lemma {:induction false} AfterStarsMatch(s: CString, p: CString, i: nat)
    requires i <= |p|
    ensures Match(s, p, AfterStars(p, i)) ==> Match(s, p, i)
    ensures s != [] ==> (Match(s, p, i) <==> Match(s, p, AfterStars(p, i)) || (At(p, i) == STAR && Match(s[1..], p, i)))
    ensures s == [] ==> (Match(s, p, i) <==> Match(s, p, AfterStars(p, i)))
    decreases |p| - i
  {
    if At(p, i) == STAR {
      AfterStarsMatch(s, p, i + 1);
      if s != [] {
        AfterStarsMatch(s[1..], p, i + 1);
        if At(p, i + 1) == STAR && Match(s[1..], p, i + 1) {
          assert Match(s[1..], p, i);
        }
      }
    }
  }

  /** Some bracket of the pattern, from the element at i on, is never closed. */
  predicate Doomed(p: CString, i: nat)
    requires i <= |p|
    decreases |p| - i
  {
    i < |p| && if p[i] == STAR then Doomed(p, i + 1) else ElementEnd(p, i) == 0 || Doomed(p, ElementEnd(p, i))
  }

  lemma {:induction false} DoomedMatchesNothing(s: CString, p: CString, i: nat)
    requires i <= |p| && Doomed(p, i)
    ensures !Match(s, p, i)
    decreases |s|, |p| - i
  {
    if p[i] == STAR {
      DoomedMatchesNothing(s, p, i + 1);
      if s != [] {
        DoomedMatchesNothing(s[1..], p, i);
      }
    } else if s != [] && ElementEnd(p, i) != 0 {
      DoomedMatchesNothing(s[1..], p, ElementEnd(p, i));
    }
  }

  lemma {:induction false} DoomedAfterStars(p: CString, i: nat)
    requires i <= |p|
    ensures Doomed(p, AfterStars(p, i)) <==> Doomed(p, i)
    decreases |p| - i
  {
    if At(p, i) == STAR {
      DoomedAfterStars(p, i + 1);
    }
  }

  // ----- sets of positions

  /** One of the marked positions, from n on, lets the string match. */
  ghost predicate Live(p: CString, b: seq<bool>, n: nat, s: CString)
    requires |b| == |p| + 1
  {
    exists x :: n <= x < |b| && b[x] && Match(s, p, x)
  }

  /** With a star, the position after that run of stars is marked as well. */
  ghost predicate Closed(p: CString, b: seq<bool>, n: nat)
    requires |b| == |p| + 1
  {
    forall x :: n <= x < |b| && b[x] ==> b[AfterStars(p, x)]
  }

  /** Only positions within the window are marked. */
  ghost predicate Window(b: seq<bool>, smallest: int, largest: int) {
    forall x :: 0 <= x < |b| && b[x] ==> smallest <= x <= largest
  }

  /** An unclosed bracket lies ahead of all marked positions, or of none. */
  ghost predicate Even(p: CString, b: seq<bool>)
    requires |b| == |p| + 1
  {
    forall x :: 0 <= x < |b| && b[x] ==> Doomed(p, x) == Doomed(p, 0)
  }

  /** Before the next character is read. */
  ghost predicate Ready(p: CString, b: seq<bool>) {
    |b| == |p| + 1 && Closed(p, b, 0) && Even(p, b)
  }

  /**
   In the midst of a character c, with s to follow: the first n positions are
   still as before (in b0), the others stand for after the character.
   */
  ghost predicate Half(p: CString, b0: seq<bool>, b: seq<bool>, n: nat, c: Code, s: CString) {
    && Ready(p, b0) && |b| == |b0| && n <= |b| && c != 0
    && b[..n] == b0[..n] && Closed(p, b, n) && Even(p, b)
    && (Live(p, b, n, s) <==> Live(p, b0, n, [c] + s))
  }

  lemma LiveFrom(p: CString, b: seq<bool>, n: nat, s: CString)
    requires |b| == |p| + 1 && n < |b|
    ensures Live(p, b, n, s) <==> Live(p, b, n + 1, s) || (b[n] && Match(s, p, n))
  {
  }

  lemma HalfSkip(p: CString, b0: seq<bool>, b: seq<bool>, n: nat, c: Code, s: CString)
    requires Half(p, b0, b, n + 1, c, s) && !b[n]
    ensures Half(p, b0, b, n, c, s)
  {
    assert b[..n + 1][n] == b0[..n + 1][n];
    assert b[..n] == b[..n + 1][..n] && b0[..n] == b0[..n + 1][..n];
    LiveFrom(p, b, n, s);
    LiveFrom(p, b0, n, [c] + s);
  }

  /** Nothing follows the end of the pattern. */
  lemma HalfEnd(p: CString, b0: seq<bool>, b: seq<bool>, c: Code, s: CString)
    requires Half(p, b0, b, |p| + 1, c, s)
    ensures Half(p, b0, b[|p| := false], |p|, c, s)
  {
    var b' := b[|p| := false];
    assert b'[..|p|] == b[..|p|] == b[..|p| + 1][..|p|] == b0[..|p|];
    LiveFrom(p, b0, |p|, [c] + s);
  }

  /** A star stays, and what follows it can come after the character. */
  lemma HalfStar(p: CString, b0: seq<bool>, b: seq<bool>, n: nat, c: Code, s: CString)
    requires Half(p, b0, b, n + 1, c, s) && b[n] && At(p, n) == STAR
    ensures Half(p, b0, b[AfterStars(p, n) := true], n, c, s)
  {
    var j, t := AfterStars(p, n), [c] + s;
    var b' := b[j := true];
    assert b[..n + 1][n] == b0[..n + 1][n];
    assert b'[..n] == b[..n] == b[..n + 1][..n] == b0[..n + 1][..n] == b0[..n];
    DoomedAfterStars(p, n);
    AfterStarsMatch(s, p, n);
    AfterStarsMatch(t, p, n);
    assert t[1..] == s;
    LiveFrom(p, b0, n, t);
    LiveStar(p, b0, b, n, j, s, t);
  }

  lemma LiveStar(p: CString, b0: seq<bool>, b: seq<bool>, n: nat, j: nat, s: CString, t: CString)
    requires |b| == |b0| == |p| + 1 && n < j < |b| && b[n] && b0[n] && b0[j]
    requires Live(p, b, n + 1, s) <==> Live(p, b0, n + 1, t)
    requires (Match(s, p, j) ==> Match(s, p, n)) && (Match(t, p, n) <==> Match(t, p, j) || Match(s, p, n))
    ensures Live(p, b[j := true], n, s) <==> Live(p, b0, n, t)
  {
    var b' := b[j := true];
    if Live(p, b', n, s) {
      var x :| n <= x < |b'| && b'[x] && Match(s, p, x);
      if x > n && x != j {
        assert b[x];
      }
    }
    if Live(p, b0, n, t) {
      var x :| n <= x < |b0| && b0[x] && Match(t, p, x);
      if x == n && !Match(s, p, n) {
        assert Live(p, b0, n + 1, t);
      }
      if Live(p, b, n + 1, s) {
        var y :| n + 1 <= y < |b| && b[y] && Match(s, p, y);
        assert b'[y];
      }
    }
  }

  lemma HalfMiss(p: CString, b0: seq<bool>, b: seq<bool>, n: nat, c: Code, s: CString)
    requires Half(p, b0, b, n + 1, c, s) && n < |p| && p[n] != STAR
    requires ElementEnd(p, n) != 0 && !ElementMatches(p, n, c)
    ensures Half(p, b0, b[n := false], n, c, s)
  {
    var b' := b[n := false];
    assert b'[..n] == b[..n] == b[..n + 1][..n] == b0[..n + 1][..n] == b0[..n];
    LiveFrom(p, b0, n, [c] + s);
    LiveFrom(p, b', n, s);
    LiveSame(p, b, b', n + 1, s);
  }

  lemma LiveSame(p: CString, b: seq<bool>, b': seq<bool>, n: nat, s: CString)
    requires |b| == |b'| == |p| + 1 && forall x :: n <= x < |b| ==> b[x] == b'[x]
    ensures Live(p, b, n, s) <==> Live(p, b', n, s)
  {
  }

  /** The positions from which the pattern can go on after j. */
  function Marked(p: CString, b: seq<bool>, j: nat): seq<bool>
    requires |b| == |p| + 1 && j <= |p|
  {
    b[j := true][AfterStars(p, j) := true]
  }

  lemma HalfHit(p: CString, b0: seq<bool>, b: seq<bool>, n: nat, c: Code, s: CString)
    requires Half(p, b0, b, n + 1, c, s) && n < |p| && p[n] != STAR && b[n]
    requires ElementEnd(p, n) != 0 && ElementMatches(p, n, c)
    ensures Half(p, b0, Marked(p, b, ElementEnd(p, n))[n := false], n, c, s)
  {
    var j, t := ElementEnd(p, n), [c] + s;
    var k, b' := AfterStars(p, j), Marked(p, b, j)[n := false];
    assert b[..n + 1][n] == b0[..n + 1][n];
    assert b'[..n] == b[..n] == b[..n + 1][..n] == b0[..n + 1][..n] == b0[..n];
    DoomedAfterStars(p, j);
    AfterStarsMatch(s, p, j);
    assert t[1..] == s;
    LiveFrom(p, b0, n, t);
    LiveFrom(p, b', n, s);
    LiveMarked(p, b, b', n + 1, j, k, s);
  }

  lemma LiveMarked(p: CString, b: seq<bool>, b': seq<bool>, n: nat, j: nat, k: nat, s: CString)
    requires |b| == |b'| == |p| + 1 && n <= j <= k <= |p| && b'[j]
    requires (forall x :: n <= x < |b| ==> b'[x] == (b[x] || x == j || x == k))
    requires Match(s, p, k) ==> Match(s, p, j)
    ensures Live(p, b', n, s) <==> Live(p, b, n, s) || Match(s, p, j)
  {
    if Live(p, b, n, s) {
      var x :| n <= x < |b| && b[x] && Match(s, p, x);
      assert b'[x];
    }
  }

  // ----- the simulation

  method SkipStars(p: CString, i: nat) returns (j: nat)
    requires i <= |p|
    ensures j == AfterStars(p, i)
  {
    j := i;
    while At(p, j) == STAR
      invariant i <= j <= |p| && AfterStars(p, j) == AfterStars(p, i)
      decreases |p| - j
    {
      j := j + 1;
    }
  }

  /** The bracket expression at i, up to its end, or 0 if it has none; and whether it matches c. */
  method ReadBracket(p: CString, i: nat, c: Code) returns (j: nat, matches: bool)
    requires i < |p| && p[i] == OPEN
    ensures j == ElementEnd(p, i) && (j != 0 ==> matches == ElementMatches(p, i, c))
  {
    j, matches := i + 1, false;
    var negate := false;
    if At(p, j) == BANG || At(p, j) == CARET {
      j := j + 1;
      negate := true;
    }
    if At(p, j) == 0 {
      return 0, false;
    }
    ghost var first := j;
    while true
      invariant first <= j < |p|
      invariant BracketEnd(p, j) == BracketEnd(p, first)
      invariant InBracket(p, first, c) <==> matches || InBracket(p, j, c)
      decreases |p| - j
    {
      if At(p, j + 1) == DASH && At(p, j + 2) != CLOSE && At(p, j + 2) != 0 {
        if c >= At(p, j) && c <= At(p, j + 2) {
          matches := true;
        }
        j := j + 3;
      } else {
        if c == At(p, j) {
          matches := true;
        }
        j := j + 1;
      }
      if At(p, j) == 0 {
        return 0, false;
      }
      if At(p, j) == CLOSE {
        break;
      }
    }
    j := j + 1;
    if negate {
      matches := !matches;
    }
  }

  /** Marks where the pattern can go on after j. */
  method Mark(p: CString, possible: array<bool>, j: nat, largest: nat) returns (largest': nat)
    requires possible.Length == |p| + 1 && j <= |p|
    modifies possible
    ensures possible[..] == Marked(p, old(possible[..]), j)
    ensures largest' == if AfterStars(p, j) > largest then AfterStars(p, j) else largest
  {
    possible[j] := true;
    var k := SkipStars(p, j);
    possible[k] := true;
    largest' := if k > largest then k else largest;
  }

  /** The next marked position above the smallest one, which is no longer marked. */
  method Raise(possible: array<bool>, smallest: nat, largest: nat) returns (alive: bool, smallest': nat)
    requires smallest <= largest < possible.Length - 1 || smallest < largest < possible.Length
    requires Window(possible[..], smallest, largest) && !possible[smallest]
    ensures alive ==> smallest < smallest' <= largest && Window(possible[..], smallest', largest)
    ensures !alive ==> forall x :: 0 <= x < possible.Length ==> !possible[x]
  {
    smallest' := smallest + 1;
    while !possible[smallest']
      invariant smallest < smallest' < possible.Length
      invariant forall x :: 0 <= x < smallest' ==> !possible[x]
      decreases largest - smallest'
    {
      if smallest' >= largest {
        return false, smallest';
      }
      smallest' := smallest' + 1;
    }
    alive := true;
  }

  /** The next marked position below the largest one, which is no longer marked. */
  method Lower(possible: array<bool>, smallest: nat, largest: nat) returns (alive: bool, largest': nat)
    requires largest < possible.Length && Window(possible[..], smallest, largest) && !possible[largest]
    ensures alive ==> smallest <= largest' < largest && possible[largest'] && Window(possible[..], smallest, largest')
    ensures !alive ==> forall x :: 0 <= x < possible.Length ==> !possible[x]
  {
    largest' := largest;
    while true
      invariant largest' <= largest && forall x :: largest' <= x < possible.Length ==> !possible[x]
      decreases largest'
    {
      if largest' <= smallest {
        return false, largest';
      }
      largest' := largest' - 1;
      if possible[largest'] {
        break;
      }
    }
    alive := true;
  }

  lemma {:induction false} HalfJump(p: CString, b0: seq<bool>, b: seq<bool>, m: nat, n: nat, c: Code, s: CString)
    requires Half(p, b0, b, n, c, s) && m <= n && forall x :: m <= x < n ==> !b[x]
    ensures Half(p, b0, b, m, c, s)
    decreases n
  {
    if m < n {
      HalfSkip(p, b0, b, n - 1, c, s);
      HalfJump(p, b0, b, m, n - 1, c, s);
    }
  }

  lemma HalfDone(p: CString, b0: seq<bool>, b: seq<bool>, n: nat, c: Code, s: CString)
    requires Half(p, b0, b, n, c, s) && forall x :: 0 <= x < n ==> !b[x]
    ensures Ready(p, b) && (Live(p, b, 0, s) <==> Live(p, b0, 0, [c] + s))
  {
    HalfJump(p, b0, b, 0, n, c, s);
  }

  lemma HalfOver(p: CString, b0: seq<bool>, b: seq<bool>, n: nat, c: Code, s: CString)
    requires Half(p, b0, b, n, c, s) && forall x :: 0 <= x < |b| ==> !b[x]
    ensures !Live(p, b0, 0, [c] + s)
  {
    HalfDone(p, b0, b, n, c, s);
  }

  lemma UnclosedBracket(p: CString, b0: seq<bool>, i: nat, s: CString)
    requires Ready(p, b0) && i < |p| && b0[i] && p[i] == OPEN && ElementEnd(p, i) == 0
    ensures !Live(p, b0, 0, s)
  {
    forall x | 0 <= x < |b0| && b0[x] ensures !Match(s, p, x) {
      DoomedMatchesNothing(s, p, x);
    }
  }

  lemma MarkedBefore(p: CString, b0: seq<bool>, b: seq<bool>, i: nat, c: Code, s: CString)
    requires Half(p, b0, b, i + 1, c, s) && b[i]
    ensures Ready(p, b0) && b0[i] && c != 0
  {
    assert b[..i + 1][i] == b0[..i + 1][i];
  }

  method SetMark(possible: array<bool>, i: nat, mark: bool)
    requires i < possible.Length
    modifies possible
    ensures possible[..] == old(possible[..])[i := mark]
  {
    possible[i] := mark;
  }

  /** A star stays possible, and so does what follows the stars. */
  method VisitStar(p: CString, possible: array<bool>, i: nat, c: Code, largest: nat, ghost b0: seq<bool>,
                   ghost s: CString)
    returns (largest': nat)
    requires possible.Length == |p| + 1 && i < |p| && possible[i] && i <= largest <= |p| && p[i] == STAR
    requires Half(p, b0, possible[..], i + 1, c, s)
    modifies possible
    ensures Half(p, b0, possible[..], i, c, s) && possible[i] && largest <= largest' <= |p|
    ensures forall x :: 0 <= x < possible.Length && possible[x] ==> old(possible[x]) || i < x <= largest'
  {
    hide *;
    StarsAfter(p, i);
    HalfStar(p, b0, possible[..], i, c, s);
    var j := SkipStars(p, i + 1);
    SetMark(possible, j, true);
    OneMarked(old(possible[..]), j);
    largest' := if j > largest then j else largest;
  }

  lemma StarsAfter(p: CString, i: nat)
    requires i < |p| && p[i] == STAR
    ensures At(p, i) == STAR && AfterStars(p, i) == AfterStars(p, i + 1)
  {
  }

  lemma OneMarked(b: seq<bool>, j: nat)
    requires j < |b|
    ensures forall x :: 0 <= x < |b| ==> b[j := true][x] == (b[x] || x == j)
  {
  }

  lemma MarkedAre(p: CString, b: seq<bool>, j: nat)
    requires |b| == |p| + 1 && j <= |p|
    ensures |Marked(p, b, j)| == |b| && j <= AfterStars(p, j) <= |p|
    ensures forall x :: 0 <= x < |b| ==> Marked(p, b, j)[x] == (b[x] || x == j || x == AfterStars(p, j))
  {
  }

  /** The end of the element at i, or 0 if it is a bracket that is never closed, and whether the character matches. */
  method ReadElement(p: CString, i: nat, c: Code) returns (j: nat, matches: bool)
    requires i < |p| && p[i] != STAR && c != 0
    ensures j == ElementEnd(p, i) && (j != 0 ==> i < j <= |p| && matches == ElementMatches(p, i, c))
    ensures j == 0 ==> p[i] == OPEN
  {
    j, matches := i + 1, p[i] == QUESTION || p[i] == c;
    if p[i] == OPEN {
      j, matches := ReadBracket(p, i, c);
    }
  }

  /** An element goes, and if the character matches what follows it becomes possible. */
  method VisitElement(p: CString, possible: array<bool>, i: nat, c: Code, largest: nat, j: nat, matches: bool,
                      ghost b0: seq<bool>, ghost s: CString)
    returns (largest': nat)
    requires possible.Length == |p| + 1 && i < |p| && possible[i] && i <= largest <= |p| && p[i] != STAR
    requires i < j <= |p| && j == ElementEnd(p, i) && matches == ElementMatches(p, i, c)
    requires Half(p, b0, possible[..], i + 1, c, s)
    modifies possible
    ensures Half(p, b0, possible[..], i, c, s) && !possible[i] && largest <= largest' <= |p|
    ensures forall x :: 0 <= x < possible.Length && possible[x] ==> old(possible[x]) || i < x <= largest'
  {
    hide *;
    largest' := largest;
    MarkedAre(p, possible[..], j);
    if matches {
      HalfHit(p, b0, possible[..], i, c, s);
      largest' := Mark(p, possible, j, largest);
    } else {
      HalfMiss(p, b0, possible[..], i, c, s);
    }
    SetMark(possible, i, false);
  }

  /** Follows one marked position, not the end of the pattern, over the character. */
  method Visit(p: CString, possible: array<bool>, i: nat, c: Code, largest: nat, ghost b0: seq<bool>, ghost s: CString)
    returns (closed: bool, largest': nat)
    requires possible.Length == |p| + 1 && i < |p| && possible[i] && i <= largest <= |p|
    requires Half(p, b0, possible[..], i + 1, c, s)
    modifies possible
    ensures !closed ==> !Live(p, b0, 0, [c] + s)
    ensures closed ==> Half(p, b0, possible[..], i, c, s)
    ensures closed ==> possible[i] == (p[i] == STAR) && largest <= largest' <= |p|
    ensures closed ==> forall x :: 0 <= x < possible.Length && possible[x] ==> old(possible[x]) || i < x <= largest'
  {
    hide *;
    MarkedBefore(p, b0, possible[..], i, c, s);
    if p[i] == STAR {
      largest' := VisitStar(p, possible, i, c, largest, b0, s);
      return true, largest';
    }
    var j, matches := ReadElement(p, i, c);
    if j == 0 {
      UnclosedBracket(p, b0, i, [c] + s);
      return false, largest;
    }
    largest' := VisitElement(p, possible, i, c, largest, j, matches, b0, s);
    closed := true;
  }

  /** Moves all marked positions over one character; s is what follows it. */
  method Advance(p: CString, possible: array<bool>, c: Code, lo: nat, hi: nat, ghost s: CString)
    returns (alive: bool, smallest: nat, largest: nat)
    requires possible.Length == |p| + 1 && c != 0 && lo <= hi <= |p|
    requires Ready(p, possible[..]) && Window(possible[..], lo, hi)
    modifies possible
    ensures alive ==> smallest <= largest <= |p| && Ready(p, possible[..]) && Window(possible[..], smallest, largest)
    ensures alive ==> (Live(p, possible[..], 0, s) <==> old(Live(p, possible[..], 0, [c] + s)))
    ensures !alive ==> !old(Live(p, possible[..], 0, [c] + s))
  {
    hide Live, Closed, Even;
    smallest, largest := lo, hi;
    ghost var b0 := possible[..];
    var i: int := hi;
    HalfStart(p, b0, hi, c, s);
    while i >= smallest
      invariant lo - 1 <= i <= |p| && lo <= smallest <= largest <= |p|
      invariant smallest == lo || i == lo - 1
      invariant Window(possible[..], smallest, largest) && (forall x :: 0 <= x < lo ==> !possible[x])
      invariant Half(p, b0, possible[..], i + 1, c, s)
      decreases i
    {
      if !possible[i] {
        HalfSkip(p, b0, possible[..], i, c, s);
        i := i - 1;
      } else if At(p, i) == 0 {
        i, alive, largest := LeaveEnd(p, possible, smallest, largest, c, b0, s);
        if !alive {
          return;
        }
      } else {
        var closed;
        closed, largest := Visit(p, possible, i, c, largest, b0, s);
        if !closed {
          return false, smallest, largest;
        }
        if p[i] != STAR {
          if i == smallest {
            alive, smallest := Raise(possible, smallest, largest);
            if !alive {
              HalfOver(p, b0, possible[..], i, c, s);
              return;
            }
          }
          if i == largest {
            alive, largest := Lower(possible, smallest, largest);
            if !alive {
              HalfOver(p, b0, possible[..], i, c, s);
              return;
            }
          }
        }
        i := i - 1;
      }
    }
    HalfDone(p, b0, possible[..], i + 1, c, s);
    alive := true;
  }

  lemma HalfStart(p: CString, b: seq<bool>, hi: nat, c: Code, s: CString)
    requires Ready(p, b) && hi <= |p| && Window(b, 0, hi) && c != 0
    ensures Half(p, b, b, hi + 1, c, s)
  {
  }

  /** The end of the pattern matches no character; goes on below it. */
  method LeaveEnd(p: CString, possible: array<bool>, smallest: nat, hi: nat, c: Code, ghost b0: seq<bool>,
                  ghost s: CString)
    returns (i: int, alive: bool, largest: nat)
    requires possible.Length == |p| + 1 && possible[|p|] && smallest <= hi <= |p| && Window(possible[..], smallest, hi)
    requires Half(p, b0, possible[..], |p| + 1, c, s)
    modifies possible
    ensures alive ==> i == largest && smallest <= largest < |p| && Window(possible[..], smallest, largest)
    ensures alive ==> Half(p, b0, possible[..], i + 1, c, s)
    ensures !alive ==> !Live(p, b0, 0, [c] + s)
  {
    HalfEnd(p, b0, possible[..], c, s);
    ghost var b := possible[..];
    possible[|p|] := false;
    assert possible[..] == b[|p| := false];
    alive, largest := Lower(possible, smallest, hi);
    if alive {
      HalfJump(p, b0, possible[..], largest + 1, |p|, c, s);
    } else {
      HalfOver(p, b0, possible[..], |p|, c, s);
    }
    i := largest;
  }

  lemma LiveAtEnd(p: CString, b: seq<bool>)
    requires Ready(p, b)
    ensures Live(p, b, 0, []) <==> b[|p|]
  {
    if Live(p, b, 0, []) {
      var x :| 0 <= x < |b| && b[x] && Match([], p, x);
      AfterStarsMatch([], p, x);
    }
  }

  lemma FirstMarks(p: CString, b: seq<bool>, s: CString)
    requires |b| == |p| + 1 && forall x :: 0 <= x < |b| ==> b[x] == (x == 0 || x == AfterStars(p, 0))
    ensures Ready(p, b) && Window(b, 0, AfterStars(p, 0))
    ensures Live(p, b, 0, s) <==> Match(s, p, 0)
  {
    DoomedAfterStars(p, 0);
    AfterStarsMatch(s, p, 0);
  }

  /** globmatch */
  method GlobMatch(str: CString, pattern: CString) returns (r: bool)
    ensures r <==> |pattern| <= 0x7fff_ffff && Match(str, pattern, 0)
  {
    if |pattern| > INT_MAX {
      return false;
    }
    var possible := new bool[|pattern| + 1](_ => false);
    var smallest: nat, largest: nat, alive := 0, 0, true;
    possible[0] := true;
    largest := SkipStars(pattern, 0);
    possible[largest] := true;
    FirstMarks(pattern, possible[..], str);
    assert str[0..] == str;
    hide Live, Match, Ready, Window;
    for k := 0 to |str|
      invariant smallest <= largest <= |pattern|
      invariant Ready(pattern, possible[..]) && Window(possible[..], smallest, largest)
      invariant Live(pattern, possible[..], 0, str[k..]) <==> Match(str, pattern, 0)
    {
      assert str[k..] == [str[k]] + str[k + 1..];
      alive, smallest, largest := Advance(pattern, possible, str[k], smallest, largest, str[k + 1..]);
      if !alive {
        return false;
      }
    }
    LiveAtEnd(pattern, possible[..]);
    return possible[|pattern|];
  }
}
