/** What shell patterns mean, piece by piece, and that globmatch.c finds exactly that. */
module GlobPieces {
  import opened CText
  import opened GlobMatch
  import Sequences

  /** One character of a set, or a range of them. */
  datatype Item = One(c: Code) | Range(low: Code, high: Code)

  /** Both an exclamation mark and a circumflex make a set stand for all other characters. */
  datatype Mark = Plain | Bang | Caret

  datatype Piece = AnyString | AnyCharacter | Literal(c: Code) | OneOf(mark: Mark, items: seq<Item>)

  // ----- what pieces stand for

  predicate Contains(i: Item, c: Code) {
    match i
    case One(d) => c == d
    case Range(low, high) => low <= c <= high
  }

  predicate InSet(items: seq<Item>, c: Code) { exists i :: i in items && Contains(i, c) }

  /** The characters that a piece stands for, if it stands for characters. */
  predicate Accepts(p: Piece, c: Code) {
    match p
    case AnyString => false
    case AnyCharacter => true
    case Literal(d) => c == d
    case OneOf(mark, items) => InSet(items, c) != (mark != Plain)
  }

  /** The string is cut into parts, one for each piece. */
  ghost predicate Denotes(pieces: seq<Piece>, s: seq<Code>)
    decreases |pieces|
  {
    if pieces == [] then s == []
    else if pieces[0] == AnyString then exists k :: 0 <= k <= |s| && Denotes(pieces[1..], s[k..])
    else s != [] && Accepts(pieces[0], s[0]) && Denotes(pieces[1..], s[1..])
  }

  // ----- how they are written

  function ItemText(i: Item): seq<Code> {
    match i
    case One(c) => [c]
    case Range(low, high) => [low, '-' as int, high]
  }

  function ItemsText(items: seq<Item>): seq<Code> {
    if items == [] then [] else ItemText(items[0]) + ItemsText(items[1..])
  }

  function MarkText(mark: Mark): seq<Code> {
    match mark
    case Plain => []
    case Bang => ['!' as int]
    case Caret => ['^' as int]
  }

  function PieceText(p: Piece): seq<Code> {
    match p
    case AnyString => ['*' as int]
    case AnyCharacter => ['?' as int]
    case Literal(c) => [c]
    case OneOf(mark, items) => ['[' as int] + MarkText(mark) + ItemsText(items) + [']' as int]
  }

  function Text(pieces: seq<Piece>): seq<Code> {
    if pieces == [] then [] else PieceText(pieces[0]) + Text(pieces[1..])
  }

  function Start(i: Item): Code { if i.One? then i.c else i.low }

  /**
    * The items can be told apart: no closing bracket but as the very first character, and no hyphen between two
    * characters but in a range.
    */
  predicate WellSet(items: seq<Item>, first: bool) {
    items != [] ==>
      && Start(items[0]) != 0 && (first || Start(items[0]) != ']' as int)
      && (items[0].Range? ==> items[0].high != 0 && items[0].high != ']' as int)
      && (items[0].One? && |items| > 1 && Start(items[1]) == '-' as int ==> |items| == 2 && items[1].One?)
      && WellSet(items[1..], false)
  }

  predicate WellFormed(p: Piece) {
    match p
    case AnyString => true
    case AnyCharacter => true
    case Literal(c) => c != 0 && c != '*' as int && c != '?' as int && c != '[' as int
    case OneOf(mark, items) =>
      && items != [] && WellSet(items, true)
      && (mark == Plain ==> Start(items[0]) != '!' as int && Start(items[0]) != '^' as int)
  }

  // ----- reading a set

  /** What stands at a place in the pattern. */
  ghost predicate Stands(p: seq<Code>, j: nat, text: seq<Code>) { j + |text| <= |p| && p[j..j + |text|] == text }

  lemma StandsAt(p: seq<Code>, j: nat, a: seq<Code>, b: seq<Code>)
    requires Stands(p, j, a + b)
    ensures Stands(p, j, a) && Stands(p, j + |a|, b)
  {
    var t := a + b;
    assert p[j..j + |t|][..|a|] == p[j..j + |a|] && t[..|a|] == a;
    assert p[j..j + |t|][|a|..] == p[j + |a|..j + |t|] && t[|a|..] == b;
  }

  lemma CharacterAt(p: seq<Code>, j: nat, text: seq<Code>, k: nat)
    requires Stands(p, j, text) && k < |text|
    ensures j + k < |p| && At(p, j + k) == p[j + k] == text[k]
  {
    assert p[j..j + |text|][k] == p[j + k];
  }

  /** The first item of a set, and what follows it. */
  lemma SetNext(items: seq<Item>, first: bool, c: Code)
    requires items != [] && WellSet(items, first)
    ensures var i, more := items[0], items[1..]; var rest := ItemsText(more) + [']' as int];
      && 0 < |ItemText(i)| && |ItemsText(items)| == |ItemText(i)| + |ItemsText(more)|
      && Start(i) != 0 && (i.Range? ==> i.high != 0 && i.high != ']' as int) && WellSet(more, false)
      && ItemsText(items) + [']' as int] == ItemText(i) + rest && rest != []
      && (i.One? && rest[0] == '-' as int ==> |rest| > 1 && rest[1] == ']' as int)
      && (more == [] ==> rest == [']' as int]) && (more != [] ==> rest[0] != ']' as int && rest[0] != 0)
      && (InSet(items, c) <==> Contains(i, c) || InSet(more, c)) && !InSet([], c)
  {
    var i, more := items[0], items[1..];
    var rest := ItemsText(more) + [']' as int];
    assert items == [i] + more;
    assert ItemsText(items) == ItemText(i) + ItemsText(more);
    assert more != [] ==> rest[0] == Start(more[0]);
    if i.One? && rest[0] == '-' as int {
      assert more == [One('-' as int)] && more[1..] == [];
      assert ItemsText(more) == ['-' as int];
    }
  }

  lemma BracketNext(p: CString, j: nat, k: nat, c: Code)
    requires j < |p| && k == NextItem(p, j) < |p|
    ensures BracketEnd(p, j) == if p[k] == ']' as int then k + 1 else BracketEnd(p, k)
    ensures InBracket(p, j, c) <==> InItem(p, j, c) || (p[k] != ']' as int && InBracket(p, k, c))
  {
  }

  /** One item of a set, and what comes after it. */
  lemma SetStep(p: CString, j: nat, items: seq<Item>, first: bool, c: Code)
    requires items != [] && WellSet(items, first) && Stands(p, j, ItemsText(items) + [']' as int])
    ensures var more, k := items[1..], j + |ItemText(items[0])|;
      && j < |p| && Stands(p, k, ItemsText(more) + [']' as int]) && WellSet(more, false)
      && |ItemsText(items)| == |ItemText(items[0])| + |ItemsText(more)| && (more == [] ==> |ItemsText(more)| == 0)
      && BracketEnd(p, j) == (if more == [] then k + 1 else BracketEnd(p, k))
      && (InBracket(p, j, c) <==> Contains(items[0], c) || (more != [] && InBracket(p, k, c)))
      && (InSet(items, c) <==> Contains(items[0], c) || (more != [] && InSet(more, c)))
  {
    var i, more := items[0], items[1..];
    var rest := ItemsText(more) + [']' as int];
    var k := j + |ItemText(i)|;
    hide *;
    SetNext(items, first, c);
    StandsAt(p, j, ItemText(i), rest);
    ReadItem(p, j, i, rest, c);
    CharacterAt(p, k, rest, 0);
    BracketNext(p, j, k, c);
  }

  /** The items and the closing bracket: where the set ends, and which characters are in it. */
  lemma {:induction false} ReadSet(p: CString, j: nat, items: seq<Item>, first: bool, c: Code)
    requires items != [] && WellSet(items, first) && Stands(p, j, ItemsText(items) + [']' as int])
    ensures j < |p| && BracketEnd(p, j) == j + |ItemsText(items)| + 1
    ensures InBracket(p, j, c) <==> InSet(items, c)
    decreases |items|
  {
    hide *;
    SetStep(p, j, items, first, c);
    if items[1..] != [] {
      ReadSet(p, j + |ItemText(items[0])|, items[1..], false, c);
    }
  }

  lemma ReadItem(p: CString, j: nat, i: Item, rest: seq<Code>, c: Code)
    requires Start(i) != 0 && (i.Range? ==> i.high != 0 && i.high != ']' as int)
    requires Stands(p, j, ItemText(i)) && Stands(p, j + |ItemText(i)|, rest) && rest != []
    requires i.One? && rest[0] == '-' as int ==> |rest| > 1 && rest[1] == ']' as int
    ensures j < |p| && NextItem(p, j) == j + |ItemText(i)| && (InItem(p, j, c) <==> Contains(i, c))
  {
    CharacterAt(p, j, ItemText(i), 0);
    if i.Range? {
      CharacterAt(p, j, ItemText(i), 1);
      CharacterAt(p, j, ItemText(i), 2);
    } else {
      CharacterAt(p, j + 1, rest, 0);
      if rest[0] == '-' as int {
        CharacterAt(p, j + 1, rest, 1);
      }
    }
  }

  lemma ReadMark(p: CString, i: nat, mark: Mark, rest: seq<Code>)
    requires Stands(p, i, ['[' as int] + MarkText(mark) + rest) && rest != []
    requires mark == Plain ==> rest[0] != '!' as int && rest[0] != '^' as int
    ensures i < |p| && p[i] == '[' as int && (Negated(p, i) <==> mark != Plain)
    ensures FirstItem(p, i) == i + 1 + |MarkText(mark)| < |p| && Stands(p, FirstItem(p, i), rest)
  {
    var head := ['[' as int] + MarkText(mark);
    StandsAt(p, i, head, rest);
    CharacterAt(p, i, head, 0);
    CharacterAt(p, i + |head|, rest, 0);
    if mark != Plain {
      CharacterAt(p, i, head, 1);
    }
  }

  /** One piece of the pattern that stands for a character: where it ends, and which characters it accepts. */
  lemma ReadPiece(p: CString, i: nat, piece: Piece, c: Code)
    requires WellFormed(piece) && piece != AnyString && Stands(p, i, PieceText(piece))
    ensures i < |p| && p[i] != '*' as int && ElementEnd(p, i) == i + |PieceText(piece)|
    ensures ElementMatches(p, i, c) <==> Accepts(piece, c)
  {
    match piece
    case AnyCharacter => CharacterAt(p, i, PieceText(piece), 0);
    case Literal(d) => CharacterAt(p, i, PieceText(piece), 0);
    case OneOf(mark, items) =>
      var rest := ItemsText(items) + [']' as int];
      assert PieceText(piece) == ['[' as int] + MarkText(mark) + rest;
      assert rest != [] && rest[0] == Start(items[0]);
      hide ItemsText, WellSet, Stands, BracketEnd, InBracket, Negated;
      ReadMark(p, i, mark, rest);
      ReadSet(p, FirstItem(p, i), items, true, c);
  }

  // ----- whole patterns

  ghost predicate AllWellFormed(pieces: seq<Piece>) { forall p :: p in pieces ==> WellFormed(p) }

  lemma MatchNext(s: CString, p: CString, i: nat)
    requires i < |p| && p[i] != '*' as int && ElementEnd(p, i) != 0
    ensures Match(s, p, i) <==> s != [] && ElementMatches(p, i, s[0]) && Match(s[1..], p, ElementEnd(p, i))
  {
  }

  lemma {:induction false} MatchFrom(s: CString, p: CString, i: nat, pieces: seq<Piece>)
    requires AllWellFormed(pieces) && Stands(p, i, Text(pieces)) && i + |Text(pieces)| == |p|
    ensures Match(s, p, i) <==> Denotes(pieces, s)
    decreases |pieces|
  {
    if pieces != [] {
      var piece, more := pieces[0], pieces[1..];
      assert piece in pieces && AllWellFormed(more);
      assert Text(pieces) == PieceText(piece) + Text(more);
      StandsAt(p, i, PieceText(piece), Text(more));
      var k := i + |PieceText(piece)|;
      if piece == AnyString {
        CharacterAt(p, i, PieceText(piece), 0);
        StarMatches(s, p, i);
        forall n: nat | n <= |s| ensures Match(s[n..], p, i + 1) <==> Denotes(more, s[n..]) {
          MatchFrom(s[n..], p, k, more);
        }
      } else {
        ReadPiece(p, i, piece, if s == [] then 0 else s[0]);
        MatchNext(s, p, i);
        if s != [] {
          MatchFrom(s[1..], p, k, more);
        }
      }
    }
  }

  /** A string matches the text of a pattern exactly if it is cut into what the pieces stand for. */
  lemma MatchIsMeaning(s: CString, p: CString, pieces: seq<Piece>)
    requires AllWellFormed(pieces) && p == Text(pieces)
    ensures Match(s, p, 0) <==> Denotes(pieces, s)
  {
    assert p[0..|p|] == p;
    MatchFrom(s, p, 0, pieces);
  }

  // ----- and there are no other patterns

  /** The items of a set that is closed. */
  lemma {:induction false} ItemsOf(p: CString, j: nat, first: bool) returns (items: seq<Item>)
    requires j < |p| && BracketEnd(p, j) != 0 && (first || p[j] != ']' as int)
    ensures items != [] && WellSet(items, first) && Start(items[0]) == p[j]
    ensures Stands(p, j, ItemsText(items) + [']' as int]) && BracketEnd(p, j) == j + |ItemsText(items)| + 1
    decreases |p| - j
  {
    var i := if IsRange(p, j) then Range(p[j], p[j + 2]) else One(p[j]);
    var k := NextItem(p, j);
    assert k == j + |ItemText(i)| < |p| && Stands(p, j, ItemText(i));
    if p[k] == ']' as int {
      items := [i];
      assert ItemsText(items) + [']' as int] == ItemText(i) + [']' as int] && items[1..] == [];
      assert p[j..k + 1] == p[j..k] + [p[k]];
    } else {
      BracketNext(p, j, k, 0);
      var more := ItemsOf(p, k, false);
      HyphenAlone(p, j, k, more);
      items := [i] + more;
      assert items[1..] == more;
      ItemThen(p, j, i, more);
    }
  }

  lemma {:induction false} TextLonger(items: seq<Item>)
    ensures |ItemsText(items)| >= |items|
  {
    if items != [] {
      TextLonger(items[1..]);
    }
  }

  /** A hyphen after a character that does not begin a range is the last item. */
  lemma HyphenAlone(p: CString, j: nat, k: nat, more: seq<Item>)
    requires j < |p| && k == NextItem(p, j) < |p| && BracketEnd(p, k) != 0
    requires more != [] && WellSet(more, false) && Start(more[0]) == p[k]
    requires Stands(p, k, ItemsText(more) + [']' as int]) && BracketEnd(p, k) == k + |ItemsText(more)| + 1
    ensures !IsRange(p, j) && p[k] == '-' as int ==> |more| == 1 && more[0].One?
  {
    if !IsRange(p, j) && p[k] == '-' as int {
      assert BracketEnd(p, k) == k + 2;
      TextLonger(more);
      assert |more| == 1;
      assert more == [more[0]] && ItemsText(more) == ItemText(more[0]) + ItemsText(more[1..]);
    }
  }

  lemma ItemThen(p: CString, j: nat, i: Item, more: seq<Item>)
    requires Stands(p, j, ItemText(i)) && Stands(p, j + |ItemText(i)|, ItemsText(more) + [']' as int])
    ensures Stands(p, j, ItemsText([i] + more) + [']' as int])
    ensures |ItemsText([i] + more)| == |ItemText(i)| + |ItemsText(more)|
  {
    var rest := ItemsText(more) + [']' as int];
    assert ([i] + more)[1..] == more;
    assert ItemsText([i] + more) + [']' as int] == ItemText(i) + rest;
    StandsBoth(p, j, ItemText(i), rest);
  }

  lemma StandsBoth(p: seq<Code>, j: nat, a: seq<Code>, b: seq<Code>)
    requires Stands(p, j, a) && Stands(p, j + |a|, b)
    ensures Stands(p, j, a + b)
  {
    assert p[j..j + |a|] + p[j + |a|..j + |a| + |b|] == p[j..j + |a| + |b|];
  }

  lemma MarkAt(p: CString, i: nat) returns (mark: Mark)
    requires i < |p| && p[i] == '[' as int && ElementEnd(p, i) != 0
    ensures var head := ['[' as int] + MarkText(mark); var j := i + |head|;
      && Stands(p, i, head) && j == FirstItem(p, i) < |p| && ElementEnd(p, i) == BracketEnd(p, j)
      && (mark == Plain ==> p[j] != '!' as int && p[j] != '^' as int)
  {
    mark := if At(p, i + 1) == '!' as int then Bang else if At(p, i + 1) == '^' as int then Caret else Plain;
    assert p[i..i + 1] == ['[' as int] && (i + 1 < |p| ==> p[i..i + 2] == ['[' as int, p[i + 1]]);
    assert ['[' as int] + MarkText(mark) == if mark == Plain then ['[' as int] else ['[' as int, At(p, i + 1)];
  }

  lemma SetAt(p: CString, i: nat) returns (piece: Piece)
    requires i < |p| && p[i] == '[' as int && ElementEnd(p, i) != 0
    ensures WellFormed(piece) && Stands(p, i, PieceText(piece)) && piece.OneOf?
    ensures i + |PieceText(piece)| == ElementEnd(p, i)
  {
    var mark := MarkAt(p, i);
    var head := ['[' as int] + MarkText(mark);
    var j := i + |head|;
    hide ElementEnd, BracketEnd, FirstItem, WellSet, ItemsText, Stands, MarkText;
    var items := ItemsOf(p, j, true);
    piece := OneOf(mark, items);
    StandsBoth(p, i, head, ItemsText(items) + [']' as int]);
    Sequences.Regroup(head, ItemsText(items), [']' as int]);
  }

  lemma PieceAt(p: CString, i: nat) returns (piece: Piece)
    requires i < |p| && (p[i] == '*' as int || ElementEnd(p, i) != 0)
    ensures WellFormed(piece) && Stands(p, i, PieceText(piece)) && (piece == AnyString <==> p[i] == '*' as int)
    ensures piece != AnyString ==> i + |PieceText(piece)| == ElementEnd(p, i)
  {
    if p[i] == '*' as int {
      piece := AnyString;
    } else if p[i] == '?' as int {
      piece := AnyCharacter;
    } else if p[i] != '[' as int {
      piece := Literal(p[i]);
    } else {
      piece := SetAt(p, i);
    }
  }

  lemma NoPieces()
    ensures Text([]) == [] && AllWellFormed([])
  {
  }

  lemma NotDoomed(p: CString, i: nat)
    requires i < |p| && !Doomed(p, i)
    ensures if p[i] == '*' as int then !Doomed(p, i + 1) else ElementEnd(p, i) != 0 && !Doomed(p, ElementEnd(p, i))
    ensures |PieceText(AnyString)| == 1
  {
    hide ElementEnd;
  }

  lemma Cut(p: seq<Code>, i: nat, k: nat)
    requires i <= k <= |p|
    ensures p[i..] == p[i..k] + p[k..]
  {
  }

  lemma TextThen(p: seq<Code>, i: nat, piece: Piece, more: seq<Piece>)
    requires WellFormed(piece) && AllWellFormed(more) && Stands(p, i, PieceText(piece))
    requires p[i + |PieceText(piece)|..] == Text(more)
    ensures AllWellFormed([piece] + more) && p[i..] == Text([piece] + more)
  {
    hide WellFormed, PieceText;
    Cut(p, i, i + |PieceText(piece)|);
    assert ([piece] + more)[0] == piece && ([piece] + more)[1..] == more;
  }

  lemma {:induction false} PiecesOf(p: CString, i: nat) returns (pieces: seq<Piece>)
    requires i <= |p| && !Doomed(p, i)
    ensures AllWellFormed(pieces) && p[i..] == Text(pieces)
    decreases |p| - i
  {
    hide *;
    if i == |p| {
      pieces := [];
      Sequences.Ends(p);
      NoPieces();
    } else {
      NotDoomed(p, i);
      var piece := PieceAt(p, i);
      var more := PiecesOf(p, i + |PieceText(piece)|);
      pieces := [piece] + more;
      TextThen(p, i, piece, more);
    }
  }

  /** Every pattern is the text of some pieces, or has a bracket that is never closed and matches nothing. */
  lemma EveryPattern(p: CString)
    ensures (exists pieces :: AllWellFormed(pieces) && Text(pieces) == p) || forall s: CString :: !Match(s, p, 0)
  {
    if Doomed(p, 0) {
      forall s: CString ensures !Match(s, p, 0) {
        DoomedMatchesNothing(s, p, 0);
      }
    } else {
      var pieces := PiecesOf(p, 0);
      assert p[0..] == p;
    }
  }
}
