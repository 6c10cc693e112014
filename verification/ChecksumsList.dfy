/** Lists of files with their hashes: writing them, and reading a line of them, in checksums.c. */
module ChecksumsList {
  import opened CText
  import opened Options
  import opened Checksums
  import C = ChecksumsCombine

  // ----- hashline_parse

  predicate InName(c: Code) { !IsBlank(c) && c != CR && c != NL }

  /** How many characters at the start of a text have a property. */
  function Run(s: seq<Code>, p: Code -> bool): (n: nat)
    ensures n <= |s| && (forall k :: 0 <= k < n ==> p(s[k])) && (n < |s| ==> !p(s[n]))
  {
    if s != [] && p(s[0]) then 1 + Run(s[1..], p) else 0
  }

  function SkipBlanks(s: seq<Code>): seq<Code> { s[Run(s, IsBlank)..] }

  datatype Line = Line(hash: seq<Code>, size: seq<Code>, name: seq<Code>)

  /** A hash in lower case, a size and a name without blanks, with blanks around the first two. */
  function ParseLine(s: seq<Code>): Option<Line> {
    var t := SkipBlanks(s);
    var h := Run(t, IsHex);
    ParseSizeName(t[..h], NoZeros(SkipBlanks(t[h..])))
  }

  function ParseSizeName(hash: seq<Code>, v: seq<Code>): Option<Line> {
    var n := Run(v, IsDigit);
    var w := SkipBlanks(v[n..]);
    if n == 0 || hash == [] || w == [] || Run(w, InName) < |w| then None else Some(Line(hash, v[..n], w))
  }

  lemma {:induction false} RunBefore(a: seq<Code>, b: seq<Code>, p: Code -> bool)
    requires (forall c :: c in a ==> p(c)) && (b == [] || !p(b[0]))
    ensures Run(a + b, p) == |a| && (a + b)[|a|..] == b && (a + b)[..|a|] == a
  {
    if a == [] {
      assert a + b == b;
    } else {
      assert (a + b)[1..] == a[1..] + b && a[0] in a;
      RunBefore(a[1..], b, p);
    }
  }

  // ----- the lists

  datatype Entry = Entry(name: CString, checksums: Checksums)

  function PartText(c: Checksums, t: C.Kind): seq<Code>
    requires C.Placed(c)
  {
    var p := C.PartOf(c, t);
    c.representation[p.ofs..p.ofs + p.len]
  }

  /** A line: a missing hash is shown as a dash. */
  function LineText(e: Entry, t: C.Kind): seq<Code>
    requires C.Placed(e.checksums)
  {
    var h := PartText(e.checksums, t);
    [SPACE] + (if h == [] then [DASH] else h) + [SPACE] + PartText(e.checksums, C.Length) + [SPACE] + e.name
  }

  ghost predicate AllPlaced(es: seq<Entry>) { forall e :: e in es ==> C.Placed(e.checksums) }

  /** All lines, each behind a newline. */
  function ListText(es: seq<Entry>, t: C.Kind): seq<Code>
    requires AllPlaced(es)
  {
    if es == [] then [] else ListText(es[..|es| - 1], t) + [NL] + LineText(es[|es| - 1], t)
  }

  /** Is the list of this kind left out?  Only that of md5sums may have dashes. */
  predicate Missing(es: seq<Entry>, t: C.Kind) {
    t != C.Md5 && exists e :: e in es && C.PartOf(e.checksums, t).len == 0
  }

  lemma SkipSpace(s: seq<Code>)
    requires s == [] || !IsBlank(s[0])
    ensures SkipBlanks([SPACE] + s) == s
  {
    RunBefore([SPACE], s, IsBlank);
  }

  lemma SizeNameReadBack(h: seq<Code>, size: seq<Code>, name: seq<Code>)
    requires h != [] && size != [] && (forall c :: c in size ==> IsDigit(c))
    requires name != [] && forall c :: c in name ==> InName(c)
    ensures ParseSizeName(h, size + ([SPACE] + name)) == Some(Line(h, size, name))
  {
    assert name[0] in name;
    RunBefore(size, [SPACE] + name, IsDigit);
    SkipSpace(name);
    RunBefore(name, [], InName);
    assert name + [] == name;
    hide Run, SkipBlanks;
  }

  /** A line with a hash in lower case, a proper size and a proper name is read back as it was written. */
  lemma LineReadBack(h: seq<Code>, size: seq<Code>, name: seq<Code>)
    requires h != [] && (forall c :: c in h ==> IsHex(c))
    requires size != [] && (forall c :: c in size ==> IsDigit(c)) && (|size| > 1 ==> size[0] != ZERO)
    requires name != [] && forall c :: c in name ==> InName(c)
    ensures ParseLine([SPACE] + h + [SPACE] + size + [SPACE] + name) == Some(Line(h, size, name))
  {
    var a := size + ([SPACE] + name);
    assert [SPACE] + h + [SPACE] + size + [SPACE] + name == [SPACE] + (h + ([SPACE] + a));
    assert size[0] in size && a[0] == size[0] && a[1] == if |size| > 1 then size[1] else SPACE;
    assert NoZeros(a) == a;
    hide Run, SkipBlanks, NoZeros, ParseLine, ParseSizeName;
    LineStart(h, a);
    SizeNameReadBack(h, size, name);
  }

  lemma LineStart(h: seq<Code>, a: seq<Code>)
    requires h != [] && (forall c :: c in h ==> IsHex(c)) && a != [] && !IsBlank(a[0])
    ensures ParseLine([SPACE] + (h + ([SPACE] + a))) == ParseSizeName(h, NoZeros(a))
  {
    var t := h + ([SPACE] + a);
    assert h[0] in h && t[0] == h[0];
    SkipSpace(t);
    RunBefore(h, [SPACE] + a, IsHex);
    SkipSpace(a);
    hide Run, SkipBlanks, NoZeros, ParseSizeName;
    assert t[..|h|] == h && t[|h|..] == [SPACE] + a;
  }

  /** A line with a dash for the hash is refused. */
  lemma DashLineRefused(size: seq<Code>, name: seq<Code>)
    ensures ParseLine([SPACE] + [DASH] + [SPACE] + size + [SPACE] + name) == None
  {
    var a := [SPACE] + size + [SPACE] + name;
    assert [SPACE] + [DASH] + [SPACE] + size + [SPACE] + name == [SPACE] + ([DASH] + a);
    SkipSpace([DASH] + a);
    RunBefore([], [DASH] + a, IsHex);
    assert [] + ([DASH] + a) == [DASH] + a;
  }

  /** Passes over the characters that have a property. */
  method Pass(s: CString, i: nat, p: Code -> bool) returns (k: nat)
    requires i <= |s|
    ensures k == i + Run(s[i..], p)
  {
    k := i;
    while k < |s| && p(s[k])
      invariant i <= k <= |s| && i + Run(s[i..], p) == k + Run(s[k..], p)
      decreases |s| - k
    {
      assert s[k..][1..] == s[k + 1..];
      k := k + 1;
    }
  }

  method PassBlanks(s: CString, i: nat) returns (k: nat)
    requires i <= |s|
    ensures i <= k <= |s| && s[k..] == SkipBlanks(s[i..])
  {
    k := Pass(s, i, IsBlank);
    Shift(s, i, k - i);
  }

  method PassZeros(s: CString, i: nat) returns (k: nat)
    requires i <= |s|
    ensures i <= k <= |s| && s[k..] == NoZeros(s[i..])
  {
    k := i;
    while At(s, k) == ZERO && k + 1 < |s| && IsDigit(s[k + 1])
      invariant i <= k <= |s| && NoZeros(s[k..]) == NoZeros(s[i..])
      decreases |s| - k
    {
      assert s[k..][1..] == s[k + 1..];
      k := k + 1;
    }
  }

  /** hashline_parse */
  method HashlineParse(s: CString) returns (r: Option<Line>)
    ensures r == ParseLine(s)
  {
    hide Run, SkipBlanks, NoZeros;
    assert s[0..] == s;
    var start := PassBlanks(s, 0);
    var p := Pass(s, start, IsHex);
    var hash := s[start..p];
    assert hash == s[start..][..p - start];
    Shift(s, start, p - start);
    p := PassBlanks(s, p);
    p := PassZeros(s, p);
    var sizeStart := p;
    p := Pass(s, p, IsDigit);
    var size := s[sizeStart..p];
    assert size == s[sizeStart..][..p - sizeStart];
    Shift(s, sizeStart, p - sizeStart);
    p := PassBlanks(s, p);
    var end := Pass(s, p, InName);
    r := if |size| == 0 || |hash| == 0 || end == p || end < |s| then None else Some(Line(hash, size, s[p..]));
  }

  // ----- checksumsarray_genfilelist

  /** The length of a line with its newline. */
  function LineLength(e: Entry, t: C.Kind): nat {
    var n := C.PartOf(e.checksums, t).len;
    4 + |e.name| + C.PartOf(e.checksums, C.Length).len + if n == 0 then 1 else n
  }

  lemma LineTextLength(e: Entry, t: C.Kind)
    requires C.Placed(e.checksums)
    ensures |LineText(e, t)| + 1 == LineLength(e, t)
  {
  }

  /** Puts characters into a buffer. */
  method Put(buf: array<Code>, p: nat, text: seq<Code>) returns (p': nat)
    requires p + |text| <= buf.Length
    modifies buf
    ensures p' == p + |text| && buf[..p'] == old(buf[..p]) + text
  {
    forall i | 0 <= i < |text| { buf[p + i] := text[i]; }
    p' := p + |text|;
  }

  lemma ListTextMore(es: seq<Entry>, i: nat, t: C.Kind)
    requires AllPlaced(es) && i < |es|
    ensures AllPlaced(es[..i]) && AllPlaced(es[..i + 1]) && C.Placed(es[i].checksums)
    ensures ListText(es[..i + 1], t) == ListText(es[..i], t) + [NL] + LineText(es[i], t)
  {
    assert es[..i + 1][..i] == es[..i];
  }

  /** The length of a list, found before it is written. */
  method ListLength(es: seq<Entry>, t: C.Kind) returns (len: nat)
    requires AllPlaced(es)
    ensures len == |ListText(es, t)|
  {
    len := 0;
    for i := 0 to |es|
      invariant len == |ListText(es[..i], t)|
    {
      ListTextMore(es, i, t);
      LineTextLength(es[i], t);
      len := len + LineLength(es[i], t);
    }
    assert es[..|es|] == es;
  }

  /** What has been written are the lines of the first i entries, and the newline that begins the next one. */
  ghost predicate ListPart(text: seq<Code>, p: nat, es: seq<Entry>, i: nat, t: C.Kind) {
    i <= |es| && AllPlaced(es[..i]) && p == |text| && text == ListText(es[..i], t) + [NL]
  }

  lemma ListOfNone(es: seq<Entry>, t: C.Kind, text: seq<Code>)
    requires text == [NL]
    ensures ListPart(text, 1, es, 0, t)
  {
    assert es[..0] == [];
  }

  lemma ListPartMore(text: seq<Code>, p: nat, es: seq<Entry>, i: nat, t: C.Kind)
    requires AllPlaced(es) && ListPart(text, p, es, i, t) && i < |es|
    ensures C.Placed(es[i].checksums) && p + |LineText(es[i], t)| <= |ListText(es, t)|
    ensures var more := text + LineText(es[i], t) + [NL]; ListPart(more, |more|, es, i + 1, t)
  {
    ListTextMore(es, i, t);
    ListGrows(es, i + 1, t);
    hide ListText, LineText, AllPlaced;
  }

  lemma ListPartEnd(text: seq<Code>, p: nat, es: seq<Entry>, t: C.Kind)
    requires AllPlaced(es) && ListPart(text, p, es, |es|, t)
    ensures p == |ListText(es, t)| + 1 && text[..p - 1] == ListText(es, t)
  {
    assert es[..|es|] == es;
    hide ListText;
  }

  /** One line, and the newline that begins the next one. */
  method PutLine(buf: array<Code>, p: nat, es: seq<Entry>, i: nat, t: C.Kind) returns (q: nat)
    requires AllPlaced(es) && i < |es| && p <= buf.Length == |ListText(es, t)| + 1 && ListPart(buf[..p], p, es, i, t)
    modifies buf
    ensures q <= buf.Length && ListPart(buf[..q], q, es, i + 1, t)
  {
    hide *;
    ListPartMore(buf[..p], p, es, i, t);
    q := Put(buf, p, LineText(es[i], t));
    q := Put(buf, q, [NL]);
  }

  /** Writes a list into a buffer of its length and a terminator, and fills it exactly. */
  method WriteList(es: seq<Entry>, t: C.Kind, len: nat) returns (buf: array<Code>)
    requires AllPlaced(es) && len == |ListText(es, t)|
    ensures fresh(buf) && buf.Length == len + 1 && buf[..len] == ListText(es, t) && buf[len] == 0
  {
    hide *;
    buf := new Code[len + 1](_ => 0);
    var p: nat := Put(buf, 0, [NL]);
    assert buf[..0] == [] && [] + [NL] == [NL];
    ListOfNone(es, t, buf[..p]);
    for i := 0 to |es|
      invariant p <= len + 1 && ListPart(buf[..p], p, es, i, t)
    {
      p := PutLine(buf, p, es, i, t);
    }
    ListPartEnd(buf[..p], p, es, t);
    p := p - 1;
    buf[p] := 0;
  }

  lemma {:induction false} ListGrows(es: seq<Entry>, i: nat, t: C.Kind)
    requires AllPlaced(es) && i <= |es|
    ensures AllPlaced(es[..i]) && |ListText(es[..i], t)| <= |ListText(es, t)|
    decreases |es| - i
  {
    if i < |es| {
      ListTextMore(es, i, t);
      ListGrows(es, i + 1, t);
    } else {
      assert es[..i] == es;
    }
  }

  /** checksumsarray_genfilelist, for one kind: no list if a hash is missing, but for the md5sums. */
  method GenFileList(es: seq<Entry>, t: C.Kind) returns (list: array?<Code>)
    requires AllPlaced(es)
    ensures list == null <==> Missing(es, t)
    ensures list != null ==> list[..] == ListText(es, t) + [0]
  {
    var missing := false;
    for i := 0 to |es|
      invariant missing <==> t != C.Md5 && exists k :: 0 <= k < i && C.PartOf(es[k].checksums, t).len == 0
    {
      if t != C.Md5 && C.PartOf(es[i].checksums, t).len == 0 {
        missing := true;
      }
    }
    assert missing <==> Missing(es, t);
    if missing {
      return null;
    }
    var len := ListLength(es, t);
    list := WriteList(es, t, len);
    assert list[..] == list[..len] + [list[len]];
  }

  lemma ValueText(c: Checksums, t: C.Kind)
    requires C.Placed(c) && C.Value(c, t).Some?
    ensures PartText(c, t) == C.Value(c, t).value && PartText(c, t) != []
  {
  }

  lemma EntryReadBack(e: Entry, t: C.Kind, h: seq<Code>, size: seq<Code>)
    requires C.Placed(e.checksums) && PartText(e.checksums, t) == h && PartText(e.checksums, C.Length) == size
    requires h != [] && (forall c :: c in h ==> IsHex(c))
    requires size != [] && (forall c :: c in size ==> IsDigit(c)) && (|size| > 1 ==> size[0] != ZERO)
    requires e.name != [] && forall c :: c in e.name ==> InName(c)
    ensures ParseLine(LineText(e, t)) == Some(Line(h, size, e.name))
  {
    hide ParseLine;
    LineReadBack(h, size, e.name);
  }

  /** Every line of a list that is not left out is read back, if its record and its name are proper. */
  lemma ListLineReadBack(name: CString, r: Record, t: C.Kind, hash: seq<Code>)
    requires C.WellFormed(r) && |Render(r)| < 0x1_0000 && name != [] && forall c :: c in name ==> InName(c)
    requires C.Known(r, t) == Some(hash) && forall c :: c in hash ==> IsHex(c)
    ensures C.Placed(Stored(r, 0))
             && ParseLine(LineText(Entry(name, Stored(r, 0)), t)) == Some(Line(hash, r.size, name))
  {
    var c := Stored(r, 0);
    C.StoredValues(r, 0);
    assert C.KnownAs(r, 0, t) == Some(hash) && C.KnownAs(r, 0, C.Length) == Some(r.size);
    hide Stored, C.Known, Render, C.KnownAs, HashesText;
    ValueText(c, t);
    ValueText(c, C.Length);
    EntryReadBack(Entry(name, c), t, hash, r.size);
  }
}
