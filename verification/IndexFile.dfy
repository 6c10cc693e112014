/** Cutting a stream into control chunks in one buffer, in place: indexfile.c. */
module IndexFile {
  import opened Strings

  const SPACE: Byte := 32
  const MARGIN := 2048

  // ----- what the chunks of a stream are

  /** A NUL becomes a space. */
  function Kept(c: Byte): Byte { if c == 0 then SPACE else c }

  /**
   The text up to the next blank line, and what comes after that line, for a
   stream of which a text has begun or not, and a line has just ended or not.
   Carriage returns do not count, and newlines in front of the text are skipped.
   */
  function Scan(s: seq<Byte>, begun: bool, newline: bool): (r: (seq<Byte>, seq<Byte>))
    ensures |r.1| <= |s| && |r.0| + |r.1| <= |s| && (r.0 != [] ==> |r.1| < |s|)
  {
    if s == [] then ([], [])
    else if s[0] == CR || (s[0] == NL && !begun) then Scan(s[1..], begun, newline)
    else if s[0] == NL && newline then ([], s[1..])
    else
      var (text, rest) := Scan(s[1..], true, s[0] == NL);
      ([Kept(s[0])] + text, rest)
  }

  /** A text without the newline at its end. */
  function Strip(text: seq<Byte>): seq<Byte> {
    if text != [] && text[|text| - 1] == NL then text[..|text| - 1] else text
  }

  function Next(s: seq<Byte>): (r: (seq<Byte>, seq<Byte>))
    ensures r.0 != [] ==> |r.1| < |s|
  {
    Scan(s, false, true)
  }

  function Chunks(s: seq<Byte>): seq<seq<Byte>>
    decreases |s|
  {
    var (text, rest) := Next(s);
    if text == [] then [] else [Strip(text)] + Chunks(rest)
  }

  /** The texts of the chunks, with the newlines at their ends. */
  function Texts(s: seq<Byte>): seq<seq<Byte>>
    decreases |s|
  {
    var (text, rest) := Next(s);
    if text == [] then [] else [text] + Texts(rest)
  }

  /** The number of lines in a stream. */
  function Lines(s: seq<Byte>): nat { if s == [] then 0 else (if s[0] == NL then 1 else 0) + Lines(s[1..]) }

  lemma LinesStep(s: seq<Byte>)
    requires s != []
    ensures Lines(s) == Lines(s[1..]) + if s[0] == NL then 1 else 0
  {
  }

  // ----- the reader

  /** The decompressor: what is still to come, in pieces that it chooses. */
  class Source {
    var data: seq<Byte>
    /** Has a read failed? */
    ghost var broken: bool

    /** uncompress_read: 0 at the end, -1 on an error, or else at least one byte. */
    method Read(buffer: array<Byte>, at: nat, max: nat) returns (n: int)
      requires max > 0 && at + max <= buffer.Length
      modifies this, buffer
      ensures -1 <= n <= max && broken == (old(broken) || n == -1)
      ensures forall i :: 0 <= i < at ==> buffer[i] == old(buffer[i])
      ensures n == 0 ==> old(data) == [] && data == []
      ensures n > 0 ==> old(data) == buffer[at..at + n] + data
    {
      if * {
        broken := true;
        return -1;
      }
      if data == [] {
        return 0;
      }
      n :| 0 < n <= max && n <= |data|;
      forall i | 0 <= i < n { buffer[at + i] := data[i]; }
      assert buffer[at..at + n] == data[..n];
      data := data[n..];
    }
  }

  /** Of the stream `whole` this text is taken, and `left` is left; a line has just ended or not. */
  ghost predicate Taken(whole: seq<Byte>, text: seq<Byte>, left: seq<Byte>, newline: bool) {
    var (more, rest) := Scan(left, text != [], newline);
    Next(whole) == (text + more, rest)
  }

  /** One character more that is not the end of the text. */
  lemma TakenMore(whole: seq<Byte>, text: seq<Byte>, left: seq<Byte>, newline: bool)
    requires Taken(whole, text, left, newline) && left != [] && !(left[0] == NL && newline)
    ensures if left[0] == CR || (left[0] == NL && text == []) then Taken(whole, text, left[1..], newline)
            else Taken(whole, text + [Kept(left[0])], left[1..], left[0] == NL)
  {
    if !(left[0] == CR || (left[0] == NL && text == [])) {
      var (more, rest) := Scan(left[1..], true, left[0] == NL);
      assert text + ([Kept(left[0])] + more) == text + [Kept(left[0])] + more;
    }
  }

  lemma TakenLong(whole: seq<Byte>, text: seq<Byte>, left: seq<Byte>, newline: bool)
    requires Taken(whole, text, left, newline)
    ensures |Next(whole).0| >= |text|
  {
    hide Scan, Next;
  }

  /** A blank line: the text ends, or it has not begun. */
  lemma TakenEnd(whole: seq<Byte>, text: seq<Byte>, left: seq<Byte>)
    requires Taken(whole, text, left, true) && left != [] && left[0] == NL
    ensures if text == [] then Next(whole) == Next(left[1..]) else Next(whole) == (text, left[1..])
  {
    assert text + [] == text && [] + Next(left[1..]).0 == Next(left[1..]).0;
  }

  datatype Result = Ok | Nothing | Error

  /** How the copying ends; a blank line before any text means to start again. */
  datatype End = Blank | Again | AtEnd | Broken

  class IndexFile {
    const buffer: array<Byte>
    const size: nat
    const source: Source
    var ofs: nat
    var content: nat
    var failed: bool
    var linenumber: nat

    ghost predicate Valid()
      reads this
    {
      buffer.Length == size + 1 && MARGIN < size && ofs + content <= size
    }

    /** All that is still to be read, from the buffer and from the source. */
    ghost function Pending(): seq<Byte>
      reads this, buffer, source
      requires Valid()
    {
      Left(ofs, ofs + content)
    }

    /** What is unread when the buffer is used up to p and filled up to e. */
    ghost function Left(p: nat, e: nat): seq<Byte>
      reads buffer, source
      requires p <= e <= buffer.Length
    {
      buffer[p..e] + source.data
    }

    lemma LeftNext(p: nat, e: nat)
      requires p < e <= buffer.Length
      ensures Left(p, e) != [] && Left(p, e)[0] == buffer[p] && Left(p, e)[1..] == Left(p + 1, e)
    {
    }

    constructor (source: Source, size: nat)
      requires MARGIN < size
      ensures Valid() && fresh(buffer) && this.source == source && this.size == size
      ensures !failed && Pending() == source.data && linenumber == 0
    {
      this.source, this.size := source, size;
      buffer := new Byte[size + 1](_ => 0);
      ofs, content, failed, linenumber := 0, 0, false, 0;
    }

    /** What the loops maintain: d characters of the text are at the start of the buffer, in front of what is unread. */
    ghost predicate Reading(whole: seq<Byte>, d: nat, p: nat, e: nat, afternewline: bool, nothingyet: bool)
      reads this, buffer, source
    {
      && d <= p <= e <= size < buffer.Length
      && Taken(whole, buffer[..d], Left(p, e), afternewline)
      && (d == 0 ==> afternewline && nothingyet) && (d > 0 && afternewline ==> !nothingyet)
    }

    /** Puts a character behind the text, in the place of one already read. */
    method Put(d: nat, c: Byte, p: nat, e: nat)
      requires d < p <= e <= buffer.Length
      modifies buffer
      ensures buffer[..d + 1] == old(buffer[..d]) + [c] && Left(p, e) == old(Left(p, e))
    {
      buffer[d] := c;
    }

    /** One character that is not the end of the text. */
    method Step(d0: nat, p: nat, e: nat, after0: bool, nothing0: bool, ghost whole: seq<Byte>)
      returns (d: nat, afternewline: bool, nothingyet: bool)
      requires Valid() && Reading(whole, d0, p, e, after0, nothing0) && p < e && !(buffer[p] == NL && after0)
      modifies `linenumber, buffer
      ensures Reading(whole, d, p + 1, e, afternewline, nothingyet)
      ensures linenumber + Lines(Left(p + 1, e)) == old(linenumber + Lines(Left(p, e)))
      ensures Valid() && unchanged(source)
    {
      d, afternewline, nothingyet := d0, after0, nothing0;
      ghost var left := Left(p, e);
      LeftNext(p, e);
      LinesStep(left);
      TakenMore(whole, buffer[..d], left, afternewline);
      hide Taken, Lines, Left, Kept;
      var c := buffer[p];
      if c != CR {
        if c == NL {
          linenumber := linenumber + 1;
          nothingyet := false;
        }
        afternewline := c == NL;
        Put(d, Kept(c), p + 1, e);
        d := d + 1;
      }
    }

    lemma PendingIs()
      requires Valid()
      ensures Pending() == Left(ofs, ofs + content) && |Pending()| == content + |source.data|
      ensures ofs + content <= size < buffer.Length
    {
    }

    lemma ReadingIs(whole: seq<Byte>, d: nat, p: nat, e: nat, afternewline: bool, nothingyet: bool)
      requires Reading(whole, d, p, e, afternewline, nothingyet)
      ensures d <= p <= e <= size < buffer.Length && Taken(whole, buffer[..d], Left(p, e), afternewline)
      ensures (d == 0 ==> afternewline && nothingyet) && (d > 0 && afternewline ==> !nothingyet)
    {
    }

    /** The blank line is at p: what follows it is pending. */
    method StopAt(d: nat, p: nat, nothingyet: bool, ghost whole: seq<Byte>)
      requires Valid() && ofs <= p < ofs + content && buffer[p] == NL
      requires Reading(whole, d, p, ofs + content, true, nothingyet)
      modifies `ofs, `content, `linenumber
      ensures Valid() && linenumber + Lines(Pending()) == old(linenumber + Lines(Left(p, ofs + content)))
      ensures |Pending()| < |source.data| + old(content)
      ensures unchanged(source)
      ensures if nothingyet then d == 0 && Next(whole) == Next(Pending())
              else 0 < d < ofs && Next(whole) == (buffer[..d], Pending())
    {
      ghost var left := Left(p, ofs + content);
      LeftNext(p, ofs + content);
      LinesStep(left);
      TakenEnd(whole, buffer[..d], left);
      hide Taken, Next, Lines, Kept;
      linenumber := linenumber + 1;
      content := content - (p + 1 - ofs);
      ofs := p + 1;
    }

    /** Everything in the buffer has been gone through: the text so far is all that is in it. */
    method UsedUp(d: nat, afternewline: bool, nothingyet: bool, ghost whole: seq<Byte>)
      requires Valid() && Reading(whole, d, ofs + content, ofs + content, afternewline, nothingyet)
      modifies `ofs, `content
      ensures Valid() && Reading(whole, d, ofs, ofs, afternewline, nothingyet) && content == 0 && ofs == d <= size
      ensures |Pending()| == |source.data| && Pending() == old(Left(ofs + content, ofs + content)) && unchanged(source)
    {
      NothingLeft(ofs + content, d);
      hide Taken;
      ofs, content := d, 0;
    }

    /** Goes through what is in the buffer, up to a blank line. */
    method Consume(d0: nat, after0: bool, nothing0: bool, ghost whole: seq<Byte>)
      returns (stop: bool, d: nat, afternewline: bool, nothingyet: bool)
      requires Valid() && Reading(whole, d0, ofs, ofs + content, after0, nothing0)
      modifies `ofs, `content, `linenumber, buffer
      ensures Valid() && linenumber + Lines(Pending()) == old(linenumber + Lines(Pending()))
      ensures stop && nothingyet ==> d == 0 && Next(whole) == Next(Pending())
      ensures stop && !nothingyet ==> d <= size && Next(whole) == (buffer[..d], Pending())
      ensures |Pending()| <= old(|Pending()|) && source.data == old(source.data)
      ensures source.broken == old(source.broken)
      ensures stop ==> |Pending()| < old(|Pending()|) && (!nothingyet ==> 0 < d < ofs)
      ensures !stop ==> Reading(whole, d, ofs, ofs, afternewline, nothingyet) && content == 0 && ofs == d <= size
    {
      hide *;
      d, afternewline, nothingyet := d0, after0, nothing0;
      var p, e := ofs, ofs + content;
      PendingIs();
      while p < e
        invariant ofs <= p <= e <= buffer.Length && e == ofs + content && ofs == old(ofs) && content == old(content)
        invariant Valid() && Reading(whole, d, p, e, afternewline, nothingyet) && unchanged(source)
        invariant linenumber + Lines(Left(p, e)) == old(linenumber + Lines(Pending()))
      {
        ReadingIs(whole, d, p, e, afternewline, nothingyet);
        if buffer[p] == NL && afternewline {
          StopAt(d, p, nothingyet, whole);
          return true, d, afternewline, nothingyet;
        }
        d, afternewline, nothingyet := Step(d, p, e, afternewline, nothingyet, whole);
        p := p + 1;
      }
      UsedUp(d, afternewline, nothingyet, whole);
      stop := false;
    }

    lemma NothingLeft(e: nat, d: nat)
      requires e <= buffer.Length && d <= buffer.Length
      ensures Left(e, e) == Left(d, d) == source.data
    {
      assert [] + source.data == source.data;
    }

    lemma IsReading(whole: seq<Byte>, d: nat, p: nat, e: nat, afternewline: bool, nothingyet: bool)
      requires d <= p <= e <= size < buffer.Length && Taken(whole, buffer[..d], Left(p, e), afternewline)
      requires (d == 0 ==> afternewline && nothingyet) && (d > 0 && afternewline ==> !nothingyet)
      ensures Reading(whole, d, p, e, afternewline, nothingyet)
    {
    }

    lemma NoMargin()
      ensures MARGIN >= 0
    {
    }

    /** Reads more behind the first d characters, which are all there is in the buffer. */
    method Fill(d: nat) returns (ok: bool)
      requires Valid() && ofs == d && content == 0 && d < size
      modifies `content, buffer, source
      ensures Valid() && buffer[..d] == old(buffer[..d])
      ensures ok ==> Left(d, d + content) == old(Left(d, d)) && (content == 0 ==> source.data == [])
      ensures ok && content > 0 ==> |source.data| < old(|source.data|)
      ensures if ok then source.broken == old(source.broken) else source.broken
    {
      ghost var before := source.data;
      NothingLeft(d, d);
      var n := source.Read(buffer, d, size - d);
      assert forall i :: 0 <= i < d ==> buffer[..d][i] == old(buffer[..d])[i];
      if n < 0 {
        return false;
      }
      content := n;
      assert n == 0 ==> buffer[d..d] + source.data == before;
      ok := true;
    }

    /** Reads more behind the text so far; at the end of the stream e stays at d. */
    method Refill(d: nat, afternewline: bool, nothingyet: bool, ghost whole: seq<Byte>) returns (ok: bool)
      requires Valid() && ofs == d && content == 0 && Reading(whole, d, d, d, afternewline, nothingyet)
      modifies `content, `failed, buffer, source
      ensures Valid() && ofs == d <= size && buffer[..d] == old(buffer[..d])
      ensures ok ==> Reading(whole, d, ofs, ofs + content, afternewline, nothingyet) && Pending() == old(Pending())
      ensures ok ==> failed == old(failed) && (content == 0 ==> source.data == [])
      ensures ok && content > 0 ==> |source.data| < old(|source.data|)
      ensures !ok && failed && !old(failed) ==> size - d <= MARGIN && |Next(whole).0| >= d
      ensures if ok then source.broken == old(source.broken) else failed || source.broken
    {
      hide Taken, Next, Left, Pending, Reading, MARGIN;
      ReadingIs(whole, d, d, d, afternewline, nothingyet);
      TakenLong(whole, buffer[..d], Left(d, d), afternewline);
      if size - ofs <= MARGIN {
        failed := true;
        return false;
      }
      PendingIs();
      NoMargin();
      ok := Fill(d);
      if ok {
        PendingIs();
        IsReading(whole, d, ofs, ofs + content, afternewline, nothingyet);
      }
    }

    /** Reads and copies until there is a blank line, the end of the stream, or an error. */
    method Gather(ghost whole: seq<Byte>) returns (end: End, d: nat)
      requires Valid() && !failed && whole == Pending()
      modifies `ofs, `content, `failed, `linenumber, buffer, source
      ensures Valid() && d <= size
      ensures end != Broken ==> !failed && linenumber + Lines(Pending()) == old(linenumber + Lines(Pending()))
      ensures end == Blank ==> 0 < d < ofs && Next(whole) == (buffer[..d], Pending())
      ensures end == Again ==> Next(whole) == Next(Pending())
      ensures end == Blank || end == Again ==> |Pending()| < |whole|
      ensures end == AtEnd ==> Next(whole) == (buffer[..d], []) && Pending() == []
      ensures end == Broken && failed ==> |Next(whole).0| >= size - MARGIN
      ensures if end == Broken then failed || source.broken else source.broken == old(source.broken)
    {
      d := 0;
      var afternewline, nothingyet, over := true, true, false;
      StartOf(whole);
      assert Reading(whole, 0, ofs, ofs + content, true, true);
      assert Valid();
      hide *;
      while true
        invariant Valid() && !failed && Reading(whole, d, ofs, ofs + content, afternewline, nothingyet)
        invariant linenumber + Lines(Pending()) == old(linenumber + Lines(Pending()))
        invariant |Pending()| <= |whole| && d <= size && source.broken == old(source.broken)
        decreases |source.data|
      {
        over, end, d, afternewline, nothingyet := GatherOne(d, afternewline, nothingyet, whole);
        if over {
          return;
        }
      }
    }

    /** What is in the buffer, and what is read after it. */
    method GatherOne(d0: nat, after0: bool, nothing0: bool, ghost whole: seq<Byte>)
      returns (over: bool, end: End, d: nat, afternewline: bool, nothingyet: bool)
      requires Valid() && !failed && Reading(whole, d0, ofs, ofs + content, after0, nothing0)
      modifies `ofs, `content, `failed, `linenumber, buffer, source
      ensures Valid() && d <= size && (!over ==> end != Broken)
      ensures end != Broken ==> !failed && linenumber + Lines(Pending()) == old(linenumber + Lines(Pending()))
      ensures !over ==> Reading(whole, d, ofs, ofs + content, afternewline, nothingyet)
      ensures !over ==> |Pending()| <= old(|Pending()|) && |source.data| < old(|source.data|)
      ensures over && end == Blank ==> 0 < d < ofs && Next(whole) == (buffer[..d], Pending())
      ensures over && end == Again ==> Next(whole) == Next(Pending())
      ensures over && (end == Blank || end == Again) ==> |Pending()| < old(|Pending()|)
      ensures over && end == AtEnd ==> Next(whole) == (buffer[..d], []) && Pending() == []
      ensures end == Broken && failed ==> |Next(whole).0| >= size - MARGIN
      ensures if end == Broken then failed || source.broken else source.broken == old(source.broken)
    {
      hide *;
      end := AtEnd;
      over, d, afternewline, nothingyet := Consume(d0, after0, nothing0, whole);
      if over {
        end := if nothingyet then Again else Blank;
        return;
      }
      var ok := Refill(d, afternewline, nothingyet, whole);
      if !ok {
        return true, Broken, d, afternewline, nothingyet;
      }
      if content == 0 {
        Ended(whole, d, afternewline, nothingyet);
        over := true;
      }
    }

    lemma Ended(whole: seq<Byte>, d: nat, afternewline: bool, nothingyet: bool)
      requires Valid() && Reading(whole, d, ofs, ofs + content, afternewline, nothingyet)
      requires content == 0 && source.data == []
      ensures Next(whole) == (buffer[..d], []) && Pending() == [] && d <= size
    {
      TakenAll(whole, buffer[..d], Left(ofs, ofs), afternewline);
    }

    /**
     indexfile_get: the next chunk of the stream, however the source cuts it into
     pieces.  It fails only if it has failed for good before, a read fails, or a text
     does not fit the buffer by the margin; then it fails for good.
     */
    method Get() returns (r: Result, text: seq<Byte>)
      requires Valid()
      modifies this, buffer, source
      ensures Valid() && (r != Error ==> !failed)
      ensures r == Ok ==> Chunks(old(Pending())) == [text] + Chunks(Pending()) && |Pending()| < old(|Pending()|)
      ensures r == Ok ==> Texts(old(Pending())) == [Next(old(Pending())).0] + Texts(Pending())
      ensures r == Nothing ==> Chunks(old(Pending())) == [] && Pending() == []
      ensures r != Error ==> linenumber + Lines(Pending()) == old(linenumber + Lines(Pending()))
      ensures failed && !old(failed) ==> |Next(old(Pending())).0| >= size - MARGIN
      ensures if r == Error then failed || source.broken else source.broken == old(source.broken)
      decreases |Pending()|
    {
      text := [];
      if failed {
        return Error, text;
      }
      ghost var whole := Pending();
      var end, d := Gather(whole);
      hide Next, Lines;
      match end
      case Broken =>
        r := Error;
      case Again =>
        r, text := Get();
      case Blank =>
        text := TextUpTo(d);
        r := Ok;
      case AtEnd =>
        if d == 0 {
          return Nothing, text;
        }
        text := TextUpTo(d);
        r := Ok;
    }

    /** Drops the newline at the end and puts the terminator. */
    method TextUpTo(d: nat) returns (text: seq<Byte>)
      requires Valid() && 0 < d <= size && (d < ofs || content == 0)
      modifies buffer
      ensures text == Strip(old(buffer[..d])) && Pending() == old(Pending())
    {
      var n := d;
      if buffer[d - 1] == NL {
        n := d - 1;
      }
      buffer[n] := 0;
      text := buffer[..n];
    }
  }

  lemma TakenAll(whole: seq<Byte>, text: seq<Byte>, left: seq<Byte>, newline: bool)
    requires Taken(whole, text, left, newline) && left == []
    ensures Next(whole) == (text, [])
  {
    assert text + [] == text;
  }

  lemma StartOf(whole: seq<Byte>)
    ensures Taken(whole, [], whole, true)
  {
    assert [] + Next(whole).0 == Next(whole).0;
  }

  /** Reads chunk after chunk: exactly those of the stream. */
  method GetAll(f: IndexFile) returns (chunks: seq<seq<Byte>>, end: Result)
    requires f.Valid() && !f.failed
    modifies f, f.buffer, f.source
    ensures f.Valid() && end != Ok
    ensures if end == Nothing then chunks == old(Chunks(f.Pending())) else chunks <= old(Chunks(f.Pending()))
    ensures f.failed ==> exists t :: t in old(Texts(f.Pending())) && |t| >= f.size - 2048
    ensures if end == Error then f.failed || f.source.broken else f.source.broken == old(f.source.broken)
    ensures !f.source.broken && (forall t :: t in old(Texts(f.Pending())) ==> |t| < f.size - 2048) ==>
              end == Nothing && chunks == old(Chunks(f.Pending()))
  {
    chunks := [];
    ghost var texts := [];
    hide Chunks, Texts, Next;
    while true
      invariant f.Valid() && !f.failed && f.source.broken == old(f.source.broken)
      invariant old(Chunks(f.Pending())) == chunks + Chunks(f.Pending())
      invariant old(Texts(f.Pending())) == texts + Texts(f.Pending())
      decreases |f.Pending()|
    {
      var text;
      ghost var before := f.Pending();
      end, text := f.Get();
      if end != Ok {
        LongText(before, f.size, f.failed);
        break;
      }
      chunks, texts := chunks + [text], texts + [Next(before).0];
    }
  }

  lemma LongText(s: seq<Byte>, size: nat, failed: bool)
    requires failed ==> |Next(s).0| >= size - 2048 && size > MARGIN
    ensures failed ==> exists t :: t in Texts(s) && |t| >= size - 2048
  {
  }

  // ----- joining chunks and cutting them again

  /** A text without blank lines, carriage returns and zeros that does not end with a line end. */
  predicate Unbroken(c: seq<Byte>) {
    && CR !in c && 0 !in c && (forall i :: 0 < i < |c| ==> c[i - 1] != NL || c[i] != NL)
    && (c != [] ==> c[|c| - 1] != NL)
  }

  /** A chunk as it comes out: lines without blank ones, carriage returns or NULs. */
  predicate Plain(c: seq<Byte>) {
    c != [] && c[0] != NL && Unbroken(c)
  }

  function Joined(chunks: seq<seq<Byte>>): seq<Byte> {
    if chunks == [] then [] else chunks[0] + ([NL, NL] + Joined(chunks[1..]))
  }

  lemma UnbrokenFirst(c: seq<Byte>)
    requires Unbroken(c) && c != []
    ensures c[0] != CR && c[0] != 0 && Kept(c[0]) == c[0]
    ensures |c| == 1 ==> c[0] != NL
    ensures |c| > 1 ==> Unbroken(c[1..]) && c[1..] != [] && (c[1..][0] == NL ==> c[0] != NL)
  {
    var t := c[1..];
    assert c[0] in c && forall x :: x in t ==> x in c;
    forall i | 0 < i < |t| ensures t[i - 1] != NL || t[i] != NL {
      assert c[i] != NL || c[i + 1] != NL;
    }
    assert |c| > 1 ==> c[1 - 1] != NL || c[1] != NL;
  }

  lemma ScanOn(c: seq<Byte>, more: seq<Byte>, begun: bool, newline: bool)
    requires c != [] && c[0] != CR && (c[0] == NL ==> begun && !newline)
    ensures Scan(c + more, begun, newline)
      == var (t, left) := Scan(c[1..] + more, true, c[0] == NL); ([Kept(c[0])] + t, left)
  {
    assert (c + more)[0] == c[0] && (c + more)[1..] == c[1..] + more;
  }

  lemma Alone(c: seq<Byte>)
    requires |c| == 1
    ensures c[1..] == [] && c == [c[0]] && forall more: seq<Byte> :: [] + more == more
  {
  }

  lemma Again(c: seq<Byte>)
    requires c != []
    ensures [c[0]] + (c[1..] + [NL]) == c + [NL]
  {
  }

  lemma {:induction false} ScanPlain(c: seq<Byte>, rest: seq<Byte>, begun: bool, newline: bool)
    requires Unbroken(c) && c != [] && (c[0] == NL ==> begun && !newline)
    ensures Scan(c + ([NL, NL] + rest), begun, newline) == (c + [NL], rest)
  {
    hide *;
    UnbrokenFirst(c);
    ScanOn(c, [NL, NL] + rest, begun, newline);
    if |c| == 1 {
      ScanEnd(rest);
      Alone(c);
    } else {
      ScanPlain(c[1..], rest, true, c[0] == NL);
      Again(c);
    }
  }

  lemma ScanEnd(rest: seq<Byte>)
    ensures Scan([NL, NL] + rest, true, false) == ([NL], rest)
  {
    assert ([NL] + rest)[1..] == rest && Scan([NL] + rest, true, true) == ([], rest);
    assert ([NL, NL] + rest)[1..] == [NL] + rest && [NL] + [] == [NL];
  }

  /** Chunks that are joined with blank lines between them are cut into the same chunks again. */
  lemma {:induction false} ChunksJoined(chunks: seq<seq<Byte>>)
    requires forall c :: c in chunks ==> Plain(c)
    ensures Chunks(Joined(chunks)) == chunks
  {
    if chunks != [] {
      var c := chunks[0];
      assert c in chunks;
      ScanPlain(c, Joined(chunks[1..]), false, true);
      assert Strip(c + [NL]) == c by { assert (c + [NL])[..|c|] == c; }
      ChunksJoined(chunks[1..]);
    }
  }
}
