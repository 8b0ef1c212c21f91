/** `txt2Basic` of commodore/js/utilsc8dd.js: source text (as bytes) to the linked-line image
    of a tokenized PET BASIC program. */
module Tokenizer {
  import opened Common
  import opened NumText
  import opened Keywords
  import opened Lexer
  import opened Program

  /** More token bytes than this on one line is an error. */
  const LineLengthMax: nat := 88
  /** Line numbers from this one up are rejected. */
  const LineNumberMax: nat := 63999
  /** Where a PET program starts when no address is given. */
  const DefaultStart: nat := 0x0401

  /** Bytes still to read; it only shrinks. */
  function Left(r: Reader): nat
  {
    if r.idx < |r.src| then |r.src| - r.idx else 0
  }

  lemma GetChLeft(r: Reader)
    ensures Left(GetCh(r).next) <= Left(r)
    ensures GetCh(r).c != 0 ==> Left(GetCh(r).next) < Left(r)
  {
  }

  /** The reader at the start of the parse: a UTF-8 BOM (EF BB BF) or a UTF-16 BOM is skipped.
      FE FF clears the big-endian flag and FF FE leaves it set. */
  function StartReader(src: seq<byte>): (r: Reader)
    ensures r.src == src && !r.isLC && r.idx <= |src|
  {
    if At(src, 0) == 0xEF && At(src, 1) == 0xBB && At(src, 2) == 0xBF then Reader(src, true, 3, false)
    else if At(src, 0) == 0xFF && At(src, 1) == 0xFE then Reader(src, true, 2, false)
    else if At(src, 0) == 0xFE && At(src, 1) == 0xFF then Reader(src, false, 2, false)
    else Reader(src, true, 0, false)
  }

  // ---------------------------------------------------------------------------------------
  // Line numbers

  predicate IsNumberChar(c: int)
  {
    (0x30 <= c <= 0x39) || c == 0x20
  }

  /** What the line-number loop leaves: the number, whether no digit or blank was seen
      (direct mode), and the first other character with its `raw` value and the reader. */
  datatype Head = Head(number: nat, direct: bool, c: byte, raw: byte, r: Reader)

  /** The line-number loop: digits accumulate in decimal, blanks are skipped. */
  function NumberFrom(r: Reader, c: byte, raw: byte, ln: nat, direct: bool): (h: Head)
    ensures !IsNumberChar(h.c)
    ensures h.r.src == r.src && h.r.isLC == r.isLC && Left(h.r) <= Left(r)
    ensures h.direct ==> h.number == ln && h.c == c && h.raw == raw && h.r == r && direct
    ensures h.number >= ln
    decreases Left(r), if IsNumberChar(c) then 1 else 0
  {
    if IsNumberChar(c) then
      var ln' := if c != 0x20 then ln * 10 + (c - 0x30) else ln;
      var g := GetCh(r);
      GetChLeft(r);
      NumberFrom(g.next, g.c, g.raw, ln', false)
    else Head(ln, direct, c, raw, r)
  }

  // ---------------------------------------------------------------------------------------
  // One item of a line

  /** The bytes an inner copy loop pushed, whether a closing quote ended it, and the reader. */
  datatype Span = Span(bytes: seq<byte>, closed: bool, next: Reader)

  /** The quoted-string loop: characters are copied as read up to and including the closing
      quote, or up to the line end (which is not copied). */
  function Quoted(r: Reader): (q: Span)
    ensures q.next.src == r.src && q.next.isLC == r.isLC && Left(q.next) <= Left(r)
    ensures !AtEnd(q.next) ==> Left(q.next) < Left(r)
    ensures NoZero(q.bytes)
    ensures q.closed <==> 0 < |q.bytes| && q.bytes[|q.bytes| - 1] == 0x22
    ensures forall i :: 0 <= i < |q.bytes| - 1 ==> q.bytes[i] != 0x22
    ensures q.bytes == Peek(r, |q.bytes|)
    decreases Left(r)
  {
    var g := GetCh(r);
    GetChLeft(r);
    if g.c == 0 then Span([], false, g.next)
    else if g.c == 0x22 then Span([0x22], true, g.next)
    else
      var q := Quoted(g.next);
      QuoteOnlyLast(g.c, q.bytes);
      PeekCons(r, q.bytes);
      Span([g.c] + q.bytes, q.closed, q.next)
  }

  /** A character other than a quote, put before bytes whose only quote can be the last,
      keeps that so. */
  lemma QuoteOnlyLast(c: byte, s: seq<byte>)
    requires c != 0x22 && forall i :: 0 <= i < |s| - 1 ==> s[i] != 0x22
    ensures forall i :: 0 <= i < |[c] + s| - 1 ==> ([c] + s)[i] != 0x22
  {
    forall i | 0 < i < |[c] + s| - 1
      ensures ([c] + s)[i] != 0x22
    {
      assert ([c] + s)[i] == s[i - 1];
    }
  }

  /** The REM loop: every character up to the line end is copied as read. */
  function RemTail(r: Reader): (q: Span)
    ensures q.next.src == r.src && q.next.isLC == r.isLC && Left(q.next) <= Left(r)
    ensures !AtEnd(q.next) ==> Left(q.next) < Left(r)
    ensures NoZero(q.bytes) && !q.closed
    ensures q.bytes == Peek(r, |q.bytes|)
    decreases Left(r)
  {
    var g := GetCh(r);
    GetChLeft(r);
    if g.c == 0 then Span([], false, g.next)
    else
      var q := RemTail(g.next);
      PeekCons(r, q.bytes);
      Span([g.c] + q.bytes, false, q.next)
  }

  /** `idx--`: step back over the line end an inner loop stopped at, unless the source is
      exhausted (`eof`). */
  function Unget(q: Span): (r: Reader)
    ensures r.src == q.next.src && r.isLC == q.next.isLC
    ensures Left(r) <= Left(q.next) + 1
  {
    if !q.closed && !AtEnd(q.next) && q.next.idx > 0 then q.next.(idx := q.next.idx - 1) else q.next
  }

  /** What one pass of the line loop pushes, the reader after it and the DATA flag. */
  datatype Item = Item(out: seq<byte>, r: Reader, dataFlag: bool)

  /** The bookkeeping after a keyword search: ':' would clear the DATA flag, DATA (0x83) sets
      it, REM (0x8F) copies the rest of the line. */
  function AfterSearch(v: byte, r: Reader, dataFlag: bool): (it: Item)
    requires v != 0
    ensures it.r.src == r.src && it.r.isLC == r.isLC && Left(it.r) <= Left(r)
    ensures NoZero(it.out) && 0 < |it.out| && it.out[0] == v
  {
    if v == 0x3A then Item([v], r, false)
    else if v == 0x83 then Item([v], r, true)
    else if v == 0x8F then
      var q := RemTail(r);
      Item([v] + q.bytes, Unget(q), dataFlag)
    else Item([v], r, dataFlag)
  }

  /** The characters a keyword search compares: the one that started it, then what `getCh`
      returns from the current position on (enough for the longest walk through the table). */
  function SearchStream(r: Reader, c: byte, isPetRom1: bool): (w: seq<int>)
    ensures 0 < |w| && w[0] == c as int
  {
    [c as int] + Peek(r, |TokenTable(isPetRom1)|)
  }

  /** The corrected table walk on the characters from `c` on. A keyword it finds has a
      token byte, and the reader past it has not moved back. */
  function KeywordSearch(r: Reader, c: byte, isPetRom1: bool): (o: Outcome)
    ensures !o.Hang?
    ensures o.Token? ==> o.index < 0x7F && Left(Advance(r, o.used)) <= Left(r)
  {
    var w := SearchStream(r, c, isPetRom1);
    var o := SearchTable(TokenTable(isPetRom1), w);
    if o.Token? then
      TokenIndexInTable(Entries(isPetRom1), w, true);
      AdvanceLeft(r, o.used);
      o
    else o
  }

  /** A keyword search from character `c`: the token byte 0x80 plus the entry index and the
      reader past the keyword, or `c` itself with the reader where it was. */
  function KeywordToken(r: Reader, c: byte, isPetRom1: bool): (res: (byte, Reader))
    requires c != 0
    ensures res.0 != 0 && res.1.src == r.src && res.1.isLC == r.isLC && Left(res.1) <= Left(r)
  {
    var o := KeywordSearch(r, c, isPetRom1);
    if o.Token? then (0x80 + o.index, Advance(r, o.used)) else (c, r)
  }

  lemma {:induction false} AdvanceLeft(r: Reader, n: nat)
    ensures Left(Advance(r, n)) <= Left(r)
    decreases n
  {
    if n > 0 {
      GetChLeft(r);
      AdvanceLeft(GetCh(r).next, n - 1);
    }
  }

  /** One pass of the line loop on the case-adjusted character `c`: 0xFF (pi) is kept and
      other bytes with bit 7 set are dropped; a blank is kept; a quote copies the string;
      with the DATA flag set everything else is copied; '?' becomes PRINT (0x99); digits,
      ':' and ';' are kept; anything else goes through the keyword search. */
  function Step(r: Reader, c: byte, dataFlag: bool, isPetRom1: bool): (it: Item)
    ensures it.r.src == r.src && it.r.isLC == r.isLC && Left(it.r) <= Left(r)
    ensures NoZero(it.out)
    ensures c >= 0x80 ==> it == Item(if c == 0xFF then [0xFF] else [], r, dataFlag)
    ensures c == 0x3F && !dataFlag ==> it == Item([0x99], r, dataFlag)
    ensures 0x30 <= c < 0x3C ==> it == Item([c], r, dataFlag)
    ensures 0 < c < 0x80 && c != 0x22 ==> it.dataFlag == (dataFlag || it.out == [0x83])
  {
    if c >= 0x80 then Item(if c == 0xFF then [0xFF] else [], r, dataFlag)
    else if c == 0 then Item([], r, dataFlag)
    else if c == 0x20 then Item([c], r, dataFlag)
    else if c == 0x22 then
      var q := Quoted(r);
      Item([c] + q.bytes, Unget(q), dataFlag)
    else if dataFlag then Item([c], r, dataFlag)
    else if c == 0x3F then Item([0x99], r, dataFlag)
    else if 0x30 <= c < 0x3C then Item([c], r, dataFlag)
    else
      var k := KeywordToken(r, c, isPetRom1);
      AfterSearch(k.0, k.1, dataFlag)
  }

  /** The line loop: while the character is not 0, adjust its case, process it, read the
      next. Gives the token bytes of the line and the reader after it. */
  function Body(r: Reader, c: byte, raw: byte, dataFlag: bool, isPetRom1: bool): (b: (seq<byte>, Reader))
    ensures b.1.src == r.src && Left(b.1) <= Left(r)
    ensures NoZero(b.0)
    decreases Left(r), if c != 0 then 1 else 0
  {
    if c == 0 then ([], r)
    else
      var adjusted := CaseAdjust(raw, r.isLC);
      var it := Step(r.(isLC := adjusted.1), adjusted.0, dataFlag, isPetRom1);
      var g := GetCh(it.r);
      GetChLeft(it.r);
      var rest := Body(g.next, g.c, g.raw, it.dataFlag, isPetRom1);
      (it.out + rest.0, rest.1)
  }

  // ---------------------------------------------------------------------------------------
  // The parse loop

  /** The three errors, each with the 1-based number of the source line. */
  datatype ParseError = IllegalLineNumber(line: nat) | MissingLineNumber(line: nat) | LineTooLong(line: nat)

  function Message(e: ParseError): (s: string)
    ensures 0 < |s|
  {
    "line " + Decimal(e.line) + Reason(e)
  }

  /** The text after the line number in an error message. */
  function Reason(e: ParseError): string
  {
    match e
      case IllegalLineNumber(_) => ": syntax error (illegal line number)."
      case MissingLineNumber(_) => ": illegal direct mode (missing line number)."
      case LineTooLong(_) => ": string too long."
  }

  /** The stored lines so far and the error that stopped the parse, if any. */
  datatype Parsed = Parsed(lines: map<nat, seq<byte>>, error: Option<ParseError>)

  /** Stored lines: numbers below the maximum, bodies within the length limit and free of 0. */
  predicate GoodLines(lines: map<nat, seq<byte>>)
  {
    forall n :: n in lines ==> n < LineNumberMax && |lines[n]| <= LineLengthMax && NoZero(lines[n])
  }

  /** The parse loop from source line `sl` on. A line number of 63999 or more, a line with
      content but no number, or a line of more than 88 token bytes stops it; the failing
      line is not stored. An empty line stores an empty line 0; a later line with the same
      number replaces an earlier one. */
  function ParseFrom(r: Reader, sl: nat, lines: map<nat, seq<byte>>, isPetRom1: bool): (p: Parsed)
    requires GoodLines(lines)
    ensures GoodLines(p.lines)
    ensures p.error.Some? ==> p.error.value.line >= sl
    ensures lines.Keys <= p.lines.Keys
    decreases Left(r)
  {
    if AtEnd(r) then Parsed(lines, None)
    else
      var g := GetCh(r);
      GetChLeft(r);
      var h := NumberFrom(g.next, g.c, g.raw, 0, true);
      if h.number >= LineNumberMax then Parsed(lines, Some(IllegalLineNumber(sl)))
      else if h.direct then
        if h.c != 0 then Parsed(lines, Some(MissingLineNumber(sl)))
        else
          StoreKeepsGood(lines, 0, []);
          ParseFrom(h.r, sl + 1, lines[0 := []], isPetRom1)
      else
        var b := Body(h.r, h.c, h.raw, false, isPetRom1);
        if |b.0| > LineLengthMax then Parsed(lines, Some(LineTooLong(sl)))
        else
          StoreKeepsGood(lines, h.number, b.0);
          ParseFrom(b.1, sl + 1, lines[h.number := b.0], isPetRom1)
  }

  /** One numbered line within the limits is stored under its number and the parse goes on
      after it. */
  lemma ParseStoresLine(r: Reader, sl: nat, lines: map<nat, seq<byte>>, isPetRom1: bool, g: Read, h: Head, body: seq<byte>, r': Reader)
    requires GoodLines(lines) && !AtEnd(r) && GetCh(r) == g && NumberFrom(g.next, g.c, g.raw, 0, true) == h
    requires !h.direct && h.number < LineNumberMax
    requires Body(h.r, h.c, h.raw, false, isPetRom1) == (body, r') && |body| <= LineLengthMax
    ensures GoodLines(lines[h.number := body])
    ensures ParseFrom(r, sl, lines, isPetRom1) == ParseFrom(r', sl + 1, lines[h.number := body], isPetRom1)
  {
    StoreKeepsGood(lines, h.number, body);
  }

  /** Storing a line within the limits keeps every stored line within them. */
  lemma StoreKeepsGood(lines: map<nat, seq<byte>>, n: nat, body: seq<byte>)
    requires GoodLines(lines) && n < LineNumberMax && |body| <= LineLengthMax && NoZero(body)
    ensures GoodLines(lines[n := body])
  {
  }

  /** A line whose number is 63999 or more stops the parse with the lines before it. */
  lemma ParseStopsAtIllegalNumber(r: Reader, sl: nat, lines: map<nat, seq<byte>>, isPetRom1: bool, g: Read, h: Head)
    requires GoodLines(lines) && !AtEnd(r) && GetCh(r) == g && NumberFrom(g.next, g.c, g.raw, 0, true) == h
    requires h.number >= LineNumberMax
    ensures ParseFrom(r, sl, lines, isPetRom1) == Parsed(lines, Some(IllegalLineNumber(sl)))
  {
  }

  /** A line with content but no line number stops the parse with the lines before it. */
  lemma ParseStopsAtMissingNumber(r: Reader, sl: nat, lines: map<nat, seq<byte>>, isPetRom1: bool, g: Read, h: Head)
    requires GoodLines(lines) && !AtEnd(r) && GetCh(r) == g && NumberFrom(g.next, g.c, g.raw, 0, true) == h
    requires h.number < LineNumberMax && h.direct && h.c != 0
    ensures ParseFrom(r, sl, lines, isPetRom1) == Parsed(lines, Some(MissingLineNumber(sl)))
  {
  }

  /** A numbered line of more than 88 token bytes stops the parse with the lines before it;
      the line is not stored. */
  lemma ParseStopsAtLongLine(r: Reader, sl: nat, lines: map<nat, seq<byte>>, isPetRom1: bool, g: Read, h: Head, body: seq<byte>, r': Reader)
    requires GoodLines(lines) && !AtEnd(r) && GetCh(r) == g && NumberFrom(g.next, g.c, g.raw, 0, true) == h
    requires !h.direct && h.number < LineNumberMax
    requires Body(h.r, h.c, h.raw, false, isPetRom1) == (body, r') && |body| > LineLengthMax
    ensures ParseFrom(r, sl, lines, isPetRom1) == Parsed(lines, Some(LineTooLong(sl)))
  {
  }

  function Parse(src: seq<byte>, isPetRom1: bool): (p: Parsed)
    ensures GoodLines(p.lines)
    ensures p.error.Some? ==> p.error.value.line >= 1
  {
    ParseFrom(StartReader(src), 1, map[], isPetRom1)
  }

  // ---------------------------------------------------------------------------------------
  // Serialisation

  /** The non-empty stored lines numbered `n` up to the maximum, in ascending order (the sort
      of the line numbers, done as a scan of every possible number). */
  function Sorted(lines: map<nat, seq<byte>>, n: nat): (ls: seq<Line>)
    ensures forall i :: 0 <= i < |ls| ==> n <= ls[i].number < LineNumberMax
    ensures forall i :: 0 <= i < |ls| ==> ls[i].number in lines && lines[ls[i].number] == ls[i].body
    ensures forall i :: 0 <= i < |ls| ==> 0 < |ls[i].body|
    decreases LineNumberMax - n
  {
    if n >= LineNumberMax then []
    else if n in lines && |lines[n]| > 0 then [Line(n, lines[n])] + Sorted(lines, n + 1)
    else Sorted(lines, n + 1)
  }

  lemma {:induction false} SortedAscending(lines: map<nat, seq<byte>>, n: nat)
    ensures forall i, j :: 0 <= i < j < |Sorted(lines, n)| ==> Sorted(lines, n)[i].number < Sorted(lines, n)[j].number
    decreases LineNumberMax - n
  {
    if n < LineNumberMax {
      SortedAscending(lines, n + 1);
    }
  }

  /** The sorted lines of a parse are a well-formed program. */
  lemma SortedWellFormed(lines: map<nat, seq<byte>>)
    requires GoodLines(lines)
    ensures WellFormed(Sorted(lines, 0))
  {
    SortedAscending(lines, 0);
  }

  predicate Lists(ls: seq<Line>, m: nat)
  {
    exists i :: 0 <= i < |ls| && ls[i].number == m
  }

  lemma ListsCons(l: Line, rest: seq<Line>, m: nat)
    ensures Lists([l] + rest, m) <==> l.number == m || Lists(rest, m)
  {
    var ls := [l] + rest;
    if Lists(rest, m) {
      var j :| 0 <= j < |rest| && rest[j].number == m;
      assert ls[j + 1].number == m;
    }
    if Lists(ls, m) && l.number != m {
      var i :| 0 <= i < |ls| && ls[i].number == m;
      assert rest[i - 1].number == m;
    }
    assert ls[0] == l;
  }

  /** A line number appears in the output exactly when a non-empty line is stored under it. */
  lemma {:induction false} SortedComplete(lines: map<nat, seq<byte>>, n: nat, m: nat)
    ensures Lists(Sorted(lines, n), m) <==> n <= m < LineNumberMax && m in lines && 0 < |lines[m]|
    decreases LineNumberMax - n
  {
    if n < LineNumberMax {
      SortedComplete(lines, n + 1, m);
      var rest := Sorted(lines, n + 1);
      if n in lines && |lines[n]| > 0 {
        assert Sorted(lines, n) == [Line(n, lines[n])] + rest;
        ListsCons(Line(n, lines[n]), rest, m);
      } else {
        assert Sorted(lines, n) == rest;
      }
    } else {
      assert Sorted(lines, n) == [];
    }
  }

  /** The start address: `address & 0xFFFF`, or 0x0401 when none (0) is given. */
  function StartAddress(address: int): (a: nat)
    ensures a < 0x10000
    ensures address == 0 ==> a == DefaultStart
  {
    if address == 0 then DefaultStart else address % 0x10000
  }

  /** The output bytes: the program image of the stored lines, preceded by the start address
      when a PRG file is asked for; nothing at all when no line has content. */
  function Build(lines: map<nat, seq<byte>>, start: nat, asPrgFile: bool): (prg: seq<byte>)
    requires GoodLines(lines)
    ensures prg == [] <==> Sorted(lines, 0) == []
    ensures prg != [] ==> |prg| == (if asPrgFile then 2 else 0) + Size(Sorted(lines, 0)) + 2
    ensures prg != [] && asPrgFile ==> prg[..2] == LE16(start)
  {
    var image := Image(Sorted(lines, 0), start);
    if |image| == 0 then [] else (if asPrgFile then LE16(start) else []) + image
  }

  datatype Result = Result(prg: seq<byte>, error: string)

  /** `txt2Basic(src, address, asPrgFile, isPetRom1)`: the program built from every line
      stored before the parse stopped, and the error text ("" when there is none). */
  function Txt2Basic(src: seq<byte>, address: int, asPrgFile: bool, isPetRom1: bool): (res: Result)
    ensures res.error == "" <==> Parse(src, isPetRom1).error.None?
    ensures res.prg == [] <==> Sorted(Parse(src, isPetRom1).lines, 0) == []
  {
    var p := Parse(src, isPetRom1);
    Result(Build(p.lines, StartAddress(address), asPrgFile), if p.error.Some? then Message(p.error.value) else "")
  }

  // ---------------------------------------------------------------------------------------
  // Properties

  /** On 7-bit text the keyword search yields the token of the first entry in table order
      that the text spells, with the reader past that entry; otherwise the character itself
      with the reader unmoved. */
  lemma KeywordIsFirstMatch(r: Reader, c: byte, isPetRom1: bool)
    requires c != 0
    requires SevenBit(SearchStream(r, c, isPetRom1))
    ensures KeywordToken(r, c, isPetRom1)
         == match FirstMatch(Entries(isPetRom1), SearchStream(r, c, isPetRom1), 0)
              case Some(i) => (0x80 + i, Advance(r, |Entries(isPetRom1)[i]| - 1))
              case None => (c, r)
  {
    var kws := Entries(isPetRom1);
    var w := SearchStream(r, c, isPetRom1);
    SearchFirstMatch(kws, w, true);
    var o := SearchTable(TokenTable(isPetRom1), w);
    assert o == match FirstMatch(kws, w, 0)
                  case Some(i) => Token(i, |kws[i]| - 1)
                  case None => NoMatch;
  }

  /** One pass of the line loop in DATA mode on an unshifted character other than a quote
      pushes the character and leaves the reader where it was. */
  lemma DataStep(r: Reader, c: byte, isPetRom1: bool)
    requires !r.isLC && 0x20 <= c < 0x60 && c != 0x22
    ensures var g := GetCh(r);
            Body(r, c, c, true, isPetRom1).0 == [c] + Body(g.next, g.c, g.raw, true, isPetRom1).0
  {
    assert CaseAdjust(c, false) == (c, false) && r.(isLC := false) == r;
    assert Step(r, c, true, isPetRom1) == Item([c], r, true);
  }

  /** One pass of the line loop in DATA mode on any character but a quote: the character
      is case-adjusted first (a lower-case letter is pushed in upper case); pi is kept, other
      bytes with bit 7 set are dropped, every other character is pushed as adjusted, and the
      mode stays on for the rest of the line. */
  lemma DataModeStep(r: Reader, c: byte, raw: byte, isPetRom1: bool)
    requires c != 0 && CaseAdjust(raw, r.isLC).0 != 0x22
    ensures var a := CaseAdjust(raw, r.isLC);
            var g := GetCh(r.(isLC := a.1));
            Body(r, c, raw, true, isPetRom1).0
              == (if a.0 == 0xFF then [0xFF] else if a.0 >= 0x80 || a.0 == 0 then [] else [a.0])
                 + Body(g.next, g.c, g.raw, true, isPetRom1).0
  {
    var a := CaseAdjust(raw, r.isLC);
    assert Step(r.(isLC := a.1), a.0, true, isPetRom1)
        == Item(if a.0 == 0xFF then [0xFF] else if a.0 >= 0x80 || a.0 == 0 then [] else [a.0], r.(isLC := a.1), true);
  }

  lemma DataAtLineEnd(r: Reader, c: byte, isPetRom1: bool)
    requires !r.isLC && 0x20 <= c < 0x60 && c != 0x22
    requires r.idx == |r.src| || (r.idx < |r.src| && IsLineEnd(r.src[r.idx]))
    ensures Body(r, c, c, true, isPetRom1).0 == [c]
  {
    DataStep(r, c, isPetRom1);
    var g := GetCh(r);
    assert g.c == 0;
    assert Body(g.next, g.c, g.raw, true, isPetRom1).0 == [];
  }

  lemma DataBeforePlain(r: Reader, c: byte, s: seq<byte>, isPetRom1: bool)
    requires !r.isLC && 0x20 <= c < 0x60 && c != 0x22
    requires 0 < |s| && r.idx < |r.src| && r.src[r.idx] == s[0] && 0x20 <= s[0] < 0x60
    requires Body(r.(idx := r.idx + 1), s[0], s[0], true, isPetRom1).0 == s
    ensures Body(r, c, c, true, isPetRom1).0 == [c] + s
  {
    DataStep(r, c, isPetRom1);
    ReadsPlain(r);
  }

  /** In DATA mode everything up to the line end is copied as read, ':' and '?' included:
      in upper-case mode, a run of unshifted printable characters without quotes, ended by
      CR, LF, NUL or the end of the text, comes out unchanged. */
  lemma {:induction false} DataCopiesRestOfLine(r: Reader, c: byte, s: seq<byte>, isPetRom1: bool)
    requires !r.isLC
    requires 0x20 <= c < 0x60 && c != 0x22
    requires r.idx + |s| <= |r.src| && r.src[r.idx..r.idx + |s|] == s
    requires r.idx + |s| == |r.src| || IsLineEnd(r.src[r.idx + |s|])
    requires forall i :: 0 <= i < |s| ==> 0x20 <= s[i] < 0x60 && s[i] != 0x22
    ensures Body(r, c, c, true, isPetRom1).0 == [c] + s
    decreases |s|
  {
    if |s| == 0 {
      DataAtLineEnd(r, c, isPetRom1);
    } else {
      var r' := r.(idx := r.idx + 1);
      assert r'.src[r'.idx..r'.idx + |s[1..]|] == s[1..];
      DataCopiesRestOfLine(r', s[0], s[1..], isPetRom1);
      assert r.src[r.idx] == s[0];
      DataBeforePlain(r, c, s, isPetRom1);
    }
  }

  /** Numbers with no non-empty line contribute nothing to the scan. */
  lemma {:induction false} SortedSkip(lines: map<nat, seq<byte>>, n: nat, m: nat)
    requires n <= m <= LineNumberMax
    requires forall j :: n <= j < m && j in lines ==> |lines[j]| == 0
    ensures Sorted(lines, n) == Sorted(lines, m)
    decreases m - n
  {
    if n < m {
      SortedSkip(lines, n + 1, m);
    }
  }

  /** The ascending scan of a map with a single non-empty line yields that line alone. */
  lemma SortedSingle(lines: map<nat, seq<byte>>, k: nat)
    requires lines.Keys == {k} && 0 < |lines[k]| && k < LineNumberMax
    ensures Sorted(lines, 0) == [Line(k, lines[k])]
  {
    SortedSkip(lines, 0, k);
    SortedSkip(lines, k + 1, LineNumberMax);
  }

  /** The program built from stored lines, loaded at its start address, links back to the
      non-empty lines in ascending order. */
  lemma BuildLinksBack(lines: map<nat, seq<byte>>, start: nat)
    requires GoodLines(lines)
    requires 0 < start && start + Size(Sorted(lines, 0)) + 2 <= 0x10000
    ensures WellFormed(Sorted(lines, 0))
    ensures Chain(Load(start, Build(lines, start, false)), start, |Sorted(lines, 0)|) == Some(Sorted(lines, 0))
  {
    var ls := Sorted(lines, 0);
    SortedWellFormed(lines);
    ChainOfImage(ls, start);
    assert Build(lines, start, false) == Image(ls, start);
  }

  /** What `txt2Basic` writes (without the PRG header), loaded at its start address, links
      back to the parsed lines in ascending order. */
  lemma ImageLinksBack(src: seq<byte>, address: int, isPetRom1: bool, lines: map<nat, seq<byte>>)
    requires lines == Parse(src, isPetRom1).lines
    requires 0 < StartAddress(address) && StartAddress(address) + Size(Sorted(lines, 0)) + 2 <= 0x10000
    ensures WellFormed(Sorted(lines, 0))
    ensures Chain(Load(StartAddress(address), Txt2Basic(src, address, false, isPetRom1).prg), StartAddress(address), |Sorted(lines, 0)|)
         == Some(Sorted(lines, 0))
  {
    BuildLinksBack(lines, StartAddress(address));
  }

  /** A PRG file is the memory image preceded by its load address. */
  lemma PrgFileAddsLoadAddress(src: seq<byte>, address: int, isPetRom1: bool)
    ensures Txt2Basic(src, address, true, isPetRom1).prg
         == if |Txt2Basic(src, address, false, isPetRom1).prg| == 0 then []
            else LE16(StartAddress(address)) + Txt2Basic(src, address, false, isPetRom1).prg
  {
    var p := Parse(src, isPetRom1);
    var start := StartAddress(address);
    assert Txt2Basic(src, address, true, isPetRom1).prg == Build(p.lines, start, true);
    assert Txt2Basic(src, address, false, isPetRom1).prg == Build(p.lines, start, false);
    var image := Image(Sorted(p.lines, 0), start);
    assert Build(p.lines, start, false) == image;
  }

  /** The source of the example below: "10 ?", LF, "63999 ?". */
  const Line63999Example: seq<byte> := [0x31, 0x30, 0x20, 0x3F, 0x0A, 0x36, 0x33, 0x39, 0x39, 0x39, 0x20, 0x3F]

  /** One digit (or blank) of a line number followed by a plain character. */
  lemma NumberStep(r: Reader, c: byte, raw: byte, ln: nat, direct: bool)
    requires IsNumberChar(c) && !AtEnd(r) && Plain(r.src[r.idx], r.isLC)
    ensures NumberFrom(r, c, raw, ln, direct)
         == NumberFrom(r.(idx := r.idx + 1), r.src[r.idx], r.src[r.idx], if c != 0x20 then ln * 10 + (c - 0x30) else ln, false)
  {
    ReadsPlain(r);
  }

  /** The line number the digits of `s` spell after `ln`, blanks skipped. */
  function Accumulate(ln: nat, s: seq<byte>): nat
    requires forall i :: 0 <= i < |s| ==> IsNumberChar(s[i])
    decreases |s|
  {
    if |s| == 0 then ln
    else
      assert IsNumberChar(s[0]);
      Accumulate(if s[0] != 0x20 then ln * 10 + (s[0] - 0x30) else ln, s[1..])
  }

  lemma AccumulateCons(ln: nat, b: byte, s: seq<byte>)
    requires IsNumberChar(b) && forall i :: 0 <= i < |s| ==> IsNumberChar(s[i])
    ensures Accumulate(ln, [b] + s) == Accumulate(if b != 0x20 then ln * 10 + (b - 0x30) else ln, s)
  {
    assert ([b] + s)[1..] == s;
  }

  /** A digit or blank followed by a plain character that ends the number. */
  lemma NumberEnds(r: Reader, c: byte, raw: byte, ln: nat, direct: bool)
    requires IsNumberChar(c) && !AtEnd(r) && Plain(r.src[r.idx], r.isLC) && !IsNumberChar(r.src[r.idx])
    ensures NumberFrom(r, c, raw, ln, direct)
         == Head(Accumulate(ln, [c]), false, r.src[r.idx], r.src[r.idx], r.(idx := r.idx + 1))
  {
    NumberStep(r, c, raw, ln, direct);
  }

  /** Characters that the line-number loop reads as digits or blanks, one byte each. */
  predicate PlainDigits(s: seq<byte>, isLC: bool)
  {
    forall i :: 0 <= i < |s| ==> IsNumberChar(s[i]) && Plain(s[i], isLC)
  }

  /** A run of digits and blanks in plain text, ended by another plain character, is read as
      its decimal value, and the reader stops just past the character that ended it. */
  lemma {:induction false} NumberOfPlainDigits(r: Reader, c: byte, raw: byte, ln: nat, direct: bool, s: seq<byte>)
    requires IsNumberChar(c) && r.idx + |s| < |r.src| && r.src[r.idx..r.idx + |s|] == s && PlainDigits(s, r.isLC)
    requires Plain(r.src[r.idx + |s|], r.isLC) && !IsNumberChar(r.src[r.idx + |s|])
    ensures NumberFrom(r, c, raw, ln, direct)
         == Head(Accumulate(ln, [c] + s), false, r.src[r.idx + |s|], r.src[r.idx + |s|], r.(idx := r.idx + |s| + 1))
    decreases |s|
  {
    if |s| == 0 {
      assert [c] + s == [c];
      NumberEnds(r, c, raw, ln, direct);
    } else {
      var ln' := if c != 0x20 then ln * 10 + (c - 0x30) else ln;
      assert ([c] + s)[1..] == s;
      assert Accumulate(ln, [c] + s) == Accumulate(ln', s);
      assert [s[0]] + s[1..] == s;
      assert r.src[r.idx] == s[0];
      var r' := r.(idx := r.idx + 1);
      assert r'.src[r'.idx..r'.idx + |s| - 1] == s[1..];
      NumberOfPlainDigits(r', s[0], s[0], ln', false, s[1..]);
      NumberStep(r, c, raw, ln, direct);
    }
  }

  /** "10 ?" read from its second digit on. */
  lemma ExampleFirstNumber(r: Reader)
    requires !r.isLC && r.idx + 3 <= |r.src| && r.src[r.idx..r.idx + 3] == [0x30, 0x20, 0x3F]
    ensures NumberFrom(r, 0x31, 0x31, 0, true) == Head(10, false, 0x3F, 0x3F, r.(idx := r.idx + 3))
  {
    var s: seq<byte> := [0x30, 0x20];
    assert r.src[r.idx..r.idx + 2] == r.src[r.idx..r.idx + 3][..2];
    assert r.src[r.idx + 2] == 0x3F;
    assert PlainDigits(s, false);
    assert Accumulate(10, [0x20]) == 10;
    AccumulateCons(1, 0x30, [0x20]);
    AccumulateCons(0, 0x31, [0x30, 0x20]);
    NumberOfPlainDigits(r, 0x31, 0x31, 0, true, s);
  }

  /** "63999 ?" read from its second digit on. */
  lemma ExampleSecondNumber(r: Reader)
    requires !r.isLC && r.idx + 6 <= |r.src| && r.src[r.idx..r.idx + 6] == [0x33, 0x39, 0x39, 0x39, 0x20, 0x3F]
    ensures NumberFrom(r, 0x36, 0x36, 0, true) == Head(63999, false, 0x3F, 0x3F, r.(idx := r.idx + 6))
  {
    var s: seq<byte> := [0x33, 0x39, 0x39, 0x39, 0x20];
    assert r.src[r.idx..r.idx + 5] == r.src[r.idx..r.idx + 6][..5];
    assert r.src[r.idx + 5] == 0x3F;
    assert PlainDigits(s, false);
    assert [0x36] + s == [0x36, 0x33, 0x39, 0x39, 0x39, 0x20];
    Accumulate63999();
    NumberOfPlainDigits(r, 0x36, 0x36, 0, true, s);
  }

  /** The digits of "63999 " add up to 63999, the blank adding nothing. */
  lemma Accumulate63999()
    ensures Accumulate(0, [0x36, 0x33, 0x39, 0x39, 0x39, 0x20]) == 63999
  {
    assert Accumulate(63999, [0x20]) == 63999;
    AccumulateCons(6399, 0x39, [0x20]);
    AccumulateCons(639, 0x39, [0x39, 0x20]);
    AccumulateCons(63, 0x39, [0x39, 0x39, 0x20]);
    AccumulateCons(6, 0x33, [0x39, 0x39, 0x39, 0x20]);
    AccumulateCons(0, 0x36, [0x33, 0x39, 0x39, 0x39, 0x20]);
  }

  lemma ExampleFirstBody(r: Reader, isPetRom1: bool)
    requires r == Reader(Line63999Example, true, 4, false)
    ensures Body(r, 0x3F, 0x3F, false, isPetRom1) == ([0x99], r.(idx := 5))
  {
    var it := Step(r, 0x3F, false, isPetRom1);
    assert it == Item([0x99], r, false);
    assert GetCh(it.r) == Read(0, 0, r.(idx := 5));
    var rest := Body(r.(idx := 5), 0, 0, false, isPetRom1);
    assert rest == ([], r.(idx := 5));
    assert it.out + rest.0 == [0x99];
  }

  lemma ExampleFirstLine(r: Reader, isPetRom1: bool)
    requires r == Reader(Line63999Example, true, 0, false)
    ensures ParseFrom(r, 1, map[], isPetRom1) == ParseFrom(r.(idx := 5), 2, map[10 := [0x99]], isPetRom1)
  {
    assert !AtEnd(r);
    assert r.src[1..4] == [0x30, 0x20, 0x3F];
    var none: map<nat, seq<byte>> := map[];
    assert none[10 := [0x99]] == map[10 := [0x99]];
    ReadsPlain(r);
    ExampleFirstNumber(r.(idx := 1));
    ExampleFirstBody(r.(idx := 4), isPetRom1);
    ParseStoresLine(r, 1, none, isPetRom1, Read(0x31, 0x31, r.(idx := 1)), Head(10, false, 0x3F, 0x3F, r.(idx := 4)), [0x99], r.(idx := 5));
  }

  lemma ExampleSecondLine(r: Reader, lines: map<nat, seq<byte>>, isPetRom1: bool)
    requires r == Reader(Line63999Example, true, 5, false) && GoodLines(lines)
    ensures ParseFrom(r, 2, lines, isPetRom1) == Parsed(lines, Some(IllegalLineNumber(2)))
  {
    assert r.src[6..12] == [0x33, 0x39, 0x39, 0x39, 0x20, 0x3F];
    ReadsPlain(r);
    ExampleSecondNumber(r.(idx := 6));
    ParseStopsAtIllegalNumber(r, 2, lines, isPetRom1, Read(0x36, 0x36, r.(idx := 6)), Head(63999, false, 0x3F, 0x3F, r.(idx := 12)));
  }

  lemma ExampleParse(isPetRom1: bool)
    ensures Parse(Line63999Example, isPetRom1) == Parsed(map[10 := [0x99]], Some(IllegalLineNumber(2)))
  {
    var r := Reader(Line63999Example, true, 0, false);
    ExampleStart();
    ExampleFirstLine(r, isPetRom1);
    ExampleSecondLine(r.(idx := 5), map[10 := [0x99]], isPetRom1);
  }

  /** Without a byte-order mark the reader starts at the first byte, in upper case. */
  lemma ExampleStart()
    ensures StartReader(Line63999Example) == Reader(Line63999Example, true, 0, false)
  {
    assert Line63999Example[..3] == [0x31, 0x30, 0x20];
  }

  lemma ExampleImage(lines: map<nat, seq<byte>>)
    requires lines == map[10 := [0x99]]
    ensures Build(lines, 0x401, false) == [0x07, 0x04, 0x0A, 0x00, 0x99, 0x00, 0x00, 0x00]
  {
    SortedSingle(lines, 10);
    assert Image([Line(10, [0x99])], 0x401) == [0x07, 0x04, 0x0A, 0x00, 0x99, 0x00, 0x00, 0x00];
  }

  lemma ExampleMessage()
    ensures Message(IllegalLineNumber(2)) == "line 2" + Reason(IllegalLineNumber(2))
  {
    assert DigitChar(2, false) == '2';
    assert Digits(2, 10, false) == "2";
    assert Decimal(2) == "2";
  }

  /** Line 63999 is refused even though it fits in 16 bits, and the line before it is kept:
      "10 ?", LF, "63999 ?" gives the one-line program `10 PRINT` and an error for line 2. */
  lemma IllegalLineNumberKeepsEarlierLines(isPetRom1: bool)
    ensures Txt2Basic(Line63999Example, 0, false, isPetRom1)
         == Result([0x07, 0x04, 0x0A, 0x00, 0x99, 0x00, 0x00, 0x00], "line 2" + Reason(IllegalLineNumber(2)))
  {
    ExampleParse(isPetRom1);
    ExampleImage(map[10 := [0x99]]);
    ExampleMessage();
  }
}
