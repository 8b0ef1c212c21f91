/** `basic2Txt` of commodore/js/utilsc8dd.js: the plain-text listing of a tokenized BASIC
    program in memory. */
module Detokenizer {
  import opened Common
  import opened NumText
  import opened Keywords
  import opened Program
  import opened Listing

  /** The listing's pi for byte 0xFF. */
  const Pi: char := 'π'

  // ---------------------------------------------------------------------------------------
  // Keyword classes, as the source tests the keyword's text

  predicate StartsWith(t: string, p: string)
  {
    |p| <= |t| && t[..|p|] == p
  }

  predicate EndsWith(t: string, p: string)
  {
    |p| <= |t| && t[|t| - |p|..] == p
  }

  predicate Contains(t: string, p: string)
    decreases |t|
  {
    StartsWith(t, p) || (0 < |t| && Contains(t[1..], p))
  }

  /** `/^PRINT/`: PRINT and PRINT#. */
  predicate IsPrintName(t: string)
  {
    StartsWith(t, "PRINT")
  }

  /** `/^(?:MID|LEFT|RIGHT)\$|LEN|VAL|ASC$/`: the functions taking a string. */
  predicate IsStringFnName(t: string)
  {
    StartsWith(t, "MID$") || StartsWith(t, "LEFT$") || StartsWith(t, "RIGHT$")
    || Contains(t, "LEN") || Contains(t, "VAL") || EndsWith(t, "ASC")
  }

  /** What the line read so far says about a quoted string coming next: whether it is an
      argument of PRINT (joined by ';') and whether it is inside a string function's
      parentheses (joined by '+'). */
  datatype Flags = Flags(isPrint: bool, isStringFn: bool, parenCnt: int)

  const LineStart: Flags := Flags(false, false, 0)

  /** After a keyword: PRINT sets `isPrint`, a string function sets `isStringFn` and clears
      the parenthesis count. */
  function AfterKeyword(t: string, f: Flags): (g: Flags)
    ensures IsPrintName(t) ==> g == f.(isPrint := true)
    ensures !IsPrintName(t) && IsStringFnName(t) ==> g == f.(isStringFn := true, parenCnt := 0)
    ensures !IsPrintName(t) && !IsStringFnName(t) ==> g == f
  {
    if IsPrintName(t) then f.(isPrint := true)
    else if IsStringFnName(t) then f.(isStringFn := true, parenCnt := 0)
    else f
  }

  /** After a plain character: ':' ends the statement; inside a string function the
      parentheses are counted and the one closing the argument list ends it. */
  function AfterChar(c: byte, f: Flags): (g: Flags)
    ensures c == 0x3A ==> !g.isPrint && !g.isStringFn
    ensures c != 0x3A && !f.isStringFn ==> g == f
    ensures c != 0x3A && f.isStringFn && c == 0x29 && f.parenCnt == 1 ==> !g.isStringFn
    ensures g.isPrint == (f.isPrint && c != 0x3A)
  {
    if c == 0x3A then f.(isPrint := false, isStringFn := false)
    else if f.isStringFn then
      if c == 0x28 then f.(parenCnt := f.parenCnt + 1)
      else if c == 0x29 then
        var n := f.parenCnt - 1;
        if n == 0 then f.(parenCnt := n, isStringFn := false) else f.(parenCnt := n)
      else f
    else f
  }

  /** The separator between the pieces of a quoted string. */
  function Separator(f: Flags): (sep: char)
    ensures sep == ';' <==> f.isPrint && !f.isStringFn
    ensures sep == ';' || sep == '+'
  {
    if f.isPrint && !f.isStringFn then ';' else '+'
  }

  // ---------------------------------------------------------------------------------------
  // Quoted strings

  /** A printable byte inside quotes: 0x20-0x7F or pi. */
  predicate Printable(c: byte)
  {
    c == 0xFF || 0x20 <= c < 0x80
  }

  function Glyph(c: byte): (ch: char)
    requires Printable(c)
  {
    if c == 0xFF then Pi else c as char
  }

  /** The bytes of a quoted string up to its closing quote or the end of the line. */
  function QuoteLength(s: seq<byte>): (n: nat)
    ensures n <= |s|
    ensures forall i :: 0 <= i < n ==> s[i] != 0x22
    ensures n < |s| ==> s[n] == 0x22
    decreases |s|
  {
    if |s| == 0 || s[0] == 0x22 then 0 else 1 + QuoteLength(s[1..])
  }

  /** The quote loop over the string's bytes `s`: printable runs are quoted, other bytes
      become `CHR$(n)`, pieces are joined by `sep`; `text` is the output so far and `open`
      says whether a quote is open. */
  function QuoteLoop(s: seq<byte>, sep: char, text: string, open: bool): (r: string)
    decreases |s|
  {
    if |s| == 0 then (if open then text + "\"" else text)
    else
      var c := s[0];
      if Printable(c) then
        var started := if open then text else (if |text| > 0 then text + [sep] else text) + "\"";
        QuoteLoop(s[1..], sep, started + [Glyph(c)], true)
      else
        var closed := if open then text + "\"" else text;
        var joined := if |closed| > 0 then closed + [sep] else closed;
        QuoteLoop(s[1..], sep, joined + "CHR$(" + Decimal(c) + ")", false)
  }

  /** A quoted string of the listing; an empty one is `""`. */
  function QuoteText(s: seq<byte>, sep: char): (r: string)
    ensures 0 < |r|
  {
    var q := QuoteLoop(s, sep, "", false);
    if |q| > 0 then q else "\"\""
  }

  // ---------------------------------------------------------------------------------------
  // Lines

  /** The rest of a REM line: printable characters and pi are kept, other bytes dropped. */
  function RemText(s: seq<byte>): (r: string)
    ensures |r| <= |s|
    decreases |s|
  {
    if |s| == 0 then ""
    else if s[0] == 0xFF then [Pi] + RemText(s[1..])
    else if 0x20 <= s[0] < 0x80 then [s[0] as char] + RemText(s[1..])
    else RemText(s[1..])
  }

  /** The characters of a run of bytes, one for one. */
  function AsText(s: seq<byte>): (t: string)
  {
    seq(|s|, i requires 0 <= i < |s| => s[i] as char)
  }

  /** The first byte of a run, then the rest. */
  lemma AsTextCons(s: seq<byte>)
    requires 0 < |s|
    ensures AsText(s) == [s[0] as char] + AsText(s[1..])
  {
  }

  /** The text of a line body (the bytes before its closing 0). A body of 7-bit bytes
      without a quote lists as its own characters, whatever the flags. */
  function Render(body: seq<byte>, f: Flags): (r: string)
    ensures (forall i :: 0 <= i < |body| ==> body[i] < 0x80 && body[i] != 0x22) ==> r == AsText(body)
    decreases |body|
  {
    if |body| == 0 then ""
    else
      var c := body[0];
      if c == 0xFF then [Pi] + Render(body[1..], f)
      else if c >= 0x80 then
        if c - 0x80 < |DetokenizerKeywords| then
          var t := DetokenizerKeywords[c - 0x80];
          if t == "REM" then t + RemText(body[1..])
          else t + Render(body[1..], AfterKeyword(t, f))
        else Render(body[1..], f)
      else if c == 0x22 then
        var n := QuoteLength(body[1..]);
        var next := if 1 + n < |body| then 2 + n else |body|;
        QuoteText(body[1..1 + n], Separator(f)) + Render(body[next..], f)
      else
        AsTextCons(body);
        [c as char] + Render(body[1..], AfterChar(c, f))
  }

  /** A line of the listing: `String(number) + ' '` and the body. */
  function RecordText(r: Record): string
  {
    var number := match r.number case Some(n) => Decimal(n) case None => "NaN";
    number + " " + Render(r.body, LineStart)
  }

  function Texts(rs: seq<Record>): (ts: seq<string>)
    ensures |ts| == |rs|
    decreases |rs|
  {
    if |rs| == 0 then [] else [RecordText(rs[0])] + Texts(rs[1..])
  }

  /** `basic2Txt(mem, startAddress)`: the lines joined by newlines, or None when the walk
      needs more than `|mem| + 1` records. The bound rests on a counting argument that is
      not proved here: a walk that ends reads each link at a different address inside `mem`,
      so None should only arise when the links form a cycle, which the source lists forever. */
  function Basic2Txt(mem: seq<byte>, startAddress: int): (r: Option<string>)
    ensures AtEndOfProgram(mem, ProgramStart(startAddress)) ==> r == Some("")
  {
    match Walk(mem, ProgramStart(startAddress), |mem| + 1)
    case Some(rs) => Some(Join(Texts(rs), "\n"))
    case None => None
  }

  // ---------------------------------------------------------------------------------------
  // Properties

  /** A program image loaded at its start address lists as its lines, one per row. */
  lemma ListingOfImage(ls: seq<Line>, start: nat)
    requires WellFormed(ls)
    requires 0 < start < 0x8000_0000 && start + Size(ls) + 2 <= 0x10000
    ensures Basic2Txt(Load(start, Image(ls, start)), start) == Some(Join(Texts(Records(ls)), "\n"))
  {
    WalkOfImage(ls, start);
    ListingOfWalk(Load(start, Image(ls, start)), start, Records(ls));
  }

  lemma ListingOfWalk(mem: seq<byte>, startAddress: int, rs: seq<Record>)
    requires Walk(mem, ProgramStart(startAddress), |mem| + 1) == Some(rs)
    ensures Basic2Txt(mem, startAddress) == Some(Join(Texts(rs), "\n"))
  {
  }

  /** A byte with bit 7 set past the lister's 76 names (0xCC to 0xFE) is dropped, and the
      rest of the line lists as if it were not there. */
  lemma UnknownTokenDropped(c: byte, rest: seq<byte>, f: Flags)
    requires 0x80 + |DetokenizerKeywords| <= c < 0xFF
    ensures Render([c] + rest, f) == Render(rest, f)
  {
    assert ([c] + rest)[1..] == rest;
  }

  /** The byte 0xFF lists as pi wherever it stands outside a string or comment, and leaves
      the print and string-function state as it was. */
  lemma PiLists(rest: seq<byte>, f: Flags)
    ensures Render([0xFF] + rest, f) == [Pi] + Render(rest, f)
  {
    assert ([0xFF] + rest)[1..] == rest;
  }

  /** Token 0xB0, which the tokenizer writes for OR, lists as ON. */
  lemma OrListsAsOn(f: Flags)
    ensures Render([0xB0], f) == "ON"
  {
    TablesDifferOnlyAtOr();
    assert [0xB0][1..] == [];
    assert !IsPrintName("ON") && !IsStringFnName("ON");
  }

  /** Every other keyword token lists as the keyword the tokenizer read it from. */
  lemma TokenListsAsKeyword(k: nat, f: Flags)
    requires k < |TokenizerKeywords| && k != 48 && k != 15
    ensures Render([0x80 + k], f) == TokenizerKeywords[k]
  {
    TablesDifferOnlyAtOr();
    ChunkIndex();
    assert DetokenizerKeywords[k] == TokenizerKeywords[k];
    assert TokenizerKeywords[k] != "REM" by {
      assert TokenizerKeywords[15] == "REM";
      NamesAreDistinct(k);
    }
    assert [0x80 + k][1..] == [];
  }

  /** Only entry 15 of the tokenizer table is REM. */
  lemma NamesAreDistinct(k: nat)
    requires k < |TokenizerKeywords| && k != 15
    ensures TokenizerKeywords[k] != "REM"
  {
    ChunkIndex();
    assert forall i :: 0 <= i < 10 ==> Tokens80[i] != "REM";
    assert forall i :: 0 <= i < 10 ==> i != 5 ==> Tokens8A[i] != "REM";
    assert forall i :: 0 <= i < 10 ==> Tokens94[i] != "REM";
    assert forall i :: 0 <= i < 10 ==> Tokens9E[i] != "REM";
    assert forall i :: 0 <= i < 10 ==> TokensA8[i] != "REM";
    assert forall i :: 0 <= i < 10 ==> TokensB2[i] != "REM";
    assert forall i :: 0 <= i < 10 ==> TokensBC[i] != "REM";
    assert forall i :: 0 <= i < 6 ==> TokensC6[i] != "REM";
  }

  /** REM lists the rest of the line as text, whatever it holds. */
  lemma RemListsRest(rest: seq<byte>, f: Flags)
    ensures Render([0x8F] + rest, f) == "REM" + RemText(rest)
  {
    TablesDifferOnlyAtOr();
    ChunkIndex();
    assert ([0x8F] + rest)[1..] == rest;
  }

  /** RemText keeps plain text unchanged. */
  lemma {:induction false} RemTextOfPlain(s: seq<byte>)
    requires forall i :: 0 <= i < |s| ==> 0x20 <= s[i] < 0x80
    ensures RemText(s) == seq(|s|, i requires 0 <= i < |s| => s[i] as char)
    decreases |s|
  {
    if |s| > 0 {
      RemTextOfPlain(s[1..]);
    }
  }

  /** A string of plain characters is listed between quotes, as it was written. */
  lemma {:induction false} QuoteOfPlain(s: seq<byte>, sep: char, text: string)
    requires forall i :: 0 <= i < |s| ==> 0x20 <= s[i] < 0x80
    ensures QuoteLoop(s, sep, text, true) == text + seq(|s|, i requires 0 <= i < |s| => s[i] as char) + "\""
    decreases |s|
  {
    if |s| > 0 {
      QuoteOfPlain(s[1..], sep, text + [s[0] as char]);
      assert text + [s[0] as char] + seq(|s| - 1, i requires 0 <= i < |s| - 1 => s[1..][i] as char)
          == text + seq(|s|, i requires 0 <= i < |s| => s[i] as char);
    }
  }

  /** A quoted string of plain characters lists as itself; an empty one as `""`. */
  lemma QuotedPlainString(s: seq<byte>, sep: char)
    requires forall i :: 0 <= i < |s| ==> 0x20 <= s[i] < 0x80 && s[i] != 0x22
    ensures QuoteText(s, sep) == "\"" + seq(|s|, i requires 0 <= i < |s| => s[i] as char) + "\""
  {
    if |s| > 0 {
      var first := "\"" + [s[0] as char];
      assert Glyph(s[0]) == s[0] as char;
      assert "" + "\"" == "\"";
      assert QuoteLoop(s, sep, "", false) == QuoteLoop(s[1..], sep, first, true);
      QuoteOfPlain(s[1..], sep, first);
      assert first + seq(|s| - 1, i requires 0 <= i < |s| - 1 => s[1..][i] as char)
          == "\"" + seq(|s|, i requires 0 <= i < |s| => s[i] as char);
    } else {
      assert QuoteLoop(s, sep, "", false) == "";
    }
  }

  /** A control byte after text closes the quote and is joined by the separator:
      `"A";CHR$(13)` in a PRINT statement, `"A"+CHR$(13)` elsewhere. */
  lemma ControlByteJoined(a: byte, c: byte, sep: char)
    requires 0x20 <= a < 0x80 && !Printable(c)
    ensures QuoteText([a, c], sep) == "\"" + [a as char] + "\"" + [sep] + "CHR$(" + Decimal(c) + ")"
  {
    var first := "\"" + [a as char];
    assert Glyph(a) == a as char;
    assert "" + "\"" == "\"";
    assert [a, c][1..] == [c];
    assert QuoteLoop([a, c], sep, "", false) == QuoteLoop([c], sep, first, true);
    var joined := first + "\"" + [sep];
    assert QuoteLoop([c], sep, first, true) == QuoteLoop([], sep, joined + "CHR$(" + Decimal(c) + ")", false);
  }

  /** The separator is ';' in a PRINT statement outside string functions and '+' otherwise;
      a colon always brings back '+'. */
  lemma ColonResetsSeparator(f: Flags)
    ensures Separator(AfterChar(0x3A, f)) == '+'
    ensures Separator(AfterKeyword("PRINT", LineStart)) == ';'
    ensures Separator(AfterKeyword("MID$", AfterKeyword("PRINT", LineStart))) == '+'
  {
    assert IsPrintName("PRINT");
    assert "MID$"[..4] == "MID$";
    assert !IsPrintName("MID$");
  }

  /** The listing of `10 PRINT` at 0x0401. */
  lemma TenPrintLists(mem: seq<byte>)
    requires Holds(mem, 0x0401, [0x07, 0x04, 0x0A, 0x00, 0x99, 0x00, 0x00, 0x00])
    ensures Basic2Txt(mem, 0) == Some("10 PRINT")
  {
    var ls := [Line(10, [0x99])];
    assert WellFormed(ls);
    assert Encode(ls, 0x0401) + [0, 0] == [0x07, 0x04, 0x0A, 0x00, 0x99, 0x00, 0x00, 0x00];
    WalkOfEncode(mem, ls, 0x0401);
    WalkFuel(mem, 0x0401, 1, |mem| + 1);
    ListedTenPrint();
  }

  lemma ListedTenPrint()
    ensures Texts(Records([Line(10, [0x99])])) == ["10 PRINT"]
  {
    var r := Record(Some(10), [0x99]);
    assert Records([Line(10, [0x99])]) == [r];
    PrintToken();
    TenText();
    assert RecordText(r) == "10 PRINT";
    assert [r][1..] == [];
  }

  lemma PrintToken()
    ensures Render([0x99], LineStart) == "PRINT"
  {
    TokenListsAsKeyword(25, LineStart);
    ChunkIndex();
  }

  lemma TenText()
    ensures Decimal(10) == "10"
  {
    assert Digits(1, 10, false) == "1";
    assert Digits(10, 10, false) == Digits(1, 10, false) + [DigitChar(0, false)];
  }
}
