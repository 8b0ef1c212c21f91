/** The character reader of the BASIC tokenizer (`getCh` and `gotCharCaseAdjusted` in
    commodore/js/utilsc8dd.js) and its keyword search over the flat token table. */
module Lexer {
  import opened Common
  import opened Keywords

  /** Reader state: the source bytes, the byte order taken from the BOM, the read index and
      the lower-case mode flag. */
  datatype Reader = Reader(src: seq<byte>, bigEndian: bool, idx: nat, isLC: bool)

  /** One `getCh` call: the character returned, the value it leaves in `raw` (the character
      before the lower-case adjustment) and the reader afterwards. */
  datatype Read = Read(c: byte, raw: byte, next: Reader)

  predicate AtEnd(r: Reader)
  {
    r.idx >= |r.src|
  }

  /** The same source, byte order and case mode, read from another index. */
  predicate SameText(r: Reader, r': Reader)
  {
    r'.src == r.src && r'.bigEndian == r.bigEndian && r'.isLC == r.isLC
  }

  /** A line end as `getCh` sees it: CR, LF or NUL. */
  predicate IsLineEnd(b: int)
  {
    b == 0x0D || b == 0x0A || b == 0
  }

  /** The two-byte encodings of pi the reader folds into 0xFF: UTF-16 (in the byte order of
      the BOM) and UTF-8. */
  predicate IsPiPair(bigEndian: bool, b0: int, b1: int)
  {
    (bigEndian && b0 == 3 && b1 == 0xC0) || (!bigEndian && b0 == 0xC0 && b1 == 3)
      || (b0 == 0xCF && b1 == 0x80)
  }

  /** `getCh`: the next character of the source. Control characters other than TAB, CR and LF
      are skipped, TAB reads as a blank, CR (optionally followed by LF), LF and NUL read as 0,
      the pi encodings and 0x7E/0xDE read as 0xFF, and in lower-case mode letters swap case
      to PETSCII. Past the end it returns 0 and leaves `raw` at 0. */
  function GetCh(r: Reader): (g: Read)
    ensures SameText(r, g.next)
    ensures g.c == 0 || g.c >= 0x20
    ensures AtEnd(r) ==> g == Read(0, 0, r)
    ensures !AtEnd(r) ==> r.idx < g.next.idx <= |r.src|
    ensures !r.isLC ==> g.c == g.raw
    ensures !AtEnd(r) && IsLineEnd(r.src[r.idx]) ==> g.c == 0 && g.raw == 0
    decreases |r.src| - r.idx
  {
    if AtEnd(r) then Read(0, 0, r)
    else
      var b := r.src[r.idx];
      var i := r.idx + 1;
      var pair := IsPiPair(r.bigEndian, b, At(r.src, i));
      var i' := if pair || (b == 0x0D && At(r.src, i) == 0x0A) then i + 1 else i;
      var raw: byte :=
        if pair || b == 0x7E || b == 0xDE then 0xFF
        else if b == 9 then 0x20
        else if b == 0x0D || b == 0x0A then 0
        else b;
      var c: byte :=
        if r.isLC && 0x61 <= raw <= 0x7A then raw - 0x20
        else if r.isLC && 0x41 <= raw <= 0x5A then raw + 0x80
        else raw;
      if c == 0 || c >= 0x20 then Read(c, raw, r.(idx := i'))
      else GetCh(r.(idx := i'))
  }

  /** `gotCharCaseAdjusted`: the character to dispatch on, taken from `raw`, and the new
      lower-case mode. An upper-case letter leaves lower-case mode, a lower-case letter
      enters it and reads as its upper-case form. */
  function CaseAdjust(raw: byte, isLC: bool): (res: (byte, bool))
    ensures 0x41 <= raw <= 0x5A ==> res == (raw, false)
    ensures 0x61 <= raw <= 0x7A ==> res == (raw - 0x20, true)
    ensures !(0x41 <= raw <= 0x5A) && !(0x61 <= raw <= 0x7A) ==> res == (raw, isLC)
  {
    if 0x41 <= raw <= 0x5A then (raw, false)
    else if 0x61 <= raw <= 0x7A then (raw - 0x20, true)
    else (raw, isLC)
  }

  /** The reader after `n` calls of `getCh`. */
  function Advance(r: Reader, n: nat): (r': Reader)
    ensures SameText(r, r')
    ensures r.idx <= r'.idx
    ensures r.idx <= |r.src| ==> r'.idx <= |r.src|
    decreases n
  {
    if n == 0 then r else Advance(GetCh(r).next, n - 1)
  }

  /** The characters `n` calls of `getCh` return. */
  function Peek(r: Reader, n: nat): (s: seq<byte>)
    ensures |s| == n
    decreases n
  {
    if n == 0 then [] else [GetCh(r).c] + Peek(GetCh(r).next, n - 1)
  }

  /** The first character read, then the characters read after it. */
  lemma PeekCons(r: Reader, s: seq<byte>)
    requires s == Peek(GetCh(r).next, |s|)
    ensures [GetCh(r).c] + s == Peek(r, |s| + 1)
  {
  }

  /** A byte that `getCh` returns unchanged and that is not the first half of a pi pair:
      printable ASCII other than `~`, with letters upper-case when in lower-case mode would
      change them. */
  predicate Plain(b: byte, isLC: bool)
  {
    0x20 <= b < 0x7E && b != 3 && !(isLC && ((0x41 <= b <= 0x5A) || (0x61 <= b <= 0x7A)))
  }

  /** A plain character is read as itself, one byte on. */
  lemma ReadsPlain(r: Reader)
    requires !AtEnd(r) && Plain(r.src[r.idx], r.isLC)
    ensures GetCh(r) == Read(r.src[r.idx], r.src[r.idx], r.(idx := r.idx + 1))
  {
  }

  /** Plain text is read back character for character. */
  lemma {:induction false} PeekPlainText(r: Reader, s: seq<byte>)
    requires r.idx + |s| <= |r.src| && r.src[r.idx..r.idx + |s|] == s
    requires forall i :: 0 <= i < |s| ==> Plain(s[i], r.isLC)
    ensures Peek(r, |s|) == s
    ensures Advance(r, |s|) == r.(idx := r.idx + |s|)
    decreases |s|
  {
    if |s| > 0 {
      assert r.src[r.idx] == s[0];
      var r' := r.(idx := r.idx + 1);
      assert r'.src[r'.idx..r'.idx + |s[1..]|] == s[1..];
      PeekPlainText(r', s[1..]);
      ReadsPlain(r);
    }
  }

  /** After `getCh` has read a line end, stepping back one byte and reading again yields the
      line end once more and leaves the reader where it was (the `idx--` after a quoted span
      or a REM tail). */
  lemma UngetLineEnd(r: Reader)
    requires !AtEnd(r) && GetCh(r).c == 0 && GetCh(r).next.idx < |r.src|
    ensures 0 < GetCh(r).next.idx
    ensures GetCh(GetCh(r).next.(idx := GetCh(r).next.idx - 1)) == GetCh(r)
    decreases |r.src| - r.idx
  {
    if IsLineEnd(r.src[r.idx]) {
      UngetAtLineEnd(r);
    } else {
      SkipsControl(r);
      UngetLineEnd(r.(idx := r.idx + 1));
    }
  }

  /** A 0 read from a byte that is not a line end comes from a skipped control byte: the
      read is the one from the next byte. */
  lemma SkipsControl(r: Reader)
    requires !AtEnd(r) && GetCh(r).c == 0 && !IsLineEnd(r.src[r.idx])
    ensures GetCh(r) == GetCh(r.(idx := r.idx + 1))
  {
  }

  /** The case of `UngetLineEnd` where the first byte read is itself a line end. */
  lemma UngetAtLineEnd(r: Reader)
    requires !AtEnd(r) && IsLineEnd(r.src[r.idx])
    ensures 0 < GetCh(r).next.idx
    ensures GetCh(GetCh(r).next.(idx := GetCh(r).next.idx - 1)) == GetCh(r)
  {
    if r.src[r.idx] == 0x0D && At(r.src, r.idx + 1) == 0x0A {
      UngetCrLf(r);
    } else {
      UngetSingleLineEnd(r);
    }
  }

  /** A CR, LF or NUL read on its own is read again from the same place. */
  lemma UngetSingleLineEnd(r: Reader)
    requires !AtEnd(r) && IsLineEnd(r.src[r.idx]) && !(r.src[r.idx] == 0x0D && At(r.src, r.idx + 1) == 0x0A)
    ensures 0 < GetCh(r).next.idx
    ensures GetCh(GetCh(r).next.(idx := GetCh(r).next.idx - 1)) == GetCh(r)
  {
    StepsBackToStart(r);
  }

  /** Stepping back one byte after a single-byte line end returns to the reader's start. */
  lemma StepsBackToStart(r: Reader)
    requires !AtEnd(r) && IsLineEnd(r.src[r.idx]) && !(r.src[r.idx] == 0x0D && At(r.src, r.idx + 1) == 0x0A)
    ensures 0 < GetCh(r).next.idx && GetCh(r).next.(idx := GetCh(r).next.idx - 1) == r
  {
    ReadsLineEnd(r);
  }

  /** CR followed by LF reads as one 0, and so does the LF on its own. */
  lemma UngetCrLf(r: Reader)
    requires !AtEnd(r) && r.src[r.idx] == 0x0D && At(r.src, r.idx + 1) == 0x0A
    ensures GetCh(r) == Read(0, 0, r.(idx := r.idx + 2))
    ensures GetCh(r.(idx := r.idx + 1)) == GetCh(r)
  {
    ReadsLineEnd(r.(idx := r.idx + 1));
  }

  /** A line end not starting a CR LF pair reads as 0, one byte on. */
  lemma ReadsLineEnd(r: Reader)
    requires !AtEnd(r) && IsLineEnd(r.src[r.idx]) && !(r.src[r.idx] == 0x0D && At(r.src, r.idx + 1) == 0x0A)
    ensures GetCh(r) == Read(0, 0, r.(idx := r.idx + 1))
  {
  }

  // ---------------------------------------------------------------------------------------
  // The keyword search

  /** The `k`-th character of an attempt: `w[0]` is the character that started the search
      and `w[p]` for p > 0 the one the p-th `getCh` of the attempt returned. Every mismatch
      resets the read index, so each attempt sees the same characters. Reads beyond `w`
      give 0, as reads past the source do. */
  function Char(w: seq<int>, p: nat): (c: int)
    ensures p < |w| ==> c == w[p]
    ensures p >= |w| ==> c == 0
  {
    if p < |w| then w[p] else 0
  }

  /** The outcome of a search: a token index and the number of characters of the stream it
      consumed beyond the first, no keyword, or a search that never ends. */
  datatype Outcome = Token(index: nat, used: nat) | NoMatch | Hang

  /** Where `while ((tokens[cnt++] & 0x80) == 0);` stops: the first byte at or after `cnt`
      with bit 7 set, if there is one. */
  function NextHigh(t: seq<byte>, cnt: nat): (m: Option<nat>)
    ensures m.Some? ==> cnt <= m.value < |t| && t[m.value] >= 0x80
    ensures m.Some? ==> forall i :: cnt <= i < m.value ==> t[i] < 0x80
    ensures m.None? ==> forall i :: cnt <= i < |t| ==> t[i] < 0x80
    decreases |t| - cnt
  {
    if cnt >= |t| then None
    else if t[cnt] >= 0x80 then Some(cnt)
    else NextHigh(t, cnt + 1)
  }

  /** The keyword search loop over the flat table `t` at byte `cnt`, entry number `cmd`,
      stream position `p`. A byte equal to the character advances both; a difference of
      0x80 either way ends the search with token `cmd`; any other difference resets to the
      first character and moves to the entry after the next byte with bit 7 set, stopping
      when that entry starts with the 0 that ends the table. Running through the last entry
      compares that 0 with the next character like any table byte. With `stopAtEnd` false
      this is the loop as written, which never ends once `cnt` runs past the table (the skip
      loop reads `undefined` forever); with `stopAtEnd` true it ends there with no match,
      and takes every other step as written. */
  function Search(t: seq<byte>, w: seq<int>, cnt: nat, cmd: nat, p: nat, stopAtEnd: bool): (o: Outcome)
    ensures stopAtEnd ==> !o.Hang?
    decreases |t| - cnt
  {
    if cnt >= |t| then (if stopAtEnd then NoMatch else Hang)
    else
      var d := t[cnt] - Char(w, p);
      if d == 0 then Search(t, w, cnt + 1, cmd, p + 1, stopAtEnd)
      else if d == 0x80 || d == -0x80 then Token(cmd, p)
      else match NextHigh(t, cnt)
        case None => if stopAtEnd then NoMatch else Hang
        case Some(m) =>
          if m + 1 < |t| && t[m + 1] == 0 then NoMatch
          else Search(t, w, m + 1, cmd + 1, 0, stopAtEnd)
  }

  /** The search exactly as the source writes it. */
  function SearchAsWritten(t: seq<byte>, w: seq<int>): (o: Outcome)
  {
    Search(t, w, 0, 0, 0, false)
  }

  /** The search with the end of the table respected: it can no longer loop forever. */
  function SearchTable(t: seq<byte>, w: seq<int>): (o: Outcome)
    ensures !o.Hang?
  {
    Search(t, w, 0, 0, 0, true)
  }

  /** The correction changes only the walks that never end: wherever the search as written
      ends, the corrected search ends the same way, and where it hangs, no keyword is found. */
  lemma {:induction false} SearchTableCorrectsOnlyHang(t: seq<byte>, w: seq<int>, cnt: nat, cmd: nat, p: nat)
    ensures Search(t, w, cnt, cmd, p, true)
         == if Search(t, w, cnt, cmd, p, false).Hang? then NoMatch else Search(t, w, cnt, cmd, p, false)
    decreases |t| - cnt
  {
    if cnt < |t| {
      var d := t[cnt] - Char(w, p);
      if d == 0 {
        SearchTableCorrectsOnlyHang(t, w, cnt + 1, cmd, p + 1);
      } else if d != 0x80 && d != -0x80 && NextHigh(t, cnt).Some? {
        var m := NextHigh(t, cnt).value;
        if !(m + 1 < |t| && t[m + 1] == 0) {
          SearchTableCorrectsOnlyHang(t, w, m + 1, cmd + 1, 0);
        }
      }
    }
  }

  // ---------------------------------------------------------------------------------------
  // The same search, entry by entry

  /** How matching one table entry from its byte `j` ends: a hit (the character differs from
      the byte by 0x80), a miss, or every byte equal including the flagged last one, in which
      case the source carries on into the next entry with the next character. */
  datatype EntryOutcome = Hit(used: nat) | Miss | Through(used: nat)

  function EntryStep(kw: Keyword, w: seq<int>, p0: nat, j: nat): (e: EntryOutcome)
    requires j < |kw|
    ensures e.Hit? ==> p0 + j <= e.used < p0 + |kw|
    ensures e.Through? ==> e.used == p0 + |kw|
    decreases |kw| - j
  {
    var d := EntryByte(kw, j) - Char(w, p0 + j);
    if d == 0 then (if j + 1 < |kw| then EntryStep(kw, w, p0, j + 1) else Through(p0 + |kw|))
    else if d == 0x80 || d == -0x80 then Hit(p0 + j)
    else Miss
  }

  /** What the search does on the 0 that ends the table, reached by running through the
      last entry: a character 0x80 away from that 0 ends it with the last entry's token, and
      any other runs past the table. */
  function AtSentinel(w: seq<int>, cmd: nat, p: nat, stopAtEnd: bool): Outcome
  {
    if Char(w, p) == 0x80 || Char(w, p) == -0x80 then Token(cmd, p)
    else if stopAtEnd then NoMatch
    else Hang
  }

  /** The search stated over the keyword list instead of the flat table. */
  function ByEntries(kws: seq<Keyword>, w: seq<int>, k: nat, cmd: nat, p: nat, stopAtEnd: bool): Outcome
    requires k <= |kws|
    decreases |kws| - k, 0
  {
    if k == |kws| then AtSentinel(w, cmd, p, stopAtEnd)
    else AfterEntry(kws, w, k, cmd, stopAtEnd, EntryStep(kws[k], w, p, 0))
  }

  function AfterEntry(kws: seq<Keyword>, w: seq<int>, k: nat, cmd: nat, stopAtEnd: bool, e: EntryOutcome): Outcome
    requires k < |kws|
    decreases |kws| - k - 1, 1
  {
    match e
      case Hit(u) => Token(cmd, u)
      case Miss => if k + 1 == |kws| then NoMatch else ByEntries(kws, w, k + 1, cmd + 1, 0, stopAtEnd)
      case Through(u) => ByEntries(kws, w, k + 1, cmd, u, stopAtEnd)
  }

  /** Within entry `k` the flat-table bytes before the last have bit 7 clear, so a miss skips
      exactly to the next entry. */
  lemma SkipToNextEntry(kws: seq<Keyword>, k: nat, j: nat)
    requires k < |kws| && j < |kws[k]|
    ensures NextHigh(FlatTable(kws), Offset(kws, k) + j) == Some(Offset(kws, k) + |kws[k]| - 1)
    ensures Offset(kws, k + 1) == Offset(kws, k) + |kws[k]|
  {
    var t := FlatTable(kws);
    var o := Offset(kws, k);
    var last := o + |kws[k]| - 1;
    FlatTableLayout(kws, k, |kws[k]| - 1);
    forall i | o + j <= i < last
      ensures t[i] < 0x80
    {
      FlatTableLayout(kws, k, i - o);
    }
    NextHighFinds(t, o + j, last);
  }

  lemma {:induction false} NextHighFinds(t: seq<byte>, cnt: nat, m: nat)
    requires cnt <= m < |t| && t[m] >= 0x80
    requires forall i :: cnt <= i < m ==> t[i] < 0x80
    ensures NextHigh(t, cnt) == Some(m)
    decreases m - cnt
  {
    if cnt < m {
      NextHighFinds(t, cnt + 1, m);
    }
  }

  /** The flat-table search and the entry-wise search agree from the start of every entry. */
  lemma {:induction false} SearchByEntries(kws: seq<Keyword>, w: seq<int>, k: nat, cmd: nat, p: nat, stopAtEnd: bool)
    requires k <= |kws|
    ensures Search(FlatTable(kws), w, Offset(kws, k), cmd, p, stopAtEnd) == ByEntries(kws, w, k, cmd, p, stopAtEnd)
    decreases |kws| - k, if k < |kws| then |kws[k]| + 1 else 0
  {
    var t := FlatTable(kws);
    FlatTableLength(kws);
    if k == |kws| {
      var cnt := Offset(kws, k);
      assert t[cnt] == 0;
      if !stopAtEnd && Char(w, p) != 0 && Char(w, p) != 0x80 && Char(w, p) != -0x80 {
        assert NextHigh(t, cnt) == None;
      }
    } else {
      SearchWithinEntry(kws, w, k, 0, cmd, p, stopAtEnd);
    }
  }

  lemma {:induction false} SearchWithinEntry(kws: seq<Keyword>, w: seq<int>, k: nat, j: nat, cmd: nat, p0: nat, stopAtEnd: bool)
    requires k < |kws| && j < |kws[k]|
    ensures Search(FlatTable(kws), w, Offset(kws, k) + j, cmd, p0 + j, stopAtEnd)
         == AfterEntry(kws, w, k, cmd, stopAtEnd, EntryStep(kws[k], w, p0, j))
    decreases |kws| - k, |kws[k]| - j
  {
    var d := EntryByte(kws[k], j) - Char(w, p0 + j);
    if d == 0 && j + 1 < |kws[k]| {
      SearchMatchesByte(kws, w, k, j, cmd, p0, stopAtEnd);
      SearchWithinEntry(kws, w, k, j + 1, cmd, p0, stopAtEnd);
    } else if d == 0 {
      SearchRunsThroughEntry(kws, w, k, j, cmd, p0, stopAtEnd);
    } else if d != 0x80 && d != -0x80 {
      assert EntryStep(kws[k], w, p0, j) == Miss;
      SearchMissesEntry(kws, w, k, j, cmd, p0 + j, stopAtEnd);
    } else {
      SearchHitsEntry(kws, w, k, j, cmd, p0, stopAtEnd);
    }
  }

  /** A byte equal to the character, not the entry's last, moves both on by one. */
  lemma SearchMatchesByte(kws: seq<Keyword>, w: seq<int>, k: nat, j: nat, cmd: nat, p0: nat, stopAtEnd: bool)
    requires k < |kws| && j + 1 < |kws[k]| && EntryByte(kws[k], j) == Char(w, p0 + j)
    ensures Search(FlatTable(kws), w, Offset(kws, k) + j, cmd, p0 + j, stopAtEnd)
         == Search(FlatTable(kws), w, Offset(kws, k) + j + 1, cmd, p0 + j + 1, stopAtEnd)
    ensures EntryStep(kws[k], w, p0, j) == EntryStep(kws[k], w, p0, j + 1)
  {
    FlatTableLayout(kws, k, j);
  }

  /** A byte 0x80 away from the character ends the search with the current entry's token. */
  lemma SearchHitsEntry(kws: seq<Keyword>, w: seq<int>, k: nat, j: nat, cmd: nat, p0: nat, stopAtEnd: bool)
    requires k < |kws| && j < |kws[k]|
    requires var d := EntryByte(kws[k], j) - Char(w, p0 + j); d == 0x80 || d == -0x80
    ensures Search(FlatTable(kws), w, Offset(kws, k) + j, cmd, p0 + j, stopAtEnd)
         == AfterEntry(kws, w, k, cmd, stopAtEnd, EntryStep(kws[k], w, p0, j))
  {
    FlatTableLayout(kws, k, j);
  }

  /** The flagged last byte equal to the character: the source goes on into the next entry
      (or onto the 0 after the table) with the next character. */
  lemma {:induction false} SearchRunsThroughEntry(kws: seq<Keyword>, w: seq<int>, k: nat, j: nat, cmd: nat, p0: nat, stopAtEnd: bool)
    requires k < |kws| && j + 1 == |kws[k]| && EntryByte(kws[k], j) == Char(w, p0 + j)
    ensures Search(FlatTable(kws), w, Offset(kws, k) + j, cmd, p0 + j, stopAtEnd)
         == AfterEntry(kws, w, k, cmd, stopAtEnd, EntryStep(kws[k], w, p0, j))
    decreases |kws| - k, 0
  {
    FlatTableLayout(kws, k, j);
    SkipToNextEntry(kws, k, j);
    assert EntryStep(kws[k], w, p0, j) == Through(p0 + j + 1);
    SearchByEntries(kws, w, k + 1, cmd, p0 + j + 1, stopAtEnd);
  }

  /** A byte that neither matches nor hits moves the search to the start of the next entry
      with the first character again, or ends it after the last entry. */
  lemma {:induction false} SearchMissesEntry(kws: seq<Keyword>, w: seq<int>, k: nat, j: nat, cmd: nat, p: nat, stopAtEnd: bool)
    requires k < |kws| && j < |kws[k]|
    requires var d := EntryByte(kws[k], j) - Char(w, p); d != 0 && d != 0x80 && d != -0x80
    ensures Search(FlatTable(kws), w, Offset(kws, k) + j, cmd, p, stopAtEnd)
         == if k + 1 == |kws| then NoMatch else ByEntries(kws, w, k + 1, cmd + 1, 0, stopAtEnd)
    decreases |kws| - k, 0
  {
    var t := FlatTable(kws);
    var m := Offset(kws, k) + |kws[k]| - 1;
    FlatTableLayout(kws, k, j);
    SkipToNextEntry(kws, k, j);
    MissMovesOn(kws, k, j);
    assert Search(t, w, Offset(kws, k) + j, cmd, p, stopAtEnd)
        == if t[m + 1] == 0 then NoMatch else Search(t, w, m + 1, cmd + 1, 0, stopAtEnd);
    if k + 1 < |kws| {
      SearchByEntries(kws, w, k + 1, cmd + 1, 0, stopAtEnd);
    }
  }

  /** After a miss in entry `k` the search goes on with entry `k + 1`, or stops when `k` was
      the last. */
  lemma MissMovesOn(kws: seq<Keyword>, k: nat, j: nat)
    requires k < |kws| && j < |kws[k]|
    requires NextHigh(FlatTable(kws), Offset(kws, k) + j) == Some(Offset(kws, k) + |kws[k]| - 1)
    requires Offset(kws, k + 1) == Offset(kws, k) + |kws[k]|
    ensures var t := FlatTable(kws); var m := Offset(kws, k) + |kws[k]| - 1;
            m + 1 < |t| && (t[m + 1] == 0 <==> k + 1 == |kws|)
  {
    var t := FlatTable(kws);
    FlatTableLength(kws);
    if k + 1 < |kws| {
      FlatTableLayout(kws, k + 1, 0);
    }
  }

  /** Token indices stay below the number of entries: a token byte is always 0x80 plus the
      index of some entry. */
  lemma {:induction false} ByEntriesIndex(kws: seq<Keyword>, w: seq<int>, k: nat, cmd: nat, p: nat, stopAtEnd: bool)
    requires k <= |kws|
    requires if k < |kws| then cmd <= k else cmd < k
    ensures ByEntries(kws, w, k, cmd, p, stopAtEnd).Token? ==> ByEntries(kws, w, k, cmd, p, stopAtEnd).index < |kws|
    decreases |kws| - k
  {
    if k < |kws| {
      match EntryStep(kws[k], w, p, 0)
      case Hit(_) =>
      case Miss =>
        if k + 1 < |kws| {
          ByEntriesIndex(kws, w, k + 1, cmd + 1, 0, stopAtEnd);
        }
      case Through(u) =>
        ByEntriesIndex(kws, w, k + 1, cmd, u, stopAtEnd);
    }
  }

  /** The search from the start of the table names an entry of the table. */
  lemma TokenIndexInTable(kws: seq<Keyword>, w: seq<int>, stopAtEnd: bool)
    requires 0 < |kws|
    ensures Search(FlatTable(kws), w, 0, 0, 0, stopAtEnd).Token? ==>
              Search(FlatTable(kws), w, 0, 0, 0, stopAtEnd).index < |kws|
  {
    SearchByEntries(kws, w, 0, 0, 0, stopAtEnd);
    ByEntriesIndex(kws, w, 0, 0, 0, stopAtEnd);
  }

  // ---------------------------------------------------------------------------------------
  // First match on 7-bit text

  /** No character of the stream has bit 7 set (no shifted letters, no graphics). */
  predicate SevenBit(w: seq<int>)
  {
    forall i :: 0 <= i < |w| ==> 0 <= w[i] < 0x80
  }

  /** The stream starts with the keyword's characters. */
  predicate Spells(kw: Keyword, w: seq<int>)
  {
    forall i :: 0 <= i < |kw| ==> Char(w, i) == kw[i] as int
  }

  /** The first entry at or after `k` that the stream spells. */
  function FirstMatch(kws: seq<Keyword>, w: seq<int>, k: nat): (m: Option<nat>)
    requires k <= |kws|
    ensures m.Some? ==> k <= m.value < |kws| && Spells(kws[m.value], w)
    ensures m.Some? ==> forall i :: k <= i < m.value ==> !Spells(kws[i], w)
    ensures m.None? ==> forall i :: k <= i < |kws| ==> !Spells(kws[i], w)
    decreases |kws| - k
  {
    if k == |kws| then None
    else if Spells(kws[k], w) then Some(k)
    else FirstMatch(kws, w, k + 1)
  }

  /** On 7-bit text an entry either is spelt, and hits at its last character, or misses. */
  lemma {:induction false} EntryStepSevenBit(kw: Keyword, w: seq<int>, j: nat)
    requires SevenBit(w) && j < |kw|
    requires forall i :: 0 <= i < j ==> Char(w, i) == kw[i] as int
    ensures EntryStep(kw, w, 0, j) == if Spells(kw, w) then Hit(|kw| - 1) else Miss
    decreases |kw| - j
  {
    var c := Char(w, j);
    assert 0 <= c < 0x80;
    if c == kw[j] as int && j + 1 < |kw| {
      EntryStepSevenBit(kw, w, j + 1);
    } else if c != kw[j] as int {
      assert !Spells(kw, w);
    }
  }

  lemma {:induction false} ByEntriesSevenBit(kws: seq<Keyword>, w: seq<int>, k: nat, stopAtEnd: bool)
    requires SevenBit(w) && k < |kws|
    ensures ByEntries(kws, w, k, k, 0, stopAtEnd)
         == match FirstMatch(kws, w, k)
              case Some(i) => Token(i, |kws[i]| - 1)
              case None => NoMatch
    decreases |kws| - k
  {
    EntryStepSevenBit(kws[k], w, 0);
    if !Spells(kws[k], w) && k + 1 < |kws| {
      ByEntriesSevenBit(kws, w, k + 1, stopAtEnd);
    }
  }

  /** On text of 7-bit characters the search, as written or corrected, yields the first
      entry in table order that the text spells, having consumed its characters, and no
      token when none is spelt. */
  lemma SearchFirstMatch(kws: seq<Keyword>, w: seq<int>, stopAtEnd: bool)
    requires SevenBit(w) && 0 < |kws|
    ensures Search(FlatTable(kws), w, 0, 0, 0, stopAtEnd)
         == match FirstMatch(kws, w, 0)
              case Some(i) => Token(i, |kws[i]| - 1)
              case None => NoMatch
  {
    SearchByEntries(kws, w, 0, 0, 0, stopAtEnd);
    ByEntriesSevenBit(kws, w, 0, stopAtEnd);
  }

  // ---------------------------------------------------------------------------------------
  // The token table in use

  /** The table the tokenizer searches: every entry, minus "GO" on ROM 1.0. */
  function TokenTable(isPetRom1: bool): (t: seq<byte>)
    ensures 0 < |t| && t[|t| - 1] == 0
  {
    FlatTable(Entries(isPetRom1))
  }

  /** The first six entries of either table. */
  lemma FirstEntries(isPetRom1: bool)
    ensures |Entries(isPetRom1)| > 5
    ensures Entries(isPetRom1)[..6] == ["END", "FOR", "NEXT", "DATA", "INPUT#", "INPUT"]
  {
    assert Tokens80[..6] == ["END", "FOR", "NEXT", "DATA", "INPUT#", "INPUT"];
    assert TokenizerKeywords[..6] == Tokens80[..6];
  }

  lemma {:induction false} InputHashMatch(kws: seq<Keyword>, rest: seq<int>)
    requires |kws| > 5 && kws[..6] == ["END", "FOR", "NEXT", "DATA", "INPUT#", "INPUT"]
    requires SevenBit(rest)
    ensures SearchTable(FlatTable(kws), Codes("INPUT#") + rest) == Token(4, 5)
  {
    var w: seq<int> := Codes("INPUT#") + rest;
    assert kws[0] == "END" && kws[1] == "FOR" && kws[2] == "NEXT" && kws[3] == "DATA" && kws[4] == "INPUT#";
    assert Spells(kws[4], w);
    SearchFirstMatch(kws, w, true);
    assert !Spells(kws[0], w) && !Spells(kws[1], w) && !Spells(kws[2], w) && !Spells(kws[3], w);
    FirstMatchTail(kws, w, 0, 4);
  }

  lemma {:induction false} InputMatch(kws: seq<Keyword>, rest: seq<int>)
    requires |kws| > 5 && kws[..6] == ["END", "FOR", "NEXT", "DATA", "INPUT#", "INPUT"]
    requires SevenBit(rest) && (|rest| == 0 || rest[0] != '#' as int)
    ensures SearchTable(FlatTable(kws), Codes("INPUT") + rest) == Token(5, 4)
  {
    var w: seq<int> := Codes("INPUT") + rest;
    assert kws[0] == "END" && kws[1] == "FOR" && kws[2] == "NEXT" && kws[3] == "DATA";
    assert kws[4] == "INPUT#" && kws[5] == "INPUT";
    assert Char(w, 5) != '#' as int;
    assert !Spells(kws[4], w);
    assert Spells(kws[5], w);
    SearchFirstMatch(kws, w, true);
    assert !Spells(kws[0], w) && !Spells(kws[1], w) && !Spells(kws[2], w) && !Spells(kws[3], w);
    FirstMatchTail(kws, w, 0, 5);
  }

  /** Entries are tried in table order, so "INPUT#" becomes token 0x84 and "INPUT" followed
      by anything but '#' token 0x85. */
  lemma InputHashBeforeInput(isPetRom1: bool, rest: seq<int>)
    requires SevenBit(rest) && (|rest| == 0 || rest[0] != '#' as int)
    ensures SearchTable(TokenTable(isPetRom1), Codes("INPUT#") + rest) == Token(4, 5)
    ensures SearchTable(TokenTable(isPetRom1), Codes("INPUT") + rest) == Token(5, 4)
  {
    FirstEntries(isPetRom1);
    InputHashMatch(Entries(isPetRom1), rest);
    InputMatch(Entries(isPetRom1), rest);
  }

  /** Of all entries only the last, "GO", is spelt by "GO ". */
  lemma OnlyGoSpellsGo()
    ensures forall k :: 0 <= k < 75 ==> !Spells(TokenizerKeywords[k], Codes("GO "))
    ensures |TokenizerKeywords| == 76 && TokenizerKeywords[75] == "GO"
    ensures Spells(TokenizerKeywords[75], Codes("GO "))
  {
    var all := TokenizerKeywords;
    var w := Codes("GO ");
    InitialLetters();
    ChunkIndex();
    assert all[9] == "GOTO" && all[13] == "GOSUB" && all[33] == "GET" && all[75] == "GO";
    assert Char(w, 0) == 'G' as int && Char(w, 1) == 'O' as int && Char(w, 2) == ' ' as int;
    assert !Spells(all[9], w) && !Spells(all[13], w) && !Spells(all[33], w);
  }

  /** "GO" is the last entry: it is a token (0xCB) only when the table keeps it, that is,
      not on ROM 1.0. */
  lemma GoIsLastToken()
    ensures SearchTable(TokenTable(false), Codes("GO ")) == Token(75, 1)
  {
    OnlyGoSpellsGo();
    OnlyLastSpelt(Entries(false), Codes("GO "));
  }

  /** A stream that only the last entry spells yields the last entry's token. */
  lemma OnlyLastSpelt(kws: seq<Keyword>, w: seq<int>)
    requires SevenBit(w) && 0 < |kws|
    requires forall k :: 0 <= k < |kws| - 1 ==> !Spells(kws[k], w)
    requires Spells(kws[|kws| - 1], w)
    ensures SearchTable(FlatTable(kws), w) == Token(|kws| - 1, |kws[|kws| - 1]| - 1)
  {
    FirstMatchTail(kws, w, 0, |kws| - 1);
    SearchFirstMatch(kws, w, true);
  }

  lemma NoGoOnRom1()
    ensures SearchTable(TokenTable(true), Codes("GO ")) == NoMatch
  {
    var w := Codes("GO ");
    var rom1 := Entries(true);
    OnlyGoSpellsGo();
    FirstMatchTail(rom1, w, 0, 75);
    assert FirstMatch(rom1, w, 0) == None;
    SearchFirstMatch(rom1, w, true);
  }

  /** FirstMatch skips entries the stream does not spell. */
  lemma {:induction false} FirstMatchTail(kws: seq<Keyword>, w: seq<int>, k: nat, k2: nat)
    requires k <= k2 <= |kws|
    requires forall i :: k <= i < k2 ==> !Spells(kws[i], w)
    ensures FirstMatch(kws, w, k) == FirstMatch(kws, w, k2)
    decreases k2 - k
  {
    if k < k2 {
      FirstMatchTail(kws, w, k + 1, k2);
    }
  }

  // ---------------------------------------------------------------------------------------
  // Running off the table

  /** A 7-bit character that is not an entry's first letter misses that entry at once. */
  lemma FirstCharMiss(kw: Keyword, w: seq<int>)
    requires 0 <= Char(w, 0) < 0x80 && kw[0] as int != Char(w, 0)
    ensures EntryStep(kw, w, 0, 0) == Miss
  {
  }

  lemma {:induction false} SkipMisses(kws: seq<Keyword>, w: seq<int>, k: nat, k2: nat, stopAtEnd: bool)
    requires k <= k2 < |kws|
    requires forall i :: k <= i < k2 ==> EntryStep(kws[i], w, 0, 0) == Miss
    ensures ByEntries(kws, w, k, k, 0, stopAtEnd) == ByEntries(kws, w, k2, k2, 0, stopAtEnd)
    decreases k2 - k
  {
    if k < k2 {
      SkipMisses(kws, w, k + 1, k2, stopAtEnd);
    }
  }

  /** The search as written never ends when the text runs through the whole of the last
      entry (its flagged last byte matched exactly, as a shifted character does) and the
      character after it is not 0x80; the corrected search reports no match. */
  lemma RunThroughLast(kws: seq<Keyword>, w: seq<int>, u: nat)
    requires 0 < |kws|
    requires forall i :: 0 <= i < |kws| - 1 ==> EntryStep(kws[i], w, 0, 0) == Miss
    requires EntryStep(kws[|kws| - 1], w, 0, 0) == Through(u)
    requires Char(w, u) != 0x80 && Char(w, u) != -0x80
    ensures SearchAsWritten(FlatTable(kws), w) == Hang
    ensures SearchTable(FlatTable(kws), w) == NoMatch
  {
    RunThroughLastFrom(kws, w, u, false);
    RunThroughLastFrom(kws, w, u, true);
  }

  lemma RunThroughLastFrom(kws: seq<Keyword>, w: seq<int>, u: nat, stopAtEnd: bool)
    requires 0 < |kws|
    requires forall i :: 0 <= i < |kws| - 1 ==> EntryStep(kws[i], w, 0, 0) == Miss
    requires EntryStep(kws[|kws| - 1], w, 0, 0) == Through(u)
    requires Char(w, u) != 0x80 && Char(w, u) != -0x80
    ensures Search(FlatTable(kws), w, 0, 0, 0, stopAtEnd) == if stopAtEnd then NoMatch else Hang
  {
    var last := |kws| - 1;
    SkipMisses(kws, w, 0, last, stopAtEnd);
    assert ByEntries(kws, w, last, last, 0, stopAtEnd) == ByEntries(kws, w, |kws|, last, u, stopAtEnd);
    SearchByEntries(kws, w, 0, 0, 0, stopAtEnd);
  }

  /** When the character after the last entry is 0x80 away from the table's closing 0, the
      search as written stops there with the last entry's token, and so does the corrected
      search: the correction changes only the walks that would never end. */
  lemma RunThroughLastHit(kws: seq<Keyword>, w: seq<int>, u: nat)
    requires 0 < |kws|
    requires forall i :: 0 <= i < |kws| - 1 ==> EntryStep(kws[i], w, 0, 0) == Miss
    requires EntryStep(kws[|kws| - 1], w, 0, 0) == Through(u)
    requires Char(w, u) == 0x80 || Char(w, u) == -0x80
    ensures SearchAsWritten(FlatTable(kws), w) == Token(|kws| - 1, u)
    ensures SearchTable(FlatTable(kws), w) == Token(|kws| - 1, u)
  {
    RunThroughLastHitFrom(kws, w, u, false);
    RunThroughLastHitFrom(kws, w, u, true);
  }

  lemma RunThroughLastHitFrom(kws: seq<Keyword>, w: seq<int>, u: nat, stopAtEnd: bool)
    requires 0 < |kws|
    requires forall i :: 0 <= i < |kws| - 1 ==> EntryStep(kws[i], w, 0, 0) == Miss
    requires EntryStep(kws[|kws| - 1], w, 0, 0) == Through(u)
    requires Char(w, u) == 0x80 || Char(w, u) == -0x80
    ensures Search(FlatTable(kws), w, 0, 0, 0, stopAtEnd) == Token(|kws| - 1, u)
  {
    var last := |kws| - 1;
    SkipMisses(kws, w, 0, last, stopAtEnd);
    assert ByEntries(kws, w, last, last, 0, stopAtEnd) == ByEntries(kws, w, |kws|, last, u, stopAtEnd);
    SearchByEntries(kws, w, 0, 0, 0, stopAtEnd);
  }

  /** On ROM 1.0 the table ends with MID$. "MID" followed by a shifted '$' (0xA4) and the
      line end matches MID$ byte for byte, including its flagged last byte, so the search as
      written walks onto the terminating 0, matches it against the line end, and then scans
      past the table for ever. The corrected search reports no keyword. */
  lemma MidDollarRunsOffRom1Table()
    ensures SearchAsWritten(TokenTable(true), [0x4D, 0x49, 0x44, 0xA4]) == Hang
    ensures SearchTable(TokenTable(true), [0x4D, 0x49, 0x44, 0xA4]) == NoMatch
  {
    var kws := Entries(true);
    var w: seq<int> := [0x4D, 0x49, 0x44, 0xA4];
    InitialLetters();
    ChunkIndex();
    assert |kws| == 75 && kws[74] == "MID$";
    forall i | 0 <= i < 74
      ensures EntryStep(kws[i], w, 0, 0) == Miss
    {
      FirstCharMiss(kws[i], w);
    }
    assert EntryStep(kws[74], w, 0, 0) == Through(4);
    RunThroughLast(kws, w, 4);
  }

  /** On ROM 1.0, "MID" and a shifted '$' (0xA4) followed by the byte 0x80 also run through
      MID$ onto the closing 0, but 0x80 differs from that 0 by 0x80: the search as written
      ends with MID$'s token, and the corrected search gives the same token. */
  lemma MidDollarThenHighByte()
    ensures SearchAsWritten(TokenTable(true), [0x4D, 0x49, 0x44, 0xA4, 0x80]) == Token(74, 4)
    ensures SearchTable(TokenTable(true), [0x4D, 0x49, 0x44, 0xA4, 0x80]) == Token(74, 4)
  {
    var kws := Entries(true);
    var w: seq<int> := [0x4D, 0x49, 0x44, 0xA4, 0x80];
    InitialLetters();
    ChunkIndex();
    assert |kws| == 75 && kws[74] == "MID$";
    forall i | 0 <= i < 74
      ensures EntryStep(kws[i], w, 0, 0) == Miss
    {
      FirstCharMiss(kws[i], w);
    }
    assert EntryStep(kws[74], w, 0, 0) == Through(4);
    RunThroughLastHit(kws, w, 4);
  }
}
