/** `hexDump` and `hexDumpBasic` of commodore/js/utilsc8dd.js: memory as rows of eight
    hexadecimal bytes with their address and a character column. */
module HexDump {
  import opened Common
  import opened NumText
  import opened Prg

  /** The decorations of a dump: before and after each row address, before the character
      column of full rows, and before the character column of the last row. */
  datatype Style = Style(addrPrefix: string, addrPostfix: string, charsPrefix: string, lastPrefix: string)

  /** `hexDump`: old style is `:ADDR XX ...  ;chars` (the format of a monitor), the default
      `ADDR: XX ...  chars`. */
  function DumpStyle(oldStyle: bool): (st: Style)
    ensures st.charsPrefix == st.lastPrefix
  {
    if oldStyle then Style(":", "", ";", ";") else Style("", ":", "", "")
  }

  /** `hexDumpBasic` leaves the old-style ';' off the last row. */
  function BasicStyle(oldStyle: bool): (st: Style)
    ensures st.lastPrefix == "" && st.charsPrefix == DumpStyle(oldStyle).charsPrefix
  {
    if oldStyle then Style(":", "", ";", "") else Style("", ":", "", "")
  }

  /** The character column shows 0x20-0x60 as themselves and everything else as '.'. */
  function Shown(c: byte): (ch: char)
    ensures ch == '.' || (0x20 <= c <= 0x60 && ch as int == c)
  {
    if 0x20 <= c <= 0x60 then c as char else '.'
  }

  function Header(addr: nat, st: Style): (s: string)
    ensures 0 < |s|
  {
    st.addrPrefix + Hex(addr, 4) + st.addrPostfix
  }

  /** The text that closes the pending row before a new one starts; nothing before the
      first row. */
  function Close(out: string, chars: string, st: Style): string
  {
    if |out| > 0 then out + Column(st.charsPrefix, chars) + "\n" else out
  }

  /** The character column of a row, set off by two blanks. */
  function Column(prefix: string, chars: string): (s: string)
    ensures |s| == 2 + |prefix| + |chars|
  {
    "  " + prefix + chars
  }

  /** The last row's padding: three blanks for each missing byte up to the next multiple
      of eight. */
  function Padding(addr: nat): (s: string)
    ensures |s| == 3 * ((8 - addr % 8) % 8)
  {
    Repeat(' ', 3 * ((8 - addr % 8) % 8))
  }

  /** The dump's running state: the text so far and the character column of the open row. */
  datatype Acc = Acc(out: string, chars: string)

  /** `dump(c)` at address `addr`: at a multiple of eight the open row is closed and a new
      one started; then the byte's cell and character are appended. */
  function Put(acc: Acc, addr: nat, b: byte, st: Style): (a: Acc)
    ensures addr % 8 != 0 ==> a == Acc(acc.out + Cell(b), acc.chars + [Shown(b)])
    ensures addr % 8 == 0 ==> a == Acc(Close(acc.out, acc.chars, st) + Header(addr, st) + Cell(b), [Shown(b)])
  {
    if addr % 8 == 0 then
      assert "" + [Shown(b)] == [Shown(b)];
      Acc(Close(acc.out, acc.chars, st) + Header(addr, st) + Cell(b), [Shown(b)])
    else Acc(acc.out + Cell(b), acc.chars + [Shown(b)])
  }

  /** The end of the dump: a last row still open is padded and closed. */
  function Finish(acc: Acc, addr: nat, st: Style): string
  {
    if |acc.chars| > 0 then acc.out + Padding(addr) + Column(st.lastPrefix, acc.chars) else acc.out
  }

  /** The dump loop over `bytes` from address `addr` on, then the closing of the last row.
      It only ever appends to the text written so far. */
  function Dump(bytes: seq<byte>, addr: nat, acc: Acc, st: Style): (s: string)
    ensures acc.out <= s
    decreases |bytes|
  {
    if |bytes| == 0 then Finish(acc, addr, st)
    else
      var next := Put(acc, addr, bytes[0], st);
      var s := Dump(bytes[1..], addr + 1, next, st);
      assert acc.out <= next.out;
      s
  }

  /** A byte's hexadecimal column: a blank and two digits. */
  function Cell(b: byte): (s: string)
    ensures |s| == 3 && s[0] == ' '
  {
    HexWidth(b, 2);
    " " + Hex(b, 2)
  }

  /** `hexDump(mem, addr, end, oldStyle)`: the bytes from `addr` through `end`, or one of
      the two errors. A range past the end of `mem` makes the source fail on an undefined
      byte, so it is excluded. */
  function HexDump(mem: seq<byte>, addr: int, end: int, oldStyle: bool): (s: string)
    requires addr < |mem| && addr <= end ==> 0 <= addr && end < |mem|
    ensures addr >= |mem| ==> s == "Error: Start address out of bounds."
    ensures addr < |mem| && addr > end ==> s == "Error: End address lower than start address."
  {
    if addr >= |mem| then "Error: Start address out of bounds."
    else if addr > end then "Error: End address lower than start address."
    else Dump(mem[addr..end + 1], addr, Acc("", ""), DumpStyle(oldStyle))
  }

  /** `hexDumpBasic(mem, oldStyle)` as written: the byte at 0x0400 and then what the chunk
      scan of `convertToPrg` reads from 0x0401, opening with the row header for 0x0400. */
  function HexDumpBasicAsWritten(mem: seq<byte>, oldStyle: bool): (s: string)
    ensures Header(0x0400, BasicStyle(oldStyle)) <= s
  {
    var bytes := [At(mem, 0x0400)] + ChunkScan(mem, 0x0401);
    OpensWithHeader(bytes, 0x0400, BasicStyle(oldStyle));
    Dump(bytes, 0x0400, Acc("", ""), BasicStyle(oldStyle))
  }

  /** `hexDumpBasic` with the record-aware scan. Like the dump as written, it opens with
      the row header for 0x0400. */
  function HexDumpBasic(mem: seq<byte>, oldStyle: bool): (s: string)
    ensures Header(0x0400, BasicStyle(oldStyle)) <= s
  {
    var bytes := [At(mem, 0x0400)] + RecordScan(mem, 0x0401);
    OpensWithHeader(bytes, 0x0400, BasicStyle(oldStyle));
    Dump(bytes, 0x0400, Acc("", ""), BasicStyle(oldStyle))
  }

  /** A dump of at least one byte from a multiple of eight opens with that address's row
      header. */
  lemma OpensWithHeader(bytes: seq<byte>, addr: nat, st: Style)
    requires 0 < |bytes| && addr % 8 == 0
    ensures Header(addr, st) <= Dump(bytes, addr, Acc("", ""), st)
  {
    var next := Put(Acc("", ""), addr, bytes[0], st);
    assert next.out == Header(addr, st) + Cell(bytes[0]);
    assert Dump(bytes, addr, Acc("", ""), st) == Dump(bytes[1..], addr + 1, next, st);
  }

  // ---------------------------------------------------------------------------------------
  // The same dump, row by row

  /** ` XX` for every byte. */
  function HexBytes(g: seq<byte>): (s: string)
    ensures |s| == 3 * |g|
    decreases |g|
  {
    if |g| == 0 then "" else Cell(g[0]) + HexBytes(g[1..])
  }

  function Chars(g: seq<byte>): (s: string)
    ensures |s| == |g| && forall i :: 0 <= i < |g| ==> s[i] == Shown(g[i])
  {
    seq(|g|, i requires 0 <= i < |g| => Shown(g[i]))
  }

  /** One row: address, the bytes, blanks for missing bytes, the character column. */
  function Row(addr: nat, g: seq<byte>, prefix: string, st: Style): string
    requires |g| <= 8
  {
    Header(addr, st) + HexBytes(g) + Repeat(' ', 3 * (8 - |g|)) + Column(prefix, Chars(g))
  }

  /** A dump that starts on a multiple of eight, as independent rows joined by newlines. */
  function Rows(bytes: seq<byte>, addr: nat, st: Style): string
    decreases |bytes|
  {
    if |bytes| <= 8 then Row(addr, bytes, st.lastPrefix, st)
    else Row(addr, bytes[..8], st.charsPrefix, st) + "\n" + Rows(bytes[8..], addr + 8, st)
  }

  /** The cells and characters of a one-byte prefix. */
  lemma Single(g: seq<byte>)
    requires 0 < |g|
    ensures HexBytes(g[..1]) == Cell(g[0]) && Chars(g[..1]) == [Shown(g[0])]
  {
    assert g[..1] == [g[0]];
    assert HexBytes([g[0]]) == Cell(g[0]) + HexBytes([]);
  }

  /** The cells and characters of a prefix, first byte apart. */
  lemma Split(g: seq<byte>, k: nat)
    requires 0 < k <= |g|
    ensures HexBytes(g[..k]) == Cell(g[0]) + HexBytes(g[1..][..k - 1])
    ensures Chars(g[..k]) == [Shown(g[0])] + Chars(g[1..][..k - 1])
  {
    assert g[..k][1..] == g[1..][..k - 1];
  }

  /** One byte inside a row: its cell and character are appended. */
  lemma DumpMid(bytes: seq<byte>, addr: nat, out: string, chars: string, st: Style)
    requires 0 < |bytes| && 0 < addr % 8
    ensures Dump(bytes, addr, Acc(out, chars), st) == Dump(bytes[1..], addr + 1, Acc(out + Cell(bytes[0]), chars + [Shown(bytes[0])]), st)
  {
  }

  /** Appending a byte's cell and then the cells of the following bytes. */
  lemma AppendCell(bytes: seq<byte>, out: string, chars: string, k: nat)
    requires 0 < k <= |bytes|
    ensures out + Cell(bytes[0]) + HexBytes(bytes[1..][..k - 1]) == out + HexBytes(bytes[..k])
    ensures chars + [Shown(bytes[0])] + Chars(bytes[1..][..k - 1]) == chars + Chars(bytes[..k])
  {
    Split(bytes, k);
  }

  /** The next address is still inside the row. */
  lemma ModNext(addr: nat, k: nat)
    requires 0 < addr % 8 && addr % 8 + k <= 8 && k > 1
    ensures 0 < (addr + 1) % 8 && (addr + 1) % 8 + (k - 1) <= 8
  {
  }

  /** Addresses within a row that starts on a multiple of eight. */
  lemma ModAligned(addr: nat, m: nat)
    requires addr % 8 == 0 && m <= 8
    ensures (addr + m) % 8 == if m < 8 then m else 0
  {
  }

  /** Inside a row, each byte only appends to the output and the character column. */
  lemma {:induction false} WithinRow(bytes: seq<byte>, addr: nat, out: string, chars: string, st: Style, k: nat)
    requires k <= |bytes| && 0 < addr % 8 && addr % 8 + k <= 8
    ensures Dump(bytes, addr, Acc(out, chars), st)
         == Dump(bytes[k..], addr + k, Acc(out + HexBytes(bytes[..k]), chars + Chars(bytes[..k])), st)
    decreases k
  {
    if k == 0 {
      assert bytes[..0] == [] && bytes[0..] == bytes;
      assert out + HexBytes([]) == out && chars + Chars([]) == chars;
    } else {
      var o := out + Cell(bytes[0]);
      var cs := chars + [Shown(bytes[0])];
      DumpMid(bytes, addr, out, chars, st);
      AppendCell(bytes, out, chars, k);
      if k > 1 {
        ModNext(addr, k);
        WithinRow(bytes[1..], addr + 1, o, cs, st, k - 1);
        assert bytes[1..][k - 1..] == bytes[k..];
      } else {
        assert bytes[1..][..0] == [];
        assert o + HexBytes([]) == o && cs + Chars([]) == cs;
      }
    }
  }

  /** The first byte of a row closes the open one and writes the header. */
  lemma DumpFirst(bytes: seq<byte>, addr: nat, acc: Acc, st: Style)
    requires addr % 8 == 0 && 0 < |bytes|
    ensures Dump(bytes, addr, acc, st)
         == Dump(bytes[1..], addr + 1, Acc(Close(acc.out, acc.chars, st) + Header(addr, st) + HexBytes(bytes[..1]), Chars(bytes[..1])), st)
  {
    Single(bytes);
  }

  /** The first cell followed by the rest of the row is the row. */
  lemma AppendRow(bytes: seq<byte>, o: string, m: nat)
    requires 1 < m <= |bytes|
    ensures o + HexBytes(bytes[..1]) + HexBytes(bytes[1..][..m - 1]) == o + HexBytes(bytes[..m])
    ensures Chars(bytes[..1]) + Chars(bytes[1..][..m - 1]) == Chars(bytes[..m])
    ensures bytes[1..][m - 1..] == bytes[m..]
  {
    Single(bytes);
    Split(bytes, m);
  }

  /** The rest of a row after its first byte, landing on the given state. */
  lemma RowRest(bytes: seq<byte>, addr: nat, o: string, m: nat, rest: seq<byte>, out': string, chars': string, st: Style)
    requires addr % 8 == 0 && 1 < m <= 8 && m <= |bytes|
    requires rest == bytes[m..] && out' == o + HexBytes(bytes[..m]) && chars' == Chars(bytes[..m])
    ensures Dump(bytes[1..], addr + 1, Acc(o + HexBytes(bytes[..1]), Chars(bytes[..1])), st)
         == Dump(rest, addr + m, Acc(out', chars'), st)
  {
    ModAligned(addr, 1);
    WithinRow(bytes[1..], addr + 1, o + HexBytes(bytes[..1]), Chars(bytes[..1]), st, m - 1);
    AppendRow(bytes, o, m);
  }

  /** A row of `m` bytes from an address that is a multiple of eight: the open row is
      closed, the header written and the bytes appended. */
  lemma RowStep(bytes: seq<byte>, addr: nat, acc: Acc, st: Style, m: nat)
    requires addr % 8 == 0 && 0 < m <= 8 && m <= |bytes|
    ensures Dump(bytes, addr, acc, st)
         == Dump(bytes[m..], addr + m, Acc(Close(acc.out, acc.chars, st) + Header(addr, st) + HexBytes(bytes[..m]), Chars(bytes[..m])), st)
  {
    var o := Close(acc.out, acc.chars, st) + Header(addr, st);
    DumpFirst(bytes, addr, acc, st);
    if m > 1 {
      RowRest(bytes, addr, o, m, bytes[m..], o + HexBytes(bytes[..m]), Chars(bytes[..m]), st);
    }
  }

  /** The last row is padded to eight cells. */
  lemma LastPadding(addr: nat, m: nat)
    requires addr % 8 == 0 && 0 < m <= 8
    ensures Padding(addr + m) == Repeat(' ', 3 * (8 - m))
  {
    ModAligned(addr, m);
  }

  /** With the bytes used up, the open row is padded and closed. */
  lemma DumpEnd(addr: nat, acc: Acc, st: Style)
    requires 0 < |acc.chars|
    ensures Dump([], addr, acc, st) == acc.out + Padding(addr) + Column(st.lastPrefix, acc.chars)
  {
  }

  /** A last row, spelled out. */
  lemma RowsLast(bytes: seq<byte>, addr: nat, pre: string, st: Style)
    requires 0 < |bytes| <= 8
    ensures pre + Rows(bytes, addr, st)
         == pre + Header(addr, st) + HexBytes(bytes) + Repeat(' ', 3 * (8 - |bytes|)) + Column(st.lastPrefix, Chars(bytes))
  {
  }

  /** The last row. */
  lemma DumpLastRow(bytes: seq<byte>, addr: nat, acc: Acc, st: Style)
    requires addr % 8 == 0 && 0 < |bytes| <= 8
    ensures Dump(bytes, addr, acc, st) == Close(acc.out, acc.chars, st) + Rows(bytes, addr, st)
  {
    var m := |bytes|;
    RowStep(bytes, addr, acc, st, m);
    assert bytes[..m] == bytes && bytes[m..] == [];
    var o := Close(acc.out, acc.chars, st) + Header(addr, st) + HexBytes(bytes);
    DumpEnd(addr + m, Acc(o, Chars(bytes)), st);
    LastPadding(addr, m);
    RowsLast(bytes, addr, Close(acc.out, acc.chars, st), st);
  }

  /** A full row followed by more. */
  lemma DumpFullRow(bytes: seq<byte>, addr: nat, acc: Acc, st: Style)
    requires addr % 8 == 0 && 8 < |bytes|
    ensures Dump(bytes, addr, acc, st)
         == Dump(bytes[8..], addr + 8, Acc(Close(acc.out, acc.chars, st) + Header(addr, st) + HexBytes(bytes[..8]), Chars(bytes[..8])), st)
    ensures (addr + 8) % 8 == 0
  {
    RowStep(bytes, addr, acc, st, 8);
  }

  /** Regrouping a concatenation. */
  lemma Regroup(pre: string, h: string, x: string, t: string, r: string)
    ensures pre + (h + x + t + "\n" + r) == pre + h + x + t + "\n" + r
  {
  }

  lemma RowsCons(bytes: seq<byte>, addr: nat, st: Style)
    requires 8 < |bytes|
    ensures Rows(bytes, addr, st) == Row(addr, bytes[..8], st.charsPrefix, st) + "\n" + Rows(bytes[8..], addr + 8, st)
  {
  }

  /** A full row and the rows after it, spelled out. */
  lemma RowsFull(bytes: seq<byte>, addr: nat, pre: string, st: Style)
    requires 8 < |bytes|
    ensures pre + Rows(bytes, addr, st)
         == pre + Header(addr, st) + HexBytes(bytes[..8]) + Column(st.charsPrefix, Chars(bytes[..8])) + "\n" + Rows(bytes[8..], addr + 8, st)
  {
    var g := bytes[..8];
    var h := Header(addr, st);
    var x := HexBytes(g);
    var t := Column(st.charsPrefix, Chars(g));
    RowsCons(bytes, addr, st);
    assert Repeat(' ', 3 * (8 - |g|)) == "";
    assert h + x + "" == h + x;
    assert Row(addr, g, st.charsPrefix, st) == h + x + t;
    Regroup(pre, h, x, t, Rows(bytes[8..], addr + 8, st));
  }

  /** Closing an open row appends its character column and a newline. */
  lemma CloseRow(o: string, c: string, st: Style)
    requires 0 < |o|
    ensures Close(o, c, st) == o + Column(st.charsPrefix, c) + "\n"
  {
  }

  /** From a multiple of eight, the dump closes the open row and then prints the rows. */
  lemma {:induction false} DumpIsRows(bytes: seq<byte>, addr: nat, acc: Acc, st: Style)
    requires addr % 8 == 0 && 0 < |bytes|
    ensures Dump(bytes, addr, acc, st) == Close(acc.out, acc.chars, st) + Rows(bytes, addr, st)
    decreases |bytes|
  {
    if |bytes| <= 8 {
      DumpLastRow(bytes, addr, acc, st);
    } else {
      DumpFullRow(bytes, addr, acc, st);
      var pre := Close(acc.out, acc.chars, st);
      var o := pre + Header(addr, st) + HexBytes(bytes[..8]);
      var c := Chars(bytes[..8]);
      DumpIsRows(bytes[8..], addr + 8, Acc(o, c), st);
      CloseRow(o, c, st);
      RowsFull(bytes, addr, pre, st);
    }
  }

  /** A dump from a multiple of eight is its rows: full rows end with their character
      column, the last row is padded to the width of a full one. */
  lemma HexDumpRows(mem: seq<byte>, addr: int, end: int, oldStyle: bool)
    requires 0 <= addr <= end < |mem| && addr % 8 == 0
    ensures HexDump(mem, addr, end, oldStyle) == Rows(mem[addr..end + 1], addr, DumpStyle(oldStyle))
  {
    DumpIsRows(mem[addr..end + 1], addr, Acc("", ""), DumpStyle(oldStyle));
  }

  /** A dump from an address that is not a multiple of eight starts with a row without an
      address: the cells of the bytes up to the next multiple of eight and their character
      column. When the range ends inside that row, the row is padded to full width and
      closed as the last one; otherwise the rows from the next multiple of eight follow. */
  lemma HexDumpUnaligned(mem: seq<byte>, addr: int, end: int, oldStyle: bool)
    requires 0 <= addr <= end < |mem| && addr % 8 != 0
    ensures var bytes, k, st := mem[addr..end + 1], 8 - addr % 8, DumpStyle(oldStyle);
      HexDump(mem, addr, end, oldStyle)
        == if |bytes| <= k then HexBytes(bytes) + Repeat(' ', 3 * (k - |bytes|)) + Column(st.lastPrefix, Chars(bytes))
           else HexBytes(bytes[..k]) + Column(st.charsPrefix, Chars(bytes[..k])) + "\n" + Rows(bytes[k..], addr + k, st)
  {
    var bytes, st := mem[addr..end + 1], DumpStyle(oldStyle);
    if |bytes| <= 8 - addr % 8 {
      PartialOnlyRow(bytes, addr, st);
    } else {
      PartialFirstRow(bytes, addr, st);
    }
  }

  /** A dump that ends inside its first, unaligned row. */
  lemma PartialOnlyRow(bytes: seq<byte>, addr: nat, st: Style)
    requires 0 < |bytes| && 0 < addr % 8 && addr % 8 + |bytes| <= 8
    ensures Dump(bytes, addr, Acc("", ""), st)
         == HexBytes(bytes) + Repeat(' ', 3 * (8 - addr % 8 - |bytes|)) + Column(st.lastPrefix, Chars(bytes))
  {
    var n, o, c := |bytes|, HexBytes(bytes), Chars(bytes);
    WithinRow(bytes, addr, "", "", st, n);
    assert bytes[..n] == bytes && bytes[n..] == [];
    assert Acc("" + HexBytes(bytes[..n]), "" + Chars(bytes[..n])) == Acc(o, c);
    assert Dump(bytes, addr, Acc("", ""), st) == Dump([], addr + n, Acc(o, c), st);
    DumpEnd(addr + n, Acc(o, c), st);
    PadToRowEnd(addr, n);
  }

  /** The padding after the last byte of an unaligned row fills it to the next multiple of
      eight. */
  lemma PadToRowEnd(addr: nat, n: nat)
    requires 0 < addr % 8 && addr % 8 + n <= 8
    ensures Padding(addr + n) == Repeat(' ', 3 * (8 - addr % 8 - n))
  {
    var r := addr % 8;
    assert addr == addr / 8 * 8 + r;
    if r + n < 8 {
      assert (addr + n) % 8 == r + n;
    } else {
      assert addr + n == (addr / 8 + 1) * 8;
      assert (addr + n) % 8 == 0;
    }
    assert (8 - (addr + n) % 8) % 8 == 8 - r - n;
  }

  /** The address after the last byte of an unaligned row is a multiple of eight. */
  lemma NextRow(addr: nat)
    requires 0 < addr % 8
    ensures (addr + (8 - addr % 8)) % 8 == 0
  {
    assert addr + (8 - addr % 8) == (addr / 8 + 1) * 8;
  }

  /** A dump that runs past its first, unaligned row. */
  lemma PartialFirstRow(bytes: seq<byte>, addr: nat, st: Style)
    requires 0 < addr % 8 && 8 - addr % 8 < |bytes|
    ensures var k := 8 - addr % 8;
      Dump(bytes, addr, Acc("", ""), st)
        == HexBytes(bytes[..k]) + Column(st.charsPrefix, Chars(bytes[..k])) + "\n" + Rows(bytes[k..], addr + k, st)
  {
    var k := 8 - addr % 8;
    WithinRow(bytes, addr, "", "", st, k);
    var o, c := HexBytes(bytes[..k]), Chars(bytes[..k]);
    assert "" + o == o && "" + c == c;
    NextRow(addr);
    DumpIsRows(bytes[k..], addr + k, Acc(o, c), st);
    CloseRow(o, c, st);
  }

  /** The byte at 0x0400 followed by a copy of memory from 0x0401 is a copy from 0x0400. */
  lemma FromLoadAddress(mem: seq<byte>, out: seq<byte>)
    requires out == Slice(mem, 0x0401, |out|)
    ensures [At(mem, 0x0400)] + out == Slice(mem, 0x0400, 1 + |out|)
  {
    var bytes := [At(mem, 0x0400)] + out;
    forall i | 1 <= i < 1 + |out|
      ensures bytes[i] == At(mem, 0x0400 + i)
    {
      assert bytes[i] == out[i - 1] == At(mem, 0x0401 + (i - 1));
    }
  }

  /** The BASIC dump is the rows of memory from 0x0400 to the end of the program. */
  lemma HexDumpBasicRows(mem: seq<byte>, oldStyle: bool)
    ensures HexDumpBasic(mem, oldStyle)
         == Rows(Slice(mem, 0x0400, 1 + |RecordScan(mem, 0x0401)|), 0x0400, BasicStyle(oldStyle))
  {
    var out := RecordScan(mem, 0x0401);
    FromLoadAddress(mem, out);
    DumpIsRows([At(mem, 0x0400)] + out, 0x0400, Acc("", ""), BasicStyle(oldStyle));
  }

  /** As written, the BASIC dump shows the rows of whatever the chunk scan reads. */
  lemma HexDumpBasicAsWrittenRows(mem: seq<byte>, oldStyle: bool)
    ensures HexDumpBasicAsWritten(mem, oldStyle)
         == Rows(Slice(mem, 0x0400, 1 + |ChunkScan(mem, 0x0401)|), 0x0400, BasicStyle(oldStyle))
  {
    var out := ChunkScan(mem, 0x0401);
    FromLoadAddress(mem, out);
    DumpIsRows([At(mem, 0x0400)] + out, 0x0400, Acc("", ""), BasicStyle(oldStyle));
  }
}
