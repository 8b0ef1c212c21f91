/**
 * The bus's text snapshot: `save` writes the RAM size, every RAM cell below it, both
 * interrupt lines and the I/O chips' own record, separated by ';'; `load` reads it back.
 */
module Snapshot {
  import opened Common
  import opened NumText
  import opened Bus

  /** Every RAM cell below `ramsize` holds a byte, as `save` needs (`undefined` has no `toString`). */
  predicate Saveable(hw: Hw)
  {
    forall i :: 0 <= i < hw.ramsize ==> i in hw.ram
  }

  /** The cells `i` to `n - 1` in lower-case hexadecimal, each followed by ','. */
  function RamText(ram: Cells, i: nat, n: nat): string
    requires forall k :: i <= k < n ==> k in ram
    decreases n - i
  {
    if i >= n then "" else Digits(ram[i], 16, false) + "," + RamText(ram, i + 1, n)
  }

  /** `save()`, with `ioBlob` standing for the I/O chips' `io.save()`. Whatever the I/O
      record holds, the first four fields split off at ';' are the RAM size, the RAM cells
      and the two interrupt lines. */
  function Save(hw: Hw, ioBlob: string): (s: string)
    requires Saveable(hw)
    ensures var fields := Split(s, ';');
      |fields| >= 5 && fields[..4] == [Digits(hw.ramsize, 16, false), RamText(hw.ram, 0, hw.ramsize), Decimal(hw.irq), Decimal(hw.nmi)]
  {
    var size, cells, irq, nmi := Digits(hw.ramsize, 16, false), RamText(hw.ram, 0, hw.ramsize), Decimal(hw.irq), Decimal(hw.nmi);
    DigitsHoldNoSeparator(size, 16);
    RamTextHoldsNoSemicolon(hw.ram, 0, hw.ramsize);
    DigitsHoldNoSeparator(irq, 10);
    DigitsHoldNoSeparator(nmi, 10);
    SplitFiveFields(size, cells, irq, nmi, ioBlob);
    Join([size, cells, irq, nmi, ioBlob], ";")
  }

  /** `s.indexOf(c)`: the first position of `c`, or -1. */
  function IndexOf(s: string, c: char): (k: int)
    ensures -1 <= k < |s|
    ensures k >= 0 ==> s[k] == c && forall j :: 0 <= j < k ==> s[j] != c
    ensures k == -1 <==> c !in s
    decreases |s|
  {
    if |s| == 0 then -1
    else if s[0] == c then 0
    else
      var k := IndexOf(s[1..], c);
      if k < 0 then -1 else k + 1
  }

  /** `s.split(c)`: the pieces between the separators, one more than there are separators. */
  function Split(s: string, c: char): (r: seq<string>)
    ensures |r| > 0
    decreases |s|
  {
    var k := IndexOf(s, c);
    if k < 0 then [s] else [s[..k]] + Split(s[k + 1..], c)
  }

  /** A piece without the separator comes off the front of a split. */
  lemma SplitFront(a: string, rest: string, c: char)
    requires c !in a
    ensures Split(a + [c] + rest, c) == [a] + Split(rest, c)
  {
    var s := a + [c] + rest;
    assert s[|a|] == c;
    assert forall j :: 0 <= j < |a| ==> s[j] == a[j];
    assert IndexOf(s, c) == |a|;
    assert s[..|a|] == a && s[|a| + 1..] == rest;
  }

  /** Digit strings hold no separator. */
  lemma DigitsHoldNoSeparator(s: string, base: nat)
    requires AllDigits(s, base)
    ensures ';' !in s && ',' !in s
  {
    forall k | 0 <= k < |s|
      ensures s[k] != ';' && s[k] != ','
    {
      assert IsDigitOf(s[k], base);
    }
  }

  /** The RAM text holds no ';'. */
  lemma {:induction false} RamTextHoldsNoSemicolon(ram: Cells, i: nat, n: nat)
    requires forall k :: i <= k < n ==> k in ram
    ensures ';' !in RamText(ram, i, n)
    decreases n - i
  {
    if i < n {
      DigitsHoldNoSeparator(Digits(ram[i], 16, false), 16);
      RamTextHoldsNoSemicolon(ram, i + 1, n);
    }
  }

  /**
   * The cell loop of `load`: cell `i` is the hexadecimal prefix of the text, which then
   * drops up to and including its first ',' (the whole text again when there is none);
   * None stands for a cell that is not a byte (the source would store NaN or the number).
   */
  function ParseCells(text: string, i: nat, n: nat): (r: Option<seq<byte>>)
    ensures r.Some? ==> |r.value| == if i < n then n - i else 0
    decreases n - i
  {
    if i >= n then Some([])
    else match ParsePrefix(text, 16)
      case None => None
      case Some(v) =>
        if v > 255 then None
        else if i < n - 1 then
          match ParseCells(text[IndexOf(text, ',') + 1..], i + 1, n)
            case None => None
            case Some(rest) => Some([v] + rest)
        else Some([v])
  }

  /** The RAM cells `i` to `n - 1`, in order. */
  function CellsFrom(ram: Cells, i: nat, n: nat): (r: seq<byte>)
    requires forall k :: i <= k < n ==> k in ram
    ensures |r| == if i < n then n - i else 0
    ensures forall j :: 0 <= j < |r| ==> r[j] == ram[i + j]
    decreases n - i
  {
    if i >= n then [] else [ram[i]] + CellsFrom(ram, i + 1, n)
  }

  /** Reading the RAM text back gives the cells, in order. */
  lemma {:induction false} ParseRamText(ram: Cells, i: nat, n: nat)
    requires forall k :: i <= k < n ==> k in ram
    ensures ParseCells(RamText(ram, i, n), i, n) == Some(CellsFrom(ram, i, n))
    decreases n - i
  {
    if i < n {
      var d := Digits(ram[i], 16, false);
      var rest := RamText(ram, i + 1, n);
      var text := RamText(ram, i, n);
      assert text == d + ("," + rest);
      ParseDigits(ram[i], 16, false, "," + rest);
      DigitsHoldNoSeparator(d, 16);
      assert IndexOf(text, ',') == |d| by {
        assert text[|d|] == ',';
        assert forall j :: 0 <= j < |d| ==> text[j] == d[j];
      }
      assert text[|d| + 1..] == rest;
      if i + 1 < n {
        ParseRamText(ram, i + 1, n);
      } else {
        assert CellsFrom(ram, i, n) == [ram[i]];
        assert ParsePrefix(text, 16) == Some(ram[i]);
      }
    }
  }

  /** What `load` restores: the bus state and the record handed to `io.load`. */
  datatype Restored = Restored(hw: Hw, ioBlob: string)

  /** The cells `load` assigns, as a JavaScript array. */
  function Defined(cells: seq<byte>): (r: seq<Option<byte>>)
    ensures |r| == |cells| && forall i :: 0 <= i < |cells| ==> r[i] == Some(cells[i])
  {
    seq(|cells|, i requires 0 <= i < |cells| => Some(cells[i]))
  }

  /**
   * `load(s)`: RAM size, the cells below it (cells above keep their values), the two
   * interrupt lines and the I/O record; None when the text is not of the form `save`
   * writes (fewer than five fields, or a field that is not a number).
   */
  function Load(hw: Hw, s: string): (r: Option<Restored>)
    ensures r.Some? ==> r.value.hw.rom == hw.rom
  {
    var obs := Split(s, ';');
    if |obs| < 5 then None
    else match (ParsePrefix(obs[0], 16), ParsePrefix(obs[2], 10), ParsePrefix(obs[3], 10))
      case (Some(size), Some(irq), Some(nmi)) =>
        (match ParseCells(obs[1], 0, size)
          case None => None
          case Some(cells) =>
            var ram := CopyIn(hw.ram, 0, Defined(cells), 0, size);
            Some(Restored(hw.(ram := ram, ramsize := size, irq := irq, nmi := nmi), obs[4])))
      case _ => None
  }

  /** Pieces without the separator, joined by it, split back into the same pieces. */
  lemma {:induction false} SplitJoin(pieces: seq<string>, c: char)
    requires |pieces| > 0
    requires forall i :: 0 <= i < |pieces| ==> c !in pieces[i]
    ensures Split(Join(pieces, [c]), c) == pieces
    decreases |pieces|
  {
    if |pieces| == 1 {
      assert Join(pieces, [c]) == pieces[0];
      assert IndexOf(pieces[0], c) == -1;
    } else {
      var rest := Join(pieces[1..], [c]);
      assert Join(pieces, [c]) == pieces[0] + [c] + rest;
      SplitJoin(pieces[1..], c);
      SplitFront(pieces[0], rest, c);
      assert [pieces[0]] + pieces[1..] == pieces;
    }
  }

  /** Five fields joined by ';', of which only the last may hold a ';', split back into the
      first four followed by the split of the last. */
  lemma SplitFiveFields(a: string, b: string, c: string, d: string, e: string)
    requires ';' !in a && ';' !in b && ';' !in c && ';' !in d
    ensures Split(Join([a, b, c, d, e], ";"), ';') == [a, b, c, d] + Split(e, ';')
  {
    var s3 := d + ";" + e;
    var s2 := c + ";" + s3;
    var s1 := b + ";" + s2;
    assert Join([d, e], ";") == s3;
    assert Join([c, d, e], ";") == s2;
    assert Join([b, c, d, e], ";") == s1;
    assert Join([a, b, c, d, e], ";") == a + ";" + s1;
    var t := Split(e, ';');
    SplitFront(d, e, ';');
    SplitFront(c, s3, ';');
    SplitFront(b, s2, ';');
    SplitFront(a, s1, ';');
    assert Split(a + ";" + s1, ';') == [a] + ([b] + ([c] + ([d] + t)));
    Regroup(a, b, c, d, t);
  }

  /** Four elements put in front one by one are the four put in front together. */
  lemma Regroup<T>(a: T, b: T, c: T, d: T, t: seq<T>)
    ensures [a] + ([b] + ([c] + ([d] + t))) == [a, b, c, d] + t
  {
  }

  /** The five fields of a snapshot come apart again at the ';'. */
  lemma SaveFields(hw: Hw, ioBlob: string)
    requires Saveable(hw) && ';' !in ioBlob
    ensures Split(Save(hw, ioBlob), ';') ==
      [Digits(hw.ramsize, 16, false), RamText(hw.ram, 0, hw.ramsize), Decimal(hw.irq), Decimal(hw.nmi), ioBlob]
  {
    var fields := [Digits(hw.ramsize, 16, false), RamText(hw.ram, 0, hw.ramsize), Decimal(hw.irq), Decimal(hw.nmi), ioBlob];
    DigitsHoldNoSeparator(fields[0], 16);
    RamTextHoldsNoSemicolon(hw.ram, 0, hw.ramsize);
    DigitsHoldNoSeparator(fields[2], 10);
    DigitsHoldNoSeparator(fields[3], 10);
    SplitJoin(fields, ';');
  }

  /** A number printed by `toString` parses back whole. */
  lemma ParseWhole(n: nat, base: nat)
    requires base == 10 || base == 16
    ensures ParsePrefix(Digits(n, base, false), base) == Some(n)
  {
    ParseDigits(n, base, false, "");
    assert Digits(n, base, false) + "" == Digits(n, base, false);
  }

  /**
   * `load(save())` restores the RAM size, every cell below it, both interrupt lines and
   * the I/O record, into any bus state; the ROM and the cells above the size stay.
   */
  lemma LoadSave(other: Hw, hw: Hw, ioBlob: string)
    requires Saveable(hw) && ';' !in ioBlob
    ensures var r := Load(other, Save(hw, ioBlob));
      && r.Some? && r.value.ioBlob == ioBlob
      && r.value.hw.ramsize == hw.ramsize && r.value.hw.irq == hw.irq && r.value.hw.nmi == hw.nmi
      && r.value.hw.rom == other.rom
      && forall k :: Get(r.value.hw.ram, k) == if 0 <= k < hw.ramsize then Get(hw.ram, k) else Get(other.ram, k)
  {
    SaveFields(hw, ioBlob);
    ParseWhole(hw.ramsize, 16);
    ParseWhole(hw.irq, 10);
    ParseWhole(hw.nmi, 10);
    ParseRamText(hw.ram, 0, hw.ramsize);
  }

  /** After `load(save())` every RAM address below the size reads as it did when saved. */
  lemma LoadSaveReads(other: Hw, hw: Hw, ioBlob: string, addr: int)
    requires Saveable(hw) && ';' !in ioBlob && 0 <= addr < hw.ramsize
    ensures Load(other, Save(hw, ioBlob)).Some?
    ensures Read(Load(other, Save(hw, ioBlob)).value.hw, addr) == Read(hw, addr)
  {
    LoadSave(other, hw, ioBlob);
  }
}
