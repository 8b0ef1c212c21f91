/** `convertToPrg` of commodore/js/utilsc8dd.js: the PRG file of the BASIC program in memory,
    found by scanning for the end-of-program marker rather than by following links. */
module Prg {
  import opened Common
  import opened Program
  import opened Tokenizer

  /** How many bytes the scan as written reads from `a`: two bytes; if both are 0 it stops,
      otherwise it reads on up to and including the next 0 and repeats. It assumes the 0 it
      stops at is the one ending a line, but a line number below 256 has a 0 high byte. */
  function ChunkLength(mem: seq<byte>, a: int): (n: nat)
    ensures 2 <= n && At(mem, a + n - 2) == 0 && At(mem, a + n - 1) == 0
    decreases if a < |mem| then |mem| - a + 1 else 0
  {
    if Word(mem, a) == 0 then 2
    else
      var k := 3 + BodyLength(mem, a + 2);
      k + ChunkLength(mem, a + k)
  }

  /** How many bytes the scan as intended reads from `a`: a record is a two-byte link, a
      two-byte line number and the bytes up to and including the 0 that ends the line; a
      0 link ends the program. */
  function RecordLength(mem: seq<byte>, a: int): (n: nat)
    ensures 2 <= n && At(mem, a + n - 2) == 0 && At(mem, a + n - 1) == 0
    decreases if a < |mem| then |mem| - a + 1 else 0
  {
    if Word(mem, a) == 0 then 2
    else
      var k := 5 + BodyLength(mem, a + 4);
      k + RecordLength(mem, a + k)
  }

  /** The bytes the scan as written copies: every byte it reads, ending in the two zeros it
      stops at. */
  function ChunkScan(mem: seq<byte>, a: int): (out: seq<byte>)
    ensures 2 <= |out| && out == Slice(mem, a, |out|)
    ensures out[|out| - 2] == 0 && out[|out| - 1] == 0
  {
    Slice(mem, a, ChunkLength(mem, a))
  }

  /** The bytes the scan as intended copies. */
  function RecordScan(mem: seq<byte>, a: int): (out: seq<byte>)
    ensures 2 <= |out| && out == Slice(mem, a, |out|)
    ensures out[|out| - 2] == 0 && out[|out| - 1] == 0
  {
    Slice(mem, a, RecordLength(mem, a))
  }

  /** Two adjacent slices form one. */
  lemma SliceAppend(mem: seq<byte>, a: int, n: nat, rest: seq<byte>)
    requires rest == Slice(mem, a + n, |rest|)
    ensures Slice(mem, a, n) + rest == Slice(mem, a, n + |rest|)
  {
    var s := Slice(mem, a, n) + rest;
    forall i | n <= i < n + |rest|
      ensures s[i] == At(mem, a + i)
    {
      assert rest[i - n] == At(mem, a + n + (i - n));
    }
  }

  /** The file: the load address `startAddress & 0xFF, (startAddress >> 8) & 0xFF` and the
      bytes scanned, or nothing when the scan found only the end marker. The load address
      is taken from the argument as given, so it is 0, 0 when none is given although the
      scan then starts at 0x0401. */
  function WithLoadAddress(startAddress: int, out: seq<byte>): (prg: seq<byte>)
    ensures |out| <= 2 ==> prg == []
    ensures |out| > 2 ==> prg == LE16(startAddress) + out
  {
    if |out| > 2 then LE16(startAddress) + out else []
  }

  /** `convertToPrg(mem, startAddress)` as written, with the zero-byte scan. The file is
      empty exactly when the first link is 0; otherwise it is the load address and bytes
      ending in two zeros. */
  function ConvertToPrgAsWritten(mem: seq<byte>, startAddress: int): (prg: seq<byte>)
    ensures prg == [] <==> Word(mem, ProgramStart(startAddress)) == 0
    ensures prg != [] ==> 6 < |prg| && prg[..2] == LE16(startAddress) && prg[|prg| - 2..] == [0, 0]
  {
    WithLoadAddress(startAddress, ChunkScan(mem, ProgramStart(startAddress)))
  }

  /** `convertToPrg(mem, startAddress)` with the record-aware scan. The file is empty
      exactly when the first link is 0; otherwise it is the load address and bytes ending
      in the two-zero end marker. */
  function ConvertToPrg(mem: seq<byte>, startAddress: int): (prg: seq<byte>)
    ensures prg == [] <==> Word(mem, ProgramStart(startAddress)) == 0
    ensures prg != [] ==> 6 < |prg| && prg[..2] == LE16(startAddress) && prg[|prg| - 2..] == [0, 0]
  {
    WithLoadAddress(startAddress, RecordScan(mem, ProgramStart(startAddress)))
  }

  // ---------------------------------------------------------------------------------------
  // Properties

  /** One record of a program image is copied whole and the scan goes on at its link. */
  lemma RecordScanStep(mem: seq<byte>, pc: int, l: Line, rest: seq<byte>)
    requires 0 < |l.body| && NoZero(l.body) && l.number < 0x10000
    requires 0 < pc + RecordSize(l) < 0x10000
    requires Holds(mem, pc, LE16(pc + RecordSize(l)) + LE16(l.number) + l.body + [0] + rest)
    ensures RecordScan(mem, pc)
         == LE16(pc + RecordSize(l)) + LE16(l.number) + l.body + [0] + RecordScan(mem, pc + RecordSize(l))
  {
    var rec := LE16(pc + RecordSize(l)) + LE16(l.number) + l.body + [0];
    var n := |l.body| + 1;
    ReadRecord(mem, pc, l, rest);
    assert Word(mem, pc) != 0;
    assert BodyLength(mem, pc + 4) + 1 == n;
    RecordScanUnfold(mem, pc, 4 + n);
    assert |rec| == 4 + n;
    HoldsSlice(mem, pc, rec + rest, 4 + n);
    assert (rec + rest)[..4 + n] == rec;
  }

  /** A record with a non-zero link is copied and the scan goes on after it. */
  lemma RecordScanUnfold(mem: seq<byte>, a: int, k: nat)
    requires Word(mem, a) != 0 && k == 5 + BodyLength(mem, a + 4)
    ensures RecordScan(mem, a) == Slice(mem, a, k) + RecordScan(mem, a + k)
  {
    var rest := RecordScan(mem, a + k);
    assert |rest| == RecordLength(mem, a + k);
    assert RecordLength(mem, a) == k + |rest|;
    SliceAppend(mem, a, k, rest);
  }

  /** The record scan of memory holding a program image copies exactly the image, whatever
      follows it. */
  lemma {:induction false} RecordScanOfEncode(mem: seq<byte>, ls: seq<Line>, pc: int)
    requires WellFormed(ls)
    requires 0 < pc && pc + Size(ls) + 2 <= 0x10000
    requires Holds(mem, pc, Encode(ls, pc) + [0, 0])
    ensures RecordScan(mem, pc) == Encode(ls, pc) + [0, 0]
    decreases |ls|
  {
    var e := Encode(ls, pc) + [0, 0];
    if |ls| == 0 {
      HoldsAt(mem, pc, e, 0);
      HoldsAt(mem, pc, e, 1);
      HoldsSlice(mem, pc, e, 2);
      assert e[..2] == e;
    } else {
      var l := ls[0];
      var link := pc + RecordSize(l);
      var rest := Encode(ls[1..], link) + [0, 0];
      EncodeSplit(ls, pc);
      RecordScanStep(mem, pc, l, rest);
      HoldsDrop(mem, pc, e, RecordSize(l));
      RecordScanOfEncode(mem, ls[1..], link);
    }
  }

  /** The PRG file of memory holding a program image is its load address and the image. */
  lemma ConvertToPrgOfImage(mem: seq<byte>, ls: seq<Line>, start: nat)
    requires WellFormed(ls) && 0 < |ls|
    requires 0 < start && start + Size(ls) + 2 <= 0x10000
    requires Holds(mem, start, Image(ls, start))
    ensures ConvertToPrg(mem, start) == LE16(start) + Image(ls, start)
  {
    RecordScanOfEncode(mem, ls, start);
  }

  /** Loading what `txt2Basic` writes and converting it back gives the PRG file `txt2Basic`
      writes. */
  lemma ConvertToPrgInvertsTxt2Basic(src: seq<byte>, address: int, isPetRom1: bool, lines: map<nat, seq<byte>>)
    requires lines == Parse(src, isPetRom1).lines
    requires 0 < StartAddress(address) && StartAddress(address) + Size(Sorted(lines, 0)) + 2 <= 0x10000
    ensures ConvertToPrg(Load(StartAddress(address), Txt2Basic(src, address, false, isPetRom1).prg), StartAddress(address))
         == Txt2Basic(src, address, true, isPetRom1).prg
  {
    var start := StartAddress(address);
    var ls := Sorted(lines, 0);
    var image := Txt2Basic(src, address, false, isPetRom1).prg;
    SortedWellFormed(lines);
    assert image == Image(ls, start);
    var mem := Load(start, image);
    if |ls| > 0 {
      ConvertToPrgOfImage(mem, ls, start);
    } else {
      assert Word(mem, start) == 0;
      assert |RecordScan(mem, start)| == 2;
    }
  }

  /** The one-line program `10 PRINT` as `txt2Basic` writes it at 0x0401. */
  const TenPrint: seq<byte> := [0x07, 0x04, 0x0A, 0x00, 0x99, 0x00, 0x00, 0x00]

  lemma TenPrintIsAnImage()
    ensures WellFormed([Line(10, [0x99])]) && Image([Line(10, [0x99])], 0x0401) == TenPrint
  {
  }

  /** The scan as written misreads `10 PRINT`: the 0 high byte of line number 10 ends the
      first chunk, the PRINT token and the 0 after it are taken for a link, and the closing
      0 link is split over two chunks, so one byte past the program is copied when it is 0,
      and the scan runs on into whatever follows when it is not. */
  lemma ChunkScanOvershoots(mem: seq<byte>)
    requires Holds(mem, 0x0401, TenPrint)
    ensures At(mem, 0x0409) == 0 ==> ChunkScan(mem, 0x0401) == TenPrint + [0]
    ensures At(mem, 0x0409) != 0 ==> |ChunkScan(mem, 0x0401)| > |TenPrint| + 1
    ensures RecordScan(mem, 0x0401) == TenPrint
  {
    ChunksOfTenPrint(mem);
    if At(mem, 0x0409) == 0 {
      ChunkScanCopiesOneMore(mem);
    } else {
      assert |ChunkScan(mem, 0x0408)| > 2;
    }
    TenPrintIsAnImage();
    RecordScanOfEncode(mem, [Line(10, [0x99])], 0x0401);
  }

  lemma ChunkScanCopiesOneMore(mem: seq<byte>)
    requires Holds(mem, 0x0401, TenPrint) && At(mem, 0x0409) == 0
    requires |ChunkScan(mem, 0x0401)| == 7 + |ChunkScan(mem, 0x0408)|
    ensures ChunkScan(mem, 0x0401) == TenPrint + [0]
  {
    HoldsAt(mem, 0x0401, TenPrint, 7);
    assert Word(mem, 0x0408) == 0;
    var out := ChunkScan(mem, 0x0401);
    assert |out| == 9;
    forall i | 0 <= i < 9
      ensures out[i] == (TenPrint + [0])[i]
    {
      assert out[i] == At(mem, 0x0401 + i);
      if i < 8 {
        HoldsAt(mem, 0x0401, TenPrint, i);
      }
    }
  }

  lemma ChunksOfTenPrint(mem: seq<byte>)
    requires Holds(mem, 0x0401, TenPrint)
    ensures |ChunkScan(mem, 0x0401)| == 7 + |ChunkScan(mem, 0x0408)|
  {
    HoldsAt(mem, 0x0401, TenPrint, 0);
    HoldsAt(mem, 0x0401, TenPrint, 1);
    HoldsAt(mem, 0x0401, TenPrint, 2);
    HoldsAt(mem, 0x0401, TenPrint, 3);
    HoldsAt(mem, 0x0401, TenPrint, 4);
    HoldsAt(mem, 0x0401, TenPrint, 5);
    HoldsAt(mem, 0x0401, TenPrint, 6);
    assert At(mem, 0x0401) == 0x07 && At(mem, 0x0403) == 0x0A && At(mem, 0x0404) == 0;
    assert At(mem, 0x0405) == 0x99 && At(mem, 0x0407) == 0;
    assert BodyLength(mem, 0x0404) == 0;
    assert BodyLength(mem, 0x0403) == 1;
    assert BodyLength(mem, 0x0407) == 0;
    ChunkStep(mem, 0x0401, 1);
    ChunkStep(mem, 0x0405, 0);
  }

  lemma ChunkStep(mem: seq<byte>, a: int, n: nat)
    requires Word(mem, a) != 0 && BodyLength(mem, a + 2) == n
    ensures |ChunkScan(mem, a)| == 3 + n + |ChunkScan(mem, a + 3 + n)|
  {
  }
}
