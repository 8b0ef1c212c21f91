/** The linked-line layout of a tokenized BASIC program in PET memory, as `txt2Basic` writes it
    and `basic2Txt` follows it (commodore/js/utilsc8dd.js): every line is a record of the
    address of the next record, the line number, the token bytes and a 0; a 0 link ends the
    program. */
module Program {
  import opened Common

  /** A program line: its number and its token bytes. */
  datatype Line = Line(number: nat, body: seq<byte>)

  predicate NoZero(s: seq<byte>)
  {
    forall i :: 0 <= i < |s| ==> s[i] != 0
  }

  /** Lines as the tokenizer stores them: ascending 16-bit numbers, bodies non-empty and free
      of the 0 that ends a record. */
  predicate WellFormed(ls: seq<Line>)
  {
    (forall i :: 0 <= i < |ls| ==> ls[i].number < 0x10000 && 0 < |ls[i].body| && NoZero(ls[i].body))
    && (forall i, j :: 0 <= i < j < |ls| ==> ls[i].number < ls[j].number)
  }

  /** Link (2), number (2), body, 0. */
  function RecordSize(l: Line): nat
  {
    |l.body| + 5
  }

  function Size(ls: seq<Line>): (n: nat)
    ensures 5 * |ls| <= n
    decreases |ls|
  {
    if |ls| == 0 then 0 else RecordSize(ls[0]) + Size(ls[1..])
  }

  /** The records of `ls` laid out from address `pc`; each link is the record's own address
      plus its size, written as `link & 0xFF, (link >> 8) & 0xFF`. */
  function Encode(ls: seq<Line>, pc: int): (s: seq<byte>)
    ensures |s| == Size(ls)
    decreases |ls|
  {
    if |ls| == 0 then []
    else
      var link := pc + RecordSize(ls[0]);
      LE16(link) + LE16(ls[0].number) + ls[0].body + [0] + Encode(ls[1..], link)
  }

  /** The program image: the records and the closing 0 link, or nothing at all for a
      program without lines. */
  function Image(ls: seq<Line>, pc: int): (s: seq<byte>)
    ensures |ls| == 0 ==> s == []
    ensures |ls| > 0 ==> |s| == Size(ls) + 2 && s[|s| - 2] == 0 && s[|s| - 1] == 0
  {
    if |ls| == 0 then [] else Encode(ls, pc) + [0, 0]
  }

  /** Memory holding `image` at address `start` and zeros below it. */
  function Load(start: nat, image: seq<byte>): (mem: seq<byte>)
    ensures Holds(mem, start, image) && |mem| == start + |image|
  {
    seq(start, i => 0) + image
  }

  /** The first address of a program: `startAddress | 0`, or 0x0401 when none (0) is given. */
  function ProgramStart(startAddress: int): (a: int)
    ensures startAddress == 0 ==> a == 0x0401
    ensures 0 < startAddress < 0x8000_0000 ==> a == startAddress
  {
    if startAddress == 0 then 0x0401 else ToInt32(startAddress)
  }

  /** Number of non-zero bytes from `a` up to the next 0 (reads past the buffer are 0). */
  function BodyLength(mem: seq<byte>, a: int): (n: nat)
    ensures forall i :: a <= i < a + n ==> At(mem, i) != 0
    ensures At(mem, a + n) == 0
    decreases |mem| - a
  {
    if At(mem, a) == 0 then 0 else 1 + BodyLength(mem, a + 1)
  }

  /** The line whose record starts at `a`. */
  function LineAt(mem: seq<byte>, a: int): (l: Line)
    ensures l.number < 0x10000 && NoZero(l.body)
  {
    Line(Word(mem, a + 2), Slice(mem, a + 4, BodyLength(mem, a + 4)))
  }

  /** The lines reached by following links from `addr` until a 0 link, or None when more
      than `fuel` links would have to be followed. */
  function Chain(mem: seq<byte>, addr: int, fuel: nat): (r: Option<seq<Line>>)
    ensures r.Some? ==> |r.value| <= fuel
    ensures Word(mem, addr) == 0 ==> r == Some([])
    decreases fuel
  {
    if Word(mem, addr) == 0 then Some([])
    else if fuel == 0 then None
    else match Chain(mem, Word(mem, addr), fuel - 1)
      case Some(rest) => Some([LineAt(mem, addr)] + rest)
      case None => None
  }

  /** Reading a record back: the link, the number and the body are what was written, as long
      as the link fits in 16 bits. */
  lemma ReadRecord(mem: seq<byte>, pc: int, l: Line, rest: seq<byte>)
    requires 0 < |l.body| && NoZero(l.body) && l.number < 0x10000
    requires 0 <= pc + RecordSize(l) < 0x10000
    requires Holds(mem, pc, LE16(pc + RecordSize(l)) + LE16(l.number) + l.body + [0] + rest)
    ensures Word(mem, pc) == pc + RecordSize(l)
    ensures LineAt(mem, pc) == l
  {
    var rec := LE16(pc + RecordSize(l)) + LE16(l.number) + l.body + [0] + rest;
    var n := |l.body|;
    HoldsAt(mem, pc, rec, 0);
    HoldsAt(mem, pc, rec, 1);
    HoldsAt(mem, pc, rec, 2);
    HoldsAt(mem, pc, rec, 3);
    HoldsAt(mem, pc, rec, 4 + n);
    LE16Decodes(pc + RecordSize(l));
    LE16Decodes(l.number);
    forall i | 0 <= i < n
      ensures At(mem, pc + 4 + i) == l.body[i]
    {
      HoldsAt(mem, pc, rec, 4 + i);
    }
    BodyLengthOf(mem, pc + 4, l.body);
  }

  lemma {:induction false} BodyLengthOf(mem: seq<byte>, a: int, body: seq<byte>)
    requires NoZero(body)
    requires forall i :: 0 <= i < |body| ==> At(mem, a + i) == body[i]
    requires At(mem, a + |body|) == 0
    ensures BodyLength(mem, a) == |body|
    ensures Slice(mem, a, |body|) == body
    decreases |body|
  {
    if |body| > 0 {
      assert At(mem, a) == body[0];
      forall i | 0 <= i < |body[1..]|
        ensures At(mem, a + 1 + i) == body[1..][i]
      {
        assert At(mem, a + (i + 1)) == body[i + 1];
      }
      BodyLengthOf(mem, a + 1, body[1..]);
    }
  }

  /** `ls` is encoded at `pc` in `mem`, with its closing 0 link, inside the 64K address space. */
  predicate Encoded(mem: seq<byte>, ls: seq<Line>, pc: int)
  {
    WellFormed(ls) && 0 < pc && pc + Size(ls) + 2 <= 0x10000 && Holds(mem, pc, Encode(ls, pc) + [0, 0])
  }

  /** The first record of an encoded program is its first line and links to the rest, which
      is encoded at the link. */
  lemma EncodedTail(mem: seq<byte>, ls: seq<Line>, pc: int)
    requires Encoded(mem, ls, pc) && 0 < |ls|
    ensures Encoded(mem, ls[1..], Word(mem, pc))
    ensures 0 < Word(mem, pc) && LineAt(mem, pc) == ls[0] && 0 <= pc && pc + 2 < |mem|
  {
    RecordAtHead(mem, ls, pc);
  }

  /** Following the links of an encoded program gives back its lines. */
  lemma {:induction false} ChainOfEncode(mem: seq<byte>, ls: seq<Line>, pc: int)
    requires Encoded(mem, ls, pc)
    ensures Chain(mem, pc, |ls|) == Some(ls)
    decreases |ls|
  {
    if |ls| == 0 {
      var e := Encode(ls, pc) + [0, 0];
      HoldsAt(mem, pc, e, 0);
      HoldsAt(mem, pc, e, 1);
    } else {
      EncodedTail(mem, ls, pc);
      ChainOfEncode(mem, ls[1..], Word(mem, pc));
      ChainStep(mem, pc, |ls|, ls[1..]);
      assert ls == [ls[0]] + ls[1..];
    }
  }

  /** The first record of an encoded program reads back as its first line, links to the
      rest, and the rest is held at the link. */
  lemma RecordAtHead(mem: seq<byte>, ls: seq<Line>, pc: int)
    requires WellFormed(ls) && 0 < |ls|
    requires 0 < pc && pc + Size(ls) + 2 <= 0x10000
    requires Holds(mem, pc, Encode(ls, pc) + [0, 0])
    ensures Word(mem, pc) == pc + RecordSize(ls[0]) && LineAt(mem, pc) == ls[0]
    ensures pc + 2 < |mem|
    ensures WellFormed(ls[1..])
    ensures 0 < pc + RecordSize(ls[0]) && pc + RecordSize(ls[0]) + Size(ls[1..]) + 2 <= 0x10000
    ensures Holds(mem, pc + RecordSize(ls[0]), Encode(ls[1..], pc + RecordSize(ls[0])) + [0, 0])
  {
    var e := Encode(ls, pc) + [0, 0];
    var rest := Encode(ls[1..], pc + RecordSize(ls[0])) + [0, 0];
    EncodeSplit(ls, pc);
    ReadRecord(mem, pc, ls[0], rest);
    HoldsDrop(mem, pc, e, RecordSize(ls[0]));
  }

  /** An image with at least one line is its first record followed by the image of the rest
      at the link; the rest is well formed too. */
  lemma EncodeSplit(ls: seq<Line>, pc: int)
    requires WellFormed(ls) && 0 < |ls|
    ensures Encode(ls, pc) + [0, 0]
         == LE16(pc + RecordSize(ls[0])) + LE16(ls[0].number) + ls[0].body + [0] + (Encode(ls[1..], pc + RecordSize(ls[0])) + [0, 0])
    ensures (Encode(ls, pc) + [0, 0])[RecordSize(ls[0])..] == Encode(ls[1..], pc + RecordSize(ls[0])) + [0, 0]
    ensures Size(ls) == RecordSize(ls[0]) + Size(ls[1..])
    ensures WellFormed(ls[1..])
  {
    var rec := LE16(pc + RecordSize(ls[0])) + LE16(ls[0].number) + ls[0].body + [0];
    assert |rec| == RecordSize(ls[0]);
    var rest := Encode(ls[1..], pc + RecordSize(ls[0])) + [0, 0];
    assert Encode(ls, pc) + [0, 0] == rec + rest;
    assert (rec + rest)[|rec|..] == rest;
  }

  /** A non-zero link is followed. */
  lemma ChainStep(mem: seq<byte>, addr: int, fuel: nat, rest: seq<Line>)
    requires Word(mem, addr) != 0 && 0 < fuel && Chain(mem, Word(mem, addr), fuel - 1) == Some(rest)
    ensures Chain(mem, addr, fuel) == Some([LineAt(mem, addr)] + rest)
  {
  }

  /** A program image loaded at its own start address lists back as its lines. */
  lemma ChainOfImage(ls: seq<Line>, start: nat)
    requires WellFormed(ls)
    requires 0 < start && start + Size(ls) + 2 <= 0x10000
    ensures Chain(Load(start, Image(ls, start)), start, |ls|) == Some(ls)
  {
    var mem := Load(start, Image(ls, start));
    if |ls| > 0 {
      ChainOfEncode(mem, ls, start);
    } else {
      assert Word(mem, start) == 0;
    }
  }
}
