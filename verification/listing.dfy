/** The link walk of `basic2Txt` in commodore/js/utilsc8dd.js: the records of a tokenized
    BASIC program in memory, followed from link to link until a 0 link. */
module Listing {
  import opened Common
  import opened Program

  /** A record as the listing reads it: its line number, or None when the number's first
      byte lies past the end of memory (the source prints NaN), and its body. */
  datatype Record = Record(number: Option<nat>, body: seq<byte>)

  function RecordAt(mem: seq<byte>, a: int): (r: Record)
    ensures r.body == LineAt(mem, a).body
  {
    Record(if 0 <= a + 2 < |mem| then Some(Word(mem, a + 2)) else None, LineAt(mem, a).body)
  }

  /** The end of the program: a 0 link, or a link read from outside memory (NaN). */
  predicate AtEndOfProgram(mem: seq<byte>, a: int)
  {
    !(0 <= a < |mem|) || Word(mem, a) == 0
  }

  /** The records listed from `a` on, following the links; None when more than `fuel`
      records would be listed. */
  function Walk(mem: seq<byte>, a: int, fuel: nat): (r: Option<seq<Record>>)
    ensures r.Some? ==> |r.value| <= fuel
    ensures AtEndOfProgram(mem, a) ==> r == Some([])
    decreases fuel
  {
    if AtEndOfProgram(mem, a) then Some([])
    else if fuel == 0 then None
    else match Walk(mem, Word(mem, a), fuel - 1)
      case Some(rest) => Some([RecordAt(mem, a)] + rest)
      case None => None
  }

  /** The records of lines as the tokenizer stores them. */
  function Records(ls: seq<Line>): (rs: seq<Record>)
    ensures |rs| == |ls|
    decreases |ls|
  {
    if |ls| == 0 then [] else [Record(Some(ls[0].number), ls[0].body)] + Records(ls[1..])
  }

  lemma RecordsCons(ls: seq<Line>)
    requires 0 < |ls|
    ensures Records(ls) == [Record(Some(ls[0].number), ls[0].body)] + Records(ls[1..])
  {
  }

  /** A link followed in the walk. */
  lemma WalkStep(mem: seq<byte>, a: int, fuel: nat, rest: seq<Record>)
    requires !AtEndOfProgram(mem, a) && 0 < fuel && Walk(mem, Word(mem, a), fuel - 1) == Some(rest)
    ensures Walk(mem, a, fuel) == Some([RecordAt(mem, a)] + rest)
  {
  }

  lemma RecordOfLine(mem: seq<byte>, a: int, l: Line)
    requires 0 <= a + 2 < |mem| && LineAt(mem, a) == l
    ensures RecordAt(mem, a) == Record(Some(l.number), l.body)
  {
  }

  /** The walk reads a program's first line at its head and goes on at its link. */
  lemma WalkCons(mem: seq<byte>, ls: seq<Line>, pc: int, fuel: nat)
    requires 0 < |ls| && 0 < fuel && 0 <= pc && pc + 2 < |mem|
    requires 0 < Word(mem, pc) && LineAt(mem, pc) == ls[0]
    requires Walk(mem, Word(mem, pc), fuel - 1) == Some(Records(ls[1..]))
    ensures Walk(mem, pc, fuel) == Some(Records(ls))
  {
    RecordOfLine(mem, pc, ls[0]);
    WalkStep(mem, pc, fuel, Records(ls[1..]));
    RecordsCons(ls);
  }

  lemma WalkOfNothing(mem: seq<byte>, ls: seq<Line>, pc: int, fuel: nat)
    requires |ls| == 0 && Holds(mem, pc, Encode(ls, pc) + [0, 0])
    ensures Walk(mem, pc, fuel) == Some(Records(ls))
  {
    HoldsAt(mem, pc, Encode(ls, pc) + [0, 0], 0);
    HoldsAt(mem, pc, Encode(ls, pc) + [0, 0], 1);
  }

  /** The walk over an encoded program reads back each of its lines. */
  lemma WalkOfEncode(mem: seq<byte>, ls: seq<Line>, pc: int)
    requires WellFormed(ls)
    requires 0 < pc && pc + Size(ls) + 2 <= 0x10000
    requires Holds(mem, pc, Encode(ls, pc) + [0, 0])
    ensures Walk(mem, pc, |ls|) == Some(Records(ls))
  {
    WalkOfEncoded(mem, ls, pc);
  }

  lemma {:induction false} WalkOfEncoded(mem: seq<byte>, ls: seq<Line>, pc: int)
    requires Encoded(mem, ls, pc)
    ensures Walk(mem, pc, |ls|) == Some(Records(ls))
    decreases |ls|
  {
    if |ls| == 0 {
      WalkOfNothing(mem, ls, pc, 0);
    } else {
      EncodedTail(mem, ls, pc);
      WalkOfEncoded(mem, ls[1..], Word(mem, pc));
      WalkCons(mem, ls, pc, |ls|);
    }
  }

  /** More fuel does not change a walk that ends. */
  lemma {:induction false} WalkFuel(mem: seq<byte>, a: int, fuel: nat, more: nat)
    requires fuel <= more && Walk(mem, a, fuel).Some?
    ensures Walk(mem, a, more) == Walk(mem, a, fuel)
    decreases fuel
  {
    if !AtEndOfProgram(mem, a) {
      WalkFuel(mem, Word(mem, a), fuel - 1, more - 1);
    }
  }

  lemma WalkOfImage(ls: seq<Line>, start: nat)
    requires WellFormed(ls)
    requires 0 < start < 0x8000_0000 && start + Size(ls) + 2 <= 0x10000
    ensures Walk(Load(start, Image(ls, start)), ProgramStart(start), |Load(start, Image(ls, start))| + 1)
         == Some(Records(ls))
  {
    if |ls| > 0 {
      assert ProgramStart(start) == start;
      LoadedIsEncoded(ls, start);
      WalkOfLoaded(Load(start, Image(ls, start)), ls, start);
    } else {
      WalkOfNoImage(ls, start);
    }
  }

  lemma WalkOfNoImage(ls: seq<Line>, start: nat)
    requires |ls| == 0 && 0 < start < 0x8000_0000
    ensures Walk(Load(start, Image(ls, start)), ProgramStart(start), |Load(start, Image(ls, start))| + 1)
         == Some(Records(ls))
  {
    assert |Load(start, Image(ls, start))| == start;
  }

  lemma WalkOfLoaded(mem: seq<byte>, ls: seq<Line>, start: nat)
    requires Encoded(mem, ls, start) && |ls| <= |mem| + 1
    ensures Walk(mem, start, |mem| + 1) == Some(Records(ls))
  {
    WalkOfEncoded(mem, ls, start);
    WalkFuel(mem, start, |ls|, |mem| + 1);
  }

  lemma LoadedIsEncoded(ls: seq<Line>, start: nat)
    requires WellFormed(ls) && 0 < |ls|
    requires 0 < start && start + Size(ls) + 2 <= 0x10000
    ensures Encoded(Load(start, Image(ls, start)), ls, start)
    ensures |ls| <= |Load(start, Image(ls, start))| + 1
  {
    assert Image(ls, start) == Encode(ls, start) + [0, 0];
  }
}
