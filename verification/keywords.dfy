/** The two BASIC keyword tables of the PET utilities (commodore/js/utilsc8dd.js):
    the tokenizer's byte table and the detokenizer's string table. A keyword's token is
    0x80 plus its index. */
module Keywords {
  import opened Common

  /** A keyword as spelled in the tokenizer table: non-empty, 7-bit characters, no NUL. */
  type Keyword = s: string | 0 < |s| && forall i :: 0 <= i < |s| ==> 0 < s[i] as int < 0x80
    witness "A"

  /** The tokenizer table, entry by entry, in source order (tokens 0x80-0xCB). Entry 48
      (token 0xB0) is "OR". */
  const Tokens80: seq<Keyword> := ["END", "FOR", "NEXT", "DATA", "INPUT#", "INPUT", "DIM", "READ", "LET", "GOTO"]
  const Tokens8A: seq<Keyword> := ["RUN", "IF", "RESTORE", "GOSUB", "RETURN", "REM", "STOP", "ON", "WAIT", "LOAD"]
  const Tokens94: seq<Keyword> := ["SAVE", "VERIFY", "DEF", "POKE", "PRINT#", "PRINT", "CONT", "LIST", "CLR", "CMD"]
  const Tokens9E: seq<Keyword> := ["SYS", "OPEN", "CLOSE", "GET", "NEW", "TAB(", "TO", "FN", "SPC(", "THEN"]
  const TokensA8: seq<Keyword> := ["NOT", "STEP", "+", "-", "*", "/", "^", "AND", "OR", ">"]
  const TokensB2: seq<Keyword> := ["=", "<", "SGN", "INT", "ABS", "USR", "FRE", "POS", "SQR", "RND"]
  const TokensBC: seq<Keyword> := ["LOG", "EXP", "COS", "SIN", "TAN", "ATN", "PEEK", "LEN", "STR$", "VAL"]
  const TokensC6: seq<Keyword> := ["ASC", "CHR$", "LEFT$", "RIGHT$", "MID$", "GO"]
  const TokenizerKeywords: seq<Keyword> :=
    Tokens80 + Tokens8A + Tokens94 + Tokens9E + TokensA8 + TokensB2 + TokensBC + TokensC6

  /** The detokenizer table, indexed by token - 0x80. Entry 48 is "ON", not the "OR" the
      tokenizer emits 0xB0 for. */
  const Names80: seq<string> := ["END", "FOR", "NEXT", "DATA", "INPUT#", "INPUT", "DIM", "READ", "LET", "GOTO"]
  const Names8A: seq<string> := ["RUN", "IF", "RESTORE", "GOSUB", "RETURN", "REM", "STOP", "ON", "WAIT", "LOAD"]
  const Names94: seq<string> := ["SAVE", "VERIFY", "DEF", "POKE", "PRINT#", "PRINT", "CONT", "LIST", "CLR", "CMD"]
  const Names9E: seq<string> := ["SYS", "OPEN", "CLOSE", "GET", "NEW", "TAB(", "TO", "FN", "SPC(", "THEN"]
  const NamesA8: seq<string> := ["NOT", "STEP", "+", "-", "*", "/", "^", "AND", "ON", ">"]
  const NamesB2: seq<string> := ["=", "<", "SGN", "INT", "ABS", "USR", "FRE", "POS", "SQR", "RND"]
  const NamesBC: seq<string> := ["LOG", "EXP", "COS", "SIN", "TAN", "ATN", "PEEK", "LEN", "STR$", "VAL"]
  const NamesC6: seq<string> := ["ASC", "CHR$", "LEFT$", "RIGHT$", "MID$", "GO"]
  const DetokenizerKeywords: seq<string> :=
    Names80 + Names8A + Names94 + Names9E + NamesA8 + NamesB2 + NamesBC + NamesC6

  /** The entries the tokenizer matches against: ROM 1.0 of the PET 2001 has no "GO". */
  function Entries(isPetRom1: bool): (kws: seq<Keyword>)
    ensures |kws| == if isPetRom1 then 75 else 76
    ensures forall k :: 0 <= k < |kws| ==> kws[k] == TokenizerKeywords[k]
  {
    if isPetRom1 then TokenizerKeywords[..75] else TokenizerKeywords
  }

  /** Byte `j` of a table entry as stored in the flat table: the last byte has bit 7 set. */
  function EntryByte(kw: Keyword, j: nat): (b: byte)
    requires j < |kw|
    ensures j < |kw| - 1 ==> 0 < b < 0x80
    ensures j == |kw| - 1 ==> 0x80 < b < 0x100
  {
    if j == |kw| - 1 then kw[j] as int + 0x80 else kw[j] as int
  }

  function EntryBytes(kw: Keyword): (bs: seq<byte>)
    ensures |bs| == |kw|
    ensures forall j :: 0 <= j < |kw| ==> bs[j] == EntryByte(kw, j)
  {
    seq(|kw|, j requires 0 <= j < |kw| => EntryByte(kw, j))
  }

  /** The flat byte table of the source: every entry, then the 0 sentinel. */
  function FlatTable(kws: seq<Keyword>): (t: seq<byte>)
    ensures 0 < |t| && t[|t| - 1] == 0
    decreases |kws|
  {
    if |kws| == 0 then [0] else EntryBytes(kws[0]) + FlatTable(kws[1..])
  }

  /** Where entry `k` starts in the flat table. */
  function Offset(kws: seq<Keyword>, k: nat): nat
    requires k <= |kws|
    decreases k
  {
    if k == 0 then 0 else Offset(kws, k - 1) + |kws[k - 1]|
  }

  lemma {:induction false} OffsetShift(kws: seq<Keyword>, k: nat)
    requires 0 < |kws| && k < |kws|
    ensures Offset(kws, k + 1) == |kws[0]| + Offset(kws[1..], k)
    decreases k
  {
    if k > 0 {
      OffsetShift(kws, k - 1);
    }
  }

  /** Position (k, j) of the entry-wise view is position Offset(k) + j of the flat table, and
      the sentinel sits right after the last entry; so walking entries is walking the table. */
  lemma {:induction false} FlatTableLayout(kws: seq<Keyword>, k: nat, j: nat)
    requires k < |kws| && j < |kws[k]|
    ensures Offset(kws, k) + j < |FlatTable(kws)| - 1
    ensures FlatTable(kws)[Offset(kws, k) + j] == EntryByte(kws[k], j)
    decreases k
  {
    var t := FlatTable(kws);
    if k > 0 {
      FlatTableLayout(kws[1..], k - 1, j);
      OffsetShift(kws, k - 1);
      assert t == EntryBytes(kws[0]) + FlatTable(kws[1..]);
    }
  }

  lemma {:induction false} FlatTableLength(kws: seq<Keyword>)
    ensures |FlatTable(kws)| == Offset(kws, |kws|) + 1
    decreases |kws|
  {
    if |kws| > 0 {
      FlatTableLength(kws[1..]);
      OffsetShift(kws, |kws| - 1);
    }
  }

  /** The two tables agree except at index 48, where the detokenizer says "ON". */
  lemma TablesDifferOnlyAtOr()
    ensures |DetokenizerKeywords| == |TokenizerKeywords| == 76
    ensures TokenizerKeywords[48] == "OR" && DetokenizerKeywords[48] == "ON"
    ensures DetokenizerKeywords == TokenizerKeywords[48 := "ON"]
  {
    assert NamesA8 == TokensA8[8 := "ON"];
    var before := Tokens80 + Tokens8A + Tokens94 + Tokens9E;
    var after := TokensB2 + TokensBC + TokensC6;
    assert Names80 + Names8A + Names94 + Names9E == before;
    assert NamesB2 + NamesBC + NamesC6 == after;
    assert TokenizerKeywords == before + TokensA8 + after;
    assert DetokenizerKeywords == before + NamesA8 + after;
    assert |before| == 40;
  }

  lemma ChunkIndex()
    ensures forall k :: 0 <= k < 10 ==> TokenizerKeywords[k] == Tokens80[k]
    ensures forall k :: 10 <= k < 20 ==> TokenizerKeywords[k] == Tokens8A[k - 10]
    ensures forall k :: 20 <= k < 30 ==> TokenizerKeywords[k] == Tokens94[k - 20]
    ensures forall k :: 30 <= k < 40 ==> TokenizerKeywords[k] == Tokens9E[k - 30]
    ensures forall k :: 40 <= k < 50 ==> TokenizerKeywords[k] == TokensA8[k - 40]
    ensures forall k :: 50 <= k < 60 ==> TokenizerKeywords[k] == TokensB2[k - 50]
    ensures forall k :: 60 <= k < 70 ==> TokenizerKeywords[k] == TokensBC[k - 60]
    ensures forall k :: 70 <= k < 76 ==> TokenizerKeywords[k] == TokensC6[k - 70]
  {
    var p := Tokens80 + Tokens8A + Tokens94 + Tokens9E;
    var q := p + TokensA8 + TokensB2 + TokensBC;
    assert |p| == 40 && |q| == 70;
    assert TokenizerKeywords == q + TokensC6;
  }

  /** The entries starting with 'G' are GOTO, GOSUB, GET and GO; only MID$ starts with 'M'. */
  lemma InitialLetters()
    ensures forall k :: 0 <= k < |TokenizerKeywords| ==>
              (TokenizerKeywords[k][0] == 'G' <==> k == 9 || k == 13 || k == 33 || k == 75)
    ensures forall k :: 0 <= k < |TokenizerKeywords| ==>
              (TokenizerKeywords[k][0] == 'M' <==> k == 74)
  {
    ChunkIndex();
    assert forall k :: 0 <= k < 10 ==> (Tokens80[k][0] == 'G' <==> k == 9) && Tokens80[k][0] != 'M';
    assert forall k :: 0 <= k < 10 ==> (Tokens8A[k][0] == 'G' <==> k == 3) && Tokens8A[k][0] != 'M';
    assert forall k :: 0 <= k < 10 ==> Tokens94[k][0] != 'G' && Tokens94[k][0] != 'M';
    assert forall k :: 0 <= k < 10 ==> (Tokens9E[k][0] == 'G' <==> k == 3) && Tokens9E[k][0] != 'M';
    assert forall k :: 0 <= k < 10 ==> TokensA8[k][0] != 'G' && TokensA8[k][0] != 'M';
    assert forall k :: 0 <= k < 10 ==> TokensB2[k][0] != 'G' && TokensB2[k][0] != 'M';
    assert forall k :: 0 <= k < 10 ==> TokensBC[k][0] != 'G' && TokensBC[k][0] != 'M';
    assert forall k :: 0 <= k < 6 ==> (TokensC6[k][0] == 'G' <==> k == 5) && (TokensC6[k][0] == 'M' <==> k == 4);
  }
}
