/** Byte buffers, optional values and small text helpers shared by every codec. */
module Common {

  /** One cell of a PET memory image or of a file: an 8-bit value. */
  type byte = x: int | 0 <= x < 256

  datatype Option<T> = None | Some(value: T)

  /** `mem[i] || 0`: a read outside the buffer yields 0. */
  function At(mem: seq<byte>, i: int): (b: byte)
    ensures 0 <= i < |mem| ==> b == mem[i]
    ensures !(0 <= i < |mem|) ==> b == 0
  {
    if 0 <= i < |mem| then mem[i] else 0
  }

  /** Low byte of a non-negative value (`n & 0xFF`). */
  function Lo(n: int): byte { n % 256 }

  /** Second byte of a value (`(n >> 8) & 0xFF`). */
  function Hi(n: int): byte { (n / 256) % 256 }

  /** Little-endian 16-bit encoding, as every PET address word is stored. */
  function LE16(n: int): (s: seq<byte>)
    ensures |s| == 2
  {
    [Lo(n), Hi(n)]
  }

  /** The 16-bit little-endian word stored at `a`, reading 0 outside the buffer. */
  function Word(mem: seq<byte>, a: int): (w: int)
    ensures 0 <= w < 0x10000
  {
    At(mem, a) + 256 * At(mem, a + 1)
  }

  lemma {:induction false} LE16Decodes(n: int)
    requires 0 <= n < 0x10000
    ensures Lo(n) + 256 * Hi(n) == n
    ensures Word(LE16(n), 0) == n
  {
    assert n / 256 < 256;
    assert Hi(n) == n / 256;
  }

  /** `n` copies of `c` (none when `n` is not positive): blank padding and zero padding. */
  function Repeat(c: char, n: int): (s: string)
    ensures |s| == if n > 0 then n else 0
    ensures forall i :: 0 <= i < |s| ==> s[i] == c
    decreases n
  {
    if n <= 0 then "" else [c] + Repeat(c, n - 1)
  }

  /** `blanks.substring(0, n)` on a blank string of length `width`. */
  function Blanks(width: nat, n: int): (s: string)
    ensures |s| == if n <= 0 then 0 else if n < width then n else width
  {
    Repeat(' ', if n < width then n else width)
  }

  /** `lines.join(sep)`. */
  function Join(lines: seq<string>, sep: string): string
    decreases |lines|
  {
    if |lines| == 0 then ""
    else if |lines| == 1 then lines[0]
    else lines[0] + sep + Join(lines[1..], sep)
  }

  /** Concatenation of a sequence of byte chunks. */
  function Concat(chunks: seq<seq<byte>>): seq<byte>
    decreases |chunks|
  {
    if |chunks| == 0 then [] else chunks[0] + Concat(chunks[1..])
  }

  lemma {:induction false} ConcatLength(chunks: seq<seq<byte>>, k: nat)
    requires forall i :: 0 <= i < |chunks| ==> |chunks[i]| == k
    ensures |Concat(chunks)| == k * |chunks|
    decreases |chunks|
  {
    if |chunks| > 0 {
      ConcatLength(chunks[1..], k);
    }
  }

  /** The character codes of a string. */
  function Codes(s: string): (w: seq<int>)
    ensures |w| == |s|
    ensures forall i :: 0 <= i < |s| ==> w[i] == s[i] as int
  {
    seq(|s|, i requires 0 <= i < |s| => s[i] as int)
  }

  /** `n` bytes read from `a` on, each as `mem[i] || 0`. */
  function Slice(mem: seq<byte>, a: int, n: nat): (s: seq<byte>)
    ensures |s| == n
    ensures forall i :: 0 <= i < n ==> s[i] == At(mem, a + i)
  {
    seq<byte>(n, i requires 0 <= i < n => At(mem, a + i))
  }

  /** `mem` holds `s` at address `a`. */
  predicate Holds(mem: seq<byte>, a: int, s: seq<byte>)
  {
    0 <= a && a + |s| <= |mem| && mem[a..a + |s|] == s
  }

  /** Each byte of a held sequence is read back by `At`. */
  lemma HoldsAt(mem: seq<byte>, a: int, s: seq<byte>, i: int)
    requires Holds(mem, a, s) && 0 <= i < |s|
    ensures At(mem, a + i) == s[i]
  {
    assert mem[a..a + |s|][i] == s[i];
  }

  /** A held sequence's tail is held further on. */
  lemma HoldsDrop(mem: seq<byte>, a: int, s: seq<byte>, k: nat)
    requires Holds(mem, a, s) && k <= |s|
    ensures Holds(mem, a + k, s[k..])
  {
    assert mem[a + k..a + |s|] == mem[a..a + |s|][k..];
  }

  /** The first `n` bytes of a held sequence are read back by `Slice`. */
  lemma HoldsSlice(mem: seq<byte>, a: int, s: seq<byte>, n: nat)
    requires Holds(mem, a, s) && n <= |s|
    ensures Slice(mem, a, n) == s[..n]
  {
    forall i | 0 <= i < n
      ensures Slice(mem, a, n)[i] == s[i]
    {
      HoldsAt(mem, a, s, i);
    }
  }

  /** A 32-bit signed conversion, as JavaScript's `n | 0` does it. */
  function ToInt32(n: int): (r: int)
    ensures -0x8000_0000 <= r < 0x8000_0000
    ensures -0x8000_0000 <= n < 0x8000_0000 ==> r == n
  {
    (n + 0x8000_0000) % 0x1_0000_0000 - 0x8000_0000
  }
}
