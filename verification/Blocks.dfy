/** Disk blocks: BSIZE bytes, which the kernel also reads as an array of
    little-endian 32-bit words (the log header and indirect blocks). */
module Blocks {
  const BSIZE := 512
  const NWORDS := 128

  type byte = x: int | 0 <= x < 256
  type word = x: int | 0 <= x < 0x1_0000_0000
  type Block = b: seq<byte> | |b| == BSIZE witness seq(BSIZE, i => 0)
  type Disk = seq<Block>

  datatype Option<+T> = None | Some(value: T)

  function ZeroBlock(): (b: Block)
    ensures forall i | 0 <= i < BSIZE :: b[i] == 0
  {
    seq(BSIZE, i => 0)
  }

  function Word(b: Block, i: nat): (w: word)
    requires i < NWORDS
  {
    var b0: int, b1: int, b2: int, b3: int := b[4 * i], b[4 * i + 1], b[4 * i + 2], b[4 * i + 3];
    b0 + 0x100 * b1 + 0x1_0000 * b2 + 0x100_0000 * b3
  }

  function SetWord(b: Block, i: nat, w: word): (r: Block)
    requires i < NWORDS
    ensures Word(r, i) == w
    ensures forall j | 0 <= j < NWORDS && j != i :: Word(r, j) == Word(b, j)
  {
    var s := WordBytes(w);
    var r := b[..4 * i] + s + b[4 * i + 4..];
    assert r[4 * i..4 * i + 4] == s;
    assert forall k | 0 <= k < BSIZE && !(4 * i <= k < 4 * i + 4) :: r[k] == b[k];
    r
  }

  function WordBytes(w: word): (s: seq<byte>)
    ensures |s| == 4 && w == s[0] as int + 0x100 * s[1] as int + 0x1_0000 * s[2] as int + 0x100_0000 * s[3] as int
  {
    var w1: nat := w / 0x100;
    var w2: nat := w1 / 0x100;
    [w % 0x100, w1 % 0x100, w2 % 0x100, w2 / 0x100]
  }

  lemma ZeroWord(i: nat)
    requires i < NWORDS
    ensures Word(ZeroBlock(), i) == 0
  {
  }

  predicate Distinct<T(==)>(s: seq<T>) {
    forall i, j | 0 <= i < j < |s| :: s[i] != s[j]
  }
}
