/** Bytes, disk blocks, and the integers that easy-fs reads out of them by
    reinterpreting memory on a little-endian machine. */
module Bytes {
  import opened Common

  type Byte = x: int | 0 <= x < 256
  type Word = x: int | 0 <= x < 0x1_0000_0000

  type Block = b: seq<Byte> | |b| == 512 witness seq(512, _ => 0)
  type Disk = seq<Block>

  function ZeroBlock(): (b: Block)
    ensures IsZero(b)
  {
    seq(512, _ => 0)
  }

  ghost predicate IsZero(b: Block) {
    forall j :: 0 <= j < 512 ==> b[j] == 0
  }

  /** The contents of `b` with `src` written over it from `off` on. */
  function Splice(b: Block, off: nat, src: seq<Byte>): (r: Block)
    requires off + |src| <= 512
    ensures forall j :: 0 <= j < 512 ==> r[j] == if off <= j < off + |src| then src[j - off] else b[j]
  {
    b[..off] + src + b[off + |src|..]
  }

  function WordOfBytes(s: seq<Byte>): Word
    requires |s| == 4
  {
    s[0] as int + 0x100 * (s[1] as int) + 0x1_0000 * (s[2] as int) + 0x100_0000 * (s[3] as int)
  }

  function BytesOfWord(v: Word): (s: seq<Byte>)
    ensures |s| == 4
  {
    [v % 0x100, v / 0x100 % 0x100, v / 0x1_0000 % 0x100, v / 0x100_0000]
  }

  lemma WordRoundTrip(v: Word)
    ensures WordOfBytes(BytesOfWord(v)) == v
    ensures var s: seq<int> := BytesOfWord(v); v == s[0] + 0x100 * (s[1] + 0x100 * (s[2] + 0x100 * s[3]))
  {
    assert v == v % 0x100 + 0x100 * (v / 0x100);
    assert v / 0x100 == v / 0x100 % 0x100 + 0x100 * (v / 0x1_0000);
    assert v / 0x1_0000 == v / 0x1_0000 % 0x100 + 0x100 * (v / 0x100_0000);
  }

  /** The `i`-th 32-bit word of a block. */
  function WordAt(b: Block, i: nat): Word
    requires i < 128
  {
    WordOfBytes(b[4 * i..4 * i + 4])
  }

  function PutWord(b: Block, i: nat, v: Word): (r: Block)
    requires i < 128
  {
    Splice(b, 4 * i, BytesOfWord(v))
  }

  lemma PutWordAt(b: Block, i: nat, v: Word, j: nat)
    requires i < 128 && j < 128
    ensures WordAt(PutWord(b, i, v), j) == if i == j then v else WordAt(b, j)
  {
    var r := PutWord(b, i, v);
    if i == j {
      assert r[4 * i..4 * i + 4] == BytesOfWord(v);
      WordRoundTrip(v);
    } else {
      assert r[4 * j..4 * j + 4] == b[4 * j..4 * j + 4];
    }
  }

  lemma PutWordAll(b: Block, i: nat, v: Word)
    requires i < 128
    ensures forall j :: 0 <= j < 128 ==> WordAt(PutWord(b, i, v), j) == if i == j then v else WordAt(b, j)
  {
    forall j | 0 <= j < 128
      ensures WordAt(PutWord(b, i, v), j) == if i == j then v else WordAt(b, j)
    {
      PutWordAt(b, i, v, j);
    }
  }

  /** The `w`-th 64-bit word of a block. */
  function LongAt(b: Block, w: nat): Long
    requires w < 64
  {
    WordAt(b, 2 * w) as int + 0x1_0000_0000 * (WordAt(b, 2 * w + 1) as int)
  }

  function PutLong(b: Block, w: nat, v: Long): (r: Block)
    requires w < 64
  {
    PutWord(PutWord(b, 2 * w, v % 0x1_0000_0000), 2 * w + 1, v / 0x1_0000_0000)
  }

  lemma PutLongAt(b: Block, w: nat, v: Long, u: nat)
    requires w < 64 && u < 64
    ensures LongAt(PutLong(b, w, v), u) == if w == u then v else LongAt(b, u)
  {
    var m := PutWord(b, 2 * w, v % 0x1_0000_0000);
    PutWordAt(b, 2 * w, v % 0x1_0000_0000, 2 * u);
    PutWordAt(b, 2 * w, v % 0x1_0000_0000, 2 * u + 1);
    PutWordAt(m, 2 * w + 1, v / 0x1_0000_0000, 2 * u);
    PutWordAt(m, 2 * w + 1, v / 0x1_0000_0000, 2 * u + 1);
  }

  lemma ZeroWords(b: Block)
    requires IsZero(b)
    ensures forall i :: 0 <= i < 128 ==> WordAt(b, i) == 0
    ensures forall w :: 0 <= w < 64 ==> LongAt(b, w) == 0
  {
  }
}
