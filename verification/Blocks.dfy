/**
 Disk blocks: 512 bytes, also read as 128 little-endian words by the log
 header and by indirect blocks.
 */
module Blocks {

  const BSIZE: nat := 512
  const WORDS_PER_BLOCK: nat := 128
  const WORD_LIMIT: nat := 0x1_0000_0000

  type Byte = x: int | 0 <= x < 256

  type Block = b: seq<Byte> | |b| == BSIZE witness seq(BSIZE, i => 0)

  function Zeros(): (b: Block)
    ensures forall i :: 0 <= i < BSIZE ==> b[i] == 0
  {
    seq(BSIZE, i => 0)
  }

  function Word(b: Block, j: nat): (w: nat)
    requires j < WORDS_PER_BLOCK
    ensures w < WORD_LIMIT
  {
    b[4 * j] as int + 256 * (b[4 * j + 1] as int) + 65536 * (b[4 * j + 2] as int) + 16777216 * (b[4 * j + 3] as int)
  }

  function SetWord(b: Block, j: nat, w: nat): (r: Block)
    requires j < WORDS_PER_BLOCK && w < WORD_LIMIT
  {
    b[4 * j := w % 256][4 * j + 1 := w / 256 % 256][4 * j + 2 := w / 65536 % 256][4 * j + 3 := w / 16777216]
  }

  /** Storing a word changes that word and no other. */
  lemma SetWordFrame(b: Block, j: nat, w: nat, k: nat)
    requires j < WORDS_PER_BLOCK && k < WORDS_PER_BLOCK && w < WORD_LIMIT
    ensures Word(SetWord(b, j, w), k) == if k == j then w else Word(b, k)
  {
    var r := SetWord(b, j, w);
    if k == j {
      assert r[4 * j] == w % 256 && r[4 * j + 1] == w / 256 % 256 && r[4 * j + 2] == w / 65536 % 256;
      Bytes(w);
    }
  }

  lemma Bytes(w: nat)
    requires w < WORD_LIMIT
    ensures w % 256 + 256 * (w / 256 % 256) + 65536 * (w / 65536 % 256) + 16777216 * (w / 16777216) == w
  {
    assert w / 65536 == w / 256 / 256 && w / 16777216 == w / 65536 / 256;
  }

  lemma ZeroWord(j: nat)
    requires j < WORDS_PER_BLOCK
    ensures Word(Zeros(), j) == 0
  {
  }
}
