/**
 Fields inside blocks: single bits, as the free map uses them, and runs of
 words, as inodes use them.
 */
module BlockFields {
  import opened Bits
  import opened Blocks

  const BPB: nat := 4096

  // ---- Bits ----

  lemma ByteFits(x: Byte, k: nat, v: bool)
    requires k < 8
    ensures WithBit(x, k, v) < 256
  {
    assert Pow2(4) == 16 && Pow2(8) == 256;
    WithBitFits(x, k, v, 8);
  }

  /** Is bit `i` of the block set? */
  predicate Bit(b: Block, i: nat)
    requires i < BPB
  {
    BitOf(b[i / 8], i % 8)
  }

  function SetBit(b: Block, i: nat, v: bool): (r: Block)
    requires i < BPB
  {
    ByteFits(b[i / 8], i % 8, v);
    b[i / 8 := WithBit(b[i / 8], i % 8, v)]
  }

  lemma SetBitFrame(b: Block, i: nat, v: bool, j: nat)
    requires i < BPB && j < BPB
    ensures Bit(SetBit(b, i, v), j) == if j == i then v else Bit(b, j)
  {
    if j / 8 == i / 8 {
      WithBitAt(b[i / 8], i % 8, v, j % 8);
      assert j % 8 == i % 8 <==> i == j;
    }
  }

  // ---- Runs of words ----

  predicate AreWords(ws: seq<nat>)
  {
    forall i :: 0 <= i < |ws| ==> ws[i] < WORD_LIMIT
  }

  /** The first `k` words of `ws` stored from word `at` on. */
  function SetWordsTo(b: Block, at: nat, ws: seq<nat>, k: nat): (r: Block)
    requires at + |ws| <= WORDS_PER_BLOCK && AreWords(ws) && k <= |ws|
  {
    if k == 0 then b else SetWord(SetWordsTo(b, at, ws, k - 1), at + k - 1, ws[k - 1])
  }

  function SetWords(b: Block, at: nat, ws: seq<nat>): (r: Block)
    requires at + |ws| <= WORDS_PER_BLOCK && AreWords(ws)
  {
    SetWordsTo(b, at, ws, |ws|)
  }

  lemma {:induction false} SetWordsToFrame(b: Block, at: nat, ws: seq<nat>, k: nat, j: nat)
    requires at + |ws| <= WORDS_PER_BLOCK && AreWords(ws) && k <= |ws| && j < WORDS_PER_BLOCK
    ensures Word(SetWordsTo(b, at, ws, k), j) == if at <= j < at + k then ws[j - at] else Word(b, j)
  {
    hide Word, SetWord;
    if k > 0 {
      SetWordsToFrame(b, at, ws, k - 1, j);
      SetWordFrame(SetWordsTo(b, at, ws, k - 1), at + k - 1, ws[k - 1], j);
    }
  }

  lemma SetWordsFrame(b: Block, at: nat, ws: seq<nat>, j: nat)
    requires at + |ws| <= WORDS_PER_BLOCK && AreWords(ws) && j < WORDS_PER_BLOCK
    ensures Word(SetWords(b, at, ws), j) == if at <= j < at + |ws| then ws[j - at] else Word(b, j)
  {
    SetWordsToFrame(b, at, ws, |ws|, j);
  }
}
