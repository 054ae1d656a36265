/**
 The write-ahead log as a sequence of block writes, and what a crash in the
 middle of it leaves behind. A block write is atomic; a crash wipes memory and
 keeps the disk.
 */
module CrashLog {
  import opened Blocks
  import opened Params

  type Disk = seq<Block>

  datatype Write = Write(at: nat, data: Block)

  /** The log occupies `size` blocks from `start`: a header and `size - 1` slots. */
  datatype Region = Region(start: nat, size: nat)

  ghost predicate FitsDisk(r: Region, d: Disk)
  {
    0 < r.size && r.start + r.size <= |d| && |d| <= WORD_LIMIT
  }

  predicate InLog(r: Region, b: nat)
  {
    r.start <= b < r.start + r.size
  }

  // ---- Performing writes ----

  predicate InRange(d: Disk, ws: seq<Write>)
  {
    forall i :: 0 <= i < |ws| ==> ws[i].at < |d|
  }

  function Apply(d: Disk, ws: seq<Write>): (r: Disk)
    requires InRange(d, ws)
    ensures |r| == |d|
  {
    if ws == [] then d
    else
      var last := ws[|ws| - 1];
      Apply(d, ws[..|ws| - 1])[last.at := last.data]
  }

  lemma {:induction false} ApplyConcat(d: Disk, ws: seq<Write>, xs: seq<Write>)
    requires InRange(d, ws + xs)
    ensures InRange(d, ws)
    ensures InRange(d, xs)
    ensures Apply(d, ws + xs) == Apply(Apply(d, ws), xs)
  {
    assert forall i :: 0 <= i < |ws| ==> (ws + xs)[i] == ws[i];
    assert forall i :: 0 <= i < |xs| ==> (ws + xs)[|ws| + i] == xs[i];
    if xs == [] {
      assert ws + xs == ws;
    } else {
      var n := |xs| - 1;
      assert (ws + xs)[..|ws + xs| - 1] == ws + xs[..n];
      ApplyConcat(d, ws, xs[..n]);
    }
  }

  lemma ApplyOne(d: Disk, ws: seq<Write>, w: Write)
    requires InRange(d, ws) && w.at < |d|
    ensures InRange(d, ws + [w])
    ensures Apply(d, ws + [w]) == Apply(d, ws)[w.at := w.data]
  {
    assert (ws + [w])[..|ws + [w]| - 1] == ws;
  }

  lemma {:induction false} ApplyFrame(d: Disk, ws: seq<Write>, b: nat)
    requires InRange(d, ws)
    requires b < |d| && forall i :: 0 <= i < |ws| ==> ws[i].at != b
    ensures Apply(d, ws)[b] == d[b]
  {
    if ws != [] {
      ApplyFrame(d, ws[..|ws| - 1], b);
    }
  }

  ghost predicate DistinctTargets(ws: seq<Write>)
  {
    forall i, j :: 0 <= i < j < |ws| ==> ws[i].at != ws[j].at
  }

  lemma {:induction false} ApplyAt(d: Disk, ws: seq<Write>, i: nat)
    requires InRange(d, ws)
    requires DistinctTargets(ws) && i < |ws|
    ensures Apply(d, ws)[ws[i].at] == ws[i].data
  {
    var n := |ws| - 1;
    if i < n {
      ApplyAt(d, ws[..n], i);
    }
  }

  // ---- The header block ----

  predicate AllWords(blocks: seq<nat>)
  {
    forall i :: 0 <= i < |blocks| ==> blocks[i] < WORD_LIMIT
  }

  /** Words 1..n of the header block, after the count in word 0. */
  function SetBlocks(h: Block, blocks: seq<nat>): (r: Block)
    requires |blocks| <= LOGSIZE && AllWords(blocks)
  {
    if blocks == [] then h
    else
      var n := |blocks| - 1;
      SetWord(SetBlocks(h, blocks[..n]), 1 + n, blocks[n])
  }

  /** The header as it is written: the count and that many block numbers, over
      whatever the block held before. */
  function EncodeHeader(h: Block, blocks: seq<nat>): (r: Block)
    requires |blocks| <= LOGSIZE && AllWords(blocks)
  {
    SetBlocks(SetWord(h, 0, |blocks|), blocks)
  }

  predicate HeaderOk(h: Block)
  {
    Word(h, 0) <= LOGSIZE
  }

  function DecodeHeader(h: Block): (blocks: seq<nat>)
    requires HeaderOk(h)
    ensures |blocks| == Word(h, 0)
  {
    seq(Word(h, 0), i requires 0 <= i < Word(h, 0) => Word(h, 1 + i))
  }

  lemma {:induction false} SetBlocksWord(h: Block, blocks: seq<nat>, j: nat)
    requires |blocks| <= LOGSIZE && AllWords(blocks)
    requires j < WORDS_PER_BLOCK
    ensures Word(SetBlocks(h, blocks), j) == if 1 <= j <= |blocks| then blocks[j - 1] else Word(h, j)
  {
    if blocks != [] {
      var n := |blocks| - 1;
      SetBlocksWord(h, blocks[..n], j);
      SetWordFrame(SetBlocks(h, blocks[..n]), 1 + n, blocks[n], j);
    }
  }

  /** What `write_head` writes, `read_head` reads back. */
  lemma HeaderRoundTrip(h: Block, blocks: seq<nat>)
    requires |blocks| <= LOGSIZE && AllWords(blocks)
    ensures HeaderOk(EncodeHeader(h, blocks))
    ensures DecodeHeader(EncodeHeader(h, blocks)) == blocks
  {
    var counted := SetWord(h, 0, |blocks|);
    forall j | 0 <= j <= |blocks|
      ensures Word(EncodeHeader(h, blocks), j) == if j == 0 then |blocks| else blocks[j - 1]
    {
      SetBlocksWord(counted, blocks, j);
      SetWordFrame(h, 0, |blocks|, j);
    }
  }

  // ---- The writes of a commit and of a recovery ----

  function Targets(tx: seq<Write>): (bs: seq<nat>)
    ensures |bs| == |tx| && forall i :: 0 <= i < |tx| ==> bs[i] == tx[i].at
  {
    seq(|tx|, i requires 0 <= i < |tx| => tx[i].at)
  }

  /** A transaction: distinct home blocks, no more than the log has slots. */
  ghost predicate ValidTx(r: Region, d: Disk, tx: seq<Write>)
  {
    && FitsDisk(r, d)
    && |tx| <= LOGSIZE && |tx| < r.size
    && DistinctTargets(tx)
    && InRange(d, tx) && forall i :: 0 <= i < |tx| ==> !InLog(r, tx[i].at)
  }

  /** `write_log`: the modified blocks go to the slots of the log. */
  function LogWrites(r: Region, tx: seq<Write>): (ws: seq<Write>)
    ensures |ws| == |tx|
  {
    seq(|tx|, i requires 0 <= i < |tx| => Write(r.start + 1 + i, tx[i].data))
  }

  /** `commit`: fill the log, write the header, install, clear the header. */
  function CommitWrites(r: Region, d: Disk, tx: seq<Write>): (ws: seq<Write>)
    requires FitsDisk(r, d) && |tx| <= LOGSIZE && InRange(d, tx)
    ensures |ws| == 2 * |tx| + 2
  {
    var full := EncodeHeader(d[r.start], Targets(tx));
    LogWrites(r, tx) + [Write(r.start, full)] + tx + [Write(r.start, EncodeHeader(full, []))]
  }

  ghost predicate Recoverable(r: Region, d: Disk)
  {
    && FitsDisk(r, d)
    && HeaderOk(d[r.start])
    && |DecodeHeader(d[r.start])| < r.size
    && forall i :: 0 <= i < |DecodeHeader(d[r.start])| ==> DecodeHeader(d[r.start])[i] < |d|
  }

  /** `install_trans` after a restart: the slots go to the blocks the header names. */
  function InstallWrites(r: Region, d: Disk): (ws: seq<Write>)
    requires Recoverable(r, d)
    ensures |ws| == |DecodeHeader(d[r.start])|
  {
    var blocks := DecodeHeader(d[r.start]);
    seq(|blocks|, i requires 0 <= i < |blocks| => Write(blocks[i], d[r.start + 1 + i]))
  }

  /** `recover_from_log`: install, then clear the header. */
  function RecoverWrites(r: Region, d: Disk): (ws: seq<Write>)
    requires Recoverable(r, d)
    ensures InRange(d, ws)
  {
    InstallWrites(r, d) + [Write(r.start, EncodeHeader(d[r.start], []))]
  }

  // ---- What the disk can look like ----

  ghost predicate Clean(r: Region, d: Disk)
  {
    FitsDisk(r, d) && Word(d[r.start], 0) == 0
  }

  /** Equal outside the log. */
  ghost predicate SameHome(r: Region, d: Disk, e: Disk)
  {
    |d| == |e| && forall b :: 0 <= b < |d| && !InLog(r, b) ==> d[b] == e[b]
  }

  /** The header names `tx`, the slots hold its data, and each home block still
      holds the old content or already holds the new one. */
  ghost predicate Logged(r: Region, d: Disk, before: Disk, tx: seq<Write>)
  {
    && ValidTx(r, before, tx)
    && |d| == |before|
    && HeaderOk(d[r.start]) && DecodeHeader(d[r.start]) == Targets(tx)
    && (forall i :: 0 <= i < |tx| ==> d[r.start + 1 + i] == tx[i].data)
    && (forall i :: 0 <= i < |tx| ==> d[tx[i].at] == before[tx[i].at] || d[tx[i].at] == tx[i].data)
    && (forall b :: 0 <= b < |d| && !InLog(r, b) && b !in Targets(tx) ==> d[b] == before[b])
  }

  /** Before the header write the old state rules, after it the new one. */
  ghost predicate Decided(r: Region, d: Disk, before: Disk, tx: seq<Write>, done: bool)
  {
    && ValidTx(r, before, tx)
    && if done then Logged(r, d, before, tx) || (Clean(r, d) && SameHome(r, d, Apply(before, tx)))
       else Clean(r, d) && SameHome(r, d, before)
  }

  lemma DecidedRecoverable(r: Region, d: Disk, before: Disk, tx: seq<Write>, done: bool)
    requires Decided(r, d, before, tx, done)
    ensures Recoverable(r, d)
  {
  }

  // ---- The writes one by one ----

  /** The header block lists the blocks: their number in word 0, and then each. */
  ghost predicate HeaderLists(h: Block, blocks: seq<nat>)
  {
    && |blocks| < WORDS_PER_BLOCK && Word(h, 0) == |blocks|
    && forall i :: 0 <= i < |blocks| ==> Word(h, 1 + i) == blocks[i]
  }

  lemma EncodeLists(h: Block, blocks: seq<nat>)
    requires |blocks| <= LOGSIZE && AllWords(blocks)
    ensures HeaderLists(EncodeHeader(h, blocks), blocks)
  {
    hide Word, SetWord;
    forall j: nat | j <= |blocks|
      ensures Word(EncodeHeader(h, blocks), j) == if j == 0 then |blocks| else blocks[j - 1]
    {
      SetBlocksWord(SetWord(h, 0, |blocks|), blocks, j);
      SetWordFrame(h, 0, |blocks|, j);
    }
  }

  /** The writes of a commit: the blocks to the slots in order, the header that
      lists them, the blocks to their homes in order, and an empty header. */
  lemma CommitOrder(r: Region, d: Disk, tx: seq<Write>, k: nat)
    requires ValidTx(r, d, tx) && k < 2 * |tx| + 2
    ensures var w, n := CommitWrites(r, d, tx)[k], |tx|;
            if k < n then w == Write(r.start + 1 + k, tx[k].data)
            else if k == n then w.at == r.start && HeaderLists(w.data, Targets(tx))
            else if k <= 2 * n then w == tx[k - n - 1]
            else w.at == r.start && HeaderLists(w.data, [])
  {
    EncodeLists(d[r.start], Targets(tx));
    EncodeLists(EncodeHeader(d[r.start], Targets(tx)), []);
    hide EncodeHeader, HeaderLists;
  }

  /** Those of a recovery: from the slots to the blocks that the header lists, in
      order, and an empty header. */
  lemma RecoverOrder(r: Region, d: Disk, k: nat)
    requires Recoverable(r, d) && k <= Word(d[r.start], 0)
    ensures |RecoverWrites(r, d)| == Word(d[r.start], 0) + 1
    ensures var w := RecoverWrites(r, d)[k];
            if k < Word(d[r.start], 0) then w == Write(Word(d[r.start], 1 + k), d[r.start + 1 + k])
            else w.at == r.start && HeaderLists(w.data, [])
  {
    EncodeLists(d[r.start], []);
    hide EncodeHeader, HeaderLists, Word;
  }

  // ---- Crash in a commit ----

  lemma CommitWritesInRange(r: Region, d: Disk, tx: seq<Write>)
    requires ValidTx(r, d, tx)
    ensures InRange(d, CommitWrites(r, d, tx))
  {
  }

  /** The disk after a crash that let the first `k` writes through. */
  ghost function CrashedCommit(r: Region, d: Disk, tx: seq<Write>, k: nat): (e: Disk)
    requires ValidTx(r, d, tx) && k <= 2 * |tx| + 2
    ensures |e| == |d|
  {
    CommitWritesInRange(r, d, tx);
    Apply(d, CommitWrites(r, d, tx)[..k])
  }

  /** Filling the log slots changes nothing that counts. */
  lemma FillingSlots(r: Region, d: Disk, tx: seq<Write>, k: nat)
    requires ValidTx(r, d, tx) && k <= |tx|
    ensures InRange(d, LogWrites(r, tx)[..k])
    ensures var e := Apply(d, LogWrites(r, tx)[..k]);
            e[r.start] == d[r.start] && SameHome(r, e, d) &&
            forall i :: 0 <= i < k ==> e[r.start + 1 + i] == tx[i].data
  {
    var ws := LogWrites(r, tx)[..k];
    ApplyFrame(d, ws, r.start);
    forall b | 0 <= b < |d| && !InLog(r, b)
      ensures Apply(d, ws)[b] == d[b]
    {
      ApplyFrame(d, ws, b);
    }
    forall i | 0 <= i < k
      ensures Apply(d, ws)[r.start + 1 + i] == tx[i].data
    {
      ApplyAt(d, ws, i);
    }
  }

  lemma AfterSlots(r: Region, d: Disk, tx: seq<Write>, k: nat)
    requires ValidTx(r, d, tx) && k <= |tx|
    ensures InRange(d, LogWrites(r, tx)[..k])
    ensures CrashedCommit(r, d, tx, k) == Apply(d, LogWrites(r, tx)[..k])
  {
    assert CommitWrites(r, d, tx)[..k] == LogWrites(r, tx)[..k];
  }

  lemma AfterHeader(r: Region, d: Disk, tx: seq<Write>)
    requires ValidTx(r, d, tx)
    ensures CrashedCommit(r, d, tx, |tx| + 1) ==
              CrashedCommit(r, d, tx, |tx|)[r.start := EncodeHeader(d[r.start], Targets(tx))]
  {
    var ws := CommitWrites(r, d, tx);
    CommitWritesInRange(r, d, tx);
    assert ws[..|tx| + 1] == ws[..|tx|] + [ws[|tx|]];
    ApplyOne(d, ws[..|tx|], ws[|tx|]);
  }

  lemma AfterInstall(r: Region, d: Disk, tx: seq<Write>, j: nat)
    requires ValidTx(r, d, tx) && j <= |tx|
    ensures CrashedCommit(r, d, tx, |tx| + 1 + j) == Apply(CrashedCommit(r, d, tx, |tx| + 1), tx[..j])
  {
    var ws := CommitWrites(r, d, tx);
    CommitWritesInRange(r, d, tx);
    assert ws[..|tx| + 1 + j] == ws[..|tx| + 1] + tx[..j];
    ApplyConcat(d, ws[..|tx| + 1], tx[..j]);
  }

  lemma AfterClear(r: Region, d: Disk, tx: seq<Write>)
    requires ValidTx(r, d, tx)
    ensures CrashedCommit(r, d, tx, 2 * |tx| + 2) ==
              CrashedCommit(r, d, tx, 2 * |tx| + 1)[r.start :=
                EncodeHeader(EncodeHeader(d[r.start], Targets(tx)), [])]
  {
    var ws, n := CommitWrites(r, d, tx), 2 * |tx| + 1;
    CommitWritesInRange(r, d, tx);
    assert ws[..n + 1] == ws[..n] + [ws[n]];
    ApplyOne(d, ws[..n], ws[n]);
  }

  /** Once the header is written, the transaction is decided. */
  lemma HeaderWritten(r: Region, d: Disk, tx: seq<Write>)
    requires ValidTx(r, d, tx)
    ensures Logged(r, CrashedCommit(r, d, tx, |tx| + 1), d, tx)
  {
    var e := Apply(d, LogWrites(r, tx)[..|tx|]);
    assert CrashedCommit(r, d, tx, |tx| + 1) == e[r.start := EncodeHeader(d[r.start], Targets(tx))] by {
      AfterSlots(r, d, tx, |tx|);
      AfterHeader(r, d, tx);
    }
    FillingSlots(r, d, tx, |tx|);
    HeaderOverSlots(r, e, d, tx);
  }

  lemma HeaderOverSlots(r: Region, e: Disk, d: Disk, tx: seq<Write>)
    requires ValidTx(r, d, tx) && SameHome(r, e, d)
    requires forall i :: 0 <= i < |tx| ==> e[r.start + 1 + i] == tx[i].data
    ensures Logged(r, e[r.start := EncodeHeader(d[r.start], Targets(tx))], d, tx)
  {
    HeaderRoundTrip(d[r.start], Targets(tx));
  }

  /** The first `k` blocks of `tx` are in place. */
  ghost predicate HasFirst(d: Disk, tx: seq<Write>, k: nat)
  {
    k <= |tx| && InRange(d, tx) && forall i :: 0 <= i < k ==> d[tx[i].at] == tx[i].data
  }

  /** Applying the first `k` writes of `tx` sets their targets and nothing else. */
  lemma PartApplied(d: Disk, tx: seq<Write>, k: nat)
    requires InRange(d, tx) && DistinctTargets(tx) && k <= |tx|
    ensures HasFirst(Apply(d, tx[..k]), tx, k)
    ensures forall b :: 0 <= b < |d| && b !in Targets(tx[..k]) ==> Apply(d, tx[..k])[b] == d[b]
  {
    var ws := tx[..k];
    forall i | 0 <= i < k
      ensures Apply(d, ws)[tx[i].at] == tx[i].data
    {
      ApplyAt(d, ws, i);
    }
    forall b | 0 <= b < |d| && b !in Targets(ws)
      ensures Apply(d, ws)[b] == d[b]
    {
      assert forall i :: 0 <= i < k ==> ws[i].at == Targets(ws)[i];
      ApplyFrame(d, ws, b);
    }
  }

  /** Installing part of a logged transaction keeps it logged. */
  lemma InstallPrefix(r: Region, d: Disk, before: Disk, tx: seq<Write>, k: nat)
    requires Logged(r, d, before, tx) && k <= |tx|
    ensures InRange(d, tx[..k])
    ensures Logged(r, Apply(d, tx[..k]), before, tx)
    ensures HasFirst(Apply(d, tx[..k]), tx, k)
  {
    var e := Apply(d, tx[..k]);
    PartApplied(d, tx, k);
    forall b | 0 <= b < |d| && (InLog(r, b) || b !in Targets(tx))
      ensures e[b] == d[b]
    {
      assert b in Targets(tx[..k]) ==> b in Targets(tx);
    }
    forall i | 0 <= i < |tx|
      ensures e[tx[i].at] == before[tx[i].at] || e[tx[i].at] == tx[i].data
    {
      assert tx[i].at in Targets(tx[..k]) ==> i < k by {
        if j :| 0 <= j < k && Targets(tx[..k])[j] == tx[i].at {
          assert i == j;
        }
      }
    }
  }

  /** Installing all of it and clearing the header completes it. */
  lemma InstallAll(r: Region, d: Disk, before: Disk, tx: seq<Write>)
    requires Logged(r, d, before, tx)
    ensures InRange(d, tx)
    ensures var e := Apply(d, tx);
            var f := e[r.start := EncodeHeader(e[r.start], [])];
            e[r.start] == d[r.start] && Clean(r, f) && SameHome(r, f, Apply(before, tx))
  {
    InstallPrefix(r, d, before, tx, |tx|);
    assert tx[..|tx|] == tx;
    var e := Apply(d, tx);
    ApplyFrame(d, tx, r.start);
    HeaderRoundTrip(e[r.start], []);
    forall b | 0 <= b < |d| && !InLog(r, b)
      ensures e[b] == Apply(before, tx)[b]
    {
      if b in Targets(tx) {
        var i :| 0 <= i < |tx| && Targets(tx)[i] == b;
        ApplyAt(before, tx, i);
      } else {
        ApplyFrame(before, tx, b);
      }
    }
  }

  /** Every crash point of a commit is decided, one way or the other. */
  lemma CommitDecided(r: Region, d: Disk, tx: seq<Write>, k: nat)
    requires Clean(r, d) && ValidTx(r, d, tx) && k <= 2 * |tx| + 2
    ensures Decided(r, CrashedCommit(r, d, tx, k), d, tx, k > |tx|)
  {
    if k <= |tx| {
      CommitNotYet(r, d, tx, k);
    } else if k <= 2 * |tx| + 1 {
      CommitLogged(r, d, tx, k - (|tx| + 1));
    } else {
      CommitCompletes(r, d, tx);
    }
  }

  lemma CommitNotYet(r: Region, d: Disk, tx: seq<Write>, k: nat)
    requires Clean(r, d) && ValidTx(r, d, tx) && k <= |tx|
    ensures Clean(r, CrashedCommit(r, d, tx, k)) && SameHome(r, CrashedCommit(r, d, tx, k), d)
  {
    FillingSlots(r, d, tx, k);
    AfterSlots(r, d, tx, k);
  }

  lemma CommitLogged(r: Region, d: Disk, tx: seq<Write>, j: nat)
    requires ValidTx(r, d, tx) && j <= |tx|
    ensures Logged(r, CrashedCommit(r, d, tx, |tx| + 1 + j), d, tx)
  {
    var e := CrashedCommit(r, d, tx, |tx| + 1);
    assert Logged(r, Apply(e, tx[..j]), d, tx) by {
      HeaderWritten(r, d, tx);
      InstallPrefix(r, e, d, tx, j);
    }
    AfterInstall(r, d, tx, j);
  }

  /** A commit that returns has replaced the home blocks and emptied the log. */
  lemma CommitCompletes(r: Region, d: Disk, tx: seq<Write>)
    requires ValidTx(r, d, tx)
    ensures var e := CrashedCommit(r, d, tx, 2 * |tx| + 2);
            Clean(r, e) && SameHome(r, e, Apply(d, tx))
  {
    var e := CrashedCommit(r, d, tx, |tx| + 1);
    HeaderWritten(r, d, tx);
    InstallAll(r, e, d, tx);
    AfterInstall(r, d, tx, |tx|);
    assert tx[..|tx|] == tx;
    AfterHeader(r, d, tx);
    AfterClear(r, d, tx);
  }

  // ---- Crash in a recovery ----

  /** The disk after a recovery of which the first `j` writes got through. */
  ghost function CrashedRecovery(r: Region, d: Disk, j: nat): (e: Disk)
    requires Recoverable(r, d)
    ensures |e| == |d|
  {
    var ws := RecoverWrites(r, d);
    Apply(d, if j < |ws| then ws[..j] else ws)
  }

  /** What a logged transaction's recovery installs is the transaction. */
  lemma InstallIsTx(r: Region, d: Disk, before: Disk, tx: seq<Write>)
    requires Logged(r, d, before, tx) && Recoverable(r, d)
    ensures InstallWrites(r, d) == tx
  {
  }

  lemma LoggedRecovery(r: Region, d: Disk, before: Disk, tx: seq<Write>, j: nat)
    requires Logged(r, d, before, tx) && Recoverable(r, d)
    ensures j < |RecoverWrites(r, d)| ==> Logged(r, CrashedRecovery(r, d, j), before, tx)
    ensures j >= |RecoverWrites(r, d)| ==>
              Clean(r, CrashedRecovery(r, d, j)) && SameHome(r, CrashedRecovery(r, d, j), Apply(before, tx))
  {
    hide EncodeHeader, Apply, Logged, Clean;
    InstallIsTx(r, d, before, tx);
    var ws := RecoverWrites(r, d);
    if j < |ws| {
      assert ws[..j] == tx[..j];
      InstallPrefix(r, d, before, tx, j);
    } else {
      InstallAll(r, d, before, tx);
      ApplyOne(d, tx, Write(r.start, EncodeHeader(d[r.start], [])));
    }
  }

  /** An empty log has nothing to install. */
  lemma CleanWrites(r: Region, d: Disk)
    requires Clean(r, d) && Recoverable(r, d)
    ensures RecoverWrites(r, d) == [Write(r.start, EncodeHeader(d[r.start], []))]
  {
    hide EncodeHeader;
    assert InstallWrites(r, d) == [];
  }

  lemma CleanRecovery(r: Region, d: Disk, j: nat)
    requires Clean(r, d) && Recoverable(r, d)
    ensures Clean(r, CrashedRecovery(r, d, j)) && SameHome(r, CrashedRecovery(r, d, j), d)
  {
    CleanWrites(r, d);
    HeaderRoundTrip(d[r.start], []);
    var w := Write(r.start, EncodeHeader(d[r.start], []));
    hide EncodeHeader, RecoverWrites, Word, Recoverable, DecodeHeader;
    ApplyOne(d, [], w);
    assert [] + [w] == [w] && [w][..0] == [];
  }

  /** A recovery, cut anywhere, keeps the decision; a whole one carries it out. */
  lemma RecoveryKeepsDecision(r: Region, d: Disk, before: Disk, tx: seq<Write>, done: bool, j: nat)
    requires Decided(r, d, before, tx, done) && Recoverable(r, d)
    ensures Decided(r, CrashedRecovery(r, d, j), before, tx, done)
    ensures j >= |RecoverWrites(r, d)| ==>
              Clean(r, CrashedRecovery(r, d, j)) &&
              SameHome(r, CrashedRecovery(r, d, j), if done then Apply(before, tx) else before)
  {
    hide CrashedRecovery, RecoverWrites, Logged, Clean, Apply;
    if Logged(r, d, before, tx) && done {
      LoggedRecovery(r, d, before, tx, j);
    } else {
      CleanRecovery(r, d, j);
    }
  }

  /** Any number of recoveries, each cut after some of its writes. */
  ghost function CrashedRecoveries(r: Region, d: Disk, cuts: seq<nat>): (e: Disk)
    ensures |e| == |d|
    decreases |cuts|
  {
    if cuts == [] || !Recoverable(r, d) then d
    else CrashedRecoveries(r, CrashedRecovery(r, d, cuts[0]), cuts[1..])
  }

  lemma {:induction false} RecoveriesKeepDecision(r: Region, d: Disk, before: Disk, tx: seq<Write>, done: bool,
                                                  cuts: seq<nat>)
    requires Decided(r, d, before, tx, done)
    ensures Decided(r, CrashedRecoveries(r, d, cuts), before, tx, done)
    decreases |cuts|
  {
    if cuts != [] {
      DecidedRecoverable(r, d, before, tx, done);
      RecoveryKeepsDecision(r, d, before, tx, done, cuts[0]);
      RecoveriesKeepDecision(r, CrashedRecovery(r, d, cuts[0]), before, tx, done, cuts[1..]);
    }
  }

  /** A complete recovery. */
  ghost function Recovered(r: Region, d: Disk): (e: Disk)
    requires Recoverable(r, d)
    ensures |e| == |d|
  {
    Apply(d, RecoverWrites(r, d))
  }

  /** The disk after a commit cut at `k`, recoveries cut at `cuts`, and one
      recovery that runs to its end. */
  ghost function AfterCrash(r: Region, d: Disk, tx: seq<Write>, k: nat, cuts: seq<nat>): (e: Disk)
    requires Clean(r, d) && ValidTx(r, d, tx) && k <= 2 * |tx| + 2
    ensures |e| == |d|
  {
    CommitDecided(r, d, tx, k);
    RecoveriesKeepDecision(r, CrashedCommit(r, d, tx, k), d, tx, k > |tx|, cuts);
    DecidedRecoverable(r, CrashedRecoveries(r, CrashedCommit(r, d, tx, k), cuts), d, tx, k > |tx|);
    Recovered(r, CrashedRecoveries(r, CrashedCommit(r, d, tx, k), cuts))
  }

  /** Crash atomicity: the home blocks are all old when the crash came before
      the header write, and all new when it came after. */
  lemma CrashAtomicity(r: Region, d: Disk, tx: seq<Write>, k: nat, cuts: seq<nat>)
    requires Clean(r, d) && ValidTx(r, d, tx) && k <= 2 * |tx| + 2
    ensures var e := AfterCrash(r, d, tx, k, cuts);
            Clean(r, e) && SameHome(r, e, if k > |tx| then Apply(d, tx) else d)
  {
    CommitDecided(r, d, tx, k);
    var e := CrashedRecoveries(r, CrashedCommit(r, d, tx, k), cuts);
    RecoveriesKeepDecision(r, CrashedCommit(r, d, tx, k), d, tx, k > |tx|, cuts);
    DecidedRecoverable(r, e, d, tx, k > |tx|);
    RecoveryKeepsDecision(r, e, d, tx, k > |tx|, |RecoverWrites(r, e)|);
  }

  // ---- Runs of transactions ----

  /** A commit that returned, or one cut by a crash, with the recoveries after it. */
  datatype Event = Returned(tx: seq<Write>) | Crashed(tx: seq<Write>, k: nat, cuts: seq<nat>)

  ghost predicate ValidEvent(r: Region, d: Disk, e: Event)
  {
    ValidTx(r, d, e.tx) && (e.Crashed? ==> e.k <= 2 * |e.tx| + 2)
  }

  ghost function After(r: Region, d: Disk, e: Event): (f: Disk)
    requires Clean(r, d) && ValidEvent(r, d, e)
    ensures |f| == |d|
  {
    match e
    case Returned(tx) => CrashedCommit(r, d, tx, 2 * |tx| + 2)
    case Crashed(tx, k, cuts) => AfterCrash(r, d, tx, k, cuts)
  }

  /** Did the event's transaction take effect? Every returned one did. */
  predicate Durable(e: Event)
  {
    e.Returned? || e.k > |e.tx|
  }

  lemma AfterEvent(r: Region, d: Disk, e: Event)
    requires Clean(r, d) && ValidEvent(r, d, e)
    ensures Clean(r, After(r, d, e))
    ensures SameHome(r, After(r, d, e), if Durable(e) then Apply(d, e.tx) else d)
  {
    match e
    case Returned(tx) => CommitCompletes(r, d, tx);
    case Crashed(tx, k, cuts) => CrashAtomicity(r, d, tx, k, cuts);
  }

  datatype Run = Start | Then(earlier: Run, event: Event)

  ghost predicate ValidRun(r: Region, d: Disk, run: Run)
    decreases run, 0
  {
    match run
    case Start => Clean(r, d)
    case Then(earlier, e) =>
      && ValidRun(r, d, earlier)
      && Clean(r, Final(r, d, earlier))
      && ValidEvent(r, Final(r, d, earlier), e)
  }

  /** The disk at the end of a run. */
  ghost function Final(r: Region, d: Disk, run: Run): (f: Disk)
    requires ValidRun(r, d, run)
    ensures |f| == |d|
    decreases run, 1
  {
    match run
    case Start => d
    case Then(earlier, e) => After(r, Final(r, d, earlier), e)
  }

  /** The home blocks that a run must show: the durable transactions, whole and
      in order, over the initial ones. */
  ghost function Expected(r: Region, d: Disk, run: Run): (f: Disk)
    requires ValidRun(r, d, run)
    ensures |f| == |d|
  {
    match run
    case Start => d
    case Then(earlier, e) =>
      if Durable(e) then Apply(Expected(r, d, earlier), e.tx) else Expected(r, d, earlier)
  }

  /** Over a whole run with any number of crashes, the disk shows exactly the
      durable transactions, whole and in commit order, and the log is empty. */
  lemma {:induction false} RunShowsDurable(r: Region, d: Disk, run: Run)
    requires ValidRun(r, d, run)
    ensures Clean(r, Final(r, d, run))
    ensures SameHome(r, Final(r, d, run), Expected(r, d, run))
  {
    if run.Then? {
      RunShowsDurable(r, d, run.earlier);
      AfterEvent(r, Final(r, d, run.earlier), run.event);
      ApplySameHome(r, Final(r, d, run.earlier), Expected(r, d, run.earlier), run.event.tx);
    }
  }

  lemma {:induction false} ApplySameHome(r: Region, d: Disk, e: Disk, ws: seq<Write>)
    requires SameHome(r, d, e) && InRange(d, ws)
    ensures SameHome(r, Apply(d, ws), Apply(e, ws))
  {
    if ws != [] {
      ApplySameHome(r, d, e, ws[..|ws| - 1]);
    }
  }
}
