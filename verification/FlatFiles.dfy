/**
 What the file system stands for: a sequence of bytes for each file.
 */
module FlatFiles {
  import opened Blocks
  import opened FsState
  import opened FsSteps
  import opened FsSpace
  import opened FsLogged

  /** `src` written over a file from `off` on. */
  function Overwritten(file: seq<Byte>, off: nat, src: seq<Byte>): (r: seq<Byte>)
    requires off <= |file|
  {
    file[..off] + src + if off + |src| < |file| then file[off + |src|..] else []
  }

  function Files(s: Fs): (fs: seq<seq<Byte>>)
    requires forall i :: 0 <= i < |s.mem| ==> s.mem[i].size <= MAXFILE * BSIZE
    ensures |fs| == |s.mem|
  {
    seq(|s.mem|, i requires 0 <= i < |s.mem| => Contents(s, i))
  }

  ghost predicate GoodSized(s: Fs)
  {
    forall j :: 0 <= j < |s.mem| ==> s.mem[j].size <= MAXFILE * BSIZE
  }

  /** All sizes are possible. */
  lemma GoodSizes(l: Layout, s: Fs)
    requires Good(l, s)
    ensures forall i :: 0 <= i < |s.mem| ==> s.mem[i].size <= MAXFILE * BSIZE
  {
    hide Inv, Addr, Synced;
    forall i: nat | i < |s.mem|
      ensures s.mem[i].size <= MAXFILE * BSIZE
    {
      GoodFile(l, s, i);
    }
  }

  /** A write changes the one file as it should and no other file. */
  lemma WroteFiles(s: Fs, t: Fs, i: nat, off: nat, src: seq<Byte>)
    requires |s.mem| == |t.mem| && i < |s.mem| && Wrote(s, t, i, off, src) && off <= s.mem[i].size
    requires forall j :: 0 <= j < |s.mem| ==> s.mem[j].size <= MAXFILE * BSIZE && t.mem[j].size <= MAXFILE * BSIZE
    requires forall j :: 0 <= j < |s.mem| && j != i ==> t.mem[j].size == s.mem[j].size
    requires t.mem[i].size == if off + |src| > s.mem[i].size then off + |src| else s.mem[i].size
    ensures Files(t) == Files(s)[i := Overwritten(Files(s)[i], off, src)]
  {
    hide ByteAt, Overwritten, Wrote, Contents;
    forall j: nat | j < |s.mem|
      ensures Contents(t, j) == if j == i then Overwritten(Contents(s, i), off, src) else Contents(s, j)
    {
      WroteFile(s, t, i, off, src, j);
    }
  }

  lemma WroteFile(s: Fs, t: Fs, i: nat, off: nat, src: seq<Byte>, j: nat)
    requires |s.mem| == |t.mem| && i < |s.mem| && Wrote(s, t, i, off, src) && off <= s.mem[i].size && j < |s.mem|
    requires s.mem[j].size <= MAXFILE * BSIZE && t.mem[j].size <= MAXFILE * BSIZE && s.mem[i].size <= MAXFILE * BSIZE
    requires t.mem[j].size == if j == i && off + |src| > s.mem[i].size then off + |src| else s.mem[j].size
    ensures Contents(t, j) == if j == i then Overwritten(Contents(s, i), off, src) else Contents(s, j)
  {
    hide ByteAt;
    forall o: nat | o < t.mem[j].size
      ensures Contents(t, j)[o] == (if j == i then Overwritten(Contents(s, i), off, src) else Contents(s, j))[o]
    {
      assert ByteIs(s, t, i, off, src, j, o);
    }
  }

  lemma SameFiles(s: Fs, t: Fs)
    requires GoodSized(s) && |t.mem| == |s.mem| && forall j :: 0 <= j < |s.mem| ==> t.mem[j].size == s.mem[j].size
    requires forall j: nat, o: nat :: j < |s.mem| && o < MAXFILE * BSIZE ==> ByteAt(t, j, o) == ByteAt(s, j, o)
    ensures Files(t) == Files(s)
  {
    hide ByteAt;
    forall j: nat | j < |s.mem|
      ensures Contents(t, j) == Contents(s, j)
    {
    }
  }

  /** Emptying a file leaves the others alone. */
  lemma EmptiedFiles(s: Fs, t: Fs, i: nat)
    requires |s.mem| == |t.mem| && i < |s.mem| && t.mem[i].size == 0
    requires forall j :: 0 <= j < |s.mem| ==> s.mem[j].size <= MAXFILE * BSIZE && t.mem[j].size <= MAXFILE * BSIZE
    requires forall j :: 0 <= j < |s.mem| && j != i ==> t.mem[j].size == s.mem[j].size
    requires forall j: nat, o: nat ::
      j < |s.mem| && j != i && o < MAXFILE * BSIZE ==> ByteAt(t, j, o) == ByteAt(s, j, o)
    ensures Files(t) == Files(s)[i := []]
  {
    hide ByteAt;
    forall j: nat | j < |s.mem|
      ensures Contents(t, j) == if j == i then [] else Contents(s, j)
    {
      forall o: nat | o < t.mem[j].size
        ensures Contents(t, j)[o] == Contents(s, j)[o]
      {
        assert ByteAt(t, j, o) == ByteAt(s, j, o);
      }
    }
  }

  /** A sequence of writes on the flat files. */
  datatype Write = Write(inum: nat, off: nat, src: seq<Byte>)

  /** `writei` takes the write: the file is not a device, and the write starts in
      the file or at its end and does not exceed the largest file. */
  predicate Accepts(fs: seq<seq<Byte>>, devices: set<nat>, w: Write)
  {
    w.inum < |fs| && w.inum !in devices && w.off <= |fs[w.inum]| && w.off + |w.src| <= MAXFILE * BSIZE
  }

  function Apply(fs: seq<seq<Byte>>, devices: set<nat>, w: Write): (r: seq<seq<Byte>>)
    ensures |r| == |fs|
  {
    if Accepts(fs, devices, w) then fs[w.inum := Overwritten(fs[w.inum], w.off, w.src)] else fs
  }

  function ApplyTo(fs: seq<seq<Byte>>, devices: set<nat>, ws: seq<Write>, k: nat): (r: seq<seq<Byte>>)
    requires k <= |ws|
    ensures |r| == |fs|
  {
    if k == 0 then fs else Apply(ApplyTo(fs, devices, ws, k - 1), devices, ws[k - 1])
  }

  /** The slots that the first `k` writes need, of those that `writei` takes. */
  ghost function WantedTo(fs: seq<seq<Byte>>, devices: set<nat>, ws: seq<Write>, k: nat): (slots: set<(nat, nat)>)
    requires k <= |ws|
  {
    if k == 0 then {}
    else
      var w := ws[k - 1];
      WantedTo(fs, devices, ws, k - 1) +
      if Accepts(ApplyTo(fs, devices, ws, k - 1), devices, w) then Wanted(w.inum, w.off, |w.src|) else {}
  }

  lemma {:induction false} WantedGrows(fs: seq<seq<Byte>>, devices: set<nat>, ws: seq<Write>, k: nat, n: nat)
    requires k <= n <= |ws|
    ensures WantedTo(fs, devices, ws, k) <= WantedTo(fs, devices, ws, n)
    decreases n
  {
    hide Wanted, Accepts;
    if k < n {
      WantedGrows(fs, devices, ws, k, n - 1);
    }
  }

  /** What was written is what is there, and what was there before, elsewhere. */
  lemma OverwrittenAt(file: seq<Byte>, off: nat, src: seq<Byte>, o: nat)
    requires off <= |file| && o < |Overwritten(file, off, src)|
    ensures Overwritten(file, off, src)[o] == if off <= o < off + |src| then src[o - off] else file[o]
    ensures |Overwritten(file, off, src)| == if off + |src| > |file| then off + |src| else |file|
  {
  }

  /** Two writes, the second where the first ends. */
  lemma OverwrittenThen(file: seq<Byte>, off: nat, src: seq<Byte>, more: seq<Byte>)
    requires off <= |file|
    ensures off + |src| <= |Overwritten(file, off, src)|
    ensures Overwritten(Overwritten(file, off, src), off + |src|, more) == Overwritten(file, off, src + more)
  {
    var once := Overwritten(file, off, src);
    var twice, both := Overwritten(once, off + |src|, more), Overwritten(file, off, src + more);
    assert |twice| == |both|;
    forall o: nat | o < |both|
      ensures twice[o] == both[o]
    {
      OverwrittenAt(once, off + |src|, more, o);
      OverwrittenAt(file, off, src + more, o);
      if o < |once| {
        OverwrittenAt(file, off, src, o);
      }
    }
  }

  // ---- Transactions ----

  /** What an operation does to the files: it writes to one, or empties one. */
  datatype Change = Put(w: Write) | Cut(inum: nat)

  function Changed(fs: seq<seq<Byte>>, c: Change): (r: seq<seq<Byte>>)
    ensures |r| == |fs|
  {
    match c
    case Put(w) => Apply(fs, {}, w)
    case Cut(i) => if i < |fs| then fs[i := []] else fs
  }

  function ChangedBy(fs: seq<seq<Byte>>, cs: seq<Change>): (r: seq<seq<Byte>>)
    ensures |r| == |fs|
  {
    if cs == [] then fs else Changed(ChangedBy(fs, cs[..|cs| - 1]), cs[|cs| - 1])
  }

  /** A transaction that makes the changes `cs` and puts the blocks `logged` into
      the log. */
  ghost predicate Transacts(l: Layout, s: Fs, t: Fs, cs: seq<Change>, logged: set<nat>)
  {
    && Good(l, s) && Good(l, t) && GoodSized(s) && GoodSized(t)
    && Files(t) == ChangedBy(Files(s), cs) && LogStep(l, s.disk, {}, t.disk, logged)
  }

  lemma OneChange(l: Layout, s: Fs, t: Fs, c: Change, logged: set<nat>)
    requires Good(l, s) && Good(l, t) && GoodSized(s) && GoodSized(t) && LogStep(l, s.disk, {}, t.disk, logged)
    requires Files(t) == Changed(Files(s), c)
    ensures Transacts(l, s, t, [c], logged)
  {
    hide Good, Files, Changed, LogStep;
    assert [c][..0] == [] && ChangedBy(Files(s), []) == Files(s);
    assert ChangedBy(Files(s), [c]) == Changed(ChangedBy(Files(s), [c][..0]), c);
  }

  /** Operations that share a transaction. */
  lemma TransactsThen(l: Layout, s: Fs, t: Fs, u: Fs, cs: seq<Change>, ds: seq<Change>, a: set<nat>, b: set<nat>)
    requires Transacts(l, s, t, cs, a) && Transacts(l, t, u, ds, b)
    ensures Transacts(l, s, u, cs + ds, a + b)
  {
    hide Good, Files;
    ChangedConcat(Files(s), cs, ds);
    assert forall x :: x in (a + b) - {} ==> x in a - {} || x in b - {};
  }

  lemma {:induction false} ChangedConcat(fs: seq<seq<Byte>>, cs: seq<Change>, ds: seq<Change>)
    ensures ChangedBy(fs, cs + ds) == ChangedBy(ChangedBy(fs, cs), ds)
  {
    hide Changed;
    if ds == [] {
      assert cs + ds == cs;
    } else {
      var n := |ds| - 1;
      ChangedConcat(fs, cs, ds[..n]);
      assert (cs + ds)[..|cs| + n] == cs + ds[..n];
    }
  }
}
