/** write(2) on a file: chunks that each fit one log transaction. (projects/07-xv6plus/kernel/file.c) */
module OpenFile {
  import opened LogImage
  import opened FileBlocks
  import opened FileSystem

  // A chunk has at most ((MAXOPBLOCKS - 1 - 1 - 2) / 2) blocks of 1024 bytes.
  const CHUNK := 3072

  class File {
    const fs: FileSys
    const i: nat
    var off: nat

    constructor (fs: FileSys, i: nat)
      ensures this.fs == fs && this.i == i && off == 0
    {
      this.fs, this.i, off := fs, i, 0;
    }

    /** One chunk, as one operation: it gives log_write fewer than MAXOPBLOCKS different blocks, so none of
        its calls can find the log full (LogSpace.SafeBelowTheBound). */
    method WriteChunk(src: seq<Byte>) returns (r: int, ghost blocks: set<nat>)
      requires fs.Valid() && i < |fs.inodes| && |src| <= CHUNK
      modifies this`off, fs
      ensures fs.Valid() && |fs.inodes| == |old(fs.inodes)| && |blocks| < MAXOPBLOCKS
      ensures r == -1 <==> old(off) > old(fs.inodes)[i].size || old(off) + |src| > MAXFILE * 1024
      ensures r == -1 ==> fs.Now() == old(fs.Now()) && off == old(off)
      ensures 0 <= r < |src| ==> fs.Full()
      ensures r != -1 ==> 0 <= r <= |src| && old(off) <= old(fs.inodes)[i].size && off == old(off) + r
      ensures r != -1 ==> Bytes(fs.Now(), i) == Overwritten(Bytes(old(fs.Now()), i), old(off), src[..r])
      ensures forall j :: 0 <= j < |fs.inodes| && j != i ==> Bytes(fs.Now(), j) == Bytes(old(fs.Now()), j)
    {
      ghost var lg := fs.logged;
      fs.BeginOp();
      ghost var hi;
      r, hi := fs.Writei(i, src, off);
      blocks := fs.logged;
      if r == -1 {
        return;
      }
      FewBlocks(off, |src|, r, hi);
      ghost var foot := fs.Footprint(i, off / 1024, hi);
      forall b | b in blocks ensures b in foot {
        assert fs.MayBeLogged({}, i, off / 1024, hi, 0, b);
      }
      fs.FootprintCount(i, off / 1024, hi);
      Fewer(blocks, foot);
      off := off + r;
    }

    lemma FewBlocks(start: nat, size: nat, tot: nat, hi: nat)
      requires size <= CHUNK && fs.Reached(start, size, tot, start + tot, hi)
      ensures start / 1024 <= hi <= start / 1024 + 4
    {
    }

    lemma Fewer(a: set<nat>, b: set<nat>)
      requires a <= b
      ensures |a| <= |b|
    {
      assert b == a + (b - a);
    }

    /** The first `done` bytes of `src` have been written to the file at `start`; other files are as in `s`. */
    ghost predicate Going(s: Fs, start: nat, src: seq<Byte>, done: nat)
      reads this, fs
    {
      WrittenSoFar(s, start, src, done)
    }

    /** What `Going` says; the loop carries it along as one fact. */
    ghost predicate WrittenSoFar(s: Fs, start: nat, src: seq<Byte>, done: nat)
      reads this, fs
    {
      && fs.Valid() && Shaped(s) && |fs.inodes| == |s.inodes| && i < |s.inodes| && off == start + done
      && Written(Bytes(s, i), Bytes(fs.Now(), i), start, src, done)
      && forall j :: 0 <= j < |fs.inodes| && j != i ==> Bytes(fs.Now(), j) == Bytes(s, j)
    }

    /** Why not all could be written: the disk is full, the offset is past the end, or the file would be too large. */
    ghost predicate Stuck(s: Fs, start: nat, src: seq<Byte>)
      reads fs
    {
      fs.Full() || (i < |s.inodes| && start > s.inodes[i].size) || start + |src| > MAXFILE * 1024
    }

    ghost predicate MayStop(s: Fs, start: nat, src: seq<Byte>, stops: bool)
      reads fs
    {
      stops ==> Stuck(s, start, src)
    }

    /** One turn of filewrite's loop. */
    method WriteNext(ghost s: Fs, ghost start: nat, src: seq<Byte>, done: nat) returns (r: int, whole: bool, ghost blocks: set<nat>)
      requires done < |src| && Going(s, start, src, done)
      modifies this`off, fs
      ensures |blocks| < MAXOPBLOCKS && -1 <= r && done + r <= |src| && (whole ==> r > 0) && (done + r == |src| ==> whole)
      ensures Going(s, start, src, if r > 0 then done + r else done)
      ensures MayStop(s, start, src, !whole)
    {
      var n1 := if |src| - done > CHUNK then CHUNK else |src| - done;
      ghost var mid := Bytes(fs.Now(), i);
      r, blocks := WriteChunk(src[done..done + n1]);
      if r >= 0 { MoreWritten(Bytes(s, i), mid, Bytes(fs.Now(), i), start, src, done, n1, r); }
      whole := r == n1;
    }

    /** Where filewrite's loop stands. */
    ghost predicate Underway(s: Fs, start: nat, src: seq<Byte>, done: nat, chunks: seq<set<nat>>)
      reads this, fs
    {
      done <= |src| && Going(s, start, src, done) && FewEach(chunks)
    }

    /** filewrite on an inode: `src` goes into the file at the offset, which moves on by what was written;
        the result is the length of `src` if all of it was, and -1 otherwise, which happens only when the disk
        is full, the offset past the end, or the file would get too large. Each chunk gives log_write
        fewer than MAXOPBLOCKS different blocks. */
    method Write(src: seq<Byte>) returns (ret: int, ghost chunks: seq<set<nat>>)
      requires fs.Valid() && i < |fs.inodes|
      modifies this`off, fs
      ensures old(off) <= off <= old(off) + |src| && Going(old(fs.Now()), old(off), src, off - old(off))
      ensures ret == if off == old(off) + |src| then |src| else -1
      ensures ret == -1 ==> Stuck(old(fs.Now()), old(off), src)
      ensures FewEach(chunks)
    {
      ghost var s, start := fs.Now(), off;
      Begins(src);
      var done;
      done, chunks := WriteLoop(s, start, src);
      ret := if done == |src| then |src| else -1;
    }

    lemma Begins(src: seq<Byte>)
      requires fs.Valid() && i < |fs.inodes|
      ensures Underway(fs.Now(), off, src, 0, [])
    {
    }

    /** filewrite's loop: how much has been written. */
    method WriteLoop(ghost s: Fs, ghost start: nat, src: seq<Byte>) returns (done: nat, ghost chunks: seq<set<nat>>)
      requires Underway(s, start, src, 0, [])
      modifies this`off, fs
      ensures Underway(s, start, src, done, chunks) && MayStop(s, start, src, done < |src|)
    {
      done, chunks := 0, [];
      var whole := true;
      while whole && done < |src|
        invariant Underway(s, start, src, done, chunks) && MayStop(s, start, src, !whole)
        decreases |src| - done, whole
      {
        var n;
        whole, n, chunks := WriteStep(s, start, src, done, chunks);
        done := done + n;
      }
    }

    method WriteStep(ghost s: Fs, ghost start: nat, src: seq<Byte>, done: nat, ghost chunks: seq<set<nat>>) returns (whole: bool, n: nat, ghost more: seq<set<nat>>)
      requires done < |src| && Underway(s, start, src, done, chunks)
      modifies this`off, fs
      ensures done + n <= |src| && (whole ==> n > 0) && (done + n == |src| ==> whole)
      ensures Underway(s, start, src, done + n, more) && MayStop(s, start, src, !whole)
    {
      var r;
      ghost var blocks;
      r, whole, blocks := WriteNext(s, start, src, done);
      n := if r > 0 then r else 0;
      more := chunks + [blocks];
    }
  }

  predicate FewEach(chunks: seq<set<nat>>) {
    forall c :: 0 <= c < |chunks| ==> |chunks[c]| < MAXOPBLOCKS
  }

  /** The first `done` bytes of `src` have been written over the file at `off`. */
  predicate Written(before: seq<Byte>, now: seq<Byte>, off: nat, src: seq<Byte>, done: nat) {
    && done <= |src|
    && if done == 0 then now == before else off <= |before| && now == Overwritten(before, off, src[..done])
  }

  lemma MoreWritten(before: seq<Byte>, mid: seq<Byte>, now: seq<Byte>, off: nat, src: seq<Byte>, done: nat, n1: nat, r: nat)
    requires Written(before, mid, off, src, done) && done + n1 <= |src| && r <= n1
    requires off + done <= |mid| && now == Overwritten(mid, off + done, src[done..done + n1][..r])
    ensures Written(before, now, off, src, done + r)
  {
    var piece := src[done..done + n1][..r];
    assert src[..done] + piece == src[..done + r];
    if done > 0 { WriteAfterWrite(before, off, src[..done], piece); }
    if r == 0 { assert now == mid; }
  }
}
