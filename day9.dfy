/** Day 9: a disk map of digits is expanded into blocks, which are then
    compacted twice: block by block (first star) and whole file by whole
    file (second star). The answer of each is the filesystem checksum. */
module Day9 {

  /** A block, as the `u16` the solution stores. */
  type u16 = x: int | 0 <= x < 0x1_0000

  /** A free block (`u16::MAX`). */
  const FREE: u16 := 0xFFFF

  /** File ids are counted in a `u16`, incremented after every file. */
  const MAX_FILES: nat := 0xFFFF

  /** The disk map describes at most MAX_FILES files (digits 0, 2, 4, ...),
      so the id counter does not overflow and no file id collides with FREE. */
  predicate IdsFit(sizes: seq<nat>)
  {
    |sizes| <= 2 * MAX_FILES
  }

  /** The block value the k-th digit of the disk map describes: file k / 2
      for an even k, free space for an odd one. */
  function RunValue(k: nat): (v: u16)
    requires k < 2 * MAX_FILES
  {
    if k % 2 == 0 then k / 2 else FREE
  }

  lemma RunValuePair(id: nat)
    requires id < MAX_FILES
    ensures RunValue(2 * id) == id && RunValue(2 * id + 1) == FREE
  {
  }

  /** The disk position at which the n-th digit's run starts: the sum of
      the first n digits. */
  function Offset(sizes: seq<nat>, n: nat): nat
    requires n <= |sizes|
  {
    if n == 0 then 0 else Offset(sizes, n - 1) + sizes[n - 1]
  }

  lemma {:induction false} OffsetMonotone(sizes: seq<nat>, m: nat, n: nat)
    requires m <= n <= |sizes|
    ensures Offset(sizes, m) <= Offset(sizes, n)
    decreases n
  {
    if m < n {
      OffsetMonotone(sizes, m, n - 1);
    }
  }

  function Repeat(v: u16, n: nat): (r: seq<u16>)
    ensures |r| == n && forall i :: 0 <= i < n ==> r[i] == v
  {
    seq(n, _ => v)
  }

  /** The blocks described by the first n digits of the disk map. */
  ghost function Layout(sizes: seq<nat>, n: nat): (r: seq<u16>)
    requires n <= |sizes| && IdsFit(sizes)
    ensures |r| == Offset(sizes, n)
  {
    if n == 0 then [] else Layout(sizes, n - 1) + Repeat(RunValue(n - 1), sizes[n - 1])
  }

  /** A shorter disk map describes a prefix of the blocks. */
  lemma {:induction false} LayoutPrefix(sizes: seq<nat>, m: nat, n: nat)
    requires m <= n <= |sizes| && IdsFit(sizes)
    ensures Offset(sizes, m) <= Offset(sizes, n)
    ensures Layout(sizes, m) == Layout(sizes, n)[..Offset(sizes, m)]
    decreases n
  {
    if m < n {
      LayoutPrefix(sizes, m, n - 1);
    }
  }

  /** The k-th digit of the disk map fills sizes[k] consecutive blocks from
      Offset(sizes, k) on: with file k / 2 when k is even, free otherwise. */
  lemma LayoutAt(sizes: seq<nat>, k: nat, t: nat)
    requires IdsFit(sizes) && k < |sizes| && t < sizes[k]
    ensures Offset(sizes, k) + t < |Layout(sizes, |sizes|)|
    ensures Layout(sizes, |sizes|)[Offset(sizes, k) + t] == RunValue(k)
  {
    LayoutPrefix(sizes, k + 1, |sizes|);
    assert Layout(sizes, k + 1)[Offset(sizes, k) + t] == RunValue(k);
  }

  /** The expansion loop: every file's blocks are written with its id; the
      free runs keep the initial `u16::MAX`. */
  method ExpandDisk(sizes: seq<nat>) returns (data: array<u16>)
    requires IdsFit(sizes)
    ensures fresh(data) && data[..] == Layout(sizes, |sizes|)
  {
    var dataLen := Offset(sizes, |sizes|);
    data := new u16[dataLen](_ => FREE);
    var ptr := 0;
    var id: u16 := 0;
    var inputIdx := 0;
    while inputIdx < |sizes|
      invariant inputIdx <= |sizes|
      invariant inputIdx == 2 * id as int || inputIdx == |sizes| == 2 * id as int - 1
      invariant ptr == Offset(sizes, inputIdx) <= data.Length
      invariant data[..ptr] == Layout(sizes, inputIdx)
      invariant forall i :: ptr <= i < data.Length ==> data[i] == FREE
    {
      RunValuePair(id as nat);
      OffsetMonotone(sizes, inputIdx + 1, |sizes|);
      WriteFile(data, ptr, sizes[inputIdx], id);
      assert data[..ptr + sizes[inputIdx]] == Layout(sizes, inputIdx + 1);
      assert Offset(sizes, inputIdx + 1) == ptr + sizes[inputIdx];
      ptr := ptr + sizes[inputIdx];
      id := id + 1;
      inputIdx := inputIdx + 1;
      if inputIdx < |sizes| {
        OffsetMonotone(sizes, inputIdx + 1, |sizes|);
        SkipGap(data, ptr, sizes[inputIdx]);
        assert data[..ptr + sizes[inputIdx]] == Layout(sizes, inputIdx + 1);
        assert Offset(sizes, inputIdx + 1) == ptr + sizes[inputIdx];
        ptr := ptr + sizes[inputIdx];
        inputIdx := inputIdx + 1;
      }
    }
  }

  /** The inner `for` loop: n blocks of file id from ptr on. */
  method WriteFile(data: array<u16>, ptr: nat, n: nat, id: u16)
    requires ptr + n <= data.Length
    requires forall i :: ptr <= i < data.Length ==> data[i] == FREE
    modifies data
    ensures data[..ptr + n] == old(data[..ptr]) + Repeat(id, n)
    ensures forall i :: ptr + n <= i < data.Length ==> data[i] == FREE
  {
    for dataIdx := ptr to ptr + n
      invariant data[..dataIdx] == old(data[..ptr]) + Repeat(id, dataIdx - ptr)
      invariant forall i :: dataIdx <= i < data.Length ==> data[i] == FREE
    {
      data[dataIdx] := id;
      assert Repeat(id, dataIdx + 1 - ptr) == Repeat(id, dataIdx - ptr) + [id];
      assert data[..dataIdx + 1] == data[..dataIdx] + [id];
    }
  }

  /** A gap is skipped: its blocks already read free. */
  lemma SkipGap(data: array<u16>, ptr: nat, n: nat)
    requires ptr + n <= data.Length
    requires forall i :: ptr <= i < data.Length ==> data[i] == FREE
    ensures data[..ptr + n] == data[..ptr] + Repeat(FREE, n)
  {
    assert data[ptr..ptr + n] == Repeat(FREE, n);
    assert data[..ptr + n] == data[..ptr] + data[ptr..ptr + n];
  }

  /** The contribution of one block to the checksum. */
  function CellTerm(i: nat, v: u16): nat
  {
    if v == FREE then 0 else i * v
  }

  /** The filesystem checksum: the sum of position times id over the file
      blocks. */
  function Checksum(s: seq<u16>): nat
  {
    if |s| == 0 then 0 else Checksum(s[..|s| - 1]) + CellTerm(|s| - 1, s[|s| - 1])
  }

  /** Changing one block changes the checksum by exactly that block's term. */
  lemma {:induction false} ChecksumUpdate(s: seq<u16>, i: nat, v: u16)
    requires i < |s|
    ensures Checksum(s[i := v]) + CellTerm(i, s[i]) == Checksum(s) + CellTerm(i, v)
  {
    var t := s[i := v];
    if i < |s| - 1 {
      assert t[..|t| - 1] == s[..|s| - 1][i := v];
      ChecksumUpdate(s[..|s| - 1], i, v);
    } else {
      assert t[..|t| - 1] == s[..|s| - 1];
    }
  }

  /** Moving a file block from j down to a free block i lowers the checksum
      by (j - i) times its id: compaction never raises the checksum. */
  lemma ChecksumMoveLeft(s: seq<u16>, i: nat, j: nat)
    requires i < j < |s| && s[i] == FREE && s[j] != FREE
    ensures Checksum(s[i := s[j]][j := FREE]) + (j - i) * s[j] == Checksum(s)
  {
    ChecksumUpdate(s, i, s[j]);
    ChecksumUpdate(s[i := s[j]], j, FREE);
    assert (j - i) * s[j] == j * s[j] - i * s[j];
  }

  predicate HasFree(s: seq<u16>)
  {
    exists i :: 0 <= i < |s| && s[i] == FREE
  }

  predicate HasFile(s: seq<u16>)
  {
    exists i :: 0 <= i < |s| && s[i] != FREE
  }

  /** No free block precedes a file block. */
  ghost predicate Compacted(s: seq<u16>)
  {
    forall i, j :: 0 <= i < j < |s| && s[i] == FREE ==> s[j] == FREE
  }

  /** Block i was free in a and holds a file block in b. */
  ghost predicate Filled(a: seq<u16>, b: seq<u16>, i: int)
    requires |a| == |b|
  {
    0 <= i < |a| && a[i] == FREE && b[i] != FREE
  }

  /** Block i held a file block in a and is free in b. */
  ghost predicate Emptied(a: seq<u16>, b: seq<u16>, i: int)
    requires |a| == |b|
  {
    0 <= i < |a| && a[i] != FREE && b[i] == FREE
  }

  /** b arises from a by moving file blocks from higher positions into free
      positions below them: no file block is overwritten, and every filled
      position lies below every emptied one. */
  ghost predicate MovedLeft(a: seq<u16>, b: seq<u16>)
  {
    |a| == |b|
    && (forall i :: 0 <= i < |a| && a[i] != FREE && b[i] != FREE ==> b[i] == a[i])
    && forall i, j :: Filled(a, b, i) && Emptied(a, b, j) ==> i < j
  }

  /** Block-by-block compaction, peeled from both ends: a free block at the
      end stays there, a file block at the front stays there, and otherwise
      the last block, a file block, fills the first, a free one. */
  function Compact(s: seq<u16>): (r: seq<u16>)
    ensures |r| == |s|
    decreases |s|
  {
    if |s| == 0 then []
    else if s[|s| - 1] == FREE then Compact(s[..|s| - 1]) + [FREE]
    else if s[0] != FREE then [s[0]] + Compact(s[1..])
    else [s[|s| - 1]] + Compact(s[1..|s| - 1]) + [FREE]
  }

  /** A file block at the front stays at the front, whatever the end holds. */
  lemma {:induction false} CompactFileFirst(s: seq<u16>)
    requires |s| > 0 && s[0] != FREE
    ensures Compact(s) == [s[0]] + Compact(s[1..])
    decreases |s|
  {
    if s[|s| - 1] == FREE {
      var t := s[..|s| - 1];
      CompactFileFirst(t);
      assert t[1..] == s[1..][..|s| - 2];
      assert s[1..][|s| - 2] == FREE;
    }
  }

  /** Compaction only relocates blocks. */
  lemma {:induction false} CompactPermutes(s: seq<u16>)
    ensures multiset(Compact(s)) == multiset(s)
    decreases |s|
  {
    if |s| == 0 {
    } else if s[|s| - 1] == FREE {
      var t := s[..|s| - 1];
      CompactPermutes(t);
      assert Compact(s) == Compact(t) + [FREE];
      assert s == t + [FREE];
    } else if s[0] != FREE {
      var t := s[1..];
      CompactPermutes(t);
      assert Compact(s) == [s[0]] + Compact(t);
      assert s == [s[0]] + t;
    } else {
      var m := s[1..|s| - 1];
      CompactPermutes(m);
      assert Compact(s) == [s[|s| - 1]] + Compact(m) + [FREE];
      assert s == [FREE] + m + [s[|s| - 1]];
    }
  }

  /** Compaction leaves no free block before a file block. */
  lemma {:induction false} CompactCompacted(s: seq<u16>)
    ensures Compacted(Compact(s))
    decreases |s|
  {
    if |s| == 0 {
    } else if s[|s| - 1] == FREE {
      CompactCompacted(s[..|s| - 1]);
      AppendFreeCompacted(Compact(s[..|s| - 1]));
    } else if s[0] != FREE {
      CompactCompacted(s[1..]);
      PrependFileCompacted(s[0], Compact(s[1..]));
    } else {
      var c := Compact(s[1..|s| - 1]);
      CompactCompacted(s[1..|s| - 1]);
      PrependFileCompacted(s[|s| - 1], c);
      AppendFreeCompacted([s[|s| - 1]] + c);
    }
  }

  lemma AppendFreeCompacted(c: seq<u16>)
    requires Compacted(c)
    ensures Compacted(c + [FREE])
  {
    var d := c + [FREE];
    forall i, j | 0 <= i < j < |d| && d[i] == FREE
      ensures d[j] == FREE
    {
      if j < |c| {
        assert d[i] == c[i] && d[j] == c[j];
      }
    }
  }

  lemma PrependFileCompacted(f: u16, c: seq<u16>)
    requires f != FREE && Compacted(c)
    ensures Compacted([f] + c)
  {
    var d := [f] + c;
    forall i, j | 0 <= i < j < |d| && d[i] == FREE
      ensures d[j] == FREE
    {
      assert d[i] == c[i - 1] && d[j] == c[j - 1];
    }
  }

  /** From [0, F, F, 1, 2] the last two file blocks fill the two free
      ones, the last block first: the disk ends [0, 2, 1, F, F] with
      checksum 4. */
  lemma CompactExample()
    ensures Compact([0, FREE, FREE, 1, 2]) == [0, 2, 1, FREE, FREE]
    ensures Checksum(Compact([0, FREE, FREE, 1, 2])) == 4
  {
    var s: seq<u16> := [0, FREE, FREE, 1, 2];
    assert s[1..][..3] == [FREE, FREE, 1];
    assert Compact([FREE, 1]) == [1, FREE];
    assert Compact([FREE, FREE, 1]) == [1, FREE, FREE];
    CompactFileFirst(s);
    assert s[1..] == [FREE, FREE, 1, 2];
    assert [FREE, FREE, 1, 2][1..3] == [FREE, 1];
    assert Compact([FREE, FREE, 1, 2]) == [2, 1, FREE, FREE];
    var r: seq<u16> := [0, 2, 1, FREE, FREE];
    var r1, r2, r3, r4: seq<u16> := [0], [0, 2], [0, 2, 1], [0, 2, 1, FREE];
    assert r[..4] == r4;
    assert r4[..3] == r3;
    assert r3[..2] == r2;
    assert r2[..1] == r1;
    assert r1[..0] == [];
    assert Checksum(r1) == 0;
    assert Checksum(r2) == 2;
    assert Checksum(r3) == 4;
    assert Checksum(r4) == 4;
  }

  /** What is still to compact in `first_star`: the blocks below
      freeSpacePtr and above fileBlockPtr are final, and compacting the ones
      between gives the compaction of the original disk o. */
  ghost predicate Compacting(o: seq<u16>, s: seq<u16>, freeSpacePtr: nat, fileBlockPtr: nat)
  {
    freeSpacePtr <= fileBlockPtr + 1 <= |s|
    && Compact(o) == s[..freeSpacePtr] + Compact(s[freeSpacePtr..fileBlockPtr + 1]) + s[fileBlockPtr + 1..]
  }

  /** The free-space scan passes file blocks, which are final. */
  lemma {:induction false} PeelFiles(s: seq<u16>, i: nat, p: nat, j: nat)
    requires i <= p <= j + 1 <= |s|
    requires forall k :: i <= k < p ==> s[k] != FREE
    ensures s[..i] + Compact(s[i..j + 1]) + s[j + 1..] == s[..p] + Compact(s[p..j + 1]) + s[j + 1..]
    decreases p - i
  {
    if i < p {
      CompactFileFirst(s[i..j + 1]);
      assert s[i..j + 1][1..] == s[i + 1..j + 1];
      assert s[..i] + [s[i]] == s[..i + 1];
      PeelFiles(s, i + 1, p, j);
    }
  }

  /** The file-block scan passes free blocks, which are final. */
  lemma {:induction false} PeelFrees(s: seq<u16>, i: nat, q: nat, j: nat)
    requires i <= q + 1 <= j + 1 <= |s|
    requires forall k :: q < k <= j ==> s[k] == FREE
    ensures s[..i] + Compact(s[i..j + 1]) + s[j + 1..] == s[..i] + Compact(s[i..q + 1]) + s[q + 1..]
    decreases j - q
  {
    if q < j {
      assert s[i..j + 1][..j - i] == s[i..j];
      assert [FREE] + s[j + 1..] == s[j..];
      PeelFrees(s, i, q, j - 1);
    }
  }

  /** Moving the last file block into the first free block is one peeling
      step of Compact. */
  lemma SwapStep(a: seq<u16>, b: seq<u16>, i: nat, j: nat)
    requires i < j < |a| && a[i] == FREE && a[j] != FREE && b == a[i := a[j]][j := FREE]
    ensures a[..i] + Compact(a[i..j + 1]) + a[j + 1..] == b[..i] + Compact(b[i..j + 1]) + b[j + 1..]
  {
    var ma, mb := a[i..j + 1], b[i..j + 1];
    assert ma[0] == FREE && ma[|ma| - 1] != FREE;
    assert |ma| - 1 == j - i;
    var mid := ma[1..j - i];
    assert forall k :: 0 <= k < |mid| ==> mid[k] == a[i + 1 + k];
    assert mid == a[i + 1..j];
    assert Compact(ma) == [a[j]] + Compact(a[i + 1..j]) + [FREE];
    assert mb[|mb| - 1] == FREE && mb[..|mb| - 1] == b[i..j];
    assert Compact(mb) == Compact(b[i..j]) + [FREE];
    CompactFileFirst(b[i..j]);
    assert b[i..j][1..] == a[i + 1..j];
    assert b[..i] == a[..i] && b[j + 1..] == a[j + 1..];
  }

  /** The two scans of one round leave the state to compact as it was. */
  lemma ScanCompacting(o: seq<u16>, s: seq<u16>, fsp0: nat, fbp0: nat, p: nat, q: nat)
    requires Compacting(o, s, fsp0, fbp0)
    requires fsp0 <= p <= fbp0 + 1 && p <= q + 1 && q <= fbp0
    requires forall k :: fsp0 <= k < p ==> s[k] != FREE
    requires forall k :: q < k <= fbp0 ==> s[k] == FREE
    ensures Compacting(o, s, p, q)
  {
    PeelFiles(s, fsp0, p, fbp0);
    PeelFrees(s, p, q, fbp0);
  }

  /** A block move at the cursors keeps the state to compact. */
  lemma SwapCompacting(o: seq<u16>, a: seq<u16>, b: seq<u16>, i: nat, j: nat)
    requires Compacting(o, a, i, j)
    requires i < j < |a| && a[i] == FREE && a[j] != FREE && b == a[i := a[j]][j := FREE]
    ensures Compacting(o, b, i, j)
  {
    SwapStep(a, b, i, j);
  }

  /** Once nothing or one block is left between the cursors, the disk is
      the compaction of the original. */
  lemma CompactingDone(o: seq<u16>, s: seq<u16>, freeSpacePtr: nat, fileBlockPtr: nat)
    requires Compacting(o, s, freeSpacePtr, fileBlockPtr) && fileBlockPtr <= freeSpacePtr
    ensures s == Compact(o)
  {
    var m := s[freeSpacePtr..fileBlockPtr + 1];
    if freeSpacePtr == fileBlockPtr {
      assert m[..0] == [] && m[1..] == [];
      assert m == [s[freeSpacePtr]];
    }
    assert s == s[..freeSpacePtr] + m + s[fileBlockPtr + 1..];
  }

  /** The state of the two-cursor loop of `first_star` over the original
      disk o: blocks below freeSpacePtr hold files, blocks above
      fileBlockPtr are free, and the moves so far filled only positions up
      to freeSpacePtr and emptied only positions from fileBlockPtr on. */
  ghost predicate BlockLoop(o: seq<u16>, s: seq<u16>, freeSpacePtr: nat, fileBlockPtr: nat, moved: bool)
  {
    |s| == |o| && fileBlockPtr < |s| && freeSpacePtr < |s|
    && (forall i :: 0 <= i < freeSpacePtr ==> s[i] != FREE)
    && (forall i :: fileBlockPtr < i < |s| ==> s[i] == FREE)
    && (moved ==> freeSpacePtr < fileBlockPtr && s[freeSpacePtr] != FREE && s[fileBlockPtr] == FREE)
    && (!moved ==> freeSpacePtr == 0 && fileBlockPtr == |s| - 1 && s == o)
    && multiset(s) == multiset(o)
    && MovedLeft(o, s)
    && (forall i :: Filled(o, s, i) ==> i <= freeSpacePtr)
    && (forall i :: Emptied(o, s, i) ==> fileBlockPtr <= i)
  }

  /** `first_star`: two cursors move blocks one at a time from the end of
      the disk into the leftmost free block, then the checksum is taken. The
      requires is what the scans need not to run off the disk: a disk of two
      or more blocks must hold both a free block and a file block. */
  method FirstStar(data: array<u16>) returns (checksum: nat)
    requires data.Length > 0 && (data.Length > 1 ==> HasFree(data[..]) && HasFile(data[..]))
    modifies data
    ensures multiset(data[..]) == multiset(old(data[..]))
    ensures Compacted(data[..]) && MovedLeft(old(data[..]), data[..])
    ensures data[..] == Compact(old(data[..]))
    ensures checksum == Checksum(data[..])
  {
    var fileBlockPtr: nat := data.Length - 1;
    var freeSpacePtr: nat := 0;
    ghost var moved := false;
    assert data[0..data.Length] == data[..];
    while freeSpacePtr < fileBlockPtr
      invariant BlockLoop(old(data[..]), data[..], freeSpacePtr, fileBlockPtr, moved)
      invariant Compacting(old(data[..]), data[..], freeSpacePtr, fileBlockPtr)
      invariant moved || Compacted(data[..]) || freeSpacePtr < fileBlockPtr
      decreases fileBlockPtr - freeSpacePtr + (if moved then 0 else 1)
    {
      var done;
      freeSpacePtr, fileBlockPtr, done := BlockStep(data, old(data[..]), freeSpacePtr, fileBlockPtr, moved);
      if done {
        break;
      }
      moved := true;
    }
    CompactingDone(old(data[..]), data[..], freeSpacePtr, fileBlockPtr);
    checksum := Checksum(data[..]);
  }

  /** One round of the outer loop: both scans, then one block move unless
      the cursors have crossed. */
  method BlockStep(data: array<u16>, ghost o: seq<u16>, fsp0: nat, fbp0: nat, ghost moved: bool)
    returns (freeSpacePtr: nat, fileBlockPtr: nat, done: bool)
    requires BlockLoop(o, data[..], fsp0, fbp0, moved) && fsp0 < fbp0
    requires !moved ==> HasFree(data[..]) && HasFile(data[..])
    requires Compacting(o, data[..], fsp0, fbp0)
    modifies data
    ensures done ==> data[..] == old(data[..]) && Compacted(data[..]) && freeSpacePtr == fileBlockPtr + 1
    ensures !done ==> BlockLoop(o, data[..], freeSpacePtr, fileBlockPtr, true)
    ensures !done ==> fileBlockPtr - freeSpacePtr < fbp0 - fsp0 + (if moved then 0 else 1)
    ensures Compacting(o, data[..], freeSpacePtr, fileBlockPtr)
  {
    ghost var free: nat := if moved then fbp0 else FreeWitness(data[..]);
    freeSpacePtr := ScanFree(data, fsp0, free);
    ghost var file: nat := if freeSpacePtr > 0 then freeSpacePtr - 1 else FileWitness(data[..]);
    fileBlockPtr := ScanFile(data, fbp0, file);
    assert freeSpacePtr <= fbp0 + 1 && freeSpacePtr <= fileBlockPtr + 1;
    ScanCompacting(o, data[..], fsp0, fbp0, freeSpacePtr, fileBlockPtr);
    if freeSpacePtr >= fileBlockPtr {
      BrokenLoopCompacted(data[..], freeSpacePtr, fileBlockPtr);
      return freeSpacePtr, fileBlockPtr, true;
    }
    ghost var before := data[..];
    assert Scanned(before, freeSpacePtr, fileBlockPtr);
    MoveBlock(data, freeSpacePtr, fileBlockPtr);
    MoveKeepsLoop(o, before, data[..], fsp0, fbp0, moved, freeSpacePtr, fileBlockPtr);
    SwapCompacting(o, before, data[..], freeSpacePtr, fileBlockPtr);
    done := false;
  }

  /** `while data[free_space_ptr] != u16::MAX`: up to the next free block,
      which the ghost free promises. */
  method ScanFree(data: array<u16>, from: nat, ghost free: nat) returns (p: nat)
    requires from <= free < data.Length && data[free] == FREE
    requires forall i :: 0 <= i < from ==> data[i] != FREE
    ensures from <= p <= free && data[p] == FREE
    ensures forall i :: 0 <= i < p ==> data[i] != FREE
  {
    p := from;
    while data[p] != FREE
      invariant from <= p <= free
      invariant forall i :: 0 <= i < p ==> data[i] != FREE
      decreases free - p
    {
      p := p + 1;
    }
  }

  /** `while data[file_block_ptr] == u16::MAX`: down to the next file
      block, which the ghost file promises. */
  method ScanFile(data: array<u16>, from: nat, ghost file: nat) returns (p: nat)
    requires file <= from < data.Length && data[file] != FREE
    requires forall i :: from < i < data.Length ==> data[i] == FREE
    ensures file <= p <= from && data[p] != FREE
    ensures forall i :: p < i < data.Length ==> data[i] == FREE
  {
    p := from;
    while data[p] == FREE
      invariant file <= p <= from
      invariant forall i :: p < i < data.Length ==> data[i] == FREE
      decreases p - file
    {
      p := p - 1;
    }
  }

  /** When the cursors cross, every file block lies below every free one. */
  lemma BrokenLoopCompacted(s: seq<u16>, fsp: nat, fbp: nat)
    requires fbp < fsp < |s|
    requires forall i :: 0 <= i < fsp ==> s[i] != FREE
    requires forall i :: fbp < i < |s| ==> s[i] == FREE
    ensures Compacted(s)
  {
  }

  /** The scans stopped at a free block i below a file block j, with only
      file blocks below i and only free blocks above j. */
  ghost predicate Scanned(a: seq<u16>, i: nat, j: nat)
  {
    i < j < |a| && a[i] == FREE && a[j] != FREE
    && (forall k :: 0 <= k < i ==> a[k] != FREE)
    && (forall k :: j < k < |a| ==> a[k] == FREE)
  }

  /** A move at the scanned cursors keeps the loop state. */
  lemma MoveKeepsLoop(o: seq<u16>, a: seq<u16>, b: seq<u16>, fsp0: nat, fbp0: nat, moved: bool, i: nat, j: nat)
    requires BlockLoop(o, a, fsp0, fbp0, moved)
    requires fsp0 <= i && j <= fbp0 && Scanned(a, i, j)
    requires b == a[i := a[j]][j := FREE] && multiset(b) == multiset(a)
    ensures BlockLoop(o, b, i, j, true)
  {
    MoveKeepsOrder(o, a, b, i, j);
  }

  /** One more block move keeps the fills below the empties. */
  lemma MoveKeepsOrder(o: seq<u16>, a: seq<u16>, b: seq<u16>, i: nat, j: nat)
    requires |o| == |a| && MovedLeft(o, a) && i < j < |a| && a[i] == FREE && a[j] != FREE
    requires forall k :: Filled(o, a, k) ==> k <= i
    requires forall k :: Emptied(o, a, k) ==> j <= k
    requires b == a[i := a[j]][j := FREE]
    ensures MovedLeft(o, b)
    ensures forall k :: Filled(o, b, k) ==> k <= i
    ensures forall k :: Emptied(o, b, k) ==> j <= k
  {
    assert !Emptied(o, a, i) && !Filled(o, a, j);
    forall k | 0 <= k < |b|
      ensures Filled(o, b, k) <==> Filled(o, a, k) || k == i
      ensures Emptied(o, b, k) <==> Emptied(o, a, k) || k == j
      ensures o[k] != FREE && b[k] != FREE ==> b[k] == o[k]
    {
      if k != i && k != j {
        assert b[k] == a[k];
      }
    }
  }

  ghost function FreeWitness(s: seq<u16>): (i: nat)
    requires HasFree(s)
    ensures i < |s| && s[i] == FREE
  {
    var i :| 0 <= i < |s| && s[i] == FREE; i
  }

  ghost function FileWitness(s: seq<u16>): (i: nat)
    requires HasFile(s)
    ensures i < |s| && s[i] != FREE
  {
    var i :| 0 <= i < |s| && s[i] != FREE; i
  }

  /** `data[free_space_ptr] = data[file_block_ptr]` and the file block is
      freed: a swap of a free and a file block. */
  method MoveBlock(data: array<u16>, i: nat, j: nat)
    requires i < j < data.Length && data[i] == FREE && data[j] != FREE
    modifies data
    ensures data[..] == old(data[..])[i := old(data[j])][j := FREE]
    ensures multiset(data[..]) == multiset(old(data[..]))
  {
    data[i] := data[j];
    data[j] := FREE;
  }

  /** n free blocks from position k on. */
  ghost predicate Fits(s: seq<u16>, k: nat, n: nat)
  {
    k + n <= |s| && forall t :: k <= t < k + n ==> s[t] == FREE
  }

  /** [from, from + n) is a whole run of one file's id. */
  ghost predicate WholeFile(s: seq<u16>, from: nat, n: nat)
  {
    0 < n && from + n <= |s| && s[from] != FREE
    && (forall k :: from <= k < from + n ==> s[k] == s[from])
    && (from == 0 || s[from - 1] != s[from])
    && (from + n == |s| || s[from + n] != s[from])
  }

  /** The block at k once the file at [from, from + n) has moved to
      [to, to + n). */
  ghost function MovedCell(a: seq<u16>, from: nat, to: nat, n: nat, k: nat): u16
    requires from + n <= |a| && k < |a|
  {
    if to <= k < to + n then a[from] else if from <= k < from + n then FREE else a[k]
  }

  /** One move of `second_star`: the whole file at [from, from + n) moves
      into the leftmost n free blocks, which lie strictly left of it. */
  ghost predicate IsMove(a: seq<u16>, b: seq<u16>, from: nat, to: nat, n: nat)
  {
    to + n <= from && |b| == |a|
    && WholeFile(a, from, n)
    && Fits(a, to, n)
    && (forall k :: 0 <= k < to ==> !Fits(a, k, n))
    && (forall k :: 0 <= k < |a| ==> b[k] == MovedCell(a, from, to, n, k))
  }

  ghost predicate FileMove(a: seq<u16>, b: seq<u16>)
  {
    exists from, to, n :: IsMove(a, b, from, to, n)
  }

  ghost predicate StepAt(trace: seq<seq<u16>>, k: nat)
    requires k + 1 < |trace|
  {
    FileMove(trace[k], trace[k + 1])
  }

  /** Each disk of the trace arises from the previous one by one move. */
  ghost predicate Moves(trace: seq<seq<u16>>)
  {
    |trace| > 0 && forall k: nat :: k + 1 < |trace| ==> StepAt(trace, k)
  }

  lemma MovesAppend(trace: seq<seq<u16>>, b: seq<u16>)
    requires Moves(trace) && FileMove(trace[|trace| - 1], b)
    ensures Moves(trace + [b])
  {
    var t := trace + [b];
    forall k: nat | k + 1 < |t|
      ensures StepAt(t, k)
    {
      if k + 1 < |trace| {
        assert StepAt(trace, k);
        assert t[k] == trace[k] && t[k + 1] == trace[k + 1];
      } else {
        assert t[k] == trace[|trace| - 1] && t[k + 1] == b;
      }
    }
  }

  /** The disk after the first m blocks of the file have moved. */
  ghost function PartialMove(a: seq<u16>, from: nat, to: nat, n: nat, m: nat): (r: seq<u16>)
    requires from + n <= |a| && m <= n
    ensures |r| == |a|
  {
    seq(|a|, k requires 0 <= k < |a| =>
      if to <= k < to + m then a[from] else if from <= k < from + m then FREE else a[k])
  }

  lemma {:induction false} PartialMovePermutes(a: seq<u16>, from: nat, to: nat, n: nat, m: nat)
    requires to + n <= from && WholeFile(a, from, n) && Fits(a, to, n) && m <= n
    ensures multiset(PartialMove(a, from, to, n, m)) == multiset(a)
  {
    if m == 0 {
      assert PartialMove(a, from, to, n, m) == a;
    } else {
      PartialMovePermutes(a, from, to, n, m - 1);
      var p := PartialMove(a, from, to, n, m - 1);
      var i, j := to + m - 1, from + m - 1;
      assert p[i] == FREE && p[j] == a[from];
      assert PartialMove(a, from, to, n, m) == p[i := p[j]][j := p[i]];
      SwapPermutes(p, i, j);
    }
  }

  lemma SwapPermutes(p: seq<u16>, i: nat, j: nat)
    requires i < |p| && j < |p|
    ensures multiset(p[i := p[j]][j := p[i]]) == multiset(p)
  {
  }

  /** A move only relocates blocks: the multiset of blocks, hence the
      number of blocks of every file, is unchanged. */
  lemma MovePermutes(a: seq<u16>, b: seq<u16>, from: nat, to: nat, n: nat)
    requires IsMove(a, b, from, to, n)
    ensures multiset(b) == multiset(a)
  {
    PartialMovePermutes(a, from, to, n, n);
    assert b == PartialMove(a, from, to, n, n);
  }

  /** `data[lo..hi].fill(v)`. */
  method FillRange(data: array<u16>, lo: nat, hi: nat, v: u16)
    requires lo <= hi <= data.Length
    modifies data
    ensures forall k :: 0 <= k < data.Length ==> data[k] == if lo <= k < hi then v else old(data[k])
  {
    for i := lo to hi
      invariant forall k :: 0 <= k < data.Length ==> data[k] == if lo <= k < i then v else old(data[k])
    {
      data[i] := v;
    }
  }

  /** Lines 61-76 of `second_star`: from ptr down past free blocks to the
      next file block, then down over that file's id. ok is false where the
      source's `file_block_ptr -= 1` would underflow: every block up to ptr
      is free. The file is [start, end); as written, the downward walk stops
      at position 0 without testing it, so the file reported never includes
      block 0 (start is at least 1, and [1, 1) is empty). */
  method NextFile(data: array<u16>, ptr: nat) returns (ok: bool, start: nat, end: nat, id: u16)
    requires ptr < data.Length
    ensures ok <==> exists i :: 0 <= i <= ptr && data[i] != FREE
    ensures ok ==> 1 <= start <= end <= ptr + 1 && id == data[end - 1] && id != FREE
    ensures ok ==> forall k :: start <= k < end ==> data[k] == id
    ensures ok ==> forall k :: end <= k <= ptr ==> data[k] == FREE
    ensures ok ==> start == 1 || data[start - 1] != id
    ensures ok && start == end ==> end == 1
  {
    var p: nat := ptr;
    while data[p] == FREE
      invariant p <= ptr && forall k :: p < k <= ptr ==> data[k] == FREE
      decreases p
    {
      if p == 0 {
        return false, 0, 0, 0;
      }
      p := p - 1;
    }
    id := data[p];
    end := p + 1;
    while data[p] == id && p > 0
      invariant p < end && forall k :: p < k < end ==> data[k] == id
    {
      p := p - 1;
    }
    start := p + 1;
    ok := true;
  }

  /** Lines 78-92 of `second_star`: from freeSpaceMin, free run by free
      run, until a run of at least n blocks is found or the runs reach the
      file at start. ok is false where the scan for the next free block
      would index past the end of the disk. When it returns, no n free
      blocks start in [freeSpaceMin, fsp). */
  method FindFreeRun(data: array<u16>, freeSpaceMin: nat, start: nat, n: nat)
    returns (ok: bool, fsp: nat, fse: nat)
    requires freeSpaceMin <= data.Length && start + n <= data.Length
    requires 0 < n ==> data[start] != FREE
    ensures !ok ==> 0 < data.Length && data[data.Length - 1] != FREE
    ensures ok ==> freeSpaceMin <= fsp <= fse <= data.Length
    ensures ok ==> forall k :: freeSpaceMin <= k < fsp ==> !Fits(data[..], k, n)
    ensures ok ==> n <= fse - fsp || start <= fsp
    ensures ok && fsp < start && n <= fse - fsp ==> Fits(data[..], fsp, n)
    ensures ok && fsp < start ==> fse <= start
  {
    fsp, fse := freeSpaceMin, freeSpaceMin;
    while fse - fsp < n && fsp < start
      invariant freeSpaceMin <= fsp <= fse <= data.Length
      invariant forall k :: freeSpaceMin <= k < fsp ==> !Fits(data[..], k, n)
      invariant fsp < fse ==> Fits(data[..], fsp, fse - fsp) && (fse == data.Length || data[fse] != FREE)
      invariant fsp < start ==> fse <= start
      decreases data.Length - fse, fse - fsp
    {
      ghost var fsp0, fse0 := fsp, fse;
      fsp := fse;
      while fsp < data.Length && data[fsp] != FREE
        invariant fse0 <= fsp <= data.Length
        invariant forall k :: fse0 <= k < fsp ==> data[k] != FREE
      {
        fsp := fsp + 1;
      }
      if fsp == data.Length {
        assert data[data.Length - 1] != FREE;
        return false, fsp, fse;
      }
      fse := fsp + 1;
      while fse < data.Length && data[fse] == FREE
        invariant fsp < fse <= data.Length
        invariant forall k :: fsp <= k < fse ==> data[k] == FREE
      {
        fse := fse + 1;
      }
      NoFitBetween(data[..], freeSpaceMin, fsp0, fse0, fsp, n);
    }
    ok := true;
  }

  /** The windows starting in a run shorter than n, or at a file block,
      do not fit n free blocks. */
  lemma NoFitBetween(s: seq<u16>, lo: nat, fsp0: nat, fse0: nat, fsp: nat, n: nat)
    requires lo <= fsp0 <= fse0 <= fsp < |s| && fse0 - fsp0 < n
    requires forall k :: lo <= k < fsp0 ==> !Fits(s, k, n)
    requires fsp0 < fse0 ==> fse0 == |s| || s[fse0] != FREE
    requires forall k :: fse0 <= k < fsp ==> s[k] != FREE
    ensures forall k :: lo <= k < fsp ==> !Fits(s, k, n)
  {
    forall k | fsp0 <= k < fsp
      ensures !Fits(s, k, n)
    {
      if k < fse0 {
        if fse0 < |s| {
          assert s[fse0] != FREE;
        }
      } else {
        assert s[k] != FREE;
      }
    }
  }

  /** The state of the outer loop of `second_star` over the original disk
      o: every block below freeSpaceMin holds a file; the block above
      fileBlockPtr does not continue the file at fileBlockPtr; block 0 is
      never emptied and the last block never filled; the blocks are a
      permutation of o's. */
  ghost predicate FileLoop(o: seq<u16>, s: seq<u16>, fileBlockPtr: nat, freeSpaceMin: nat)
  {
    |s| == |o| && 0 < |s| && fileBlockPtr < |s| && freeSpaceMin <= |s|
    && (forall i :: 0 <= i < freeSpaceMin ==> s[i] != FREE)
    && (s[0] != FREE ==> 0 < freeSpaceMin)
    && (fileBlockPtr == 0 || fileBlockPtr + 1 == |s| || s[fileBlockPtr + 1] == FREE
        || s[fileBlockPtr + 1] != s[fileBlockPtr])
    && (o[0] != FREE ==> s[0] != FREE)
    && (o[|o| - 1] == FREE ==> s[|s| - 1] == FREE)
    && multiset(s) == multiset(o)
  }

  /** What NextFile reports on success. */
  ghost predicate FoundFile(s: seq<u16>, ptr: nat, start: nat, end: nat, id: u16)
  {
    1 <= start <= end <= ptr + 1 && ptr < |s| && id == s[end - 1] && id != FREE
    && (forall k :: start <= k < end ==> s[k] == id)
    && (forall k :: end <= k <= ptr ==> s[k] == FREE)
    && (start == 1 || s[start - 1] != id)
    && (start == end ==> end == 1)
  }

  /** What FindFreeRun reports when the file at start is moved. */
  ghost predicate FoundRun(s: seq<u16>, freeSpaceMin: nat, start: nat, n: nat, fsp: nat)
  {
    freeSpaceMin <= fsp && fsp + n <= start
    && (forall k :: freeSpaceMin <= k < fsp ==> !Fits(s, k, n))
    && Fits(s, fsp, n)
  }

  /** Moving the file found at [start, start + n) into the run at fsp is a
      move of `second_star`'s kind, and it keeps the loop state. */
  lemma MoveKeepsFileLoop(o: seq<u16>, a: seq<u16>, b: seq<u16>, ptr: nat, fsm0: nat, fsm: nat,
                          start: nat, end: nat, id: u16, fsp: nat)
    requires FileLoop(o, a, ptr, fsm0) && 0 < ptr
    requires FoundFile(a, ptr, start, end, id) && FoundRun(a, fsm0, start, end - start, fsp) && fsp < start
    requires fsm == if fsp == fsm0 then fsm0 + (end - start) else fsm0
    requires |b| == |a|
    requires forall k :: 0 <= k < |b| ==> b[k] == if start <= k < end then FREE else if fsp <= k < fsp + (end - start) then id else a[k]
    ensures IsMove(a, b, start, fsp, end - start)
    ensures FileLoop(o, b, start - 1, fsm)
  {
    var n := end - start;
    assert a[0] != FREE ==> 0 < fsm0;
    assert 0 < n;
    assert a[start] == id;
    assert WholeFile(a, start, n);
    forall k | 0 <= k < fsp
      ensures !Fits(a, k, n)
    {
      if k < fsm0 {
        assert a[k] != FREE;
      }
    }
    assert IsMove(a, b, start, fsp, n);
    MovePermutes(a, b, start, fsp, n);
  }

  /** Leaving the file where it is keeps the loop state. */
  lemma StayKeepsFileLoop(o: seq<u16>, a: seq<u16>, ptr: nat, fsm: nat, start: nat, end: nat, id: u16)
    requires FileLoop(o, a, ptr, fsm) && FoundFile(a, ptr, start, end, id)
    ensures FileLoop(o, a, start - 1, fsm)
  {
    if start < end {
      assert a[start] == id;
    }
  }

  /** No n free blocks start far enough left to hold a file starting at from. */
  ghost predicate NoRoom(a: seq<u16>, from: nat, n: nat)
  {
    forall k: nat :: k + n <= from ==> !Fits(a, k, n)
  }

  /** Where one round of `second_star` leaves the file at [from, from + n):
      moved into the leftmost fitting free run left of it when there is one,
      and left in place otherwise (always for the empty file that NextFile
      reports at block 0). */
  ghost predicate Placed(a: seq<u16>, b: seq<u16>, from: nat, n: nat)
  {
    if 0 < n && !NoRoom(a, from, n) then exists to: nat :: IsMove(a, b, from, to, n) else b == a
  }

  /** One turn of the outer loop of `second_star` from the file cursor ptr:
      the next file at or below ptr is found, placed, and the cursor goes on
      just below it. */
  ghost predicate Round(a: seq<u16>, ptr: nat, b: seq<u16>, ptr': nat)
  {
    0 < ptr
    && exists start: nat, end: nat, id: u16 :: FoundFile(a, ptr, start, end, id) && ptr' + 1 == start
                                && Placed(a, b, start, end - start)
  }

  ghost predicate RoundAt(t: seq<(seq<u16>, nat)>, k: nat)
    requires k + 1 < |t|
  {
    Round(t[k].0, t[k].1, t[k + 1].0, t[k + 1].1)
  }

  /** Each (disk, cursor) state of the trace arises from the previous one by one round. */
  ghost predicate Rounds(t: seq<(seq<u16>, nat)>)
  {
    |t| > 0 && forall k: nat :: k + 1 < |t| ==> RoundAt(t, k)
  }

  lemma RoundsAppend(t: seq<(seq<u16>, nat)>, b: seq<u16>, ptr: nat)
    requires Rounds(t) && Round(t[|t| - 1].0, t[|t| - 1].1, b, ptr)
    ensures Rounds(t + [(b, ptr)])
  {
    var t' := t + [(b, ptr)];
    forall k: nat | k + 1 < |t'|
      ensures RoundAt(t', k)
    {
      if k + 1 < |t| {
        assert RoundAt(t, k);
        assert t'[k] == t[k] && t'[k + 1] == t[k + 1];
      } else {
        assert t'[k] == t[|t| - 1] && t'[k + 1] == (b, ptr);
      }
    }
  }

  /** The scan finds only one file below a cursor. */
  lemma FoundFileUnique(s: seq<u16>, ptr: nat, st1: nat, e1: nat, id1: u16, st2: nat, e2: nat, id2: u16)
    requires FoundFile(s, ptr, st1, e1, id1) && FoundFile(s, ptr, st2, e2, id2)
    ensures st1 == st2 && e1 == e2 && id1 == id2
  {
  }

  /** A file is placed in only one way: the leftmost fitting run is unique. */
  lemma PlacedUnique(a: seq<u16>, b1: seq<u16>, b2: seq<u16>, from: nat, n: nat)
    requires Placed(a, b1, from, n) && Placed(a, b2, from, n)
    ensures b1 == b2
  {
    if 0 < n && !NoRoom(a, from, n) {
      var to1: nat :| IsMove(a, b1, from, to1, n);
      var to2: nat :| IsMove(a, b2, from, to2, n);
      assert to1 == to2;
      assert forall k :: 0 <= k < |a| ==> b1[k] == b2[k];
    }
  }

  /** A round is deterministic. */
  lemma RoundUnique(a: seq<u16>, ptr: nat, b1: seq<u16>, p1: nat, b2: seq<u16>, p2: nat)
    requires Round(a, ptr, b1, p1) && Round(a, ptr, b2, p2)
    ensures b1 == b2 && p1 == p2
  {
    var st1: nat, e1: nat, id1: u16 :| FoundFile(a, ptr, st1, e1, id1) && p1 + 1 == st1 && Placed(a, b1, st1, e1 - st1);
    var st2: nat, e2: nat, id2: u16 :| FoundFile(a, ptr, st2, e2, id2) && p2 + 1 == st2 && Placed(a, b2, st2, e2 - st2);
    FoundFileUnique(a, ptr, st1, e1, id1, st2, e2, id2);
    PlacedUnique(a, b1, b2, st1, e1 - st1);
  }

  lemma {:induction false} RoundsAgree(t1: seq<(seq<u16>, nat)>, t2: seq<(seq<u16>, nat)>, k: nat)
    requires Rounds(t1) && Rounds(t2) && t1[0] == t2[0] && k < |t1| && k < |t2|
    ensures t1[k] == t2[k]
  {
    if k > 0 {
      RoundsAgree(t1, t2, k - 1);
      assert RoundAt(t1, k - 1) && RoundAt(t2, k - 1);
      RoundUnique(t1[k - 1].0, t1[k - 1].1, t1[k].0, t1[k].1, t2[k].0, t2[k].1);
    }
  }

  /** A round starts from a cursor above block 0. */
  lemma RoundsCursor(t: seq<(seq<u16>, nat)>, k: nat)
    requires Rounds(t) && k + 1 < |t|
    ensures 0 < t[k].1
  {
    assert RoundAt(t, k);
  }

  /** Two traces of rounds from one state that both run the cursor down to
      block 0 are the same trace: the final disk, hence the checksum, of
      `second_star` is fixed by its input. */
  lemma RoundsUnique(t1: seq<(seq<u16>, nat)>, t2: seq<(seq<u16>, nat)>)
    requires Rounds(t1) && Rounds(t2) && t1[0] == t2[0]
    requires t1[|t1| - 1].1 == 0 && t2[|t2| - 1].1 == 0
    ensures t1 == t2
  {
    if |t1| < |t2| {
      RoundsAgree(t1, t2, |t1| - 1);
      RoundsCursor(t2, |t1| - 1);
    } else if |t2| < |t1| {
      RoundsAgree(t1, t2, |t2| - 1);
      RoundsCursor(t1, |t2| - 1);
    }
    forall k | 0 <= k < |t1|
      ensures t1[k] == t2[k]
    {
      RoundsAgree(t1, t2, k);
    }
  }

  /** Moves the file at [start, end) into the free run at fsp and raises
      freeSpaceMin past it when the run started there. */
  method MoveFile(data: array<u16>, ghost o: seq<u16>, ptr: nat, fsm0: nat,
                  start: nat, end: nat, id: u16, fsp: nat, ghost trace0: seq<seq<u16>>)
    returns (freeSpaceMin: nat, ghost trace: seq<seq<u16>>)
    requires FileLoop(o, data[..], ptr, fsm0) && 0 < ptr
    requires FoundFile(data[..], ptr, start, end, id) && FoundRun(data[..], fsm0, start, end - start, fsp)
    requires fsp < start
    requires Moves(trace0) && trace0[0] == o && trace0[|trace0| - 1] == data[..]
    modifies data
    ensures IsMove(old(data[..]), data[..], start, fsp, end - start)
    ensures FileLoop(o, data[..], start - 1, freeSpaceMin)
    ensures trace == trace0 + [data[..]] && Moves(trace)
  {
    var n := end - start;
    freeSpaceMin := if fsp == fsm0 then fsm0 + n else fsm0;
    FillRange(data, fsp, fsp + n, id);
    FillRange(data, start, end, FREE);
    MoveKeepsFileLoop(o, old(data[..]), data[..], ptr, fsm0, freeSpaceMin, start, end, id, fsp);
    MovesAppend(trace0, data[..]);
    trace := trace0 + [data[..]];
  }

  /** One round of the outer loop of `second_star`: find the next file
      down from fileBlockPtr, look for the leftmost run that holds it, and
      move it there if that run lies left of it. */
  method FileStep(data: array<u16>, ghost o: seq<u16>, ptr: nat, fsm0: nat, ghost trace0: seq<seq<u16>>)
    returns (ok: bool, fileBlockPtr: nat, freeSpaceMin: nat, ghost trace: seq<seq<u16>>)
    requires FileLoop(o, data[..], ptr, fsm0) && 0 < ptr
    requires Moves(trace0) && trace0[0] == o && trace0[|trace0| - 1] == data[..]
    modifies data
    ensures Moves(trace) && trace[0] == o && trace[|trace| - 1] == data[..]
    ensures ok ==> FileLoop(o, data[..], fileBlockPtr, freeSpaceMin) && fileBlockPtr < ptr
    ensures ok ==> Round(old(data[..]), ptr, data[..], fileBlockPtr)
    ensures !ok ==> data[..] == old(data[..]) && (data[0] == FREE || data[data.Length - 1] != FREE)
  {
    trace, fileBlockPtr, freeSpaceMin := trace0, ptr, fsm0;
    var found, start, end, id := NextFile(data, ptr);
    if !found {
      return false, fileBlockPtr, freeSpaceMin, trace;
    }
    ghost var before := data[..];
    assert FoundFile(before, ptr, start, end, id);
    var n := end - start;
    var runOk, fsp, fse := FindFreeRun(data, fsm0, start, n);
    if !runOk {
      return false, fileBlockPtr, freeSpaceMin, trace;
    }
    if fsp < start && fse - fsp >= n {
      assert FoundRun(before, fsm0, start, n, fsp);
      freeSpaceMin, trace := MoveFile(data, o, ptr, fsm0, start, end, id, fsp, trace0);
      assert Fits(before, fsp, n) && fsp + n <= start;
      assert !NoRoom(before, start, n);
    } else {
      StayKeepsFileLoop(o, data[..], ptr, fsm0, start, end, id);
      StayNoRoom(before, fsm0, start, n, fsp);
    }
    assert Placed(before, data[..], start, n);
    fileBlockPtr := start - 1;
    ok := true;
  }

  /** A file the run search passes without a fitting run left of it has
      no room anywhere left of it. */
  lemma StayNoRoom(s: seq<u16>, fsm: nat, start: nat, n: nat, fsp: nat)
    requires start <= fsp && fsm <= |s| && forall k :: 0 <= k < fsm ==> s[k] != FREE
    requires forall k :: fsm <= k < fsp ==> !Fits(s, k, n)
    ensures 0 < n ==> NoRoom(s, start, n)
  {
    if 0 < n {
      forall k: nat | k + n <= start
        ensures !Fits(s, k, n)
      {
        if k < fsm {
          assert s[k] != FREE;
        }
      }
    }
  }

  /** `second_star`: whole files, from the end of the disk down, move into
      the leftmost free run that holds them, if it lies left of them; then
      the checksum is taken. The trace records the disk after every move.
      ok is false where the source panics: on an empty disk, a disk without
      free blocks, or (as sufficient conditions only) one that starts free
      or ends with a file that finds no run. */
  method SecondStar(data: array<u16>)
    returns (ok: bool, checksum: nat, ghost trace: seq<seq<u16>>, ghost rounds: seq<(seq<u16>, nat)>)
    modifies data
    ensures Moves(trace) && trace[0] == old(data[..]) && trace[|trace| - 1] == data[..]
    ensures ok ==> multiset(data[..]) == multiset(old(data[..])) && checksum == Checksum(data[..])
    ensures ok ==> Rounds(rounds) && rounds[0].0 == old(data[..]) && rounds[0].1 + 1 == data.Length
                   && rounds[|rounds| - 1] == (data[..], 0)
    ensures !ok ==> (data.Length == 0 || !HasFree(old(data[..])) || old(data[0]) == FREE
                     || old(data[data.Length - 1]) != FREE)
  {
    trace := [data[..]];
    rounds := [];
    if data.Length == 0 {
      return false, 0, trace, rounds;
    }
    var fileBlockPtr: nat := data.Length - 1;
    var freeSpaceMin: nat := 0;
    while freeSpaceMin < data.Length && data[freeSpaceMin] != FREE
      invariant freeSpaceMin <= data.Length
      invariant forall i :: 0 <= i < freeSpaceMin ==> data[i] != FREE
    {
      freeSpaceMin := freeSpaceMin + 1;
    }
    if freeSpaceMin == data.Length {
      return false, 0, trace, rounds;
    }
    rounds := [(data[..], fileBlockPtr)];
    while fileBlockPtr > 0
      invariant FileLoop(old(data[..]), data[..], fileBlockPtr, freeSpaceMin)
      invariant Moves(trace) && trace[0] == old(data[..]) && trace[|trace| - 1] == data[..]
      invariant Rounds(rounds) && rounds[0].0 == old(data[..]) && rounds[0].1 + 1 == data.Length
      invariant rounds[|rounds| - 1] == (data[..], fileBlockPtr)
    {
      ghost var before, ptr := data[..], fileBlockPtr;
      var stepOk;
      stepOk, fileBlockPtr, freeSpaceMin, trace := FileStep(data, old(data[..]), fileBlockPtr, freeSpaceMin, trace);
      if !stepOk {
        return false, 0, trace, rounds;
      }
      RoundsAppend(rounds, data[..], fileBlockPtr);
      rounds := rounds + [(data[..], fileBlockPtr)];
    }
    ok := true;
    checksum := Checksum(data[..]);
  }
}
