/** Part one of the disk compaction (java/9/src/Main.java,
  `computeRearrangedChecksum`): walking the blocks from the front, each
  file is counted where it stands and each free cell is filled with a cell
  of the last file not yet used up. */
module DiskCompaction {
  import opened Wrappers
  import opened DiskMap

  /** The file cells not yet placed while block `i`'s free space is filled:
    the files after `i` before `last`, and what is left of `last`. */
  function Pending(blocks: seq<Block>, i: nat, last: nat, used: nat): seq<nat>
    requires last < |blocks| && used <= blocks[last].fileBlocks
  {
    IdsRange(blocks, i + 1, last) + Repeat(last, blocks[last].fileBlocks - used)
  }

  lemma PendingEmpty(blocks: seq<Block>, i: nat, last: nat, used: nat, rest: seq<Option<nat>>)
    requires last < |blocks| && used <= blocks[last].fileBlocks
    requires last == i + 1 && used == blocks[last].fileBlocks
    ensures Compact(rest, Pending(blocks, i, last, used)) == []
  {
    assert Pending(blocks, i, last, used) == [];
  }

  /** Moving on from a used-up last file to the one before it leaves the
    pending cells as they were. */
  lemma PendingStepBack(blocks: seq<Block>, i: nat, last: nat)
    requires i + 1 < last < |blocks|
    ensures Pending(blocks, i, last, blocks[last].fileBlocks) == Pending(blocks, i, last - 1, 0)
  {
    IdsRangeSnoc(blocks, i + 1, last);
  }

  /** What compaction still writes from block `i` on, with the files from
    `i` before `last` and what is left of `last` still to place. */
  function Remainder(blocks: seq<Block>, i: nat, last: nat, used: nat): seq<nat>
    requires last < |blocks| && used <= blocks[last].fileBlocks
  {
    if last < i then [] else Compact(DiskFrom(blocks, i), IdsRange(blocks, i, last) + Repeat(last, blocks[last].fileBlocks - used))
  }

  /** The remainder of the whole disk is all of it. */
  lemma RemainderStart(blocks: seq<Block>)
    requires |blocks| > 0
    ensures Remainder(blocks, 0, |blocks| - 1, 0) == Compact(Disk(blocks), Ids(blocks))
  {
    var last: nat := |blocks| - 1;
    IdsRangeSnoc(blocks, 0, |blocks|);
    var ids := IdsRange(blocks, 0, last) + Repeat(last, blocks[last].fileBlocks);
    assert ids == Ids(blocks);
    assert Repeat(last, blocks[last].fileBlocks - 0) == Repeat(last, blocks[last].fileBlocks);
  }

  /** Once the front reaches the last file, only its unused cells are left,
    and they stay where they stand. */
  lemma RemainderEnd(blocks: seq<Block>, i: nat, used: nat)
    requires i < |blocks| && used <= blocks[i].fileBlocks
    ensures Remainder(blocks, i, i, used) == Repeat(i, blocks[i].fileBlocks - used)
  {
    var f := blocks[i].fileBlocks;
    assert IdsRange(blocks, i, i) == [];
    assert IdsRange(blocks, i, i) + Repeat(i, f - used) == Repeat(i, f - used);
    assert DiskFrom(blocks, i) == Repeat(Some(i), f) + (Repeat(None, blocks[i].freeBlocks) + DiskFrom(blocks, i + 1));
    CompactFront(i, f, Repeat(None, blocks[i].freeBlocks) + DiskFrom(blocks, i + 1), i, f - used);
  }

  /** Once the front has met the back index, what is left is the unused
    cells of the last file, in place. */
  lemma TailCells(blocks: seq<Block>, i: nat, last: nat, used: nat, out: seq<nat>, target: seq<nat>)
    requires last < |blocks| && used <= blocks[last].fileBlocks
    requires last <= i <= last + 1 && (i == last + 1 ==> used == blocks[last].fileBlocks)
    requires target == out + Remainder(blocks, i, last, used)
    ensures target == out + Repeat(last, blocks[last].fileBlocks - used)
  {
    if i == last {
      RemainderEnd(blocks, i, used);
    } else {
      assert Repeat(last, 0) == [] && out + [] == out;
    }
  }

  /** A free cell takes one cell of the last file. */
  lemma PendingTake(blocks: seq<Block>, i: nat, last: nat, used: nat, rest: seq<Option<nat>>)
    requires i < last < |blocks| && used < blocks[last].fileBlocks
    ensures Compact([None] + rest, Pending(blocks, i, last, used)) ==
      [last] + Compact(rest, Pending(blocks, i, last, used + 1))
  {
    var p := Pending(blocks, i, last, used);
    CompactFree(rest, p);
    RepeatSnoc(last, blocks[last].fileBlocks - used);
    assert p[..|p| - 1] == Pending(blocks, i, last, used + 1);
  }

  /** One file cell of block `x` counted where it stands. */
  lemma FileStep(x: nat, n: nat, rest: seq<Option<nat>>, pending: seq<nat>)
    requires n > 0
    ensures Compact(Repeat(Some(x), n) + rest, Repeat(x, n) + pending) ==
      [x] + Compact(Repeat(Some(x), n - 1) + rest, Repeat(x, n - 1) + pending)
  {
    RepeatCons(Some(x), n);
    RepeatCons(x, n);
    assert Repeat(Some(x), n) + rest == [Some(x)] + (Repeat(Some(x), n - 1) + rest);
    assert Repeat(x, n) + pending == [x] + (Repeat(x, n - 1) + pending);
    CompactFile(x, Repeat(Some(x), n - 1) + rest, Repeat(x, n) + pending);
  }

  lemma FreeStart(n: nat, rest: seq<Option<nat>>)
    requires n > 0
    ensures Repeat(None, n) + rest == [None] + (Repeat(None, n - 1) + rest)
  {
    RepeatCons<Option<nat>>(None, n);
  }

  /** A run of file cells counted where they stand. */
  lemma {:induction false} FileRun(x: nat, n: nat, rest: seq<Option<nat>>, pending: seq<nat>)
    ensures Compact(Repeat(Some(x), n) + rest, Repeat(x, n) + pending) == Repeat(x, n) + Compact(rest, pending)
    decreases n
  {
    if n == 0 {
      assert Repeat(Some(x), n) + rest == rest && Repeat(x, n) + pending == pending;
    } else {
      FileStep(x, n, rest, pending);
      FileRun(x, n - 1, rest, pending);
      RepeatCons(x, n);
    }
  }

  /** Block `i`'s file cells stay where they stand; its free cells and the
    later blocks get the pending cells. */
  lemma BlockFiles(blocks: seq<Block>, i: nat, last: nat, used: nat)
    requires i < last < |blocks| && used <= blocks[last].fileBlocks
    ensures Remainder(blocks, i, last, used) == Repeat(i, blocks[i].fileBlocks) +
      Compact(Repeat(None, blocks[i].freeBlocks) + DiskFrom(blocks, i + 1), Pending(blocks, i, last, used))
  {
    assert DiskFrom(blocks, i) ==
      Repeat(Some(i), blocks[i].fileBlocks) + (Repeat(None, blocks[i].freeBlocks) + DiskFrom(blocks, i + 1));
    assert IdsRange(blocks, i, last) + Repeat(last, blocks[last].fileBlocks - used) ==
      Repeat(i, blocks[i].fileBlocks) + Pending(blocks, i, last, used);
    FileRun(i, blocks[i].fileBlocks, Repeat(None, blocks[i].freeBlocks) + DiskFrom(blocks, i + 1),
      Pending(blocks, i, last, used));
  }

  lemma Regroup(a: seq<nat>, b: seq<nat>, c: seq<nat>)
    ensures a + (b + c) == (a + b) + c
  {
  }

  /** The `for` loops that count `count` cells of file `id` at the next
    positions. */
  method CountFile(id: nat, count: nat, checkSum: int, positionCounter: nat, ghost out: seq<nat>)
    returns (newCheckSum: int, newPositionCounter: nat, ghost newOut: seq<nat>)
    requires checkSum == Checksum(out) && positionCounter == |out|
    ensures newOut == out + Repeat(id, count)
    ensures newCheckSum == Checksum(newOut) && newPositionCounter == |newOut|
  {
    newCheckSum, newPositionCounter, newOut := checkSum, positionCounter, out;
    var j := 0;
    while j < count
      invariant 0 <= j <= count
      invariant newOut == out + Repeat(id, j)
      invariant newCheckSum == Checksum(newOut) && newPositionCounter == |newOut|
    {
      ChecksumSnoc(newOut, id);
      RepeatSnoc(id, j + 1);
      Regroup(out, Repeat(id, j), [id]);
      newCheckSum := newCheckSum + newPositionCounter * id;
      newPositionCounter := newPositionCounter + 1;
      newOut := newOut + [id];
      j := j + 1;
    }
    assert Repeat(id, 0) == [];
  }

  /** The back index stepping over used-up files, stopping at a file with
    cells left or at block `i`, where no file cell is pending any more. */
  method SkipUsedUp(blocks: seq<Block>, i: nat, last: nat, lastBlock: Block, used: nat,
                    ghost rest: seq<Option<nat>>, ghost out: seq<nat>, ghost target: seq<nat>)
    returns (newLast: nat, newLastBlock: Block, newUsed: nat)
    requires i < last < |blocks| && lastBlock == blocks[last] && used <= lastBlock.fileBlocks
    requires target == out + Compact(rest, Pending(blocks, i, last, used))
    ensures i <= newLast < |blocks| && newLastBlock == blocks[newLast] && newUsed <= newLastBlock.fileBlocks
    ensures newLast > i ==> newUsed < newLastBlock.fileBlocks && target == out + Compact(rest, Pending(blocks, i, newLast, newUsed))
    ensures newLast == i ==> out == target
  {
    newLast, newLastBlock, newUsed := last, lastBlock, used;
    while newUsed >= newLastBlock.fileBlocks && newLast > i
      invariant i <= newLast < |blocks| && newLastBlock == blocks[newLast] && newUsed <= newLastBlock.fileBlocks
      invariant newLast > i ==> target == out + Compact(rest, Pending(blocks, i, newLast, newUsed))
      invariant newLast == i ==> out == target
      decreases newLast
    {
      if newLast == i + 1 {
        PendingEmpty(blocks, i, newLast, newUsed, rest);
      } else {
        PendingStepBack(blocks, i, newLast);
      }
      newLast := newLast - 1;
      newLastBlock := blocks[newLast];
      newUsed := 0;
    }
  }

  /** A free cell of block `i` taking a cell of the last file. */
  lemma TakeStep(blocks: seq<Block>, i: nat, last: nat, used: nat, free: nat, out: seq<nat>, target: seq<nat>)
    requires i < last < |blocks| && used < blocks[last].fileBlocks && free > 0
    requires target == out + Compact(Repeat(None, free) + DiskFrom(blocks, i + 1), Pending(blocks, i, last, used))
    ensures target == (out + [last]) + Compact(Repeat(None, free - 1) + DiskFrom(blocks, i + 1), Pending(blocks, i, last, used + 1))
  {
    var rest := Repeat(None, free - 1) + DiskFrom(blocks, i + 1);
    FreeStart(free, DiskFrom(blocks, i + 1));
    PendingTake(blocks, i, last, used, rest);
    Regroup(out, [last], Compact(rest, Pending(blocks, i, last, used + 1)));
  }

  /** Block `i`'s free space used up: the rest is what compaction writes
    from block `i + 1` on. */
  lemma FreeDone(blocks: seq<Block>, i: nat, last: nat, used: nat)
    requires i < last < |blocks| && used <= blocks[last].fileBlocks
    ensures Compact(Repeat(None, 0) + DiskFrom(blocks, i + 1), Pending(blocks, i, last, used)) ==
      Remainder(blocks, i + 1, last, used)
  {
    assert Repeat(None, 0) + DiskFrom(blocks, i + 1) == DiskFrom(blocks, i + 1);
  }

  /** The back index at block `i`: nothing is left to write after it. */
  lemma NothingLeft(blocks: seq<Block>, i: nat, out: seq<nat>)
    requires i < |blocks|
    ensures out + Remainder(blocks, i + 1, i, blocks[i].fileBlocks) == out
  {
    assert out + [] == out;
  }

  /** The free-space loop of block `i`: each free cell takes a cell of the
    last file, after the back index has stepped over used-up files; once
    that index reaches block `i` every file cell is placed and the loop
    stops. */
  method FillFree(blocks: seq<Block>, i: nat, freeSpace: nat, last: nat, lastBlock: Block, used: nat,
                  checkSum: int, positionCounter: nat, ghost out: seq<nat>, ghost target: seq<nat>)
    returns (newLast: nat, newLastBlock: Block, newUsed: nat, newCheckSum: int, newPositionCounter: nat,
             ghost newOut: seq<nat>)
    requires i < last < |blocks| && lastBlock == blocks[last] && used <= lastBlock.fileBlocks
    requires checkSum == Checksum(out) && positionCounter == |out|
    requires target == out + Compact(Repeat(None, freeSpace) + DiskFrom(blocks, i + 1), Pending(blocks, i, last, used))
    ensures i <= newLast < |blocks| && newLastBlock == blocks[newLast] && newUsed <= newLastBlock.fileBlocks
    ensures newCheckSum == Checksum(newOut) && newPositionCounter == |newOut|
    ensures target == newOut + Remainder(blocks, i + 1, newLast, newUsed)
    ensures newLast == i ==> newUsed == newLastBlock.fileBlocks
  {
    newLast, newLastBlock, newUsed, newCheckSum, newPositionCounter, newOut := last, lastBlock, used, checkSum, positionCounter, out;
    var free := freeSpace;
    while free > 0
      invariant 0 <= free <= freeSpace
      invariant i < newLast < |blocks| && newLastBlock == blocks[newLast] && newUsed <= newLastBlock.fileBlocks
      invariant newCheckSum == Checksum(newOut) && newPositionCounter == |newOut|
      invariant target == newOut + Compact(Repeat(None, free) + DiskFrom(blocks, i + 1), Pending(blocks, i, newLast, newUsed))
    {
      newLast, newLastBlock, newUsed :=
        SkipUsedUp(blocks, i, newLast, newLastBlock, newUsed, Repeat(None, free) + DiskFrom(blocks, i + 1), newOut, target);
      if newLast == i {
        newUsed := newLastBlock.fileBlocks;
        NothingLeft(blocks, i, newOut);
        return;
      }
      TakeStep(blocks, i, newLast, newUsed, free, newOut, target);
      ChecksumSnoc(newOut, newLast);
      newCheckSum := newCheckSum + newPositionCounter * newLast;
      newPositionCounter := newPositionCounter + 1;
      newOut := newOut + [newLast];
      newUsed := newUsed + 1;
      free := free - 1;
    }
    FreeDone(blocks, i, newLast, newUsed);
  }

  lemma SameLayout(out: seq<nat>, target: seq<nat>, blocks: seq<Block>)
    requires out == target && target == Compact(Disk(blocks), Ids(blocks))
    ensures Checksum(out) == CompactedChecksum(blocks)
  {
  }

  /** One turn of the outer loop: block `i`'s files where they stand, then
    its free space filled from the back. */
  method ProcessBlock(blocks: seq<Block>, i: nat, last: nat, lastBlock: Block, used: nat,
                      checkSum: int, positionCounter: nat, ghost out: seq<nat>, ghost target: seq<nat>)
    returns (newLast: nat, newLastBlock: Block, newUsed: nat, newCheckSum: int, newPositionCounter: nat,
             ghost newOut: seq<nat>)
    requires i < last < |blocks| && lastBlock == blocks[last] && used <= lastBlock.fileBlocks
    requires checkSum == Checksum(out) && positionCounter == |out|
    requires target == out + Remainder(blocks, i, last, used)
    ensures i <= newLast < |blocks| && newLastBlock == blocks[newLast] && newUsed <= newLastBlock.fileBlocks
    ensures newCheckSum == Checksum(newOut) && newPositionCounter == |newOut|
    ensures target == newOut + Remainder(blocks, i + 1, newLast, newUsed)
    ensures newLast == i ==> newUsed == newLastBlock.fileBlocks
  {
    var block := blocks[i];
    BlockFiles(blocks, i, last, used);
    var c, p;
    ghost var o;
    c, p, o := CountFile(i, block.fileBlocks, checkSum, positionCounter, out);
    ghost var rest := Compact(Repeat(None, block.freeBlocks) + DiskFrom(blocks, i + 1), Pending(blocks, i, last, used));
    Regroup(out, Repeat(i, block.fileBlocks), rest);
    var freeSpace := block.freeBlocks;
    newLast, newLastBlock, newUsed, newCheckSum, newPositionCounter, newOut :=
      FillFree(blocks, i, freeSpace, last, lastBlock, used, c, p, o, target);
  }

  /** `computeRearrangedChecksum`, with the back index stepping over
    every used-up (or empty) file and the last file left alone once the
    index reaches the current block: the checksum of the compacted disk.
    An empty disk map makes `getLast` throw. */
  method RearrangedChecksum(blocks: seq<Block>) returns (r: Option<int>)
    ensures r.None? <==> blocks == []
    ensures r.Some? ==> r.value == CompactedChecksum(blocks)
  {
    if |blocks| == 0 {
      return None;
    }
    ghost var target := Compact(Disk(blocks), Ids(blocks));
    var checkSum := 0;
    var positionCounter := 0;
    var currentLastBlockIndex := |blocks| - 1;
    var currentLastBlock := blocks[currentLastBlockIndex];
    var usedFromLastBlock := 0;
    ghost var out: seq<nat> := [];
    RemainderStart(blocks);
    var i := 0;
    while i < currentLastBlockIndex
      invariant 0 <= currentLastBlockIndex < |blocks| && currentLastBlock == blocks[currentLastBlockIndex]
      invariant checkSum == Checksum(out) && positionCounter == |out|
      invariant 0 <= usedFromLastBlock <= currentLastBlock.fileBlocks
      invariant 0 <= i <= currentLastBlockIndex + 1
      invariant i == currentLastBlockIndex + 1 ==> usedFromLastBlock == currentLastBlock.fileBlocks
      invariant target == out + Remainder(blocks, i, currentLastBlockIndex, usedFromLastBlock)
      decreases |blocks| - i
    {
      currentLastBlockIndex, currentLastBlock, usedFromLastBlock, checkSum, positionCounter, out :=
        ProcessBlock(blocks, i, currentLastBlockIndex, currentLastBlock, usedFromLastBlock,
                     checkSum, positionCounter, out, target);
      i := i + 1;
    }
    TailCells(blocks, i, currentLastBlockIndex, usedFromLastBlock, out, target);
    checkSum, positionCounter, out := CountFile(currentLastBlockIndex, currentLastBlock.fileBlocks - usedFromLastBlock,
                                                checkSum, positionCounter, out);
    SameLayout(out, target, blocks);
    return Some(checkSum);
  }
}
