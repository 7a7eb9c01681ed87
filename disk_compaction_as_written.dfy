/** Part one of the disk compaction exactly as java/9/src/Main.java writes
  it (`computeRearrangedChecksum`), next to the corrected method in
  DiskCompaction: the back index steps over at most one used-up file per
  free cell, and the break at the current block leaves the tail loop to
  count that block's files a second time. */
module DiskCompactionAsWritten {
  import opened Wrappers
  import opened DiskMap

  /** The loop variables of `computeRearrangedChecksum`. */
  datatype Sweep = Sweep(last: int, used: int, position: int, checkSum: int)

  /** A counting loop: `count` cells of file `id` at the next positions. */
  function CountCells(id: int, count: int, s: Sweep): (r: Sweep)
    ensures r.last == s.last && r.used == s.used
    ensures r.position == s.position + (if count < 0 then 0 else count)
    decreases count
  {
    if count <= 0 then s
    else CountCells(id, count - 1, s.(checkSum := s.checkSum + s.position * id, position := s.position + 1))
  }

  /** The free-space `while` loop of block `i`. */
  function FreeLoop(blocks: seq<Block>, i: nat, free: int, s: Sweep): (r: Sweep)
    requires i < s.last < |blocks|
    ensures i <= r.last <= s.last
    decreases free
  {
    if free <= 0 then s
    else
      var s1 := if s.used >= blocks[s.last].fileBlocks then s.(last := s.last - 1, used := 0) else s;
      if s1.last == i then s1
      else FreeLoop(blocks, i, free - 1,
        s1.(checkSum := s1.checkSum + s1.position * s1.last, position := s1.position + 1, used := s1.used + 1))
  }

  /** The outer `for` loop from block `i` on. */
  function OuterLoop(blocks: seq<Block>, i: nat, s: Sweep): (r: Sweep)
    requires 0 <= s.last < |blocks|
    ensures 0 <= r.last < |blocks|
    decreases |blocks| - i
  {
    if i >= s.last then s
    else
      var s1 := CountCells(i, blocks[i].fileBlocks, s);
      OuterLoop(blocks, i + 1, FreeLoop(blocks, i, blocks[i].freeBlocks, s1))
  }

  /** The checksum the source computes; `getLast` throws on an empty map. */
  function AsWrittenChecksum(blocks: seq<Block>): Option<int>
  {
    if blocks == [] then None
    else
      var s := OuterLoop(blocks, 0, Sweep(|blocks| - 1, 0, 0, 0));
      Some(CountCells(s.last, blocks[s.last].fileBlocks - s.used, s).checkSum)
  }

  /** The free-space `while` loop of block `i`, line by line. */
  method FillFreeAsWritten(blocks: seq<Block>, i: nat, freeBlocks: nat, last: int, lastBlock: Block, used: int,
                           position: int, checkSum: int)
    returns (newLast: int, newLastBlock: Block, newUsed: int, newPosition: int, newCheckSum: int)
    requires i < last < |blocks| && lastBlock == blocks[last]
    ensures 0 <= newLast < |blocks| && newLastBlock == blocks[newLast]
    ensures Sweep(newLast, newUsed, newPosition, newCheckSum) == FreeLoop(blocks, i, freeBlocks, Sweep(last, used, position, checkSum))
  {
    newLast, newLastBlock, newUsed, newPosition, newCheckSum := last, lastBlock, used, position, checkSum;
    var freeSpace := freeBlocks;
    while freeSpace > 0
      invariant i < newLast < |blocks| && newLastBlock == blocks[newLast]
      invariant FreeLoop(blocks, i, freeSpace, Sweep(newLast, newUsed, newPosition, newCheckSum)) ==
        FreeLoop(blocks, i, freeBlocks, Sweep(last, used, position, checkSum))
    {
      if newUsed >= newLastBlock.fileBlocks {
        newLast := newLast - 1;
        newLastBlock := blocks[newLast];
        newUsed := 0;
      }
      if newLast == i {
        break;
      }
      newCheckSum := newCheckSum + newPosition * newLast;
      newPosition := newPosition + 1;
      newUsed := newUsed + 1;
      freeSpace := freeSpace - 1;
    }
  }

  /** `computeRearrangedChecksum` line by line. */
  method RearrangedChecksumAsWritten(blocks: seq<Block>) returns (r: Option<int>)
    ensures r == AsWrittenChecksum(blocks)
  {
    if |blocks| == 0 {
      return None;
    }
    var checkSum := 0;
    var positionCounter := 0;
    var currentLastBlockIndex := |blocks| - 1;
    var currentLastBlock := blocks[currentLastBlockIndex];
    var usedFromLastBlock := 0;
    ghost var start := Sweep(currentLastBlockIndex, 0, 0, 0);
    var i := 0;
    while i < currentLastBlockIndex
      invariant 0 <= currentLastBlockIndex < |blocks| && currentLastBlock == blocks[currentLastBlockIndex]
      invariant OuterLoop(blocks, i, Sweep(currentLastBlockIndex, usedFromLastBlock, positionCounter, checkSum)) ==
        OuterLoop(blocks, 0, start)
      decreases |blocks| - i
    {
      var block := blocks[i];
      ghost var before := Sweep(currentLastBlockIndex, usedFromLastBlock, positionCounter, checkSum);
      for j := 0 to block.fileBlocks
        invariant CountCells(i, block.fileBlocks - j, Sweep(currentLastBlockIndex, usedFromLastBlock, positionCounter, checkSum)) ==
          CountCells(i, block.fileBlocks, before)
      {
        checkSum := checkSum + positionCounter * i;
        positionCounter := positionCounter + 1;
      }
      currentLastBlockIndex, currentLastBlock, usedFromLastBlock, positionCounter, checkSum :=
        FillFreeAsWritten(blocks, i, block.freeBlocks, currentLastBlockIndex, currentLastBlock, usedFromLastBlock,
                          positionCounter, checkSum);
      i := i + 1;
    }
    ghost var swept := Sweep(currentLastBlockIndex, usedFromLastBlock, positionCounter, checkSum);
    var j := 0;
    while j < currentLastBlock.fileBlocks - usedFromLastBlock
      invariant j >= 0
      invariant CountCells(currentLastBlockIndex, currentLastBlock.fileBlocks - usedFromLastBlock - j,
        Sweep(currentLastBlockIndex, usedFromLastBlock, positionCounter, checkSum)) ==
        CountCells(currentLastBlockIndex, currentLastBlock.fileBlocks - usedFromLastBlock, swept)
    {
      checkSum := checkSum + positionCounter * currentLastBlockIndex;
      positionCounter := positionCounter + 1;
      j := j + 1;
    }
    return Some(checkSum);
  }

  /** The disk map "11111": with the front and the back index both at
    block 1, the break leaves block 1's file to the tail loop, which counts
    it a second time, at position 3. */
  lemma TailCountsFileTwice()
    ensures AsWrittenChecksum([Block(1, 1), Block(1, 1), Block(1, 0)]) == Some(7)
    ensures CompactedChecksum([Block(1, 1), Block(1, 1), Block(1, 0)]) == 4
  {
    var blocks := [Block(1, 1), Block(1, 1), Block(1, 0)];
    assert Disk(blocks) == [Some(0), None, Some(1), None, Some(2)];
    assert Ids(blocks) == [0, 1, 2];
    CompactOfOnes();
    ChecksumOfOnes();
  }

  /** The disk map "02001": after file 2 is used up the back index moves
    to file 1, which is empty, and a free cell still gets id 1. */
  lemma EmptyFileCounted()
    ensures AsWrittenChecksum([Block(0, 2), Block(0, 0), Block(1, 0)]) == Some(1)
    ensures CompactedChecksum([Block(0, 2), Block(0, 0), Block(1, 0)]) == 0
  {
    var blocks := [Block(0, 2), Block(0, 0), Block(1, 0)];
    assert Disk(blocks) == [None, None, Some(2)];
    assert Ids(blocks) == [2];
    CompactOfEmptyFiles();
    ChecksumOfEmptyFiles();
  }

  lemma CompactOfOnes()
    ensures Compact([Some(0), None, Some(1), None, Some(2)], [0, 1, 2]) == [0, 2, 1]
  {
    assert Compact([None, Some(2)], []) == [];
    assert [Some(1), None, Some(2)] == [Some(1)] + [None, Some(2)];
    CompactFile(1, [None, Some(2)], [1]);
    assert [1][1..] == [];
    assert Compact([Some(1), None, Some(2)], [1]) == [1];
    assert [None, Some(1), None, Some(2)] == [None] + [Some(1), None, Some(2)];
    CompactFree([Some(1), None, Some(2)], [1, 2]);
    assert [1, 2][..1] == [1];
    assert Compact([None, Some(1), None, Some(2)], [1, 2]) == [2, 1];
    assert [Some(0), None, Some(1), None, Some(2)] == [Some(0)] + [None, Some(1), None, Some(2)];
    CompactFile(0, [None, Some(1), None, Some(2)], [0, 1, 2]);
    assert [0, 1, 2][1..] == [1, 2];
    assert Compact([Some(0), None, Some(1), None, Some(2)], [0, 1, 2]) == [0, 2, 1];
  }

  lemma ChecksumOfOnes()
    ensures Checksum([0, 2, 1]) == 4
  {
    ChecksumSnoc([], 0);
    assert [] + [0] == [0];
    ChecksumSnoc([0], 2);
    assert [0] + [2] == [0, 2];
    ChecksumSnoc([0, 2], 1);
    assert [0, 2] + [1] == [0, 2, 1];
  }

  lemma CompactOfEmptyFiles()
    ensures Compact([None, None, Some(2)], [2]) == [2]
  {
    assert Compact([None, Some(2)], []) == [];
    assert [None, None, Some(2)] == [None] + [None, Some(2)];
    CompactFree([None, Some(2)], [2]);
    assert [2][..0] == [];
    assert Compact([None, None, Some(2)], [2]) == [2];
  }

  lemma ChecksumOfEmptyFiles()
    ensures Checksum([2]) == 0
  {
    ChecksumSnoc([], 2);
    assert [] + [2] == [2];
  }
}
