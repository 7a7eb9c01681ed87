/** Part two of the disk compaction (java/9/src/Main.java,
  `computeWholeFileRearrangementChecksum`): files move whole. Walking the
  blocks from the front, each block's free space takes, from the back,
  every not yet placed file that still fits; a file already moved leaves
  free cells where it stood. */
module DiskWholeFiles {
  import opened Wrappers
  import opened DiskMap

  /** The position of block `k`'s first cell. */
  function Offset(blocks: seq<Block>, k: nat): nat
    requires k <= |blocks|
  {
    if k == 0 then 0 else Offset(blocks, k - 1) + blocks[k - 1].fileBlocks + blocks[k - 1].freeBlocks
  }

  lemma {:induction false} OffsetMonotone(blocks: seq<Block>, a: nat, b: nat)
    requires a <= b <= |blocks|
    ensures Offset(blocks, a) <= Offset(blocks, b)
    decreases b - a
  {
    if a < b {
      OffsetMonotone(blocks, a, b - 1);
    }
  }

  /** The checksum of a layout with free cells: each position times the
    file id stored there. */
  function LayoutChecksum(layout: seq<Option<nat>>): int
  {
    if layout == [] then 0
    else
      var p := |layout| - 1;
      LayoutChecksum(layout[..p]) + (if layout[p].Some? then p * layout[p].value else 0)
  }

  lemma LayoutChecksumSnoc(layout: seq<Option<nat>>, x: Option<nat>)
    ensures LayoutChecksum(layout + [x]) == LayoutChecksum(layout) + (if x.Some? then |layout| * x.value else 0)
  {
    assert (layout + [x])[..|layout|] == layout;
  }

  /** Free cells add nothing to the checksum. */
  lemma {:induction false} LayoutChecksumFree(layout: seq<Option<nat>>, n: nat)
    ensures LayoutChecksum(layout + Repeat(None, n)) == LayoutChecksum(layout)
    decreases n
  {
    if n > 0 {
      RepeatSnoc<Option<nat>>(None, n);
      assert layout + Repeat(None, n) == (layout + Repeat(None, n - 1)) + [None];
      LayoutChecksumSnoc(layout + Repeat(None, n - 1), None);
      LayoutChecksumFree(layout, n - 1);
    } else {
      assert layout + Repeat(None, n) == layout;
    }
  }

  /** A run of `n` equal cells holds that value `n` times and no other. */
  lemma {:induction false} RepeatMultiset<T>(x: T, n: nat)
    ensures forall y :: y != x ==> multiset(Repeat(x, n))[y] == 0
    ensures multiset(Repeat(x, n))[x] == n
    decreases n
  {
    if n > 0 {
      RepeatSnoc(x, n);
      RepeatMultiset(x, n - 1);
    } else {
      assert Repeat(x, n) == [];
    }
  }

  /** File `j`'s `f` cells stand together from position `s` on. */
  ghost predicate Placed(layout: seq<Option<nat>>, j: nat, s: nat, f: nat)
  {
    s + f <= |layout| && forall k :: s <= k < s + f ==> layout[k] == Some(j)
  }

  /** Position `s` starts a run of file `j`'s length inside the free space
    of a block before `j`. */
  ghost predicate MovedInto(blocks: seq<Block>, j: nat, s: nat)
    requires j < |blocks|
  {
    exists k :: 0 <= k < j &&
      Offset(blocks, k) + blocks[k].fileBlocks <= s && s + blocks[j].fileBlocks <= Offset(blocks, k + 1)
  }

  /** What the walk knows after the layout so far: the files in `usedFiles`
    are placed once each, whole, at or before their own position, either
    where they stand or inside the free space of an earlier block; no other
    file has a cell yet. */
  ghost predicate Tracked(blocks: seq<Block>, layout: seq<Option<nat>>, usedFiles: set<int>, start: map<int, nat>)
  {
    (forall j :: j in usedFiles ==> 0 <= j < |blocks|) &&
    (forall p :: 0 <= p < |layout| && layout[p].Some? ==> layout[p].value < |blocks|) &&
    (forall j :: 0 <= j < |blocks| ==>
      multiset(layout)[Some(j)] == if j in usedFiles then blocks[j].fileBlocks else 0) &&
    (forall j :: j in usedFiles ==> FileAt(blocks, layout, start, j))
  }

  /** File `j` stands whole at `start[j]`, at or before its own position,
    either where it stands or inside the free space of an earlier block. */
  ghost predicate FileAt(blocks: seq<Block>, layout: seq<Option<nat>>, start: map<int, nat>, j: int)
  {
    j in start && 0 <= j < |blocks| &&
    Placed(layout, j, start[j], blocks[j].fileBlocks) && start[j] <= Offset(blocks, j) &&
    (start[j] == Offset(blocks, j) || MovedInto(blocks, j, start[j]))
  }

  /** Once every file is placed, the layout holds each exactly once. */
  lemma TrackedAll(blocks: seq<Block>, layout: seq<Option<nat>>, usedFiles: set<int>, start: map<int, nat>)
    requires Tracked(blocks, layout, usedFiles, start)
    requires Below(|blocks|) <= usedFiles
    ensures forall p :: 0 <= p < |layout| && layout[p].Some? ==> layout[p].value < |blocks|
    ensures forall j :: 0 <= j < |blocks| ==> multiset(layout)[Some(j)] == blocks[j].fileBlocks
    ensures forall j :: 0 <= j < |blocks| ==> FileAt(blocks, layout, start, j)
  {
    forall j | 0 <= j < |blocks|
      ensures j in usedFiles
    {
      BelowMembers(|blocks|, j);
    }
  }

  lemma TrackedStart(blocks: seq<Block>)
    ensures Tracked(blocks, [], {}, map[])
  {
  }

  /** Free cells keep what the walk knows. */
  lemma TrackedFree(blocks: seq<Block>, layout: seq<Option<nat>>, usedFiles: set<int>, start: map<int, nat>, n: nat)
    requires Tracked(blocks, layout, usedFiles, start)
    ensures Tracked(blocks, layout + Repeat(None, n), usedFiles, start)
  {
    var next := layout + Repeat(None, n);
    RepeatMultiset<Option<nat>>(None, n);
    forall j | j in usedFiles
      ensures Placed(next, j, start[j], blocks[j].fileBlocks)
    {
      assert forall k :: start[j] <= k < start[j] + blocks[j].fileBlocks ==> next[k] == layout[k];
    }
    forall p | 0 <= p < |next| && next[p].Some?
      ensures next[p].value < |blocks|
    {
      assert p < |layout|;
    }
  }

  /** File `j`, not placed yet, placed whole at the end of the layout. */
  lemma TrackedPlace(blocks: seq<Block>, layout: seq<Option<nat>>, usedFiles: set<int>, start: map<int, nat>, j: nat)
    requires Tracked(blocks, layout, usedFiles, start)
    requires j < |blocks| && j !in usedFiles
    requires |layout| == Offset(blocks, j) || (|layout| <= Offset(blocks, j) && MovedInto(blocks, j, |layout|))
    ensures Tracked(blocks, layout + Repeat(Some(j), blocks[j].fileBlocks), usedFiles + {j}, start[j := |layout|])
  {
    var next := layout + Repeat(Some(j), blocks[j].fileBlocks);
    PlaceIds(blocks, layout, j);
    PlaceCounts(blocks, layout, usedFiles, j);
    forall k | k in usedFiles + {j}
      ensures FileAt(blocks, next, start[j := |layout|], k)
    {
      if k == j {
        PlaceNew(blocks, layout, start, j);
      } else {
        PlaceKeeps(blocks, layout, start, j, k);
      }
    }
  }

  lemma PlaceIds(blocks: seq<Block>, layout: seq<Option<nat>>, j: nat)
    requires j < |blocks|
    requires forall p :: 0 <= p < |layout| && layout[p].Some? ==> layout[p].value < |blocks|
    ensures var next := layout + Repeat(Some(j), blocks[j].fileBlocks);
      forall p :: 0 <= p < |next| && next[p].Some? ==> next[p].value < |blocks|
  {
    var next := layout + Repeat(Some(j), blocks[j].fileBlocks);
    forall p | 0 <= p < |next| && next[p].Some?
      ensures next[p].value < |blocks|
    {
      if p < |layout| {
        assert next[p] == layout[p];
      }
    }
  }

  lemma PlaceCounts(blocks: seq<Block>, layout: seq<Option<nat>>, usedFiles: set<int>, j: nat)
    requires j < |blocks| && j !in usedFiles
    requires forall k :: 0 <= k < |blocks| ==>
      multiset(layout)[Some(k)] == if k in usedFiles then blocks[k].fileBlocks else 0
    ensures var next := layout + Repeat(Some(j), blocks[j].fileBlocks);
      forall k :: 0 <= k < |blocks| ==>
        multiset(next)[Some(k)] == if k in usedFiles + {j} then blocks[k].fileBlocks else 0
  {
    var f := blocks[j].fileBlocks;
    RepeatMultiset(Some(j), f);
    assert multiset(layout + Repeat(Some(j), f)) == multiset(layout) + multiset(Repeat(Some(j), f));
  }

  lemma PlaceNew(blocks: seq<Block>, layout: seq<Option<nat>>, start: map<int, nat>, j: nat)
    requires j < |blocks|
    requires |layout| == Offset(blocks, j) || (|layout| <= Offset(blocks, j) && MovedInto(blocks, j, |layout|))
    ensures FileAt(blocks, layout + Repeat(Some(j), blocks[j].fileBlocks), start[j := |layout|], j)
  {
    var next := layout + Repeat(Some(j), blocks[j].fileBlocks);
    assert forall q :: |layout| <= q < |layout| + blocks[j].fileBlocks ==> next[q] == Some(j);
  }

  lemma PlaceKeeps(blocks: seq<Block>, layout: seq<Option<nat>>, start: map<int, nat>, j: nat, k: int)
    requires j < |blocks| && k != j && FileAt(blocks, layout, start, k)
    ensures FileAt(blocks, layout + Repeat(Some(j), blocks[j].fileBlocks), start[j := |layout|], k)
  {
    var next := layout + Repeat(Some(j), blocks[j].fileBlocks);
    assert forall q :: start[k] <= q < start[k] + blocks[k].fileBlocks ==> next[q] == layout[q];
  }

  /** The counting loops: `count` cells of file `id` at the next positions. */
  method PlaceCells(id: nat, count: nat, checkSum: int, positionCounter: nat, ghost layout: seq<Option<nat>>)
    returns (newCheckSum: int, newPositionCounter: nat, ghost newLayout: seq<Option<nat>>)
    requires checkSum == LayoutChecksum(layout) && positionCounter == |layout|
    ensures newLayout == layout + Repeat(Some(id), count)
    ensures newCheckSum == LayoutChecksum(newLayout) && newPositionCounter == |newLayout|
  {
    newCheckSum, newPositionCounter, newLayout := checkSum, positionCounter, layout;
    var x := 0;
    while x < count
      invariant 0 <= x <= count
      invariant newLayout == layout + Repeat(Some(id), x)
      invariant newCheckSum == LayoutChecksum(newLayout) && newPositionCounter == |newLayout|
    {
      LayoutChecksumSnoc(newLayout, Some(id));
      RepeatSnoc(Some(id), x + 1);
      assert layout + Repeat(Some(id), x + 1) == (layout + Repeat(Some(id), x)) + [Some(id)];
      newCheckSum := newCheckSum + newPositionCounter * id;
      newPositionCounter := newPositionCounter + 1;
      newLayout := newLayout + [Some(id)];
      x := x + 1;
    }
    assert Repeat(Some(id), 0) == [];
  }

  /** The inner `for` loop of block `i`: from the last block back to block
    `i + 1`, every file not placed yet that fits in what is left of the
    free space moves there whole. */
  method FillWithWholeFiles(blocks: seq<Block>, i: nat, usedFiles: set<int>, checkSum: int, positionCounter: nat,
                            ghost layout: seq<Option<nat>>, ghost start: map<int, nat>)
    returns (newUsedFiles: set<int>, freeSpace: nat, newCheckSum: int, newPositionCounter: nat,
             ghost newLayout: seq<Option<nat>>, ghost newStart: map<int, nat>)
    requires i < |blocks| && |layout| == Offset(blocks, i) + blocks[i].fileBlocks
    requires checkSum == LayoutChecksum(layout) && positionCounter == |layout|
    requires Tracked(blocks, layout, usedFiles, start)
    ensures newUsedFiles >= usedFiles && Tracked(blocks, newLayout, newUsedFiles, newStart)
    ensures |newLayout| + freeSpace == Offset(blocks, i + 1)
    ensures newCheckSum == LayoutChecksum(newLayout) && newPositionCounter == |newLayout|
  {
    newUsedFiles, newCheckSum, newPositionCounter, newLayout, newStart := usedFiles, checkSum, positionCounter, layout, start;
    freeSpace := blocks[i].freeBlocks;
    var j := |blocks| - 1;
    while j > i && freeSpace > 0
      invariant i <= j < |blocks|
      invariant newUsedFiles >= usedFiles && Tracked(blocks, newLayout, newUsedFiles, newStart)
      invariant Offset(blocks, i) + blocks[i].fileBlocks <= |newLayout|
      invariant |newLayout| + freeSpace == Offset(blocks, i + 1)
      invariant newCheckSum == LayoutChecksum(newLayout) && newPositionCounter == |newLayout|
    {
      if j !in newUsedFiles {
        var movedBlock := blocks[j];
        if movedBlock.fileBlocks <= freeSpace {
          freeSpace := freeSpace - movedBlock.fileBlocks;
          OffsetMonotone(blocks, i + 1, j);
          assert Offset(blocks, i) + blocks[i].fileBlocks <= |newLayout| &&
            |newLayout| + blocks[j].fileBlocks <= Offset(blocks, i + 1);
          TrackedPlace(blocks, newLayout, newUsedFiles, newStart, j);
          newUsedFiles := newUsedFiles + {j};
          newStart := newStart[j := |newLayout|];
          newCheckSum, newPositionCounter, newLayout := PlaceCells(j, movedBlock.fileBlocks, newCheckSum, newPositionCounter, newLayout);
        }
      }
      j := j - 1;
    }
  }

  /** One turn of the outer loop: block `i`'s file where it stands, or free
    cells if it has moved already; then its free space filled with files
    from the back, and what is left of it free. */
  method PlaceBlock(blocks: seq<Block>, i: nat, usedFiles: set<int>, checkSum: int, positionCounter: nat,
                    ghost layout: seq<Option<nat>>, ghost start: map<int, nat>)
    returns (newUsedFiles: set<int>, newCheckSum: int, newPositionCounter: nat,
             ghost newLayout: seq<Option<nat>>, ghost newStart: map<int, nat>)
    requires i < |blocks| && |layout| == Offset(blocks, i)
    requires checkSum == LayoutChecksum(layout) && positionCounter == |layout|
    requires Tracked(blocks, layout, usedFiles, start)
    ensures newUsedFiles >= usedFiles + {i} && Tracked(blocks, newLayout, newUsedFiles, newStart)
    ensures |newLayout| == Offset(blocks, i + 1)
    ensures newCheckSum == LayoutChecksum(newLayout) && newPositionCounter == |newLayout|
  {
    newUsedFiles, newCheckSum, newPositionCounter, newLayout, newStart := usedFiles, checkSum, positionCounter, layout, start;
    var block := blocks[i];
    if i in newUsedFiles {
      TrackedFree(blocks, newLayout, newUsedFiles, newStart, block.fileBlocks);
      LayoutChecksumFree(newLayout, block.fileBlocks);
      newLayout := newLayout + Repeat(None, block.fileBlocks);
      newPositionCounter := newPositionCounter + block.fileBlocks;
    } else {
      TrackedPlace(blocks, newLayout, newUsedFiles, newStart, i);
      newStart := newStart[i := |newLayout|];
      newCheckSum, newPositionCounter, newLayout := PlaceCells(i, block.fileBlocks, newCheckSum, newPositionCounter, newLayout);
      newUsedFiles := newUsedFiles + {i};
    }
    var freeSpace;
    newUsedFiles, freeSpace, newCheckSum, newPositionCounter, newLayout, newStart :=
      FillWithWholeFiles(blocks, i, newUsedFiles, newCheckSum, newPositionCounter, newLayout, newStart);
    TrackedFree(blocks, newLayout, newUsedFiles, newStart, freeSpace);
    LayoutChecksumFree(newLayout, freeSpace);
    newLayout := newLayout + Repeat(None, freeSpace);
    newPositionCounter := newPositionCounter + freeSpace;
  }

  /** The blocks before `i`. */
  function Below(i: int): set<int>
    decreases i
  {
    if i <= 0 then {} else Below(i - 1) + {i - 1}
  }

  lemma {:induction false} BelowMembers(i: int, j: int)
    ensures j in Below(i) <==> 0 <= j < i
    decreases i
  {
    if i > 0 {
      BelowMembers(i - 1, j);
    }
  }

  /** `computeWholeFileRearrangementChecksum`: the checksum of a layout as
    long as the disk in which every file appears exactly once and whole,
    at or before its own position, either where it stands or moved into the
    free space of an earlier block. */
  method WholeFileChecksum(blocks: seq<Block>)
    returns (checkSum: int, ghost layout: seq<Option<nat>>, ghost start: map<int, nat>)
    ensures checkSum == LayoutChecksum(layout)
    ensures |layout| == Offset(blocks, |blocks|)
    ensures forall p :: 0 <= p < |layout| && layout[p].Some? ==> layout[p].value < |blocks|
    ensures forall j :: 0 <= j < |blocks| ==> multiset(layout)[Some(j)] == blocks[j].fileBlocks
    ensures forall j :: 0 <= j < |blocks| ==> FileAt(blocks, layout, start, j)
  {
    checkSum := 0;
    var positionCounter := 0;
    var usedFiles: set<int> := {};
    layout, start := [], map[];
    TrackedStart(blocks);
    var i := 0;
    while i < |blocks|
      invariant 0 <= i <= |blocks| && |layout| == Offset(blocks, i)
      invariant checkSum == LayoutChecksum(layout) && positionCounter == |layout|
      invariant Tracked(blocks, layout, usedFiles, start)
      invariant Below(i) <= usedFiles
    {
      usedFiles, checkSum, positionCounter, layout, start :=
        PlaceBlock(blocks, i, usedFiles, checkSum, positionCounter, layout, start);
      i := i + 1;
    }
    TrackedAll(blocks, layout, usedFiles, start);
  }
}
