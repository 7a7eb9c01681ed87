/** The disk map of the amphipod's disk (java/9/src/Main.java): a line of
  digits alternating file lengths and free-space lengths, the disk it
  describes, and what compacting that disk means. */
module DiskMap {
  import opened Wrappers

  /** `Block`: one file and the free space after it. */
  datatype Block = Block(fileBlocks: nat, freeBlocks: nat)

  function Repeat<T>(x: T, n: nat): (r: seq<T>)
    ensures |r| == n && forall k :: 0 <= k < n ==> r[k] == x
  {
    seq(n, _ => x)
  }

  lemma RepeatCons<T>(x: T, n: nat)
    requires n > 0
    ensures Repeat(x, n) == [x] + Repeat(x, n - 1)
  {
  }

  lemma RepeatSnoc<T>(x: T, n: nat)
    requires n > 0
    ensures Repeat(x, n) == Repeat(x, n - 1) + [x]
  {
  }

  /** `Character.getNumericValue` on ASCII characters: a decimal digit
    gives its value, a Latin letter of either case gives 10 for `a` up to 35
    for `z`, and every other ASCII character gives -1. Other characters are
    outside this model (`None`). */
  function NumericValue(c: char): (r: Option<int>)
    ensures r.Some? <==> c as int < 128
    ensures '0' <= c <= '9' ==> r == Some(c as int - '0' as int)
    ensures 'a' <= c <= 'z' ==> r == Some(c as int - 'a' as int + 10)
    ensures 'A' <= c <= 'Z' ==> r == Some(c as int - 'A' as int + 10)
    ensures r.Some? && r.value >= 0 ==> r.value <= 35 && ('0' <= c <= '9' || 'a' <= c <= 'z' || 'A' <= c <= 'Z')
  {
    if '0' <= c <= '9' then Some(c as int - '0' as int)
    else if 'a' <= c <= 'z' then Some(c as int - 'a' as int + 10)
    else if 'A' <= c <= 'Z' then Some(c as int - 'A' as int + 10)
    else if c as int < 128 then Some(-1)
    else None
  }

  /** A character whose numeric value is modelled and is a length. */
  predicate IsLength(c: char)
  {
    NumericValue(c).Some? && NumericValue(c).value >= 0
  }

  function LengthValue(c: char): nat
    requires IsLength(c)
  {
    NumericValue(c).value
  }

  /** `readInput`: every two characters make a block, the second one its
    free space, which is 0 for a last character without a partner. Each
    length is the character's numeric value, so a letter stands for 10 to
    35. `None` stands for a line whose lengths Java would make negative, or
    that holds a character outside ASCII. */
  method ReadInput(line: string) returns (r: Option<seq<Block>>)
    ensures r.Some? <==> forall k :: 0 <= k < |line| ==> IsLength(line[k])
    ensures r.Some? ==> |r.value| == (|line| + 1) / 2
    ensures r.Some? ==> forall k :: 0 <= k < |r.value| ==>
      r.value[k].fileBlocks == NumericValue(line[2 * k]).value &&
      r.value[k].freeBlocks == (if 2 * k + 1 < |line| then NumericValue(line[2 * k + 1]).value else 0)
  {
    if exists k :: 0 <= k < |line| && !IsLength(line[k]) {
      return None;
    }
    var blocks: seq<Block> := [];
    var i := 0;
    while i < |line|
      invariant 0 <= i <= |line| + 1 && i % 2 == 0 && |blocks| == i / 2
      invariant i > |line| ==> i == |line| + 1
      invariant forall k :: 0 <= k < |blocks| ==>
        blocks[k].fileBlocks == LengthValue(line[2 * k]) &&
        blocks[k].freeBlocks == (if 2 * k + 1 < |line| then LengthValue(line[2 * k + 1]) else 0)
    {
      var fileBlocks := LengthValue(line[i]);
      var freeBlocks := 0;
      if i + 1 < |line| {
        freeBlocks := LengthValue(line[i + 1]);
      }
      blocks := blocks + [Block(fileBlocks, freeBlocks)];
      i := i + 2;
    }
    return Some(blocks);
  }

  /** The cells of blocks `i` onward: each file's id on its cells, then its
    free cells. */
  function DiskFrom(blocks: seq<Block>, i: nat): seq<Option<nat>>
    decreases |blocks| - i
  {
    if i >= |blocks| then []
    else Repeat(Some(i), blocks[i].fileBlocks) + Repeat(None, blocks[i].freeBlocks) + DiskFrom(blocks, i + 1)
  }

  function Disk(blocks: seq<Block>): seq<Option<nat>>
  {
    DiskFrom(blocks, 0)
  }

  /** The file cells of blocks `a` up to `b`, in disk order. */
  function IdsRange(blocks: seq<Block>, a: nat, b: nat): seq<nat>
    requires b <= |blocks|
    decreases b - a
  {
    if a >= b then [] else Repeat(a, blocks[a].fileBlocks) + IdsRange(blocks, a + 1, b)
  }

  function Ids(blocks: seq<Block>): seq<nat>
  {
    IdsRange(blocks, 0, |blocks|)
  }

  lemma {:induction false} IdsRangeSnoc(blocks: seq<Block>, a: nat, b: nat)
    requires a < b <= |blocks|
    ensures IdsRange(blocks, a, b) == IdsRange(blocks, a, b - 1) + Repeat(b - 1, blocks[b - 1].fileBlocks)
    decreases b - a
  {
    if a < b - 1 {
      IdsRangeSnoc(blocks, a + 1, b);
    }
  }

  /** Compaction, one disk cell at a time from the left: a file cell keeps
    the next file cell from the front, a free cell takes the last file cell
    from the back, until every file cell is placed. */
  function Compact(disk: seq<Option<nat>>, ids: seq<nat>): seq<nat>
    decreases |ids|
  {
    if ids == [] || disk == [] then []
    else if disk[0].Some? then [ids[0]] + Compact(disk[1..], ids[1..])
    else [ids[|ids| - 1]] + Compact(disk[1..], ids[..|ids| - 1])
  }

  /** Compaction only moves file cells: with room for all of them, the
    result holds each exactly once. */
  lemma {:induction false} CompactPermutes(disk: seq<Option<nat>>, ids: seq<nat>)
    requires |ids| <= |disk|
    ensures |Compact(disk, ids)| == |ids|
    ensures multiset(Compact(disk, ids)) == multiset(ids)
    decreases |ids|
  {
    if ids != [] {
      if disk[0].Some? {
        CompactPermutes(disk[1..], ids[1..]);
        assert ids == [ids[0]] + ids[1..];
      } else {
        var n := |ids| - 1;
        CompactPermutes(disk[1..], ids[..n]);
        assert ids == ids[..n] + [ids[n]];
      }
    }
  }

  lemma CompactFile(x: nat, rest: seq<Option<nat>>, ids: seq<nat>)
    requires ids != []
    ensures Compact([Some(x)] + rest, ids) == [ids[0]] + Compact(rest, ids[1..])
  {
    assert ([Some(x)] + rest)[1..] == rest;
  }

  lemma CompactFree(rest: seq<Option<nat>>, ids: seq<nat>)
    requires ids != []
    ensures Compact([None] + rest, ids) == [ids[|ids| - 1]] + Compact(rest, ids[..|ids| - 1])
  {
    assert ([None] + rest)[1..] == rest;
  }

  /** While file cells are ahead, compaction keeps them where they are. */
  lemma {:induction false} CompactFront(x: nat, f: nat, rest: seq<Option<nat>>, y: nat, k: nat)
    requires k <= f
    ensures Compact(Repeat(Some(x), f) + rest, Repeat(y, k)) == Repeat(y, k)
    decreases k
  {
    if k > 0 {
      RepeatCons(Some(x), f);
      RepeatCons(y, k);
      assert Repeat(Some(x), f) + rest == [Some(x)] + (Repeat(Some(x), f - 1) + rest);
      CompactFile(x, Repeat(Some(x), f - 1) + rest, Repeat(y, k));
      CompactFront(x, f - 1, rest, y, k - 1);
    }
  }

  /** The filesystem checksum: each position times the file id stored there. */
  function Checksum(layout: seq<nat>): int
  {
    if layout == [] then 0
    else Checksum(layout[..|layout| - 1]) + (|layout| - 1) * layout[|layout| - 1]
  }

  lemma ChecksumSnoc(layout: seq<nat>, x: nat)
    ensures Checksum(layout + [x]) == Checksum(layout) + |layout| * x
  {
    assert (layout + [x])[..|layout|] == layout;
  }

  /** The checksum of the compacted disk: what part one asks for. */
  function CompactedChecksum(blocks: seq<Block>): int
  {
    Checksum(Compact(Disk(blocks), Ids(blocks)))
  }
}
