/** Key and lock schematics (rust/25): parsing the blocks of a schematic file
  into column heights, and counting the key/lock pairs that fit. */
module KeysLocks {
  import opened Wrappers

  /** The five column heights of a key or a lock. */
  type Heights = s: seq<nat> | |s| == 5 witness [0, 0, 0, 0, 0]

  datatype Input = Input(keys: seq<Heights>, locks: seq<Heights>)

  /** Of the five inner rows, a lock's pin in column `i` fills the top
    `lock[i]` and a key's tooth fills the bottom `key[i]`. */
  predicate LockFills(lock: Heights, i: nat, row: nat)
    requires i < 5
  {
    row < lock[i]
  }

  predicate KeyFills(key: Heights, i: nat, row: nat)
    requires i < 5
  {
    5 - key[i] <= row
  }

  predicate Overlap(key: Heights, lock: Heights)
  {
    exists i: nat, row: nat :: i < 5 && row < 5 && LockFills(lock, i, row) && KeyFills(key, i, row)
  }

  predicate WithinRows(h: Heights)
  {
    forall i :: 0 <= i < 5 ==> h[i] <= 5
  }

  /** `matches`: in every column the key and the lock together fit into the
    five free rows. For heights that fit the rows this is exactly that no
    pin and no tooth share a cell. */
  predicate Matches(key: Heights, lock: Heights)
    ensures WithinRows(key) && WithinRows(lock) ==> (Matches(key, lock) <==> !Overlap(key, lock))
  {
    MatchesNoOverlap(key, lock);
    forall i :: 0 <= i < 5 ==> key[i] + lock[i] <= 5
  }

  lemma MatchesNoOverlap(key: Heights, lock: Heights)
    ensures WithinRows(key) && WithinRows(lock) ==>
      ((forall i :: 0 <= i < 5 ==> key[i] + lock[i] <= 5) <==> !Overlap(key, lock))
  {
    if WithinRows(key) && WithinRows(lock) {
      if exists i :: 0 <= i < 5 && key[i] + lock[i] > 5 {
        var i :| 0 <= i < 5 && key[i] + lock[i] > 5;
        assert LockFills(lock, i, 5 - key[i]) && KeyFills(key, i, 5 - key[i]);
      }
    }
  }

  lemma MatchesSymmetric(key: Heights, lock: Heights)
    ensures Matches(key, lock) <==> Matches(lock, key)
  {
  }

  /** Number of locks that fit `key`. */
  function FittingLocks(key: Heights, locks: seq<Heights>): (n: nat)
    ensures n <= |locks|
  {
    if locks == [] then 0
    else FittingLocks(key, locks[..|locks| - 1]) + (if Matches(key, locks[|locks| - 1]) then 1 else 0)
  }

  /** Number of (key, lock) index pairs that fit. */
  function FittingPairs(keys: seq<Heights>, locks: seq<Heights>): nat
  {
    if keys == [] then 0
    else FittingPairs(keys[..|keys| - 1], locks) + FittingLocks(keys[|keys| - 1], locks)
  }

  lemma {:induction false} FittingPairsBound(keys: seq<Heights>, locks: seq<Heights>)
    ensures FittingPairs(keys, locks) <= |keys| * |locks|
  {
    if keys != [] {
      var n, m := |keys| - 1, |locks|;
      FittingPairsBound(keys[..n], locks);
      assert FittingLocks(keys[n], locks) <= m;
      assert n * m + m == (n + 1) * m;
    }
  }

  /** `part_one`: the nested loops over keys and locks. */
  method PartOne(input: Input) returns (sum: nat)
    ensures sum == FittingPairs(input.keys, input.locks)
    ensures sum <= |input.keys| * |input.locks|
  {
    var keys, locks := input.keys, input.locks;
    sum := 0;
    for k := 0 to |keys|
      invariant sum == FittingPairs(keys[..k], locks)
    {
      var key := keys[k];
      var inner := 0;
      for l := 0 to |locks|
        invariant inner == FittingLocks(key, locks[..l])
      {
        if Matches(key, locks[l]) {
          inner := inner + 1;
        }
        assert locks[..l + 1][..l] == locks[..l];
      }
      assert locks[..|locks|] == locks;
      assert keys[..k + 1][..k] == keys[..k];
      sum := sum + inner;
    }
    assert keys[..|keys|] == keys;
    FittingPairsBound(keys, locks);
  }

  // ---------------------------------------------------------------------
  // Parsing one block of lines. The first line decides lock or key; the
  // next five lines are counted column by column.

  /** The lines that are counted: at most five after the first. */
  function DataLines(block: seq<string>): (d: seq<string>)
    requires |block| > 0
    ensures |d| <= 5 && (|d| == |block| - 1 || |d| == 5)
  {
    block[1..if |block| < 6 then |block| else 6]
  }

  predicate IsLockLine(first: string)
  {
    |first| > 0 && first[0] == '#'
  }

  /** A character may be '.' anywhere and '#' only in the five columns of
    the item; any other character, or a '#' further right, aborts. */
  predicate CharOk(c: char, column: nat)
  {
    c == '.' || (c == '#' && column < 5)
  }

  predicate LineOk(line: string)
  {
    forall k :: 0 <= k < |line| ==> CharOk(line[k], k)
  }

  predicate LinesOk(lines: seq<string>)
  {
    forall j :: 0 <= j < |lines| ==> LineOk(lines[j])
  }

  predicate BlockOk(block: seq<string>)
  {
    |block| > 0 && LinesOk(DataLines(block))
  }

  function Hit(line: string, column: nat): nat
  {
    if column < |line| && line[column] == '#' then 1 else 0
  }

  /** Number of '#' characters in `column` over `lines`. */
  function ColumnCount(lines: seq<string>, column: nat): (n: nat)
    ensures n <= |lines|
  {
    if lines == [] then 0
    else ColumnCount(lines[..|lines| - 1], column) + Hit(lines[|lines| - 1], column)
  }

  /** The heights one block parses to. */
  function BlockItem(block: seq<string>): (h: Heights)
    requires |block| > 0
    ensures forall i :: 0 <= i < 5 ==> h[i] <= 5
  {
    var d := DataLines(block);
    [ColumnCount(d, 0), ColumnCount(d, 1), ColumnCount(d, 2), ColumnCount(d, 3), ColumnCount(d, 4)]
  }

  /** Counting one more line adds that line's hit to every column. */
  lemma CountsStep(lines: seq<string>, li: nat, before: seq<nat>, after: seq<nat>)
    requires li < |lines| && |before| == 5 && |after| == 5
    requires forall i :: 0 <= i < 5 ==> before[i] == ColumnCount(lines[..li], i)
    requires forall i :: 0 <= i < 5 ==> after[i] == before[i] + Hit(lines[li], i)
    ensures forall i :: 0 <= i < 5 ==> after[i] == ColumnCount(lines[..li + 1], i)
  {
    assert lines[..li + 1][..li] == lines[..li];
    assert lines[..li + 1][li] == lines[li];
  }

  /** Column counts over all the data lines are the block's heights. */
  lemma CountsAreItem(block: seq<string>, counts: seq<nat>)
    requires |block| > 0 && |counts| == 5
    requires forall i :: 0 <= i < 5 ==> counts[i] == ColumnCount(DataLines(block), i)
    ensures counts == BlockItem(block)
  {
    assert forall i :: 0 <= i < 5 ==> counts[i] == BlockItem(block)[i];
  }

  /** A line with a character that may not stand in its column rejects
    the block. */
  lemma BadLineRejects(block: seq<string>, li: nat)
    requires |block| > 0 && li < |DataLines(block)|
    requires !LineOk(DataLines(block)[li])
    ensures !BlockOk(block)
  {
  }

  /** The inner loop of one block's parse: each '#' of `line` adds one to
    its column of `item`. A '#' past column 4 indexes outside the array
    and any other character than '.' is an "Invalid char" error. */
  method CountLine(item: array<nat>, line: string) returns (err: Option<string>)
    requires item.Length == 5
    modifies item
    ensures err.None? <==> LineOk(line)
    ensures err.None? ==> forall i :: 0 <= i < 5 ==> item[i] == old(item[i]) + Hit(line, i)
  {
    for k := 0 to |line|
      invariant forall i :: 0 <= i < 5 ==> item[i] == old(item[i]) + (if i < k then Hit(line, i) else 0)
      invariant LineOk(line[..k])
    {
      var c := line[k];
      if c == '#' {
        if k >= 5 {
          assert !CharOk(line[k], k);
          return Some("index out of bounds");
        }
        item[k] := item[k] + 1;
      } else if c != '.' {
        assert !CharOk(line[k], k);
        return Some("Invalid char");
      }
      assert line[..k + 1][k] == c;
    }
    assert line[..|line|] == line;
    return None;
  }

  /** One block of `parse_input`: an empty block has no first line to
    unwrap, and a failing line aborts the block. */
  method ParseBlock(block: seq<string>) returns (r: Result<(bool, Heights)>)
    ensures r.Ok? <==> BlockOk(block)
    ensures r.Ok? ==> r.value == (IsLockLine(block[0]), BlockItem(block))
  {
    if |block| == 0 {
      return Err("called `Option::unwrap()` on a `None` value");
    }
    var isLock := IsLockLine(block[0]);
    var data := DataLines(block);
    var item := new nat[5](_ => 0);
    for li := 0 to |data|
      invariant forall i :: 0 <= i < 5 ==> item[i] == ColumnCount(data[..li], i)
      invariant LinesOk(data[..li])
    {
      ghost var before := item[..];
      var err := CountLine(item, data[li]);
      if err.Some? {
        BadLineRejects(block, li);
        return Err(err.value);
      }
      CountsStep(data, li, before, item[..]);
    }
    assert data[..|data|] == data;
    var heights: Heights := item[..];
    CountsAreItem(block, heights);
    r := Ok((isLock, heights));
  }

  /** The items of the blocks that parse, split into keys and locks in
    block order. */
  function Classify(blocks: seq<seq<string>>): (r: Input)
    requires forall j :: 0 <= j < |blocks| ==> BlockOk(blocks[j])
    ensures |r.keys| + |r.locks| == |blocks|
  {
    if blocks == [] then Input([], [])
    else
      var rest := Classify(blocks[..|blocks| - 1]);
      var b := blocks[|blocks| - 1];
      assert BlockOk(b);
      if IsLockLine(b[0]) then Input(rest.keys, rest.locks + [BlockItem(b)])
      else Input(rest.keys + [BlockItem(b)], rest.locks)
  }

  /** `parse_input` over the blank-line separated blocks of the file. */
  method ParseInput(blocks: seq<seq<string>>) returns (r: Result<Input>)
    ensures r.Ok? <==> forall j :: 0 <= j < |blocks| ==> BlockOk(blocks[j])
    ensures r.Ok? ==> r.value == Classify(blocks)
  {
    var keys: seq<Heights> := [];
    var locks: seq<Heights> := [];
    for j := 0 to |blocks|
      invariant forall i :: 0 <= i < j ==> BlockOk(blocks[i])
      invariant Input(keys, locks) == Classify(blocks[..j])
    {
      var parsed := ParseBlock(blocks[j]);
      if parsed.Err? {
        return Err(parsed.error);
      }
      assert blocks[..j + 1][..j] == blocks[..j];
      if parsed.value.0 {
        locks := locks + [parsed.value.1];
      } else {
        keys := keys + [parsed.value.1];
      }
    }
    assert blocks[..|blocks|] == blocks;
    r := Ok(Input(keys, locks));
  }

  // ---------------------------------------------------------------------
  // Splitting the file: `split("\n\n")` into blocks, `lines()` into lines.

  /** `str::split("\n\n")`: the pieces between the occurrences of a blank
    line separator, found from the left without overlap; there is always
    at least one piece. */
  function SplitBlocks(s: string): (r: seq<string>)
    ensures |r| >= 1
    decreases |s|
  {
    if |s| == 0 then [""]
    else if |s| >= 2 && s[0] == '\n' && s[1] == '\n' then [""] + SplitBlocks(s[2..])
    else
      var rest := SplitBlocks(s[1..]);
      [[s[0]] + rest[0]] + rest[1..]
  }

  /** The pieces joined back together with `sep` between them. */
  function Join(pieces: seq<string>, sep: string): string
  {
    if |pieces| == 0 then ""
    else if |pieces| == 1 then pieces[0]
    else pieces[0] + sep + Join(pieces[1..], sep)
  }

  predicate HasBlankLine(s: string)
  {
    exists k :: 0 <= k < |s| - 1 && s[k] == '\n' && s[k + 1] == '\n'
  }

  /** Splitting loses nothing: joining the blocks with the separator gives
    the file back. */
  lemma {:induction false} SplitBlocksJoin(s: string)
    ensures Join(SplitBlocks(s), "\n\n") == s
    decreases |s|
  {
    if |s| == 0 {
    } else if |s| >= 2 && s[0] == '\n' && s[1] == '\n' {
      SplitBlocksJoin(s[2..]);
      JoinAfterEmpty(SplitBlocks(s[2..]), "\n\n");
      assert s == "\n\n" + s[2..];
    } else {
      SplitBlocksJoin(s[1..]);
      JoinExtendFirst(s[0], SplitBlocks(s[1..]), "\n\n");
      assert s == [s[0]] + s[1..];
    }
  }

  /** An empty first piece contributes only its separator. */
  lemma JoinAfterEmpty(rest: seq<string>, sep: string)
    requires |rest| >= 1
    ensures Join([""] + rest, sep) == sep + Join(rest, sep)
  {
    assert ([""] + rest)[1..] == rest;
  }

  /** A character put in front of the first piece comes first in the join. */
  lemma JoinExtendFirst(c: char, rest: seq<string>, sep: string)
    requires |rest| >= 1
    ensures Join([[c] + rest[0]] + rest[1..], sep) == [c] + Join(rest, sep)
  {
    var r := [[c] + rest[0]] + rest[1..];
    if |rest| > 1 {
      assert r[1..] == rest[1..];
    }
  }

  /** No block holds the separator: every blank line of the file is one at
    which the file was split. */
  lemma {:induction false} SplitBlocksSeparated(s: string, j: nat)
    requires j < |SplitBlocks(s)|
    ensures !HasBlankLine(SplitBlocks(s)[j])
    decreases |s|
  {
    if |s| == 0 {
    } else if |s| >= 2 && s[0] == '\n' && s[1] == '\n' {
      if j > 0 {
        SplitBlocksSeparated(s[2..], j - 1);
      }
    } else {
      var rest := SplitBlocks(s[1..]);
      SplitBlocksSeparated(s[1..], j);
      if j == 0 {
        var b := [s[0]] + rest[0];
        forall k | 0 <= k < |b| - 1
          ensures !(b[k] == '\n' && b[k + 1] == '\n')
        {
          if k == 0 {
            SplitBlocksHead(s[1..]);
          } else {
            assert b[k] == rest[0][k - 1] && b[k + 1] == rest[0][k];
          }
        }
      }
    }
  }

  /** The first block starts with the first character of the text. */
  lemma SplitBlocksHead(s: string)
    requires |SplitBlocks(s)[0]| > 0
    ensures |s| > 0 && SplitBlocks(s)[0][0] == s[0]
  {
  }

  /** A line with the `\r` of a `\r\n` ending removed. */
  function StripCr(line: string): string
  {
    if |line| > 0 && line[|line| - 1] == '\r' then line[..|line| - 1] else line
  }

  /** The position of the first newline, or the length without one. */
  function NewlineAt(s: string): (i: nat)
    ensures i <= |s| && (i < |s| ==> s[i] == '\n')
    ensures forall k :: 0 <= k < i ==> s[k] != '\n'
  {
    if |s| == 0 || s[0] == '\n' then 0 else 1 + NewlineAt(s[1..])
  }

  /** `str::lines`: split after each newline, remove that newline and a
    carriage return before it; a final line ending is optional and an
    empty string has no lines. */
  function Lines(s: string): (r: seq<string>)
    ensures forall j :: 0 <= j < |r| ==> '\n' !in r[j]
    decreases |s|
  {
    if |s| == 0 then []
    else
      var i := NewlineAt(s);
      if i == |s| then [s]
      else [StripCr(s[..i])] + Lines(s[i + 1..])
  }

  /** Without carriage returns the lines give the text back: joined by
    newlines, with the optional final newline restored. */
  lemma {:induction false} LinesJoin(s: string)
    requires '\r' !in s
    ensures Join(Lines(s), "\n") + (if |s| > 0 && s[|s| - 1] == '\n' then "\n" else "") == s
    decreases |s|
  {
    if |s| > 0 {
      var i := NewlineAt(s);
      if i < |s| {
        var line, t := s[..i], s[i + 1..];
        assert s == line + "\n" + t;
        assert '\r' !in line && '\r' !in t;
        StripCrAbsent(line);
        LinesJoin(t);
        var ls := Lines(t);
        assert Lines(s) == [line] + ls;
        if |t| == 0 {
          assert Join(Lines(s), "\n") == line;
        } else {
          JoinCons(line, ls, "\n");
          assert s[|s| - 1] == t[|t| - 1];
        }
      }
    }
  }

  /** A line without a carriage return is kept as it is. */
  lemma StripCrAbsent(line: string)
    requires '\r' !in line
    ensures StripCr(line) == line
  {
    if |line| > 0 {
      assert line[|line| - 1] in line;
    }
  }

  /** Joining a nonempty list after one more piece puts the separator
    between them. */
  lemma JoinCons(first: string, rest: seq<string>, sep: string)
    requires |rest| > 0
    ensures Join([first] + rest, sep) == first + sep + Join(rest, sep)
  {
    assert ([first] + rest)[1..] == rest;
  }

  /** The blocks of the file, each as its lines. */
  function FileBlocks(text: string): (r: seq<seq<string>>)
    ensures |r| == |SplitBlocks(text)|
    ensures forall j :: 0 <= j < |r| ==> r[j] == Lines(SplitBlocks(text)[j])
  {
    var blocks := SplitBlocks(text);
    seq(|blocks|, j requires 0 <= j < |blocks| => Lines(blocks[j]))
  }

  /** Every block of the file parses exactly when every piece of its text
    does, read as lines. */
  lemma FileBlocksOk(text: string)
    ensures (forall j :: 0 <= j < |FileBlocks(text)| ==> BlockOk(FileBlocks(text)[j])) <==>
            (forall j :: 0 <= j < |SplitBlocks(text)| ==> BlockOk(Lines(SplitBlocks(text)[j])))
  {
    var blocks := FileBlocks(text);
    if !forall j :: 0 <= j < |blocks| ==> BlockOk(blocks[j]) {
      var j :| 0 <= j < |blocks| && !BlockOk(blocks[j]);
      assert !BlockOk(Lines(SplitBlocks(text)[j]));
    }
  }

  /** `parse_input` on the text of the file. */
  method ParseFile(text: string) returns (r: Result<Input>)
    ensures r.Ok? <==> forall j :: 0 <= j < |SplitBlocks(text)| ==> BlockOk(Lines(SplitBlocks(text)[j]))
    ensures r.Ok? ==> r.value == Classify(FileBlocks(text))
  {
    r := ParseInput(FileBlocks(text));
    FileBlocksOk(text);
  }
}
