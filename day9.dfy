/**
 * Day 9: compacting a disk. The disk map is a string of digits that
 * alternately give the length of a file and of the free space after it;
 * files are numbered from 0 in the order they appear. Part 1 moves single
 * blocks from the end into the leftmost gaps; part 2 moves whole files into
 * the leftmost free space that fits them. The answer is a checksum: the sum
 * of position × file number over the blocks.
 */
module Day9 {
  import opened Options
  import opened Text
  import opened Sorting

  // ---------------------------------------------------------------------
  // Reading the disk map
  // ---------------------------------------------------------------------

  /** Whether the next digit gives a file's length or a free run's, and which file is current. */
  datatype ReadingState = InFile(fileIndex: nat) | InFreeSpace(lastFileIndex: nat)

  /** `ReadingState::switch`: a file is followed by free space, free space by the next file. */
  function Switch(st: ReadingState): (next: ReadingState)
    ensures st.InFile? ==> next == InFreeSpace(st.fileIndex)
    ensures st.InFreeSpace? ==> next == InFile(st.lastFileIndex + 1)
  {
    match st
    case InFile(i) => InFreeSpace(i)
    case InFreeSpace(i) => InFile(i + 1)
  }

  /** The state in which the k-th digit is read: file k / 2 or the free space after it. */
  function StateAt(k: nat): (st: ReadingState)
    ensures k == 0 ==> st == InFile(0)
    ensures (if st.InFile? then st.fileIndex else st.lastFileIndex) == k / 2
  {
    if k % 2 == 0 then InFile(k / 2) else InFreeSpace(k / 2)
  }

  /** Switching from the state of digit k gives the state of digit k + 1. */
  lemma SwitchAdvances(k: nat)
    ensures Switch(StateAt(k)) == StateAt(k + 1)
  {
  }

  /** Switching twice moves on to the next file. */
  lemma SwitchTwice(i: nat)
    ensures Switch(Switch(InFile(i))) == InFile(i + 1)
  {
  }

  /** What one block of the current run holds: the file number, or nothing for free space. */
  function BlockOf(st: ReadingState): Option<nat> {
    match st
    case InFile(i) => Some(i)
    case InFreeSpace(_) => None
  }

  /** `get_content`: `length` copies of the current block. */
  function GetContent(st: ReadingState, length: nat): (run: seq<Option<nat>>)
    ensures |run| == length && forall j :: 0 <= j < length ==> run[j] == BlockOf(st)
  {
    seq(length, _ => BlockOf(st))
  }

  /** The sum of the digits. */
  function DigitSum(s: string): nat
    requires AllDigits(s)
  {
    if s == [] then 0 else DigitSum(s[..|s| - 1]) + DigitValue(s[|s| - 1])
  }

  /** Where the run of the k-th digit starts: the sum of the digits before it. */
  function Offset(s: string, k: nat): nat
    requires AllDigits(s) && k <= |s|
  {
    DigitSum(s[..k])
  }

  /** The blocks of the disk map, one run per digit. */
  function MemoryOf(s: string): (memory: seq<Option<nat>>)
    requires AllDigits(s)
    ensures |memory| == DigitSum(s)
  {
    if s == [] then []
    else
      var n := |s| - 1;
      MemoryOf(s[..n]) + GetContent(StateAt(n), DigitValue(s[n]))
  }

  /**
   * `read_memory`: extends the memory by one run per digit, switching state
   * after each, and adds every digit to `total_filled`.
   */
  method ReadMemory(input: string) returns (memory: seq<Option<nat>>, totalFilled: nat)
    requires AllDigits(input)
    ensures memory == MemoryOf(input)
    ensures totalFilled == DigitSum(input) == |memory|
  {
    memory := [];
    totalFilled := 0;
    var readingState := InFile(0);
    for k := 0 to |input|
      invariant memory == MemoryOf(input[..k])
      invariant totalFilled == DigitSum(input[..k])
      invariant readingState == StateAt(k)
    {
      assert input[..k + 1][..k] == input[..k];
      var contentLength := DigitValue(input[k]);
      memory := memory + GetContent(readingState, contentLength);
      totalFilled := totalFilled + contentLength;
      SwitchAdvances(k);
      readingState := Switch(readingState);
    }
    assert input[..|input|] == input;
  }

  /** The memory of a prefix of the map is a prefix of the memory. */
  lemma {:induction false} MemoryPrefix(s: string, k: nat, j: nat)
    requires AllDigits(s) && k <= |s| && j < |MemoryOf(s[..k])|
    ensures j < |MemoryOf(s)| && MemoryOf(s)[j] == MemoryOf(s[..k])[j]
    decreases |s| - k
  {
    if k < |s| {
      var t := s[..k + 1];
      assert t[..k] == s[..k];
      assert MemoryOf(t) == MemoryOf(s[..k]) + GetContent(StateAt(k), DigitValue(s[k]));
      MemoryPrefix(s, k + 1, j);
    } else {
      assert s[..k] == s;
    }
  }

  /**
   * The run of the k-th digit: `Some(k / 2)` blocks for a file digit, `None`
   * blocks for a free-space digit, starting at the sum of the digits before it.
   */
  lemma MemoryRun(s: string, k: nat, t: nat)
    requires AllDigits(s) && k < |s| && t < DigitValue(s[k])
    ensures Offset(s, k) + t < |MemoryOf(s)|
    ensures MemoryOf(s)[Offset(s, k) + t] == (if k % 2 == 0 then Some(k / 2) else None)
  {
    var u := s[..k + 1];
    assert u[..k] == s[..k];
    assert MemoryOf(u) == MemoryOf(s[..k]) + GetContent(StateAt(k), DigitValue(s[k]));
    MemoryPrefix(s, k + 1, Offset(s, k) + t);
  }

  // ---------------------------------------------------------------------
  // The checksum
  // ---------------------------------------------------------------------

  /**
   * `calculate_checksum`: the sum of position × file number, folded from the left.
   * Blocks of file 0 add nothing, wherever they are.
   */
  function Checksum(memory: seq<nat>): (c: nat)
    ensures (forall k :: 0 <= k < |memory| ==> memory[k] == 0) ==> c == 0
  {
    if memory == [] then 0
    else
      var n := |memory| - 1;
      Checksum(memory[..n]) + n * memory[n]
  }

  function Sum(s: seq<nat>): nat {
    if s == [] then 0 else Sum(s[..|s| - 1]) + s[|s| - 1]
  }

  /** Appending blocks adds their own checksum, shifted by the blocks before them. */
  lemma {:induction false} ChecksumAppend(a: seq<nat>, b: seq<nat>)
    ensures Checksum(a + b) == Checksum(a) + Checksum(b) + |a| * Sum(b)
  {
    if b == [] {
      assert a + b == a;
    } else {
      var n := |b| - 1;
      var x := b[n];
      assert (a + b)[..|a| + n] == a + b[..n];
      ChecksumAppend(a, b[..n]);
      assert Checksum(a + b) == Checksum(a + b[..n]) + (|a| + n) * x;
      assert Sum(b) == Sum(b[..n]) + x;
      assert Checksum(b) == Checksum(b[..n]) + n * x;
      Distribute(|a|, n, x);
      Distribute(|a|, Sum(b[..n]), x);
    }
  }

  lemma Distribute(a: nat, b: nat, x: nat)
    ensures (a + b) * x == a * x + b * x && a * (b + x) == a * b + a * x
  {
  }

  // ---------------------------------------------------------------------
  // Part 1: moving single blocks
  // ---------------------------------------------------------------------

  /** The memory without its trailing free blocks. */
  function TrimFree(m: seq<Option<nat>>): (r: seq<Option<nat>>)
    ensures |r| <= |m| && r == m[..|r|]
    ensures r == [] || r[|r| - 1].Some?
    ensures forall j :: |r| <= j < |m| ==> m[j].None?
  {
    if m == [] || m[|m| - 1].Some? then m else TrimFree(m[..|m| - 1])
  }

  /**
   * The blocks `consolidate_memory` pushes: a file block at the front is
   * kept; a free block at the front is filled with the last file block,
   * once the free blocks behind it are dropped. The result is no longer than
   * the memory, and free memory compacts to nothing.
   */
  function Compact(memory: seq<Option<nat>>): (r: seq<nat>)
    ensures |r| <= |memory|
    ensures (forall k :: 0 <= k < |memory| ==> memory[k].None?) ==> r == []
    decreases |memory|
  {
    if memory == [] then []
    else if memory[0].Some? then [memory[0].value] + Compact(memory[1..])
    else
      var rest := TrimFree(memory[1..]);
      if rest == [] then []
      else
        var n := |rest| - 1;
        [rest[n].value] + Compact(rest[..n])
  }

  /** The file numbers of the file blocks, in order. */
  function FileBlocks(memory: seq<Option<nat>>): (files: seq<nat>)
    ensures |files| <= |memory|
  {
    if memory == [] then []
    else (if memory[0].Some? then [memory[0].value] else []) + FileBlocks(memory[1..])
  }

  lemma {:induction false} FileBlocksAppend(a: seq<Option<nat>>, b: seq<Option<nat>>)
    ensures FileBlocks(a + b) == FileBlocks(a) + FileBlocks(b)
  {
    if a != [] {
      FileBlocksCons(a, b);
      FileBlocksAppend(a[1..], b);
    } else {
      assert a + b == b;
    }
  }

  /** The first block of `a + b` is the first block of `a`, and the rest of `a + b` is the rest of `a` then `b`. */
  lemma FileBlocksCons(a: seq<Option<nat>>, b: seq<Option<nat>>)
    requires a != []
    ensures FileBlocks(a + b) == FileBlocks([a[0]]) + FileBlocks(a[1..] + b)
    ensures FileBlocks(a) == FileBlocks([a[0]]) + FileBlocks(a[1..])
  {
    var one := [a[0]];
    var head := if a[0].Some? then [a[0].value] else [];
    assert one[1..] == a[..0];
    assert FileBlocks(one) == head + FileBlocks(one[1..]);
    assert (a + b)[0] == a[0] && (a + b)[1..] == a[1..] + b;
    assert FileBlocks(a + b) == head + FileBlocks(a[1..] + b);
  }

  /** Dropping trailing free blocks drops no file block. */
  lemma {:induction false} TrimFreeKeepsFiles(m: seq<Option<nat>>)
    ensures FileBlocks(TrimFree(m)) == FileBlocks(m)
    decreases |m|
  {
    if m != [] && m[|m| - 1].None? {
      var n := |m| - 1;
      assert m == m[..n] + [m[n]];
      FileBlocksAppend(m[..n], [m[n]]);
      TrimFreeKeepsFiles(m[..n]);
    }
  }

  /** The compacted blocks are the file blocks, each exactly once, in some order. */
  lemma {:induction false} CompactIsPermutation(memory: seq<Option<nat>>)
    ensures multiset(Compact(memory)) == multiset(FileBlocks(memory))
    decreases |memory|
  {
    if memory != [] {
      if memory[0].Some? {
        CompactIsPermutation(memory[1..]);
      } else {
        var rest := TrimFree(memory[1..]);
        TrimFreeKeepsFiles(memory[1..]);
        if rest != [] {
          var n := |rest| - 1;
          assert rest == rest[..n] + [rest[n]];
          FileBlocksAppend(rest[..n], [rest[n]]);
          CompactIsPermutation(rest[..n]);
        }
      }
    }
  }

  /** Part 1 writes one block per file block. */
  lemma CompactLength(memory: seq<Option<nat>>)
    ensures |Compact(memory)| == |FileBlocks(memory)|
  {
    CompactIsPermutation(memory);
    assert |multiset(Compact(memory))| == |multiset(FileBlocks(memory))|;
  }

  /** File blocks before the first free block keep their places. */
  lemma {:induction false} CompactKeepsLeadingFiles(p: seq<Option<nat>>, rest: seq<Option<nat>>)
    requires forall j :: 0 <= j < |p| ==> p[j].Some?
    ensures Compact(p + rest) == FileBlocks(p) + Compact(rest)
  {
    if p == [] {
      assert p + rest == rest;
    } else {
      assert (p + rest)[1..] == p[1..] + rest;
      CompactKeepsLeadingFiles(p[1..], rest);
    }
  }

  /**
   * `consolidate_memory`: pops the front of the deque; a free block is
   * replaced by the last file block, after popping the free blocks at the
   * back, and the consolidation stops when the deque runs empty there.
   */
  method ConsolidateMemory(input: seq<Option<nat>>, totalFilled: nat) returns (checksum: nat)
    ensures checksum == Checksum(Compact(input))
  {
    var memory := input;
    var consolidated: seq<nat> := [];
    label consolidation: while memory != []
      invariant consolidated + Compact(memory) == Compact(input)
      decreases |memory|
    {
      var front := memory[0];
      ghost var whole := memory;
      memory := memory[1..];
      var block: nat;
      if front.Some? {
        block := front.value;
        assert Compact(whole) == [block] + Compact(memory);
      } else {
        ghost var behind := memory;
        while !(memory != [] && memory[|memory| - 1].Some?)
          invariant TrimFree(memory) == TrimFree(behind)
          decreases |memory|
        {
          if memory == [] {
            assert Compact(whole) == [];
            assert consolidated == Compact(input);
            break consolidation;
          }
          memory := memory[..|memory| - 1];
        }
        var n := |memory| - 1;
        block := memory[n].value;
        assert Compact(whole) == [block] + Compact(memory[..n]);
        memory := memory[..n];
      }
      consolidated := consolidated + [block];
    }
    assert consolidated == Compact(input);
    checksum := Checksum(consolidated);
  }

  method Part1(input: string) returns (checksum: nat)
    requires AllDigits(input)
    ensures checksum == Checksum(Compact(MemoryOf(input)))
  {
    var memory, totalFilled := ReadMemory(input);
    checksum := ConsolidateMemory(memory, totalFilled);
  }

  // ---------------------------------------------------------------------
  // Part 2: moving whole files
  // ---------------------------------------------------------------------

  datatype File = File(size: nat, offset: nat, index: nat)
  datatype FreeSpace = FreeSpace(offset: nat, size: nat)

  /**
   * `read_memory_to_blocks`: one file or one free run per digit, starting
   * with a file, each at the sum of the digits before it.
   */
  method ReadMemoryToBlocks(input: string) returns (files: seq<File>, freeSpace: seq<FreeSpace>)
    requires AllDigits(input)
    ensures |files| == (|input| + 1) / 2 && |freeSpace| == |input| / 2
    ensures forall f :: 0 <= f < |files| ==> files[f] == File(DigitValue(input[2 * f]), Offset(input, 2 * f), f)
    ensures forall k :: 0 <= k < |freeSpace| ==>
              freeSpace[k] == FreeSpace(Offset(input, 2 * k + 1), DigitValue(input[2 * k + 1]))
  {
    files, freeSpace := [], [];
    var offset := 0;
    var readingState := InFile(0);
    for k := 0 to |input|
      invariant |files| == (k + 1) / 2 && |freeSpace| == k / 2
      invariant forall f :: 0 <= f < |files| ==> files[f] == File(DigitValue(input[2 * f]), Offset(input, 2 * f), f)
      invariant forall j :: 0 <= j < |freeSpace| ==>
                  freeSpace[j] == FreeSpace(Offset(input, 2 * j + 1), DigitValue(input[2 * j + 1]))
      invariant offset == Offset(input, k)
      invariant readingState == StateAt(k)
    {
      var contentLength := DigitValue(input[k]);
      match readingState {
        case InFile(fileIndex) =>
          files := files + [File(contentLength, offset, fileIndex)];
        case InFreeSpace(_) =>
          freeSpace := freeSpace + [FreeSpace(offset, contentLength)];
      }
      assert input[..k + 1][..k] == input[..k];
      offset := offset + contentLength;
      SwitchAdvances(k);
      readingState := Switch(readingState);
    }
  }

  /** The blocks of the f-th file are where part 1's memory holds `Some(f)`. */
  lemma FileRunsMatchMemory(input: string, f: nat, t: nat)
    requires AllDigits(input) && 2 * f < |input| && t < DigitValue(input[2 * f])
    ensures Offset(input, 2 * f) + t < |MemoryOf(input)|
    ensures MemoryOf(input)[Offset(input, 2 * f) + t] == Some(f)
  {
    MemoryRun(input, 2 * f, t);
  }

  /** The blocks of the k-th free run are where part 1's memory holds `None`. */
  lemma FreeRunsMatchMemory(input: string, k: nat, t: nat)
    requires AllDigits(input) && 2 * k + 1 < |input| && t < DigitValue(input[2 * k + 1])
    ensures Offset(input, 2 * k + 1) + t < |MemoryOf(input)|
    ensures MemoryOf(input)[Offset(input, 2 * k + 1) + t] == None
  {
    MemoryRun(input, 2 * k + 1, t);
  }

  /** A free run that can take the file: large enough and to its left. */
  predicate Fits(space: FreeSpace, file: File) {
    space.size >= file.size && space.offset < file.offset
  }

  /** The `find` of `consolidate_memory_fit`: the first free run that fits the file. */
  function FirstFit(spaces: seq<FreeSpace>, file: File): (r: Option<nat>)
    ensures r.Some? ==> r.value < |spaces| && Fits(spaces[r.value], file)
    ensures r.Some? ==> forall j :: 0 <= j < r.value ==> !Fits(spaces[j], file)
    ensures r.None? ==> forall j :: 0 <= j < |spaces| ==> !Fits(spaces[j], file)
  {
    if spaces == [] then None
    else if Fits(spaces[0], file) then Some(0)
    else match FirstFit(spaces[1..], file)
      case None => None
      case Some(k) => Some(k + 1)
  }

  /**
   * The fold step for the i-th file: when a free run fits, the file takes its
   * start and the run gives up that many blocks at its front.
   */
  function Move(files: seq<File>, spaces: seq<FreeSpace>, i: nat): (r: (seq<File>, seq<FreeSpace>, bool))
    requires i < |files|
    ensures |r.0| == |files| && |r.1| == |spaces|
  {
    match FirstFit(spaces, files[i])
    case None => (files, spaces, false)
    case Some(k) =>
      var file, space := files[i], spaces[k];
      (files[i := file.(offset := space.offset)],
       spaces[k := FreeSpace(space.offset + file.size, space.size - file.size)],
       true)
  }

  /** One pass of the fold: the files `n - 1` down to 0, in turn, and whether any moved. */
  function Round(files: seq<File>, spaces: seq<FreeSpace>, n: nat): (r: (seq<File>, seq<FreeSpace>, bool))
    requires n <= |files|
    ensures |r.0| == |files| && |r.1| == |spaces|
    decreases n
  {
    if n == 0 then (files, spaces, false)
    else
      var step := Move(files, spaces, n - 1);
      var rest := Round(step.0, step.1, n - 1);
      (rest.0, rest.1, step.2 || rest.2)
  }

  /** `b` comes from `a` by moving it left, if at all. */
  predicate Below(b: File, a: File) {
    b.index == a.index && b.size == a.size && b.offset <= a.offset
  }

  /** Every file keeps its place in the list, its number and its size, and does not move right. */
  predicate FilesMoved(before: seq<File>, after: seq<File>) {
    |after| == |before| && forall j :: 0 <= j < |after| ==> Below(after[j], before[j])
  }

  /** Every free run keeps its end and only loses blocks at its front. */
  predicate SpacesShrunk(before: seq<FreeSpace>, after: seq<FreeSpace>) {
    && |after| == |before|
    && forall k :: 0 <= k < |after| ==>
         after[k].offset + after[k].size == before[k].offset + before[k].size && before[k].offset <= after[k].offset
  }

  /** The sum of the file offsets, which every move lowers. */
  function OffsetSum(files: seq<File>): nat {
    if files == [] then 0 else OffsetSum(files[..|files| - 1]) + files[|files| - 1].offset
  }

  lemma {:induction false} OffsetSumUpdate(files: seq<File>, i: nat, file: File)
    requires i < |files|
    ensures OffsetSum(files[i := file]) + files[i].offset == OffsetSum(files) + file.offset
  {
    var n := |files| - 1;
    var t := files[i := file];
    assert t[..n] == if i == n then files[..n] else files[..n][i := file];
    if i < n {
      OffsetSumUpdate(files[..n], i, file);
    }
  }

  /**
   * A move happens exactly when some free run fits; the file then starts at
   * the first such run, and lower offsets strictly lower the offset sum.
   */
  lemma MoveProperties(files: seq<File>, spaces: seq<FreeSpace>, i: nat)
    requires i < |files|
    ensures var r := Move(files, spaces, i);
            && (r.2 <==> FirstFit(spaces, files[i]).Some?)
            && (r.2 ==> r.0[i].offset == spaces[FirstFit(spaces, files[i]).value].offset)
            && (!r.2 ==> r.0 == files && r.1 == spaces)
            && FilesMoved(files, r.0) && SpacesShrunk(spaces, r.1)
            && OffsetSum(r.0) <= OffsetSum(files)
            && (r.2 ==> OffsetSum(r.0) < OffsetSum(files))
  {
    match FirstFit(spaces, files[i])
    case None =>
    case Some(k) =>
      OffsetSumUpdate(files, i, files[i].(offset := spaces[k].offset));
  }

  /** No free run fits any of the files: the state in which `consolidate_memory_fit` stops. */
  predicate Settled(files: seq<File>, spaces: seq<FreeSpace>) {
    forall i, j :: 0 <= i < |files| && 0 <= j < |spaces| ==> !Fits(spaces[j], files[i])
  }

  /** A pass moves files only left and free runs only shrink, and a pass that moves nothing changes nothing. */
  lemma {:induction false} RoundProperties(files: seq<File>, spaces: seq<FreeSpace>, n: nat)
    requires n <= |files|
    ensures var r := Round(files, spaces, n);
            && FilesMoved(files, r.0) && SpacesShrunk(spaces, r.1)
            && (!r.2 ==> r.0 == files && r.1 == spaces)
    decreases n
  {
    if n > 0 {
      var step := Move(files, spaces, n - 1);
      MoveProperties(files, spaces, n - 1);
      RoundProperties(step.0, step.1, n - 1);
      var rest := Round(step.0, step.1, n - 1);
      FilesMovedTrans(files, step.0, rest.0);
      SpacesShrunkTrans(spaces, step.1, rest.1);
    }
  }

  lemma FilesMovedTrans(a: seq<File>, b: seq<File>, c: seq<File>)
    requires FilesMoved(a, b) && FilesMoved(b, c)
    ensures FilesMoved(a, c)
  {
  }

  /** A pass never raises the sum of the offsets, and a pass that moves lowers it. */
  lemma {:induction false} RoundLowersOffsets(files: seq<File>, spaces: seq<FreeSpace>, n: nat)
    requires n <= |files|
    ensures var r := Round(files, spaces, n);
            && OffsetSum(r.0) <= OffsetSum(files)
            && (r.2 ==> OffsetSum(r.0) < OffsetSum(files))
    decreases n
  {
    if n > 0 {
      var step := Move(files, spaces, n - 1);
      MoveProperties(files, spaces, n - 1);
      RoundLowersOffsets(step.0, step.1, n - 1);
    }
  }

  /** A pass that moves nothing found no free run fitting any of the files it tried. */
  lemma {:induction false} QuietRoundSettles(files: seq<File>, spaces: seq<FreeSpace>, n: nat)
    requires n <= |files|
    ensures !Round(files, spaces, n).2 ==> forall i, j :: 0 <= i < n && 0 <= j < |spaces| ==> !Fits(spaces[j], files[i])
    decreases n
  {
    if n > 0 && !Round(files, spaces, n).2 {
      var step := Move(files, spaces, n - 1);
      assert FirstFit(spaces, files[n - 1]).None?;
      assert step.0 == files && step.1 == spaces;
      QuietRoundSettles(files, spaces, n - 1);
    }
  }

  /**
   * `files.iter_mut().rev().fold(..)`: tries every file from the last to the
   * first, moving each into the first free run that fits it.
   */
  method FitRound(files: array<File>, spaces: array<FreeSpace>) returns (moved: bool)
    modifies files, spaces
    ensures (files[..], spaces[..], moved) == Round(old(files[..]), old(spaces[..]), files.Length)
  {
    var n := files.Length;
    moved := false;
    while n > 0
      invariant 0 <= n <= files.Length
      invariant var r := Round(files[..], spaces[..], n);
                Round(old(files[..]), old(spaces[..]), files.Length) == (r.0, r.1, r.2 || moved)
      decreases n
    {
      ghost var before := (files[..], spaces[..]);
      n := n - 1;
      var file := files[n];
      match FirstFit(spaces[..], file) {
        case None =>
        case Some(k) =>
          var space := spaces[k];
          files[n] := file.(offset := space.offset);
          spaces[k] := FreeSpace(space.offset + file.size, space.size - file.size);
          moved := true;
      }
      assert (files[..], spaces[..]) == (Move(before.0, before.1, n).0, Move(before.0, before.1, n).1);
    }
  }

  /** `sort_by_key(|file| file.offset)`: strictly smaller offsets go first. */
  predicate ByOffset(x: File, y: File) {
    x.offset < y.offset
  }

  lemma ByOffsetAsymmetric()
    ensures Asymmetric(ByOffset)
  {
  }

  /** Each file of `after` comes from a file of `before` by moving it left, if at all. */
  ghost predicate Descends(before: seq<File>, after: seq<File>) {
    forall i :: 0 <= i < |after| ==> HasOrigin(before, after[i])
  }

  /** Some file of `before` moved left, if at all, gives `b`. */
  ghost predicate HasOrigin(before: seq<File>, b: File) {
    exists j :: 0 <= j < |before| && Below(b, before[j])
  }

  /** The file numbers and sizes, without the offsets. */
  function Shapes(files: seq<File>): (r: seq<(nat, nat)>)
    ensures |r| == |files|
  {
    if files == [] then [] else [(files[0].index, files[0].size)] + Shapes(files[1..])
  }

  lemma {:induction false} ShapesIndex(files: seq<File>, i: nat)
    requires i < |files|
    ensures Shapes(files)[i] == (files[i].index, files[i].size)
  {
    if i > 0 {
      ShapesIndex(files[1..], i - 1);
    }
  }

  lemma {:induction false} ShapesAppend(a: seq<File>, b: seq<File>)
    ensures Shapes(a + b) == Shapes(a) + Shapes(b)
  {
    if a == [] {
      assert a + b == b;
    } else {
      assert (a + b)[1..] == a[1..] + b;
      ShapesAppend(a[1..], b);
    }
  }

  /** Moving files left changes no file number or size. */
  lemma FilesMovedShapes(before: seq<File>, after: seq<File>)
    requires FilesMoved(before, after)
    ensures Shapes(after) == Shapes(before)
  {
    forall i | 0 <= i < |after| ensures Shapes(after)[i] == Shapes(before)[i] {
      ShapesIndex(after, i);
      ShapesIndex(before, i);
    }
  }

  /** Reordering the files reorders their numbers and sizes alike. */
  lemma {:induction false} ShapesPermute(a: seq<File>, b: seq<File>)
    requires multiset(a) == multiset(b)
    ensures multiset(Shapes(a)) == multiset(Shapes(b))
    decreases |a|
  {
    if a != [] {
      var x := a[0];
      assert x in multiset(b);
      var j :| 0 <= j < |b| && b[j] == x;
      var b' := b[..j] + b[j + 1..];
      assert b == b[..j] + ([x] + b[j + 1..]);
      MultisetRemove(b, j);
      MultisetRemove(a, 0);
      assert a[..0] + a[1..] == a[1..];
      MultisetCancel(x, multiset(a[1..]), multiset(b'));
      ShapesPermute(a[1..], b');
      ShapesRemove(b[..j], x, b[j + 1..]);
      assert multiset(Shapes(a)) == multiset{(x.index, x.size)} + multiset(Shapes(a[1..]));
    }
  }

  /** Taking one file out takes its pair out of the multiset of pairs. */
  lemma ShapesRemove(front: seq<File>, x: File, back: seq<File>)
    ensures multiset(Shapes(front + ([x] + back))) == multiset{(x.index, x.size)} + multiset(Shapes(front + back))
  {
    ShapesAppend(front, [x] + back);
    ShapesAppend(front, back);
    ShapesOfCons(x, back);
    var sf, p, sb := Shapes(front), (x.index, x.size), Shapes(back);
    assert multiset(sf + ([p] + sb)) == multiset(sf) + multiset([p] + sb);
    assert multiset([p] + sb) == multiset{p} + multiset(sb);
  }

  lemma ShapesOfCons(x: File, back: seq<File>)
    ensures Shapes([x] + back) == [(x.index, x.size)] + Shapes(back)
  {
    assert ([x] + back)[1..] == back;
  }

  /** Taking the element at `j` out of a list takes one copy of it out of its multiset. */
  lemma MultisetRemove(b: seq<File>, j: nat)
    requires j < |b|
    ensures multiset(b) == multiset{b[j]} + multiset(b[..j] + b[j + 1..])
  {
    assert b == b[..j] + [b[j]] + b[j + 1..];
  }

  lemma DescendsThroughMoves(orig: seq<File>, cur: seq<File>, next: seq<File>)
    requires Descends(orig, cur) && FilesMoved(cur, next)
    ensures Descends(orig, next)
  {
    forall i | 0 <= i < |next| ensures HasOrigin(orig, next[i]) {
      var j :| 0 <= j < |orig| && Below(cur[i], orig[j]);
      assert Below(next[i], orig[j]);
    }
  }

  lemma DescendsThroughSort(orig: seq<File>, cur: seq<File>, next: seq<File>)
    requires Descends(orig, cur) && multiset(next) == multiset(cur)
    ensures Descends(orig, next)
  {
    forall i | 0 <= i < |next| ensures HasOrigin(orig, next[i]) {
      assert next[i] in multiset(cur);
      var i' :| 0 <= i' < |cur| && cur[i'] == next[i];
      var j :| 0 <= j < |orig| && Below(cur[i'], orig[j]);
      assert Below(next[i], orig[j]);
    }
  }

  /** The facts every pass of `consolidate_memory_fit` keeps about the files. */
  ghost predicate FitInvariant(orig: seq<File>, cur: seq<File>) {
    Descends(orig, cur) && multiset(Shapes(cur)) == multiset(Shapes(orig))
  }

  /**
   * The loop of `consolidate_memory_fit`: sorts the files by offset, then
   * repeats a pass and a re-sort while a pass moves some file. Each file
   * keeps its number and size and only moves left, each free run keeps its
   * end, and the files end sorted by offset, with no free run left that
   * fits a file to its left. The loop ends because every pass that moves
   * lowers the sum of the offsets.
   */
  method CompactFiles(files: array<File>, spaces: array<FreeSpace>)
    modifies files, spaces
    ensures FitInvariant(old(files[..]), files[..])
    ensures SpacesShrunk(old(spaces[..]), spaces[..])
    ensures AdjacentOrdered(files[..], 0, files.Length, ByOffset)
    ensures Settled(files[..], spaces[..])
  {
    ghost var orig := files[..];
    assert Descends(orig, orig) by {
      forall i | 0 <= i < |orig| ensures HasOrigin(orig, orig[i]) {
        assert Below(orig[i], orig[i]);
      }
    }
    var moved := SortAndFit(files, spaces, orig);
    while moved
      invariant FitInvariant(orig, files[..])
      invariant SpacesShrunk(old(spaces[..]), spaces[..])
      invariant !moved ==> AdjacentOrdered(files[..], 0, files.Length, ByOffset)
      invariant !moved ==> Settled(files[..], spaces[..])
      decreases OffsetSum(files[..]) + (if moved then 1 else 0)
    {
      ghost var spacesBefore := spaces[..];
      moved := SortAndFit(files, spaces, orig);
      SpacesShrunkTrans(old(spaces[..]), spacesBefore, spaces[..]);
    }
  }

  /** One `sort_by_key` followed by one pass. */
  method SortAndFit(files: array<File>, spaces: array<FreeSpace>, ghost orig: seq<File>) returns (moved: bool)
    modifies files, spaces
    requires FitInvariant(orig, files[..])
    ensures FitInvariant(orig, files[..])
    ensures SpacesShrunk(old(spaces[..]), spaces[..])
    ensures OffsetSum(files[..]) <= old(OffsetSum(files[..]))
    ensures moved ==> OffsetSum(files[..]) < old(OffsetSum(files[..]))
    ensures !moved ==> AdjacentOrdered(files[..], 0, files.Length, ByOffset)
    ensures !moved ==> Settled(files[..], spaces[..])
  {
    ByOffsetAsymmetric();
    ghost var before := files[..];
    SortBy(files, ByOffset);
    ghost var sorted := files[..];
    DescendsThroughSort(orig, before, sorted);
    ShapesPermute(sorted, before);
    OffsetSumPermute(sorted, before);
    moved := FitRound(files, spaces);
    RoundProperties(sorted, old(spaces[..]), files.Length);
    RoundLowersOffsets(sorted, old(spaces[..]), files.Length);
    QuietRoundSettles(sorted, old(spaces[..]), files.Length);
    DescendsThroughMoves(orig, sorted, files[..]);
    FilesMovedShapes(sorted, files[..]);
  }

  lemma SpacesShrunkTrans(a: seq<FreeSpace>, b: seq<FreeSpace>, c: seq<FreeSpace>)
    requires SpacesShrunk(a, b) && SpacesShrunk(b, c)
    ensures SpacesShrunk(a, c)
  {
  }

  /** Reordering the files does not change the sum of their offsets. */
  lemma {:induction false} OffsetSumPermute(a: seq<File>, b: seq<File>)
    requires multiset(a) == multiset(b)
    ensures OffsetSum(a) == OffsetSum(b)
    decreases |a|
  {
    if a != [] {
      var n := |a| - 1;
      var x := a[n];
      assert x in multiset(b);
      var j :| 0 <= j < |b| && b[j] == x;
      var b' := b[..j] + b[j + 1..];
      MultisetRemove(b, j);
      MultisetRemove(a, n);
      assert a[..n] + a[n + 1..] == a[..n];
      MultisetCancel(x, multiset(a[..n]), multiset(b'));
      OffsetSumPermute(a[..n], b');
      OffsetSumRemove(b, j);
    }
  }

  /** Taking one file out of the list takes its offset out of the sum. */
  lemma {:induction false} OffsetSumRemove(b: seq<File>, j: nat)
    requires j < |b|
    ensures OffsetSum(b) == OffsetSum(b[..j] + b[j + 1..]) + b[j].offset
  {
    var n := |b| - 1;
    if j < n {
      var c := b[..j] + b[j + 1..];
      assert c[..|c| - 1] == b[..n][..j] + b[..n][j + 1..];
      assert c[|c| - 1] == b[n];
      OffsetSumRemove(b[..n], j);
    } else {
      assert b[..j] + b[j + 1..] == b[..n];
    }
  }

  /** The checksum of one file: the sum of position × file number over its blocks. */
  function RangeChecksum(offset: nat, size: nat, index: nat): (c: nat)
    ensures size == 0 || index == 0 ==> c == 0
  {
    if size == 0 then 0 else RangeChecksum(offset, size - 1, index) + (offset + size - 1) * index
  }

  /** The blocks `offset .. offset + size` sum to `size * (2 * offset + size - 1) / 2`. */
  lemma {:induction false} RangeChecksumClosed(offset: nat, size: nat, index: nat)
    ensures 2 * RangeChecksum(offset, size, index) == size * (2 * offset + size - 1) * index
  {
    if size > 0 {
      RangeChecksumClosed(offset, size - 1, index);
      var s := size - 1;
      RangeStep(offset, s);
      MulAdd(s * (2 * offset + s - 1), 2 * (offset + s), index);
    }
  }

  /** One more block adds twice its position to `size * (2 * offset + size - 1)`. */
  lemma RangeStep(offset: nat, s: nat)
    ensures (s + 1) * (2 * offset + (s + 1) - 1) == s * (2 * offset + s - 1) + 2 * (offset + s)
  {
    var t := 2 * offset + s;
    MulAdd(s, 1, t);
    MulAdd(t - 1, 1, s);
  }

  lemma MulAdd(a: int, b: int, c: int)
    ensures (a + b) * c == a * c + b * c
  {
  }

  /** The final fold of `consolidate_memory_fit`: the checksums of the files, summed. */
  function FitChecksum(files: seq<File>): (c: nat)
    ensures (forall k :: 0 <= k < |files| ==> files[k].index == 0 || files[k].size == 0) ==> c == 0
  {
    if files == [] then 0
    else
      var f := files[|files| - 1];
      FitChecksum(files[..|files| - 1]) + RangeChecksum(f.offset, f.size, f.index)
  }

  /**
   * `consolidate_memory_fit`: compacts copies of the lists and returns the
   * checksum together with the compacted files it is computed from and the
   * free runs left over, none of which fits a file to its left.
   */
  method ConsolidateMemoryFit(files: seq<File>, freeSpaces: seq<FreeSpace>)
    returns (checksum: nat, compacted: seq<File>, remaining: seq<FreeSpace>)
    ensures |compacted| == |files|
    ensures Descends(files, compacted) && multiset(Shapes(compacted)) == multiset(Shapes(files))
    ensures AdjacentOrdered(compacted, 0, |compacted|, ByOffset)
    ensures SpacesShrunk(freeSpaces, remaining)
    ensures Settled(compacted, remaining)
    ensures checksum == FitChecksum(compacted)
  {
    var fileArray := new File[|files|](i requires 0 <= i < |files| => files[i]);
    var spaceArray := new FreeSpace[|freeSpaces|](i requires 0 <= i < |freeSpaces| => freeSpaces[i]);
    assert fileArray[..] == files;
    assert spaceArray[..] == freeSpaces;
    CompactFiles(fileArray, spaceArray);
    compacted, remaining := fileArray[..], spaceArray[..];
    checksum := FitChecksum(compacted);
  }

  /** The files and free runs `read_memory_to_blocks` reads from a disk map. */
  ghost predicate BlocksOf(input: string, files: seq<File>, spaces: seq<FreeSpace>)
    requires AllDigits(input)
  {
    && |files| == (|input| + 1) / 2 && |spaces| == |input| / 2
    && (forall f :: 0 <= f < |files| ==> files[f] == File(DigitValue(input[2 * f]), Offset(input, 2 * f), f))
    && (forall k :: 0 <= k < |spaces| ==> spaces[k] == FreeSpace(Offset(input, 2 * k + 1), DigitValue(input[2 * k + 1])))
  }

  /** What the loop of `consolidate_memory_fit` leaves: the facts `ConsolidateMemoryFit` ensures. */
  ghost predicate FitOutcome(files: seq<File>, spaces: seq<FreeSpace>, compacted: seq<File>, remaining: seq<FreeSpace>) {
    && |compacted| == |files|
    && Descends(files, compacted) && multiset(Shapes(compacted)) == multiset(Shapes(files))
    && AdjacentOrdered(compacted, 0, |compacted|, ByOffset)
    && SpacesShrunk(spaces, remaining)
    && Settled(compacted, remaining)
  }

  /** Part 2: the checksum of the settled files compacted from the blocks of the disk map. */
  method Part2(input: string) returns (checksum: nat)
    requires AllDigits(input)
    ensures exists files, spaces, compacted, remaining ::
              && BlocksOf(input, files, spaces)
              && FitOutcome(files, spaces, compacted, remaining)
              && checksum == FitChecksum(compacted)
  {
    var files, freeSpace := ReadMemoryToBlocks(input);
    var compacted, remaining;
    checksum, compacted, remaining := ConsolidateMemoryFit(files, freeSpace);
    assert BlocksOf(input, files, freeSpace) && FitOutcome(files, freeSpace, compacted, remaining);
  }
}
