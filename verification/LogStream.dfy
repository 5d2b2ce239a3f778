/**
 Log chunking (pkg/logstream/logstream.go).

 The scan loop batches lines into chunks of at most a soft cap. The loop is the
 method SplitChunks. It is proved against Greedy, a recursive grouping of the
 lines, and Greedy is proved to be a legal grouping with the fewest groups.
 */
module LogStream {

  type Byte = b: int | 0 <= b < 256

  /** One line of the log, without its terminator. */
  type Line = seq<Byte>

  const NEWLINE: Byte := 10
  const CARRIAGE_RETURN: Byte := 13

  /** The soft per-frame cap used when the caller passes no positive one. */
  const CHUNK_SIZE := 8 * 1024

  function Join<T>(parts: seq<seq<T>>): seq<T> {
    if parts == [] then [] else Join(parts[..|parts| - 1]) + parts[|parts| - 1]
  }

  /** What a group of lines looks like on the wire: every line ends in a newline. */
  function Text(group: seq<Line>): seq<Byte> {
    if group == [] then [] else Text(group[..|group| - 1]) + group[|group| - 1] + [NEWLINE]
  }

  function Texts(groups: seq<seq<Line>>): (chunks: seq<seq<Byte>>) {
    seq(|groups|, i requires 0 <= i < |groups| => Text(groups[i]))
  }

  /** A chunk may exceed the cap only when it is a single line. */
  predicate Legal(group: seq<Line>, cap: int) {
    group != [] && (|Text(group)| <= cap || |group| == 1)
  }

  /** The groups cut the lines at line boundaries only, keep their order, and are all legal. */
  ghost predicate Partition(groups: seq<seq<Line>>, lines: seq<Line>, cap: int) {
    Join(groups) == lines && forall i | 0 <= i < |groups| :: Legal(groups[i], cap)
  }

  function EffectiveCap(maxChunkSize: int): int {
    if maxChunkSize <= 0 then CHUNK_SIZE else maxChunkSize
  }

  /** Extend the last group while the line fits, otherwise start a new group. */
  function Greedy(lines: seq<Line>, cap: int): seq<seq<Line>> {
    if lines == [] then [] else
      var groups := Greedy(lines[..|lines| - 1], cap);
      var line := lines[|lines| - 1];
      if groups != [] && |Text(groups[|groups| - 1])| + |line| + 1 <= cap
      then groups[..|groups| - 1] + [groups[|groups| - 1] + [line]]
      else groups + [[line]]
  }

  function LastSize(groups: seq<seq<Line>>): int {
    if groups == [] then 0 else |Text(groups[|groups| - 1])|
  }

  lemma TextOfOne(line: Line)
    ensures Text([line]) == line + [NEWLINE]
  {
    assert Text([line][..0]) == [];
  }

  lemma TextSnoc(group: seq<Line>, line: Line)
    ensures Text(group + [line]) == Text(group) + line + [NEWLINE]
  {
    assert (group + [line])[..|group|] == group;
  }

  lemma {:induction false} TextAppend(a: seq<Line>, b: seq<Line>)
    ensures Text(a + b) == Text(a) + Text(b)
  {
    if b == [] {
      assert a + b == a;
    } else {
      var rest, last := b[..|b| - 1], b[|b| - 1];
      hide Text;
      TextAppend(a, rest);
      TextSnoc(a + rest, last);
      TextSnoc(rest, last);
      assert a + b == (a + rest) + [last] && b == rest + [last];
      assert Text(a) + (Text(rest) + last + [NEWLINE]) == (Text(a) + Text(rest)) + last + [NEWLINE];
    }
  }

  lemma JoinSnoc<T>(parts: seq<seq<T>>, part: seq<T>)
    ensures Join(parts + [part]) == Join(parts) + part
  {
    assert (parts + [part])[..|parts|] == parts;
  }

  lemma ExtendLastGroup(groups: seq<seq<Line>>, lines: seq<Line>, line: Line, cap: int)
    requires Partition(groups, lines, cap) && groups != []
    requires |Text(groups[|groups| - 1])| + |line| + 1 <= cap
    ensures Partition(groups[..|groups| - 1] + [groups[|groups| - 1] + [line]], lines + [line], cap)
  {
    var front, last := groups[..|groups| - 1], groups[|groups| - 1];
    TextSnoc(last, line);
    JoinSnoc(front, last + [line]);
    assert lines == Join(front) + last;
  }

  lemma NewGroup(groups: seq<seq<Line>>, lines: seq<Line>, line: Line, cap: int)
    requires Partition(groups, lines, cap)
    ensures Partition(groups + [[line]], lines + [line], cap)
  {
    JoinSnoc(groups, [line]);
  }

  /** The greedy grouping loses no line, reorders none, and every group is legal. */
  lemma {:induction false} GreedyPartitions(lines: seq<Line>, cap: int)
    ensures Partition(Greedy(lines, cap), lines, cap)
    ensures Greedy(lines, cap) == [] <==> lines == []
  {
    hide Partition, Text;
    if lines == [] {
      NothingPartitioned(cap);
    } else {
      var front, line := lines[..|lines| - 1], lines[|lines| - 1];
      GreedyPartitions(front, cap);
      var groups := Greedy(front, cap);
      assert lines == front + [line];
      if groups != [] && |Text(groups[|groups| - 1])| + |line| + 1 <= cap {
        ExtendLastGroup(groups, front, line, cap);
      } else {
        NewGroup(groups, front, line, cap);
      }
    }
  }

  lemma NothingPartitioned(cap: int)
    ensures Partition([], [], cap)
  {
  }

  /** The lines of a partition with its last line taken off. */
  ghost function WithoutLastLine(groups: seq<seq<Line>>): seq<seq<Line>>
    requires groups != [] && groups[|groups| - 1] != []
  {
    var front, last := groups[..|groups| - 1], groups[|groups| - 1];
    if |last| == 1 then front else front + [last[..|last| - 1]]
  }

  lemma WithoutLastLinePartitions(groups: seq<seq<Line>>, lines: seq<Line>, cap: int)
    requires Partition(groups, lines, cap) && lines != []
    ensures groups != [] && groups[|groups| - 1] != []
    ensures groups[|groups| - 1][|groups[|groups| - 1]| - 1] == lines[|lines| - 1]
    ensures Partition(WithoutLastLine(groups), lines[..|lines| - 1], cap)
  {
    var front, last := groups[..|groups| - 1], groups[|groups| - 1];
    assert Legal(last, cap);
    assert lines == Join(front) + last;
    var shorter := WithoutLastLine(groups);
    if |last| > 1 {
      TextSnoc(last[..|last| - 1], last[|last| - 1]);
      assert last == last[..|last| - 1] + [last[|last| - 1]];
      assert shorter[..|shorter| - 1] == front;
    }
    assert Join(shorter) == lines[..|lines| - 1];
  }

  /** One more line: the last group grows by it while it fits, else a group of just that line starts. */
  lemma GreedyStep(lines: seq<Line>, cap: int)
    requires lines != []
    ensures var groups, line := Greedy(lines[..|lines| - 1], cap), lines[|lines| - 1];
      var next := Greedy(lines, cap);
      if groups != [] && LastSize(groups) + |line| + 1 <= cap
      then |next| == |groups| && LastSize(next) == LastSize(groups) + |line| + 1
      else |next| == |groups| + 1 && LastSize(next) == |line| + 1
  {
    var groups, line := Greedy(lines[..|lines| - 1], cap), lines[|lines| - 1];
    TextOfOne(line);
    if groups != [] {
      TextSnoc(groups[|groups| - 1], line);
    }
  }

  lemma WithoutLastLineSizes(groups: seq<seq<Line>>, lines: seq<Line>, cap: int)
    requires Partition(groups, lines, cap) && lines != []
    requires groups != [] && groups[|groups| - 1] != []
    ensures var shorter, line := WithoutLastLine(groups), lines[|lines| - 1];
      || (|shorter| == |groups| - 1 && LastSize(groups) == |line| + 1)
      || (|shorter| == |groups| && LastSize(groups) == LastSize(shorter) + |line| + 1 && LastSize(groups) <= cap)
  {
    WithoutLastLinePartitions(groups, lines, cap);
    var last, line := groups[|groups| - 1], lines[|lines| - 1];
    assert Legal(last, cap);
    hide Text, Join, Partition;
    assert last == last[..|last| - 1] + [line];
    TextSnoc(last[..|last| - 1], line);
    TextOfOne(line);
  }

  /** No legal cutting of the same lines has fewer groups; one with as many ends in a group at least as large. */
  lemma {:induction false} GreedyIsOptimal(lines: seq<Line>, cap: int, other: seq<seq<Line>>)
    requires Partition(other, lines, cap)
    ensures |Greedy(lines, cap)| <= |other|
    ensures |Greedy(lines, cap)| == |other| ==> LastSize(Greedy(lines, cap)) <= LastSize(other)
  {
    if lines != [] {
      WithoutLastLinePartitions(other, lines, cap);
      WithoutLastLineSizes(other, lines, cap);
      GreedyIsOptimal(lines[..|lines| - 1], cap, WithoutLastLine(other));
      GreedyStep(lines, cap);
    }
  }

  lemma {:induction false} TextsJoin(groups: seq<seq<Line>>)
    ensures Join(Texts(groups)) == Text(Join(groups))
  {
    if groups != [] {
      var front := groups[..|groups| - 1];
      TextsJoin(front);
      TextAppend(Join(front), groups[|groups| - 1]);
      assert Texts(groups)[..|groups| - 1] == Texts(front);
    }
  }

  /** What the scan loop holds after the lines so far: finished chunks and the open buffer. */
  ghost predicate LoopState(chunks: seq<seq<Byte>>, buffer: seq<Byte>, lines: seq<Line>, cap: int) {
    var groups := Greedy(lines, cap);
    if buffer != [] then Texts(groups) == chunks + [buffer]
    else Texts(groups) == chunks && (groups != [] ==> LastSize(groups) >= cap)
  }

  lemma TextsSnoc(groups: seq<seq<Line>>, group: seq<Line>)
    ensures Texts(groups + [group]) == Texts(groups) + [Text(group)]
  {
  }

  lemma GreedySnoc(lines: seq<Line>, line: Line, cap: int)
    ensures var groups := Greedy(lines, cap);
      Greedy(lines + [line], cap) ==
        if groups != [] && |Text(groups[|groups| - 1])| + |line| + 1 <= cap
        then groups[..|groups| - 1] + [groups[|groups| - 1] + [line]] else groups + [[line]]
  {
    assert (lines + [line])[..|lines|] == lines;
  }

  lemma SnocIsInjective<T>(a: seq<T>, x: T, b: seq<T>, y: T)
    requires a + [x] == b + [y]
    ensures a == b && x == y
  {
    assert |a| + 1 == |a + [x]| == |b + [y]| == |b| + 1;
    assert a == (a + [x])[..|a|] && b == (b + [y])[..|b|];
    assert (a + [x])[|a|] == x && (b + [y])[|b|] == y;
  }

  /** The line fits into the open buffer. */
  lemma LineJoinsBuffer(chunks: seq<seq<Byte>>, buffer: seq<Byte>, lines: seq<Line>, line: Line, cap: int)
    requires buffer != [] && Texts(Greedy(lines, cap)) == chunks + [buffer]
    requires |buffer| + |line| + 1 <= cap
    ensures Texts(Greedy(lines + [line], cap)) == chunks + [buffer + (line + [NEWLINE])]
    ensures LastSize(Greedy(lines + [line], cap)) == |buffer| + |line| + 1
  {
    hide Greedy;
    var groups := Greedy(lines, cap);
    var front, last := groups[..|groups| - 1], groups[|groups| - 1];
    assert groups == front + [last];
    TextsSnoc(front, last);
    SnocIsInjective(Texts(front), Text(last), chunks, buffer);
    GreedySnoc(lines, line, cap);
    TextSnoc(last, line);
    TextsSnoc(front, last + [line]);
    assert buffer + line + [NEWLINE] == buffer + (line + [NEWLINE]);
  }

  /** The line starts a new chunk. */
  lemma LineStartsChunk(finished: seq<seq<Byte>>, lines: seq<Line>, line: Line, cap: int)
    requires Texts(Greedy(lines, cap)) == finished
    requires Greedy(lines, cap) != [] ==> LastSize(Greedy(lines, cap)) + |line| + 1 > cap
    ensures Texts(Greedy(lines + [line], cap)) == finished + [line + [NEWLINE]]
    ensures LastSize(Greedy(lines + [line], cap)) == |line| + 1
  {
    hide Greedy;
    GreedySnoc(lines, line, cap);
    TextsSnoc(Greedy(lines, cap), [line]);
    TextOfOne(line);
  }

  lemma LoopStep(chunks: seq<seq<Byte>>, buffer: seq<Byte>, lines: seq<Line>, line: Line, cap: int)
    requires LoopState(chunks, buffer, lines, cap)
    ensures var candidate := line + [NEWLINE];
      var overflow := |buffer| > 0 && |buffer| + |candidate| > cap;
      var chunks' := if overflow then chunks + [buffer] else chunks;
      var buffer' := (if overflow then [] else buffer) + candidate;
      if |buffer'| >= cap then LoopState(chunks' + [buffer'], [], lines + [line], cap)
      else LoopState(chunks', buffer', lines + [line], cap)
  {
    hide Greedy, Text;
    if buffer != [] && |buffer| + |line| + 1 <= cap {
      LineJoinsBuffer(chunks, buffer, lines, line, cap);
    } else {
      var finished := if buffer != [] then chunks + [buffer] else chunks;
      assert [] + (line + [NEWLINE]) == line + [NEWLINE];
      if buffer != [] {
        assert Texts(Greedy(lines, cap))[|chunks|] == buffer;
      }
      LineStartsChunk(finished, lines, line, cap);
    }
  }

  lemma LoopStarts(cap: int)
    ensures LoopState([], [], [], cap)
  {
  }

  lemma LoopEnds(chunks: seq<seq<Byte>>, buffer: seq<Byte>, lines: seq<Line>, cap: int)
    requires LoopState(chunks, buffer, lines, cap)
    ensures Texts(Greedy(lines, cap)) == if |buffer| > 0 then chunks + [buffer] else chunks
  {
  }

  /** The greedy chunks carry the whole text and are as few as any legal cutting allows. */
  lemma GreedyChunks(lines: seq<Line>, cap: int)
    ensures var groups := Greedy(lines, cap);
      && Join(Texts(groups)) == Text(lines) && Partition(groups, lines, cap)
      && |Texts(groups)| == |groups|
      && forall other :: Partition(other, lines, cap) ==> |Texts(groups)| <= |other|
  {
    GreedyPartitions(lines, cap);
    TextsJoin(Greedy(lines, cap));
    forall other | Partition(other, lines, cap) ensures |Greedy(lines, cap)| <= |other| {
      GreedyIsOptimal(lines, cap, other);
    }
  }

  /**
   The scan loop. The scanner hands over the lines it could read; scanFailed says that
   it stopped early (an over-long line or a read error), in which case the chunks of
   the lines before the failure come back together with the error.
   */
  method SplitChunks(lines: seq<Line>, maxChunkSize: int, scanFailed: bool)
    returns (chunks: seq<seq<Byte>>, err: bool)
    ensures err == scanFailed
    ensures Join(chunks) == Text(lines)
    ensures var cap := if maxChunkSize > 0 then maxChunkSize else 8192;
      && (exists groups :: Partition(groups, lines, cap) && chunks == Texts(groups))
      && (forall other :: Partition(other, lines, cap) ==> |chunks| <= |other|)
    ensures chunks == Texts(Greedy(lines, EffectiveCap(maxChunkSize)))
  {
    hide LoopState, Greedy, Text, Join, Partition, Texts;
    var cap := if maxChunkSize <= 0 then CHUNK_SIZE else maxChunkSize;
    chunks := [];
    var buffer: seq<Byte> := [];
    LoopStarts(cap);
    for i := 0 to |lines|
      invariant LoopState(chunks, buffer, lines[..i], cap)
    {
      LoopStep(chunks, buffer, lines[..i], lines[i], cap);
      assert lines[..i + 1] == lines[..i] + [lines[i]];
      var candidate := lines[i] + [NEWLINE];
      if |buffer| > 0 && |buffer| + |candidate| > cap {
        chunks, buffer := chunks + [buffer], [];
      }
      buffer := buffer + candidate;
      if |buffer| >= cap {
        chunks, buffer := chunks + [buffer], [];
      }
    }
    assert lines[..|lines|] == lines;
    LoopEnds(chunks, buffer, lines, cap);
    if |buffer| > 0 {
      chunks := chunks + [buffer];
    }
    err := scanFailed;
    GreedyChunks(lines, cap);
  }

  /** Every chunk of a legal grouping ends a line and is within the cap or is one whole line. */
  lemma ChunkShape(groups: seq<seq<Line>>, lines: seq<Line>, cap: int, i: nat)
    requires Partition(groups, lines, cap) && i < |groups|
    ensures var chunk := Texts(groups)[i];
      && chunk != [] && chunk[|chunk| - 1] == NEWLINE
      && (|chunk| <= cap || exists line :: line in groups[i] && chunk == line + [NEWLINE])
  {
    var group := groups[i];
    assert Legal(group, cap);
    if |group| == 1 {
      TextOfOne(group[0]);
      assert group == [group[0]];
    }
  }

  // --- The line scanner ---

  function LineEnd(raw: seq<Byte>): (n: nat)
    ensures n <= |raw| && NEWLINE !in raw[..n]
    ensures n < |raw| ==> raw[n] == NEWLINE
  {
    if raw == [] || raw[0] == NEWLINE then 0 else
      var n := LineEnd(raw[1..]);
      assert raw[..n + 1] == [raw[0]] + raw[1..][..n];
      n + 1
  }

  function DropCarriageReturn(line: Line): Line {
    if line != [] && line[|line| - 1] == CARRIAGE_RETURN then line[..|line| - 1] else line
  }

  /** The line splitting of Go's bufio.ScanLines. */
  function ScanLines(raw: seq<Byte>): seq<Line> {
    if raw == [] then [] else
      var n := LineEnd(raw);
      if n == |raw| then [DropCarriageReturn(raw)]
      else [DropCarriageReturn(raw[..n])] + ScanLines(raw[n + 1..])
  }

  /** A carriage return that the scanner drops: one directly before a newline or at the very end. */
  predicate Dropped(raw: seq<Byte>, i: nat)
    requires i < |raw|
  {
    raw[i] == CARRIAGE_RETURN && (i + 1 == |raw| || raw[i + 1] == NEWLINE)
  }

  predicate DropsNothing(raw: seq<Byte>) {
    forall i | 0 <= i < |raw| :: !Dropped(raw, i)
  }

  /** The log with its last line ended. */
  function Terminated(raw: seq<Byte>): seq<Byte> {
    if raw == [] || raw[|raw| - 1] == NEWLINE then raw else raw + [NEWLINE]
  }

  lemma LineDropsNothing(line: Line)
    requires NEWLINE !in line
    ensures DropsNothing(line) <==> DropCarriageReturn(line) == line
    ensures DropCarriageReturn(line) == line || |DropCarriageReturn(line)| < |line|
  {
    if line != [] && line[|line| - 1] == CARRIAGE_RETURN {
      assert Dropped(line, |line| - 1);
    }
  }

  /** Nothing is dropped exactly when nothing is from the first line nor from the rest. */
  lemma DropsNothingSplit(line: Line, rest: seq<Byte>)
    requires NEWLINE !in line
    ensures DropsNothing(line + [NEWLINE] + rest) <==> DropsNothing(line) && DropsNothing(rest)
  {
    var raw, n := line + [NEWLINE] + rest, |line|;
    forall i | 0 <= i < |rest| ensures Dropped(rest, i) <==> Dropped(raw, n + 1 + i) {
    }
    forall i | 0 <= i < n ensures Dropped(line, i) <==> Dropped(raw, i) {
      assert i + 1 < n ==> line[i + 1] in line;
    }
    if DropsNothing(line) && DropsNothing(rest) {
      forall i | 0 <= i < |raw| ensures !Dropped(raw, i) {
        if i > n {
          assert !Dropped(rest, i - n - 1);
        } else if i < n {
          assert !Dropped(line, i);
        }
      }
    }
  }

  lemma TerminatedSplit(line: Line, rest: seq<Byte>)
    ensures Terminated(line + [NEWLINE] + rest) == line + [NEWLINE] + Terminated(rest)
  {
  }

  /** Splitting off the first line. */
  lemma ScanFirstLine(raw: seq<Byte>, n: nat)
    requires n == LineEnd(raw) < |raw|
    ensures ScanLines(raw) == [DropCarriageReturn(raw[..n])] + ScanLines(raw[n + 1..])
    ensures Text(ScanLines(raw)) == DropCarriageReturn(raw[..n]) + [NEWLINE] + Text(ScanLines(raw[n + 1..]))
  {
    hide LineEnd, DropCarriageReturn;
    TextOfOne(DropCarriageReturn(raw[..n]));
    TextAppend([DropCarriageReturn(raw[..n])], ScanLines(raw[n + 1..]));
  }

  lemma ScanOnlyLine(raw: seq<Byte>)
    requires raw != [] && LineEnd(raw) == |raw|
    ensures Text(ScanLines(raw)) == DropCarriageReturn(raw) + [NEWLINE]
    ensures NEWLINE !in raw && Terminated(raw) == raw + [NEWLINE]
  {
    assert raw[..|raw|] == raw && raw[|raw| - 1] in raw;
    TextOfOne(DropCarriageReturn(raw));
  }

  lemma NothingToScan()
    ensures Text(ScanLines([])) == Terminated([]) == [] && DropsNothing([])
  {
  }

  lemma Cancel(line: Line, a: seq<Byte>, b: seq<Byte>)
    ensures line + [NEWLINE] + a == line + [NEWLINE] + b <==> a == b
  {
    var n := |line| + 1;
    assert a == (line + [NEWLINE] + a)[n..] && b == (line + [NEWLINE] + b)[n..];
  }

  /**
   Scanning a log into lines and writing them back ends its last line and changes nothing
   else, if and only if no carriage return stands directly before a newline or at the end.
   */
  lemma {:induction false} ScanIsLosslessIff(raw: seq<Byte>)
    ensures Text(ScanLines(raw)) == Terminated(raw) <==> DropsNothing(raw)
    ensures |Text(ScanLines(raw))| <= |Terminated(raw)|
    decreases |raw|
  {
    hide DropCarriageReturn, ScanLines, Text, Terminated, DropsNothing;
    if raw == [] {
      NothingToScan();
    } else {
      var n := LineEnd(raw);
      if n == |raw| {
        ScanOnlyLine(raw);
        LineDropsNothing(raw);
      } else {
        var line, rest := raw[..n], raw[n + 1..];
        assert raw == line + [NEWLINE] + rest;
        ScanIsLosslessIff(rest);
        ScanFirstLine(raw, n);
        LineDropsNothing(line);
        DropsNothingSplit(line, rest);
        TerminatedSplit(line, rest);
        Cancel(line, Text(ScanLines(rest)), Terminated(rest));
      }
    }
  }
}
