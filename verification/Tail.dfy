/** The last lines of a file: found by scanning backwards, or kept while reading forwards. */
module Tailing {
  import opened Bytes

  const MAX_LINE_LENGTH: nat := 10240
  const BUFFER_SIZE: nat := 32768

  // ----- lines, newlines included

  /** The length of the first line with its newline. */
  function FirstLine(s: seq<byte>): (n: nat)
    requires s != []
    ensures 1 <= n <= |s|
  {
    var p := FirstNewline(s);
    if p < |s| then p + 1 else p
  }

  /** The declarative split: each line keeps its newline, the last may lack one. */
  function SplitLines(s: seq<byte>): (r: seq<seq<byte>>)
    ensures s == [] <==> r == []
    decreases |s|
  {
    if s == [] then [] else [s[..FirstLine(s)]] + SplitLines(s[FirstLine(s)..])
  }

  /** The last `n` lines, or all of them. */
  function LastLines(lines: seq<seq<byte>>, n: nat): seq<seq<byte>> {
    if |lines| <= n then lines else lines[|lines| - n..]
  }

  /** How many newlines of `s` separate lines: one at the very end does not. */
  function Separators(s: seq<byte>): nat {
    if |s| <= 1 then 0 else (if s[0] == NEWLINE then 1 else 0) + Separators(s[1..])
  }

  lemma {:induction false} JoinedLines(s: seq<byte>)
    ensures Flatten(SplitLines(s)) == s
    decreases |s|
  {
    if s != [] {
      JoinedLines(s[FirstLine(s)..]);
    }
  }

  /** A line: not empty, and with a newline at most at its end. */
  predicate IsLine(line: seq<byte>) {
    line != [] && NEWLINE !in line[..|line| - 1]
  }

  predicate Terminated(line: seq<byte>) {
    line != [] && line[|line| - 1] == NEWLINE
  }

  lemma FirstLineIs(s: seq<byte>)
    requires s != []
    ensures var n := FirstLine(s); IsLine(s[..n]) && (n < |s| ==> Terminated(s[..n]))
  {
    var n := FirstLine(s);
    assert forall i :: 0 <= i < n - 1 ==> s[..n][..n - 1][i] == s[i];
  }

  /** The lines are the pieces between newlines, and only the last of them may lack its newline. */
  lemma {:induction false} LinesEndAtNewlines(s: seq<byte>, i: nat)
    requires i < |SplitLines(s)|
    ensures var lines := SplitLines(s); IsLine(lines[i]) && (i < |lines| - 1 ==> Terminated(lines[i]))
    decreases |s|
  {
    FirstLineIs(s);
    hide IsLine, Terminated, FirstLine;
    if i > 0 {
      LinesEndAtNewlines(s[FirstLine(s)..], i - 1);
    }
  }

  lemma {:induction false} SkipPlain(s: seq<byte>, k: nat)
    requires k <= |s| && forall i :: 0 <= i < k ==> s[i] != NEWLINE
    ensures Separators(s) == Separators(s[k..])
    decreases k
  {
    if k > 0 {
      SkipPlain(s[1..], k - 1);
      assert s[1..][k - 1..] == s[k..];
    }
  }

  /** There is one line more than there are separators. */
  lemma {:induction false} LineCount(s: seq<byte>)
    requires s != []
    ensures |SplitLines(s)| == Separators(s) + 1
    decreases |s|
  {
    var p := FirstNewline(s);
    SkipPlain(s, p);
    if p < |s| && p + 1 < |s| {
      LineCount(s[p + 1..]);
      assert s[p..][1..] == s[p + 1..];
    } else {
      assert s[FirstLine(s)..] == [];
    }
  }

  /** Where a line starts, the split falls apart into the lines before and from there on. */
  lemma {:induction false} SplitAt(s: seq<byte>, pos: nat)
    requires pos <= |s| && (pos == 0 || s[pos - 1] == NEWLINE)
    ensures SplitLines(s) == SplitLines(s[..pos]) + SplitLines(s[pos..])
    decreases |s|
  {
    if pos == 0 {
      assert s[..pos] == [] && s[pos..] == s;
    } else {
      LineBefore(s, pos);
      hide *;
      var n := FirstLine(s);
      SplitFirst(s, n);
      SplitFirst(s[..pos], n);
      SplitAt(s[n..], pos - n);
      SliceAround(s, n, pos);
      Associative([s[..n]], SplitLines(s[..pos][n..]), SplitLines(s[pos..]));
    }
  }

  /** The first line ends by `pos`, and what is before `pos` has the same first line. */
  lemma LineBefore(s: seq<byte>, pos: nat)
    requires 0 < pos <= |s| && s[pos - 1] == NEWLINE
    ensures var n := FirstLine(s);
      n <= pos && FirstLine(s[..pos]) == n && (n == pos || s[n..][pos - n - 1] == NEWLINE)
  {
    var p := FirstNewline(s);
    var front := s[..pos];
    assert p < pos;
    assert forall i :: 0 <= i < pos ==> front[i] == s[i];
    FirstNewlineOf(front, p);
  }

  lemma SplitFirst(s: seq<byte>, n: nat)
    requires s != [] && FirstLine(s) == n
    ensures SplitLines(s) == [s[..n]] + SplitLines(s[n..])
  {
  }

  /** The tail of `s` starts where exactly as many lines follow as were asked for, or at the beginning. */
  ghost predicate TailStart(s: seq<byte>, lines: nat, start: nat) {
    && start <= |s|
    && s[start..] == Flatten(LastLines(SplitLines(s), lines))
  }

  lemma StartBySeparator(s: seq<byte>, lines: nat, k: nat)
    requires k < |s| - 1 && s[k] == NEWLINE && Separators(s[k + 1..]) + 1 == lines
    ensures TailStart(s, lines, k + 1)
  {
    hide *;
    SplitAt(s, k + 1);
    LineCount(s[k + 1..]);
    JoinedLines(s[k + 1..]);
    LastOfAppend(SplitLines(s[..k + 1]), SplitLines(s[k + 1..]));
    TailStartFrom(s, lines, k + 1);
  }

  lemma LastOfAppend(a: seq<seq<byte>>, b: seq<seq<byte>>)
    ensures LastLines(a + b, |b|) == b
  {
  }

  lemma TailStartFrom(s: seq<byte>, lines: nat, start: nat)
    requires start <= |s| && s[start..] == Flatten(LastLines(SplitLines(s), lines))
    ensures TailStart(s, lines, start)
  {
  }

  lemma StartAtBeginning(s: seq<byte>, lines: nat)
    requires s != [] && Separators(s) < lines
    ensures TailStart(s, lines, 0)
  {
    LineCount(s);
    JoinedLines(s);
  }

  lemma SeparatorsFrom(s: seq<byte>, i: nat)
    requires i < |s|
    ensures Separators(s[i..]) == (if s[i] == NEWLINE && i < |s| - 1 then 1 else 0) + Separators(s[i + 1..])
  {
    assert s[i..][1..] == s[i + 1..];
  }

  lemma SeparatorsAtEnd(s: seq<byte>)
    ensures Separators(s[|s|..]) == 0
  {
  }

  /** The seek position `async_tail` leaves its reader at, over a file holding `s`. */
  method AsyncTail(s: seq<byte>, lines: nat) returns (start: nat)
    ensures TailStart(s, lines, start)
  {
    if lines == 0 {
      assert LastLines(SplitLines(s), 0) == [];
      return |s|;
    }
    if |s| == 0 {
      return 0;
    }
    hide SplitLines, TailStart, LastLines, Separators;
    var fileSize := |s|;
    SeparatorsAtEnd(s);
    var currentPos := fileSize;
    var linesFound := 0;
    while currentPos > 0
      invariant 0 <= currentPos <= fileSize
      invariant linesFound == Separators(s[currentPos..]) < lines
    {
      var readSize := if BUFFER_SIZE < currentPos then BUFFER_SIZE else currentPos;
      var oldPos := currentPos;
      currentPos := currentPos - readSize;
      var chunk := s[currentPos..oldPos];
      var i := readSize;
      while i > 0
        invariant 0 <= i <= readSize
        invariant linesFound == Separators(s[currentPos + i..]) < lines
      {
        i := i - 1;
        assert chunk[i] == s[currentPos + i];
        SeparatorsFrom(s, currentPos + i);
        if chunk[i] == NEWLINE {
          if currentPos + i == fileSize - 1 {
            continue;
          }
          linesFound := linesFound + 1;
          if linesFound == lines {
            StartBySeparator(s, lines, currentPos + i);
            return currentPos + i + 1;
          }
        }
      }
    }
    assert s[0..] == s;
    StartAtBeginning(s, lines);
    start := 0;
  }

  // ----- the forward read

  /** What a line becomes when it is collected with a length limit. */
  function Capped(line: seq<byte>): seq<byte> {
    if line == [] then []
    else if line[|line| - 1] == NEWLINE then
      (if |line| - 1 > MAX_LINE_LENGTH then line[..MAX_LINE_LENGTH] + [NEWLINE] else line)
    else if |line| > MAX_LINE_LENGTH then line[..MAX_LINE_LENGTH] else line
  }

  /** What a line is without its newline. */
  function Content(line: seq<byte>): seq<byte> {
    if Terminated(line) then line[..|line| - 1] else line
  }

  /** Capping keeps whether the line ends with a newline, and as much of its content as the limit allows. */
  lemma CappedKeeps(line: seq<byte>)
    requires IsLine(line)
    ensures var c := Capped(line);
      && (Terminated(c) <==> Terminated(line))
      && Content(c) == Content(line)[..if |Content(line)| < MAX_LINE_LENGTH then |Content(line)| else MAX_LINE_LENGTH]
  {
    assert forall i :: 0 <= i < |line| - 1 ==> line[i] == line[..|line| - 1][i] != NEWLINE;
  }

  function CapAll(lines: seq<seq<byte>>): (r: seq<seq<byte>>)
    ensures |r| == |lines| && forall i :: 0 <= i < |r| ==> r[i] == Capped(lines[i])
  {
    if lines == [] then [] else [Capped(lines[0])] + CapAll(lines[1..])
  }

  /** A buffered reader: whatever the buffer happens to hold, it is a piece of what is left. */
  class BufReader {
    var rest: seq<byte>

    constructor (data: seq<byte>)
      ensures rest == data
    {
      rest := data;
    }

    method FillBuf() returns (available: seq<byte>)
      ensures available <= rest
      ensures available == [] <==> rest == []
    {
      if rest == [] {
        return [];
      }
      var n :| 1 <= n <= |rest|;
      available := rest[..n];
    }

    method Consume(n: nat)
      requires n <= |rest|
      modifies this
      ensures rest == old(rest)[n..]
    {
      rest := rest[n..];
    }
  }

  function AtMost(n: nat): nat {
    if n < MAX_LINE_LENGTH then n else MAX_LINE_LENGTH
  }

  /** What one line's worth of reading leaves: `n` bytes consumed, ending with the first newline or with the stream. */
  ghost predicate LineConsumed(data: seq<byte>, n: nat, hitNewline: bool) {
    && n <= |data|
    && (forall i :: 0 <= i < n - 1 ==> data[i] != NEWLINE)
    && (hitNewline ==> n > 0 && data[n - 1] == NEWLINE)
    && (!hitNewline ==> n == |data| && (n > 0 ==> data[n - 1] != NEWLINE))
  }

  /** Feeding the buffer's pieces of one line to a collector that keeps at most the limit. */
  method ReadLine(reader: BufReader) returns (line: seq<byte>, truncated: bool, hitNewline: bool, ghost n: nat)
    modifies reader
    ensures LineConsumed(old(reader.rest), n, hitNewline)
    ensures reader.rest == old(reader.rest)[n..]
    ensures line == old(reader.rest)[..AtMost(n)] && truncated == (n > MAX_LINE_LENGTH)
  {
    hide FirstNewline;
    ghost var data := reader.rest;
    line, truncated, hitNewline, n := [], false, false, 0;
    while true
      invariant n <= |data| && reader.rest == data[n..]
      invariant forall i :: 0 <= i < n ==> data[i] != NEWLINE
      invariant line == data[..AtMost(n)]
      invariant truncated == (n > MAX_LINE_LENGTH) && !hitNewline
      decreases |data| - n
    {
      var available := reader.FillBuf();
      if available == [] {
        return;
      }
      var pos := FirstNewline(available);
      var consumed := if pos < |available| then pos + 1 else |available|;
      var chunk := available[..consumed];
      var take := if MAX_LINE_LENGTH - |line| < |chunk| then MAX_LINE_LENGTH - |line| else |chunk|;
      Consumed(data, n, available, consumed);
      Collected(data, n, consumed);
      line := line + chunk[..take];
      truncated := truncated || take < |chunk|;
      hitNewline := chunk[|chunk| - 1] == NEWLINE;
      reader.Consume(consumed);
      n := n + consumed;
      if pos < |available| {
        return;
      }
    }
  }

  /** One line, its content cut to the limit; `None` at the end of the stream. */
  method ReadLineCapped(reader: BufReader) returns (r: Option<seq<byte>>)
    modifies reader
    ensures old(reader.rest) == [] ==> r == None && reader.rest == []
    ensures old(reader.rest) != [] ==>
      var n := FirstLine(old(reader.rest));
      r == Some(Capped(old(reader.rest)[..n])) && reader.rest == old(reader.rest)[n..]
  {
    hide Capped, FirstLine;
    ghost var data := reader.rest;
    var line, truncated, hitNewline, n := ReadLine(reader);
    if line == [] {
      return None;
    }
    LineRead(data, n, hitNewline);
    CappedLine(data, n, hitNewline);
    assert truncated ==> line[|line| - 1] == data[MAX_LINE_LENGTH - 1];
    if truncated && hitNewline && line[|line| - 1] != NEWLINE {
      line := line + [NEWLINE];
    }
    r := Some(line);
  }

  /** What is taken from the buffer is the next stretch of the stream, with a newline at most at its end. */
  lemma Consumed(data: seq<byte>, done: nat, available: seq<byte>, consumed: nat)
    requires done <= |data| && available <= data[done..] && available != []
    requires consumed == if FirstNewline(available) < |available| then FirstNewline(available) + 1 else |available|
    ensures 1 <= consumed <= |available| && done + consumed <= |data|
    ensures available[..consumed] == data[done..done + consumed]
    ensures data[done..][consumed..] == data[done + consumed..]
    ensures forall i :: done <= i < done + consumed - 1 ==> data[i] != NEWLINE
    ensures data[done + consumed - 1] == NEWLINE <==> FirstNewline(available) < |available|
  {
    hide FirstNewline;
    PrefixOfRest(data, done, available, consumed);
  }

  lemma PrefixOfRest(data: seq<byte>, done: nat, available: seq<byte>, consumed: nat)
    requires done <= |data| && available <= data[done..] && consumed <= |available|
    ensures done + |available| <= |data|
    ensures available[..consumed] == data[done..done + consumed]
    ensures data[done..][consumed..] == data[done + consumed..]
    ensures forall i :: done <= i < done + consumed ==> data[i] == available[i - done]
  {
    assert available == data[done..done + |available|];
  }

  lemma Collected(data: seq<byte>, done: nat, consumed: nat)
    requires done + consumed <= |data|
    ensures var have := AtMost(done);
      var take := if MAX_LINE_LENGTH - have < consumed then MAX_LINE_LENGTH - have else consumed;
      data[..have] + data[done..done + consumed][..take] == data[..AtMost(done + consumed)]
  {
  }

  lemma CappedLine(data: seq<byte>, done: nat, hitNewline: bool)
    requires 1 <= done <= |data|
    requires forall i :: 0 <= i < done - 1 ==> data[i] != NEWLINE
    requires hitNewline == (data[done - 1] == NEWLINE)
    ensures Capped(data[..done]) ==
      if done <= MAX_LINE_LENGTH then data[..done]
      else if hitNewline then data[..MAX_LINE_LENGTH] + [NEWLINE]
      else data[..MAX_LINE_LENGTH]
  {
    var line := data[..done];
    assert line[done - 1] == data[done - 1];
    if done > MAX_LINE_LENGTH {
      assert line[..MAX_LINE_LENGTH] == data[..MAX_LINE_LENGTH];
      if hitNewline && done == MAX_LINE_LENGTH + 1 {
        assert line == data[..MAX_LINE_LENGTH] + [NEWLINE];
      }
    }
  }

  lemma LineRead(data: seq<byte>, done: nat, hitNewline: bool)
    requires 1 <= done <= |data|
    requires forall i :: 0 <= i < done - 1 ==> data[i] != NEWLINE
    requires hitNewline == (data[done - 1] == NEWLINE)
    requires !hitNewline ==> done == |data|
    ensures FirstLine(data) == done
  {
    if hitNewline {
      FirstNewlineOf(data, done - 1);
    } else {
      NoNewlineOf(data);
    }
  }

  /** The forward reading: all lines pass through a queue that keeps the last ones. */
  method AsyncTailStream(data: seq<byte>, lines: nat) returns (result: seq<byte>)
    ensures result == Flatten(LastLines(CapAll(SplitLines(data)), lines))
  {
    if lines == 0 {
      assert LastLines(CapAll(SplitLines(data)), 0) == [];
      return [];
    }
    hide SplitLines, Capped, Flatten, LastLines, CapAll, FirstLine;
    var reader := new BufReader(data);
    var queue: seq<seq<byte>> := [];
    ghost var done: seq<seq<byte>> := [];
    EmptyQueue(lines);
    while true
      invariant done + SplitLines(reader.rest) == SplitLines(data)
      invariant queue == LastLines(CapAll(done), lines)
      decreases |reader.rest|
    {
      ghost var rest := reader.rest;
      var line := ReadLineCapped(reader);
      if line.None? {
        assert done == SplitLines(data);
        break;
      }
      SplitFirst(rest, FirstLine(rest));
      Associative(done, [rest[..FirstLine(rest)]], SplitLines(reader.rest));
      QueueStep(done, rest[..FirstLine(rest)], lines);
      if |queue| == lines {
        queue := queue[1..];
      }
      queue := queue + [line.value];
      done := done + [rest[..FirstLine(rest)]];
    }
    result := Flatten(queue);
  }

  lemma EmptyQueue(n: nat)
    ensures LastLines(CapAll([]), n) == []
  {
  }

  lemma QueueStep(done: seq<seq<byte>>, line: seq<byte>, n: nat)
    requires n >= 1
    ensures var queue := LastLines(CapAll(done), n);
      LastLines(CapAll(done + [line]), n) == (if |queue| == n then queue[1..] else queue) + [Capped(line)]
  {
    hide *;
    CapSnoc(done, line);
    LastSnoc(CapAll(done), Capped(line), n);
  }

  lemma {:induction false} LastSnoc(lines: seq<seq<byte>>, line: seq<byte>, n: nat)
    requires n >= 1
    ensures var queue := LastLines(lines, n);
      LastLines(lines + [line], n) == (if |queue| == n then queue[1..] else queue) + [line]
  {
    if |lines| >= n {
      assert (lines + [line])[|lines| + 1 - n..] == lines[|lines| - n..][1..] + [line];
    }
  }

  lemma CapSnoc(done: seq<seq<byte>>, line: seq<byte>)
    ensures CapAll(done + [line]) == CapAll(done) + [Capped(line)]
  {
    hide Capped;
  }

  // ----- the two agree

  lemma CappedShrinks(line: seq<byte>)
    ensures |Capped(line)| <= |line|
    ensures |Capped(line)| == |line| ==> Capped(line) == line
  {
  }

  lemma {:induction false} CapAllAgrees(lines: seq<seq<byte>>)
    ensures |Flatten(CapAll(lines))| <= |Flatten(lines)|
    ensures |Flatten(CapAll(lines))| == |Flatten(lines)| ==> CapAll(lines) == lines
  {
    if lines != [] {
      CapAllAgrees(lines[1..]);
      CappedShrinks(lines[0]);
      hide Capped;
      assert CapAll(lines)[1..] == CapAll(lines[1..]);
    }
  }

  /** Every line's content, its newline aside, is within the limit. */
  predicate Short(lines: seq<seq<byte>>) {
    forall line <- lines :: ContentLength(line) <= MAX_LINE_LENGTH
  }

  function ContentLength(line: seq<byte>): nat {
    if line != [] && line[|line| - 1] == NEWLINE then |line| - 1 else |line|
  }

  lemma CappedIff(line: seq<byte>)
    ensures Capped(line) == line <==> ContentLength(line) <= MAX_LINE_LENGTH
  {
  }

  lemma CapOfLast(lines: seq<seq<byte>>, n: nat)
    ensures LastLines(CapAll(lines), n) == CapAll(LastLines(lines, n))
  {
    hide Capped;
  }

  /**
   The backward and the forward tail yield the same bytes, those of the last
   lines of the split, exactly when none of these lines exceeds the limit.
   */
  lemma {:induction false} BackwardEqualsForward(s: seq<byte>, lines: nat, start: nat)
    requires TailStart(s, lines, start)
    ensures s[start..] == Flatten(LastLines(CapAll(SplitLines(s)), lines)) <==> Short(LastLines(SplitLines(s), lines))
  {
    hide SplitLines, Capped, ContentLength;
    var tail := LastLines(SplitLines(s), lines);
    CapOfLast(SplitLines(s), lines);
    CapAllAgrees(tail);
    forall i | 0 <= i < |tail|
      ensures CapAll(tail)[i] == tail[i] <==> ContentLength(tail[i]) <= MAX_LINE_LENGTH
    {
      CappedIff(tail[i]);
    }
    if Short(tail) {
      assert forall i :: 0 <= i < |tail| ==> tail[i] in tail;
      assert CapAll(tail) == tail;
    } else {
      var line :| line in tail && ContentLength(line) > MAX_LINE_LENGTH;
      var i :| 0 <= i < |tail| && tail[i] == line;
      assert CapAll(tail)[i] != tail[i];
    }
  }
}
