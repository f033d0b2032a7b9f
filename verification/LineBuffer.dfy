/** Cutting a byte stream that arrives in pieces into log lines of bounded length. */
module LineBuffering {
  import opened Bytes

  const MAX_LINE_LENGTH: nat := 5120
  const COMPACT_THRESHOLD: nat := 10240

  /** `u8::is_ascii_whitespace`. */
  predicate IsWhitespace(b: byte) {
    b == 32 || b == 9 || b == 10 || b == 12 || b == 13
  }

  function TrimEnd(s: seq<byte>): seq<byte> {
    if s != [] && IsWhitespace(s[|s| - 1]) then TrimEnd(s[..|s| - 1]) else s
  }

  /** What trimming leaves: a prefix that ends in no whitespace, with nothing but whitespace cut off. */
  predicate Trimmed(s: seq<byte>, r: seq<byte>) {
    && r <= s
    && (forall i :: |r| <= i < |s| ==> IsWhitespace(s[i]))
    && (r != [] ==> !IsWhitespace(r[|r| - 1]))
  }

  lemma {:induction false} TrimEndTrims(s: seq<byte>)
    ensures Trimmed(s, TrimEnd(s))
  {
    if s != [] && IsWhitespace(s[|s| - 1]) {
      TrimEndTrims(s[..|s| - 1]);
    }
  }

  // ----- the reference: newline-separated text, each line chopped to the maximum

  /** A line's content in pieces of the maximum length, the last one shorter if need be. */
  function Chop(line: seq<byte>): seq<seq<byte>> {
    if |line| <= MAX_LINE_LENGTH then [TrimEnd(line)]
    else [TrimEnd(line[..MAX_LINE_LENGTH])] + Chop(line[MAX_LINE_LENGTH..])
  }

  /** The lines of a complete stream; an unterminated last line counts unless it is empty. */
  function LinesOf(stream: seq<byte>): seq<seq<byte>> {
    var p := FirstNewline(stream);
    if p < |stream| then Chop(stream[..p]) + LinesOf(stream[p + 1..])
    else if stream == [] then [] else Chop(stream)
  }

  // ----- the greedy cut

  datatype Cut = Cut(len: nat, advance: nat)

  /** The next line of `s` that is certain whatever follows. */
  function NextCut(s: seq<byte>): (r: Option<Cut>)
    ensures r.Some? ==> r.value.len <= r.value.advance <= |s| && 1 <= r.value.advance
    ensures r.None? ==> |s| <= MAX_LINE_LENGTH
  {
    var p := FirstNewline(s);
    if p < |s| && p <= MAX_LINE_LENGTH then Some(Cut(p, p + 1))
    else if p < |s| || |s| > MAX_LINE_LENGTH then Some(Cut(MAX_LINE_LENGTH, MAX_LINE_LENGTH))
    else None
  }

  /** The certain lines of `s`. */
  function Lines(s: seq<byte>): seq<seq<byte>>
    decreases |s|
  {
    match NextCut(s)
    case None => []
    case Some(c) => [TrimEnd(s[..c.len])] + Lines(s[c.advance..])
  }

  /** What the certain lines leave over. */
  function Rest(s: seq<byte>): seq<byte>
    decreases |s|
  {
    match NextCut(s)
    case None => s
    case Some(c) => Rest(s[c.advance..])
  }

  function Flushed(rest: seq<byte>): seq<seq<byte>> {
    if rest == [] then [] else [TrimEnd(rest)]
  }

  /** A cut once certain stays the same when more arrives. */
  lemma CutIsStable(s: seq<byte>, more: seq<byte>)
    requires NextCut(s).Some?
    ensures NextCut(s + more) == NextCut(s)
  {
    var p := FirstNewline(s);
    var t := s + more;
    if p < |s| {
      assert forall i :: 0 <= i < p ==> t[i] == s[i];
      FirstNewlineOf(t, p);
    } else {
      assert forall i :: 0 <= i < |s| ==> t[i] == s[i];
    }
  }

  /** Cutting early and going on with what is left gives the same lines. */
  lemma {:induction false} LinesResume(s: seq<byte>, more: seq<byte>)
    ensures Lines(s + more) == Lines(s) + Lines(Rest(s) + more)
    ensures Rest(s + more) == Rest(Rest(s) + more)
    decreases |s|
  {
    hide FirstNewline, TrimEnd, NextCut;
    if NextCut(s).Some? {
      CutIsStable(s, more);
      var c := NextCut(s).value;
      assert (s + more)[c.advance..] == s[c.advance..] + more;
      assert (s + more)[..c.len] == s[..c.len];
      LinesResume(s[c.advance..], more);
    }
  }

  /** The greedy cut of a whole stream is its reference segmentation. */
  lemma {:induction false} GreedyIsReference(s: seq<byte>)
    ensures Lines(s) + Flushed(Rest(s)) == LinesOf(s)
    decreases |s|
  {
    hide TrimEnd;
    var p := FirstNewline(s);
    match NextCut(s) {
      case None =>
      case Some(c) =>
        GreedyIsReference(s[c.advance..]);
        if c.advance == MAX_LINE_LENGTH && p > MAX_LINE_LENGTH {
          ForcedCut(s);
        } else {
          assert Chop(s[..p]) == [TrimEnd(s[..p])];
        }
        Associative([TrimEnd(s[..c.len])], Lines(s[c.advance..]), Flushed(Rest(s[c.advance..])));
    }
  }

  lemma {:induction false} LinesOfAt(s: seq<byte>, p: nat)
    requires FirstNewline(s) == p
    ensures LinesOf(s) == if p < |s| then Chop(s[..p]) + LinesOf(s[p + 1..]) else if s == [] then [] else Chop(s)
  {
    hide Chop, FirstNewline;
  }

  lemma {:induction false} ChopLong(line: seq<byte>)
    requires |line| > MAX_LINE_LENGTH
    ensures Chop(line) == [TrimEnd(line[..MAX_LINE_LENGTH])] + Chop(line[MAX_LINE_LENGTH..])
  {
  }

  /** A newline beyond the first cut is found again after it. */
  lemma NewlineBeyond(s: seq<byte>, k: nat)
    requires k < FirstNewline(s)
    ensures FirstNewline(s[k..]) == FirstNewline(s) - k
  {
    var t := s[k..];
    assert forall i :: 0 <= i < |t| ==> t[i] == s[k + i];
    if FirstNewline(s) < |s| {
      FirstNewlineOf(t, FirstNewline(s) - k);
    } else {
      NoNewlineOf(t);
    }
  }

  lemma ForcedCut(s: seq<byte>)
    requires FirstNewline(s) > MAX_LINE_LENGTH
    ensures LinesOf(s) == [TrimEnd(s[..MAX_LINE_LENGTH])] + LinesOf(s[MAX_LINE_LENGTH..])
  {
    hide TrimEnd, FirstNewline, LinesOf, Chop;
    var p := FirstNewline(s);
    var t := s[MAX_LINE_LENGTH..];
    NewlineBeyond(s, MAX_LINE_LENGTH);
    LinesOfAt(s, p);
    LinesOfAt(t, p - MAX_LINE_LENGTH);
    if p < |s| {
      ChopLong(s[..p]);
      assert s[..p][MAX_LINE_LENGTH..] == t[..p - MAX_LINE_LENGTH];
      assert s[..p][..MAX_LINE_LENGTH] == s[..MAX_LINE_LENGTH];
      assert t[p - MAX_LINE_LENGTH + 1..] == s[p + 1..];
      Associative([TrimEnd(s[..MAX_LINE_LENGTH])], Chop(t[..p - MAX_LINE_LENGTH]), LinesOf(s[p + 1..]));
    } else {
      ChopLong(s);
    }
  }

  // ----- the buffer

  class LineBuffer {
    var buffer: seq<byte>
    var lineStart: nat
    ghost var peak: nat   // the most bytes the buffer has held

    ghost predicate Valid()
      reads this
    {
      lineStart <= |buffer| <= peak
    }

    /** There is nothing to compact. */
    ghost predicate Compacted()
      reads this
    {
      lineStart <= COMPACT_THRESHOLD || lineStart <= |buffer| / 2
    }

    /** The bytes received and not yet emitted. */
    ghost function Unread(): seq<byte>
      requires Valid()
      reads this
    {
      buffer[lineStart..]
    }

    constructor ()
      ensures Valid() && buffer == [] && lineStart == 0 && peak == 0
    {
      buffer := [];
      lineStart := 0;
      peak := 0;
    }

    method Extend(data: seq<byte>)
      requires Valid()
      modifies this
      ensures Valid() && Unread() == old(Unread()) + data
      ensures lineStart == old(lineStart) && |buffer| == |old(buffer)| + |data|
      ensures peak == if old(peak) < |buffer| then |buffer| else old(peak)
    {
      buffer := buffer + data;
      peak := if peak < |buffer| then |buffer| else peak;
    }

    method NextLine() returns (r: Option<seq<byte>>)
      requires Valid()
      modifies this
      ensures Valid() && buffer == old(buffer) && peak == old(peak)
      // once all certain lines are out, a buffer that is compacted as it goes is small
      ensures r.None? && old(Compacted()) ==> |buffer| <= COMPACT_THRESHOLD + MAX_LINE_LENGTH
      ensures match NextCut(old(Unread()))
              case None => r == None && lineStart == old(lineStart)
              case Some(c) => r == Some(TrimEnd(old(Unread())[..c.len])) && Unread() == old(Unread())[c.advance..]
    {
      hide TrimEnd, FirstNewline;
      var pos := FirstNewline(buffer[lineStart..]);
      var available := |buffer| - lineStart;
      var len, advance: nat;
      if pos < available && pos <= MAX_LINE_LENGTH {
        len, advance := pos, pos + 1;
      } else if pos < available || available > MAX_LINE_LENGTH {
        len, advance := MAX_LINE_LENGTH, MAX_LINE_LENGTH;
      } else {
        return None;
      }
      var start := lineStart;
      lineStart := lineStart + advance;
      assert buffer[start..][..len] == buffer[start..start + len];
      r := Some(TrimEnd(buffer[start..start + len]));
    }

    /** Dropping the consumed part, when it is large and more than half, changes nothing that is unread. */
    method Compact()
      requires Valid()
      modifies this
      ensures Valid() && Unread() == old(Unread()) && Compacted() && peak == old(peak)
      ensures if old(lineStart) > COMPACT_THRESHOLD && old(lineStart) > |old(buffer)| / 2
              then lineStart == 0 && buffer == old(Unread())
              else lineStart == old(lineStart) && buffer == old(buffer)
    {
      if lineStart > COMPACT_THRESHOLD && lineStart > |buffer| / 2 {
        buffer := buffer[lineStart..];
        lineStart := 0;
      }
    }

    /** After the certain lines, flushing gives the lines of what is left: its content, if there is any. */
    method Flush() returns (r: Option<seq<byte>>)
      requires Valid()
      ensures r.None? <==> Unread() == []
      ensures r.Some? ==> Trimmed(Unread(), r.value)
      ensures NextCut(Unread()).None? ==> (if r.Some? then [r.value] else []) == LinesOf(Unread())
    {
      hide FirstNewline;
      var rest := buffer[lineStart..];
      TrimEndTrims(rest);
      GreedyIsReference(rest);
      r := if rest == [] then None else Some(TrimEnd(rest));
    }
  }

  /** The steps of the driver's input, one after the other. */
  function Remaining(pieces: seq<seq<byte>>, i: nat): seq<byte>
    requires i <= |pieces|
  {
    Flatten(pieces[i..])
  }

  /** The driver: take the certain lines, compacting after each, read on, and flush at the end of input. */
  method DriveLines(buffer: LineBuffer, pieces: seq<seq<byte>>, ghost longest: nat) returns (lines: seq<seq<byte>>)
    requires buffer.Valid() && buffer.buffer == [] && buffer.peak == 0
    requires forall piece <- pieces :: |piece| <= longest
    modifies buffer
    ensures lines == LinesOf(Flatten(pieces))
    // whatever the length of the stream
    ensures buffer.peak <= COMPACT_THRESHOLD + MAX_LINE_LENGTH + longest
  {
    hide TrimEnd, FirstNewline, LinesOf, Flatten, Trimmed;
    lines := [];
    ghost var stream := Flatten(pieces);
    var i := 0;
    assert pieces[0..] == pieces && buffer.Unread() == [];
    assert [] + stream == stream;
    while true
      invariant buffer.Valid() && i <= |pieces|
      invariant lines + Lines(buffer.Unread() + Remaining(pieces, i)) == Lines(stream)
      invariant Rest(buffer.Unread() + Remaining(pieces, i)) == Rest(stream)
      invariant buffer.Compacted() && buffer.peak <= COMPACT_THRESHOLD + MAX_LINE_LENGTH + longest
      decreases |pieces| - i, |buffer.Unread()|
    {
      ghost var unread, ahead := buffer.Unread(), Remaining(pieces, i);
      var line := buffer.NextLine();
      if line.Some? {
        buffer.Compact();
        CutAhead(unread, ahead);
        Associative(lines, [line.value], Lines(buffer.Unread() + ahead));
        lines := lines + [line.value];
      } else if i == |pieces| {
        EndOfInput(pieces, unread);
        LastLine(stream);
        var last := buffer.Flush();
        if last.Some? {
          lines := lines + [last.value];
        }
        return;
      } else {
        NextPiece(pieces, i);
        Associative(unread, pieces[i], Remaining(pieces, i + 1));
        buffer.Extend(pieces[i]);
        i := i + 1;
      }
    }
  }

  /** The lines of a stream are its certain lines and those of what they leave over. */
  lemma LastLine(stream: seq<byte>)
    ensures LinesOf(stream) == Lines(stream) + LinesOf(Rest(stream))
  {
    hide NextCut, TrimEnd;
    GreedyIsReference(stream);
    RestHasNoCut(stream);
    GreedyIsReference(Rest(stream));
  }

  lemma {:induction false} RestHasNoCut(stream: seq<byte>)
    ensures NextCut(Rest(stream)).None?
    decreases |stream|
  {
    hide FirstNewline;
    if NextCut(stream).Some? {
      RestHasNoCut(stream[NextCut(stream).value.advance..]);
    }
  }

  /** The log reader: for every way of cutting a stream into pieces, the lines are those of the whole stream. */
  method LogsLines(pieces: seq<seq<byte>>) returns (lines: seq<seq<byte>>)
    ensures lines == LinesOf(Flatten(pieces))
  {
    var buffer := new LineBuffer();
    ghost var longest := Longest(pieces);
    lines := DriveLines(buffer, pieces, longest);
  }

  ghost function Longest(pieces: seq<seq<byte>>): (n: nat)
    ensures forall piece <- pieces :: |piece| <= n
  {
    if pieces == [] then 0
    else
      var rest := Longest(pieces[1..]);
      assert forall piece <- pieces :: piece == pieces[0] || piece in pieces[1..];
      if rest < |pieces[0]| then |pieces[0]| else rest
  }

  lemma CutAhead(unread: seq<byte>, ahead: seq<byte>)
    requires NextCut(unread).Some?
    ensures var c := NextCut(unread).value;
      && Lines(unread + ahead) == [TrimEnd(unread[..c.len])] + Lines(unread[c.advance..] + ahead)
      && Rest(unread + ahead) == Rest(unread[c.advance..] + ahead)
  {
    hide TrimEnd, FirstNewline, NextCut;
    CutIsStable(unread, ahead);
    var c := NextCut(unread).value;
    assert (unread + ahead)[c.advance..] == unread[c.advance..] + ahead;
    assert (unread + ahead)[..c.len] == unread[..c.len];
  }

  lemma EndOfInput(pieces: seq<seq<byte>>, unread: seq<byte>)
    ensures unread + Remaining(pieces, |pieces|) == unread
  {
  }

  lemma NextPiece(pieces: seq<seq<byte>>, i: nat)
    requires i < |pieces|
    ensures Remaining(pieces, i) == pieces[i] + Remaining(pieces, i + 1)
  {
    assert pieces[i..][1..] == pieces[i + 1..];
  }
}
