/** Line splitting of a byte stream: the byte-string `splitlines` of the language
    and the loop of `iter_lines`, which carries an unfinished line from one chunk to the next. */
module LineSplitting {
  import opened Prelude

  predicate IsBreak(c: byte) {
    c == LF || c == CR
  }

  /** Length of the first line of `b`, its terminator included. */
  function FirstLineLength(b: Bytes): (n: nat)
    requires b != []
    ensures 1 <= n <= |b|
  {
    if b[0] == LF then 1
    else if b[0] == CR then (if |b| > 1 && b[1] == LF then 2 else 1)
    else if |b| == 1 then 1
    else 1 + FirstLineLength(b[1..])
  }

  /** The line without its terminator. */
  function Content(line: Bytes): Bytes {
    if line == [] || IsBreak(line[0]) then [] else [line[0]] + Content(line[1..])
  }

  /** `bytes.splitlines(keepends)`. */
  function SplitLines(b: Bytes, keepEnds: bool): seq<Bytes> {
    if b == [] then []
    else
      var n := FirstLineLength(b);
      [if keepEnds then b[..n] else Content(b[..n])] + SplitLines(b[n..], keepEnds)
  }

  // ---- What a correct splitting is, without reference to how it is computed ----

  /** One line: break-free content, then at most one terminator. */
  ghost predicate IsLine(line: Bytes, content: Bytes) {
    && (forall c <- content :: !IsBreak(c))
    && line != []
    && content <= line
    && line[|content|..] in {[], [LF], [CR], [CR, LF]}
  }

  ghost predicate IsSplitting(b: Bytes, lines: seq<Bytes>) {
    && Flatten(lines) == b
    && (forall i | 0 <= i < |lines| :: IsLine(lines[i], Content(lines[i])))
    && (forall i | 0 <= i < |lines| - 1 :: lines[i] != Content(lines[i]))
    && (forall i | 0 <= i < |lines| - 1 :: !TornPair(lines[i], lines[i + 1]))
  }

  /** A CR LF pair was cut in two. */
  ghost predicate TornPair(line: Bytes, next: Bytes) {
    line != [] && next != [] && line[|line| - 1] == CR && next[0] == LF
  }

  lemma {:induction false} ContentOf(content: Bytes, rest: Bytes)
    requires forall c <- content :: !IsBreak(c)
    requires rest == [] || IsBreak(rest[0])
    ensures Content(content + rest) == content
  {
    if content == [] {
      assert content + rest == rest;
    } else {
      assert (content + rest)[1..] == content[1..] + rest;
      ContentOf(content[1..], rest);
    }
  }

  lemma LineGrows(x: byte, line: Bytes, content: Bytes)
    requires IsLine(line, content) && !IsBreak(x)
    ensures IsLine([x] + line, [x] + content)
  {
    assert ([x] + line)[|content| + 1..] == line[|content|..];
  }

  lemma LineShrinks(line: Bytes, content: Bytes)
    requires IsLine(line, content) && content != [] && |line| > 1
    ensures IsLine(line[1..], content[1..])
  {
    assert line[1..][|content| - 1..] == line[|content|..];
  }

  /** A terminator alone is a line without content. */
  lemma BreakIsLine(b: Bytes)
    requires b != [] && IsBreak(b[0])
    ensures var n := FirstLineLength(b);
            && IsLine(b[..n], Content(b[..n])) && b[..n] != Content(b[..n])
            && (n < |b| ==> !TornPair(b[..n], b[n..]))
  {
    var n := FirstLineLength(b);
    assert Content(b[..n]) == [];
    assert b[..n] == if b[0] == LF then [LF] else if n == 2 then [CR, LF] else [CR];
    assert b[..n][0..] == b[..n];
  }

  /** The first line is cut exactly after its terminator. */
  lemma {:induction false} FirstLineIsLine(b: Bytes)
    requires b != []
    ensures var n := FirstLineLength(b);
            && IsLine(b[..n], Content(b[..n]))
            && (n < |b| ==> b[..n] != Content(b[..n]) && !TornPair(b[..n], b[n..]))
  {
    var n := FirstLineLength(b);
    if !IsBreak(b[0]) && |b| > 1 {
      FirstLineIsLine(b[1..]);
      var m := FirstLineLength(b[1..]);
      var tail := b[1..][..m];
      assert b[..n] == [b[0]] + tail;
      assert b[..n][1..] == tail;
      assert Content(b[..n]) == [b[0]] + Content(tail);
      LineGrows(b[0], tail, Content(tail));
      assert b[n..] == b[1..][m..];
    } else if !IsBreak(b[0]) {
      assert b[..n] == [b[0]];
      assert Content(b[..n]) == [b[0]] + Content([]);
    } else {
      BreakIsLine(b);
    }
  }

  /** A line that is followed by more text is recognised as the first line of both together. */
  lemma {:induction false} FirstLineOfLine(line: Bytes, content: Bytes, rest: Bytes)
    requires IsLine(line, content)
    requires rest != [] ==> line != content && !TornPair(line, rest)
    ensures FirstLineLength(line + rest) == |line|
    decreases |line|
  {
    var b := line + rest;
    if content == [] {
      assert line[0..] == line;
      assert IsBreak(b[0]);
      if line == [CR] && rest != [] {
        assert b[1] == rest[0];
      }
    } else {
      assert line[0] == content[0] && !IsBreak(b[0]);
      if |line| > 1 {
        var line' := line[1..];
        LineShrinks(line, content);
        FirstLineOfLine(line', content[1..], rest);
        assert b[1..] == line' + rest;
      } else {
        assert line == content;
      }
    }
  }

  lemma SplittingGrows(b: Bytes, n: nat, tail: seq<Bytes>)
    requires 1 <= n <= |b| && IsSplitting(b[n..], tail)
    requires IsLine(b[..n], Content(b[..n]))
    requires n < |b| ==> b[..n] != Content(b[..n]) && !TornPair(b[..n], b[n..])
    ensures IsSplitting(b, [b[..n]] + tail)
  {
    var whole := [b[..n]] + tail;
    assert whole[0] == b[..n] && whole[1..] == tail;
    assert b == b[..n] + b[n..];
    if tail != [] {
      assert IsLine(tail[0], Content(tail[0]));
      assert b[n..] == tail[0] + Flatten(tail[1..]);
      assert b[n..][0] == tail[0][0];
    }
    forall i | 0 <= i < |whole| - 1
      ensures whole[i] != Content(whole[i]) && !TornPair(whole[i], whole[i + 1])
    {
      if i > 0 {
        assert whole[i] == tail[i - 1] && whole[i + 1] == tail[i];
      }
    }
  }

  lemma {:induction false} SplitLinesIsSplitting(b: Bytes)
    ensures IsSplitting(b, SplitLines(b, true))
    decreases |b|
  {
    if b == [] {
    } else {
      var n := FirstLineLength(b);
      SplitLinesIsSplitting(b[n..]);
      FirstLineIsLine(b);
      SplittingGrows(b, n, SplitLines(b[n..], true));
    }
  }

  lemma {:induction false} SplittingIsForced(b: Bytes, lines: seq<Bytes>)
    requires IsSplitting(b, lines)
    ensures lines == SplitLines(b, true)
    decreases |lines|
  {
    if lines == [] {
    } else {
      var rest := Flatten(lines[1..]);
      assert b == lines[0] + rest;
      if rest == [] {
      } else {
        assert lines[1..][0] == lines[1];
        assert IsLine(lines[1], Content(lines[1]));
        assert rest[0] == lines[1][0];
      }
      FirstLineOfLine(lines[0], Content(lines[0]), rest);
      assert b[|lines[0]|..] == rest && b[..|lines[0]|] == lines[0];
      SplittingIsForced(rest, lines[1..]);
    }
  }

  /** `SplitLines(b, true)` is the one and only splitting of `b` into lines. */
  lemma SplittingIsUnique(b: Bytes, lines: seq<Bytes>)
    ensures IsSplitting(b, lines) <==> lines == SplitLines(b, true)
  {
    SplitLinesIsSplitting(b);
    if IsSplitting(b, lines) {
      SplittingIsForced(b, lines);
    }
  }

  /** Without line ends, each line is what precedes its terminator. */
  lemma {:induction false} EndsDropped(b: Bytes)
    ensures |SplitLines(b, false)| == |SplitLines(b, true)|
    ensures forall i | 0 <= i < |SplitLines(b, true)| :: SplitLines(b, false)[i] == Content(SplitLines(b, true)[i])
    decreases |b|
  {
    hide Content, FirstLineLength;
    if b == [] {
    } else {
      EndsDropped(b[FirstLineLength(b)..]);
    }
  }

  // ---- Splitting is insensitive to where the text is cut ----

  /** The last, possibly unfinished line of a non-empty text. */
  function Pending(b: Bytes): Bytes {
    if b == [] then [] else SplitLines(b, true)[|SplitLines(b, true)| - 1]
  }

  lemma {:induction false} SplitLength(b: Bytes, keepEnds: bool)
    ensures |SplitLines(b, keepEnds)| == |SplitLines(b, true)|
    ensures b != [] ==> |SplitLines(b, keepEnds)| > 0
    decreases |b|
  {
    if b == [] {
    } else {
      SplitLength(b[FirstLineLength(b)..], keepEnds);
    }
  }

  lemma {:induction false} FirstLineStable(b: Bytes, more: Bytes)
    requires b != [] && FirstLineLength(b) < |b|
    ensures FirstLineLength(b + more) == FirstLineLength(b)
  {
    if !IsBreak(b[0]) {
      FirstLineStable(b[1..], more);
      assert (b + more)[1..] == b[1..] + more;
    }
  }

  lemma SplitUnfold(b: Bytes, n: nat, keepEnds: bool)
    requires b != [] && n == FirstLineLength(b)
    ensures SplitLines(b, keepEnds) == [if keepEnds then b[..n] else Content(b[..n])] + SplitLines(b[n..], keepEnds)
  {
  }

  lemma Splice<T>(head: seq<T>, tail: seq<T>, tail': seq<T>, end: seq<T>)
    requires tail != [] && tail' == AllButLast(tail) + end
    ensures head + tail' == AllButLast(head + tail) + end
  {
  }

  /** Appending text changes only the last line of what was split before. */
  lemma {:induction false} SplitAppend(b: Bytes, more: Bytes, keepEnds: bool)
    ensures SplitLines(b + more, keepEnds)
         == AllButLast(SplitLines(b, keepEnds)) + SplitLines(Pending(b) + more, keepEnds)
    decreases |b|
  {
    if b == [] {
      assert b + more == more;
    } else {
      var n := FirstLineLength(b);
      var rest := b[n..];
      if rest == [] {
        assert b[..n] == b;
        assert SplitLines(b, true) == [b];
        assert AllButLast(SplitLines(b, keepEnds)) == [];
      } else {
        FirstLineStable(b, more);
        SplitAppend(rest, more, keepEnds);
        SplitLength(rest, keepEnds);
        SplitLength(rest, true);
        SplitAppendStep(b, rest, n, more, keepEnds);
      }
    }
  }

  lemma SplitAppendStep(b: Bytes, rest: Bytes, n: nat, more: Bytes, keepEnds: bool)
    requires b != [] && rest != [] && n == FirstLineLength(b) == FirstLineLength(b + more) && rest == b[n..]
    requires SplitLines(rest, keepEnds) != [] && SplitLines(rest, true) != []
    requires SplitLines(rest + more, keepEnds)
          == AllButLast(SplitLines(rest, keepEnds)) + SplitLines(Pending(rest) + more, keepEnds)
    ensures SplitLines(b + more, keepEnds)
         == AllButLast(SplitLines(b, keepEnds)) + SplitLines(Pending(b) + more, keepEnds)
  {
    hide SplitLines, FirstLineLength, Content;
    var head := [if keepEnds then b[..n] else Content(b[..n])];
    assert SplitLines(b, keepEnds) == head + SplitLines(rest, keepEnds) by {
      SplitUnfold(b, n, keepEnds);
    }
    assert SplitLines(b + more, keepEnds) == head + SplitLines(rest + more, keepEnds) by {
      SplitUnfold(b + more, n, keepEnds);
      assert (b + more)[n..] == rest + more && (b + more)[..n] == b[..n];
    }
    assert Pending(b) == Pending(rest) by {
      SplitUnfold(b, n, true);
    }
    Splice(head, SplitLines(rest, keepEnds), SplitLines(rest + more, keepEnds),
           SplitLines(Pending(rest) + more, keepEnds));
  }

  /** Splitting one line of a splitting again gives that line back. */
  lemma {:induction false} SplitLineAgain(b: Bytes, i: nat, keepEnds: bool)
    requires i < |SplitLines(b, true)|
    ensures |SplitLines(b, keepEnds)| == |SplitLines(b, true)|
    ensures SplitLines(SplitLines(b, true)[i], keepEnds) == [SplitLines(b, keepEnds)[i]]
    decreases |b|
  {
    SplitLength(b, keepEnds);
    var n := FirstLineLength(b);
    if i == 0 {
      FirstLineIsLine(b);
      var line := b[..n];
      FirstLineOfLine(line, Content(line), []);
      assert line + [] == line && line[..n] == line;
    } else {
      SplitLineAgain(b[n..], i - 1, keepEnds);
    }
  }

  /** What one more chunk does: every line but the last of the pending text joined with the
      chunk becomes final, and the last one becomes the pending text. */
  lemma ChunkStep(seen: Bytes, chunk: Bytes, keepEnds: bool)
    requires chunk != []
    ensures var text := Pending(seen) + chunk;
            && |SplitLines(text, true)| == |SplitLines(text, keepEnds)| > 0
            && Pending(seen + chunk) == Pending(text)
            && AllButLast(SplitLines(seen + chunk, keepEnds))
            == AllButLast(SplitLines(seen, keepEnds)) + AllButLast(SplitLines(text, keepEnds))
  {
    hide SplitLines;
    var text := Pending(seen) + chunk;
    SplitAppend(seen, chunk, keepEnds);
    SplitAppend(seen, chunk, true);
    SplitLength(text, keepEnds);
    SplitLength(text, true);
  }

  lemma LastLine(b: Bytes, keepEnds: bool)
    requires b != []
    ensures Pending(b) != []
    ensures SplitLines(b, keepEnds) == AllButLast(SplitLines(b, keepEnds)) + SplitLines(Pending(b), keepEnds)
    ensures |SplitLines(Pending(b), keepEnds)| == 1
  {
    SplitLength(b, true);
    var last := |SplitLines(b, true)| - 1;
    SplitLineAgain(b, last, keepEnds);
    var lines := SplitLines(b, keepEnds);
    assert SplitLines(Pending(b), keepEnds) == [lines[last]];
    assert lines == lines[..last] + [lines[last]];
  }

  lemma NothingSplit(keepEnds: bool)
    ensures SplitLines([], keepEnds) == [] && Pending([]) == []
  {
  }

  lemma PendingEmpty(b: Bytes)
    ensures Pending(b) == [] <==> b == []
  {
    if b == [] {
    } else {
      LastLine(b, true);
    }
  }

  /** The loop of `iter_lines` over the chunks that `iter_chunks` produced. When the chunk
      stream ended with an exception the unfinished line is never yielded. */
  method LinesOfChunks(chunks: seq<Bytes>, failed: bool, keepEnds: bool) returns (lines: seq<Bytes>)
    requires forall i | 0 <= i < |chunks| :: chunks[i] != []
    ensures !failed ==> lines == SplitLines(Flatten(chunks), keepEnds)
    ensures failed ==> lines == AllButLast(SplitLines(Flatten(chunks), keepEnds))
  {
    hide SplitLines, FirstLineLength, Content, Flatten, Pending;
    lines := [];
    var pending: Bytes := [];
    assert chunks[..0] == [];
    FlattenNil<byte>();
    NothingSplit(keepEnds);
    for k := 0 to |chunks|
      invariant pending == Pending(Flatten(chunks[..k]))
      invariant lines == AllButLast(SplitLines(Flatten(chunks[..k]), keepEnds))
    {
      ChunkStep(Flatten(chunks[..k]), chunks[k], keepEnds);
      assert chunks[..k + 1] == chunks[..k] + [chunks[k]];
      FlattenSnoc(chunks[..k], chunks[k]);
      var finished;
      finished, pending := FinishedLines(pending + chunks[k], keepEnds);
      lines := lines + finished;
    }
    assert chunks[..|chunks|] == chunks;
    PendingEmpty(Flatten(chunks));
    if Flatten(chunks) == [] {
      NothingSplit(keepEnds);
    } else {
      LastLine(Flatten(chunks), keepEnds);
    }
    if !failed && pending != [] {
      lines := lines + [SplitLines(pending, keepEnds)[0]];
    }
  }

  /** One round of the outer loop: what is yielded, and the line kept back. */
  method FinishedLines(text: Bytes, keepEnds: bool) returns (finished: seq<Bytes>, pending: Bytes)
    requires text != []
    ensures finished == AllButLast(SplitLines(text, keepEnds))
    ensures pending == Pending(text)
  {
    var pieces := SplitLines(text, true);
    SplitLength(text, keepEnds);
    assert |pieces| > 0;
    finished := [];
    for j := 0 to |pieces| - 1
      invariant finished == SplitLines(text, keepEnds)[..j]
    {
      SplitLineAgain(text, j, keepEnds);
      finished := finished + [SplitLines(pieces[j], keepEnds)[0]];
    }
    pending := pieces[|pieces| - 1];
  }
}
