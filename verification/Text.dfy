/** The string operations that the scenario printer and parser use, and what they do to a text
    that was put together from parts. */
module Text {
  /** `str.isspace` of one character. */
  predicate IsSpace(c: char) {
    var n := c as int;
    || 9 <= n <= 13 || 28 <= n <= 32 || n == 0x85 || n == 0xA0 || n == 0x1680 || 0x2000 <= n <= 0x200A
    || n == 0x2028 || n == 0x2029 || n == 0x202F || n == 0x205F || n == 0x3000
  }

  /** Where `str.splitlines` ends a line. */
  predicate IsBreak(c: char) {
    var n := c as int;
    10 <= n <= 13 || 28 <= n <= 30 || n == 0x85 || n == 0x2028 || n == 0x2029
  }

  predicate SingleLine(s: string) {
    forall i | 0 <= i < |s| :: !IsBreak(s[i])
  }

  predicate Lacks(s: string, c: char) {
    forall i | 0 <= i < |s| :: s[i] != c
  }

  function LStrip(s: string): string {
    if s == [] || !IsSpace(s[0]) then s else LStrip(s[1..])
  }

  function RStrip(s: string): string {
    if s == [] || !IsSpace(s[|s| - 1]) then s else RStrip(s[..|s| - 1])
  }

  function Strip(s: string): string {
    LStrip(RStrip(s))
  }

  /** `strip('"')` */
  function StripQuotes(s: string): string {
    LeftUnquoted(RightUnquoted(s))
  }

  function LeftUnquoted(s: string): string {
    if s == [] || s[0] != '"' then s else LeftUnquoted(s[1..])
  }

  function RightUnquoted(s: string): string {
    if s == [] || s[|s| - 1] != '"' then s else RightUnquoted(s[..|s| - 1])
  }

  /** Index of the first colon, or the length. */
  function ColonAt(s: string): (i: nat)
    ensures i <= |s| && (i < |s| ==> s[i] == ':')
  {
    if s == [] || s[0] == ':' then 0 else 1 + ColonAt(s[1..])
  }

  function FirstBreak(s: string): (i: nat)
    ensures i <= |s| && (i < |s| ==> IsBreak(s[i]))
  {
    if s == [] || IsBreak(s[0]) then 0 else 1 + FirstBreak(s[1..])
  }

  /** `str.splitlines()` */
  function SplitLines(s: string): seq<string>
    decreases |s|
  {
    if s == [] then []
    else
      var n := FirstBreak(s);
      if n == |s| then [s]
      else
        var skip := if s[n] == '\r' && n + 1 < |s| && s[n + 1] == '\n' then 2 else 1;
        [s[..n]] + SplitLines(s[n + skip..])
  }

  /** `"\n".join(lines)` */
  function Join(lines: seq<string>): string {
    if lines == [] then ""
    else if |lines| == 1 then lines[0]
    else lines[0] + "\n" + Join(lines[1..])
  }

  lemma {:induction false} FirstBreakAt(line: string, rest: string)
    requires SingleLine(line)
    ensures FirstBreak(line + "\n" + rest) == |line|
  {
    var s := line + "\n" + rest;
    if line == [] {
      assert s[0] == '\n';
    } else {
      assert s[0] == line[0];
      assert s[1..] == line[1..] + "\n" + rest;
      FirstBreakAt(line[1..], rest);
    }
  }

  /** A line is split off where its line feed stands. */
  lemma SplitOne(line: string, rest: string)
    requires SingleLine(line)
    ensures SplitLines(line + "\n" + rest) == [line] + SplitLines(rest)
  {
    hide FirstBreak, IsBreak;
    var s := line + "\n" + rest;
    FirstBreakAt(line, rest);
    assert s != [] && s[|line|] == '\n';
    assert s[..|line|] == line && s[|line| + 1..] == rest;
  }

  lemma JoinCons(lines: seq<string>)
    requires |lines| > 1
    ensures Join(lines) + "\n" == lines[0] + "\n" + (Join(lines[1..]) + "\n")
  {
  }

  /** Splitting undoes joining, for lines that contain no line break. */
  lemma {:induction false} SplitJoined(lines: seq<string>)
    requires lines != [] && forall i | 0 <= i < |lines| :: SingleLine(lines[i])
    ensures SplitLines(Join(lines) + "\n") == lines
  {
    hide SplitLines, SingleLine;
    if |lines| == 1 {
      SplitOne(lines[0], "");
      assert lines[0] + "\n" + "" == Join(lines) + "\n";
      assert SplitLines("") == [] by {
        SplitNothing();
      }
    } else {
      JoinCons(lines);
      hide Join;
      SplitJoined(lines[1..]);
      SplitOne(lines[0], Join(lines[1..]) + "\n");
      assert [lines[0]] + lines[1..] == lines;
    }
  }

  lemma SplitNothing()
    ensures SplitLines("") == []
  {
  }

  // ---- Stripping a text made of parts ----

  lemma {:induction false} RStripKeeps(a: string, c: char, b: string)
    requires !IsSpace(c)
    ensures RStrip(a + [c] + b) == a + [c] + RStrip(b)
  {
    var s := a + [c] + b;
    if b == [] {
      assert s == a + [c];
      assert s[|s| - 1] == c;
    } else if IsSpace(b[|b| - 1]) {
      assert s[|s| - 1] == b[|b| - 1];
      assert s[..|s| - 1] == a + [c] + b[..|b| - 1];
      RStripKeeps(a, c, b[..|b| - 1]);
    } else {
      assert s[|s| - 1] == b[|b| - 1];
    }
  }

  lemma {:induction false} LStripDrops(a: string, c: char, b: string)
    requires !IsSpace(c) && forall i | 0 <= i < |a| :: IsSpace(a[i])
    ensures LStrip(a + [c] + b) == [c] + b
  {
    var s := a + [c] + b;
    if a == [] {
      assert s == [c] + b;
    } else {
      assert s[0] == a[0] && s[1..] == a[1..] + [c] + b;
      LStripDrops(a[1..], c, b);
    }
  }

  /** Stripping a text of one leading space. */
  lemma {:induction false} StripSpaced(s: string)
    ensures Strip(RStrip(" " + s)) == Strip(s)
  {
    var t := " " + s;
    if s == [] {
      assert t[..0] == [];
      assert RStrip(t) == RStrip([]);
    } else if IsSpace(s[|s| - 1]) {
      assert t[|t| - 1] == s[|s| - 1];
      assert t[..|t| - 1] == " " + s[..|s| - 1];
      StripSpaced(s[..|s| - 1]);
    } else {
      assert t[|t| - 1] == s[|s| - 1];
      assert RStrip(t) == t && RStrip(s) == s;
      assert t[1..] == s;
    }
  }

  lemma {:induction false} ColonFound(a: string, b: string)
    requires Lacks(a, ':')
    ensures ColonAt(a + ":" + b) == |a|
  {
    var s := a + ":" + b;
    if a == [] {
      assert s[0] == ':';
    } else {
      assert s[0] == a[0] && s[1..] == a[1..] + ":" + b;
      ColonFound(a[1..], b);
    }
  }

  // ---- Quotes ----

  lemma {:induction false} RightUnquotedCons(c: char, s: string)
    ensures RightUnquoted([c] + s)
         == if RightUnquoted(s) == [] then (if c == '"' then [] else [c]) else [c] + RightUnquoted(s)
  {
    var t := [c] + s;
    if s == [] {
      assert t == [c] && t[..0] == [];
    } else if s[|s| - 1] == '"' {
      assert t[|t| - 1] == '"';
      assert t[..|t| - 1] == [c] + s[..|s| - 1];
      RightUnquotedCons(c, s[..|s| - 1]);
    } else {
      assert t[|t| - 1] == s[|s| - 1];
    }
  }

  /** Stripping quotes from a quoted text is stripping them from the text. */
  lemma StripQuoted(s: string)
    ensures StripQuotes("\"" + s + "\"") == StripQuotes(s)
  {
    var t := "\"" + s;
    assert (t + "\"")[..|t|] == t;
    assert RightUnquoted(t + "\"") == RightUnquoted(t);
    RightUnquotedCons('"', s);
    var r := RightUnquoted(s);
    if r != [] {
      assert (['"'] + r)[1..] == r;
    }
  }

  /** Quotes are stripped from nothing but quoted ends. */
  lemma StripUnquoted(s: string)
    requires s == [] || (s[0] != '"' && s[|s| - 1] != '"')
    ensures StripQuotes(s) == s
  {
  }
}
