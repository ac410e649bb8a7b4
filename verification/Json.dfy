/** `json.dumps` of a string, and exactly when stripping the quotes from its result gives the
    string back. */
module Json {
  import opened Text

  function HexDigit(d: nat): char
    requires d < 16
  {
    if d < 10 then (48 + d) as char else (87 + d) as char
  }

  function UnicodeEscape(n: nat): string
    requires n < 0x10000
  {
    ['\\', 'u', HexDigit(n / 4096), HexDigit(n / 256 % 16), HexDigit(n / 16 % 16), HexDigit(n % 16)]
  }

  /** A character that is copied as it is. */
  predicate Plain(c: char) {
    ' ' <= c <= '~' && c != '"' && c != '\\'
  }

  function Escaped(c: char): string {
    var n := c as int;
    if Plain(c) then [c]
    else if c == '"' || c == '\\' then ['\\', c]
    else if n == 8 then "\\b"
    else if n == 9 then "\\t"
    else if n == 10 then "\\n"
    else if n == 12 then "\\f"
    else if n == 13 then "\\r"
    else if n < 0x10000 then UnicodeEscape(n)
    else UnicodeEscape(0xD800 + (n - 0x10000) / 0x400) + UnicodeEscape(0xDC00 + (n - 0x10000) % 0x400)
  }

  function Body(s: string): string {
    if s == [] then [] else Escaped(s[0]) + Body(s[1..])
  }

  function Dumps(s: string): string {
    "\"" + Body(s) + "\""
  }

  predicate AllPlain(s: string) {
    forall i | 0 <= i < |s| :: Plain(s[i])
  }

  lemma EscapedFacts(c: char)
    ensures var e := Escaped(c);
            && e != [] && SingleLine(e)
            && (if Plain(c) then e == [c] else |e| >= 2 && e[0] == '\\')
            && (c == '"' <==> e[|e| - 1] == '"')
            && (c == '"' ==> e == ['\\', '"'])
  {
    var n := c as int;
    if !Plain(c) && n >= 0x10000 {
      assert (n - 0x10000) / 0x400 < 0x400;
    }
  }

  lemma {:induction false} BodyFacts(s: string)
    ensures var b := Body(s);
            && SingleLine(b) && |b| >= |s|
            && (AllPlain(s) ==> b == s)
            && (!AllPlain(s) ==> |b| > |s|)
            && (s != [] ==> b[0] != '"' && (s[|s| - 1] == '"' <==> b[|b| - 1] == '"'))
            && (s != [] && s[|s| - 1] == '"' ==> |b| >= 2 && b[|b| - 2] == '\\')
  {
    hide Escaped, Plain, IsBreak;
    if s == [] {
    } else {
      EscapedFacts(s[0]);
      BodyFacts(s[1..]);
      assert s == [s[0]] + s[1..];
      var e, rest := Escaped(s[0]), Body(s[1..]);
      assert Body(s) == e + rest;
      if |s| == 1 {
        assert rest == [];
        assert Body(s) == e;
      } else {
        assert s[1..][|s| - 2] == s[|s| - 1];
      }
      assert AllPlain(s) <==> Plain(s[0]) && AllPlain(s[1..]);
    }
  }

  /** A dumped string whose quotes are stripped is the string again exactly when none of its
      characters needed an escape. */
  lemma QuotesStrippedExactly(s: string)
    ensures StripQuotes(Dumps(s)) == s <==> AllPlain(s)
  {
    var b := Body(s);
    BodyFacts(s);
    StripQuoted(b);
    if s == [] {
    } else if s[|s| - 1] == '"' {
      var r := b[..|b| - 1];
      assert RightUnquoted(b) == RightUnquoted(r) == r;
      assert LeftUnquoted(r) == r;
      assert r[|r| - 1] == '\\';
      assert !Plain(s[|s| - 1]);
    } else {
      StripUnquoted(b);
    }
  }

  /** How the characters that need an escape are written. */
  lemma EscapeExamples()
    ensures Dumps("\"") == ['"', '\\', '"', '"'] && Dumps("\\") == ['"', '\\', '\\', '"']
    ensures Dumps("\n") == "\"\\n\"" && Dumps("\t") == "\"\\t\"" && Dumps("\r") == "\"\\r\""
  {
    OneCharacter('"');
    OneCharacter('\\');
    OneCharacter('\n');
    OneCharacter('\t');
    OneCharacter('\r');
    hide Body;
  }

  lemma UnicodeExamples()
    ensures Escaped(0x20AC as char) == "\\u20ac" && Escaped(0x1F600 as char) == "\\ud83d\\ude00"
  {
  }

  lemma OneCharacter(c: char)
    ensures Body([c]) == Escaped(c)
  {
    assert Body([c]) == Escaped(c) + Body([c][1..]);
  }

  /** An accented letter is one that comes back as its escape. */
  lemma AccentComesBackEscaped()
    ensures StripQuotes(Dumps([0xE9 as char])) == "\\u00e9"
  {
    var e := [0xE9 as char];
    StripQuoted(Body(e));
    assert Body(e) == Escaped(e[0]) + Body(e[1..]) == "\\u00e9";
    StripUnquoted(Body(e));
  }
}
