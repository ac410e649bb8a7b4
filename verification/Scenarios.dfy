/** The scenario file of the evaluation tools: the printer that writes it and the parser that
    reads its scalar fields back. */
module Scenarios {
  import opened Prelude
  import opened Text
  import Json

  datatype Scenario = Scenario(
    pr: nat,
    title: string,
    expected: string,
    fromVer: string,
    toVer: string,
    mergeCommit: string,
    aiobotocoreVersion: string,
    filesTouched: seq<string>
  )

  /** The fields that the caller wants, and the keys that may open a block. */
  datatype Keys = Keys(scalars: set<string>, blocks: set<string>)

  /** What the parser collects of one list item. */
  type Row = map<string, string>

  // Long literals are put together from short ones, which the verifier can look into.
  const COMPARE_URL: string := "https://github.com/" + "boto/botocore/compare/"
  const PR_URL: string := "https://github.com/" + "aio-libs/aiobotocore/pull/"
  const TODO: string := "    TODO: one paragraph " + "explaining WHY this was "

  const BLOCK_SCALAR_KEYS: set<string> := {"rationale", "notes"}

  /** The keys of the one-line fields. */
  const FIELD_KEYS: set<string> :=
    {"title", "expected", "from", "to", "merge_commit", "aiobotocore_version", "botocore_diff", "aiobotocore_pr"}

  // ---- The printer ----

  function Decimal(n: nat): string {
    if n < 10 then [(48 + n) as char] else Decimal(n / 10) + [(48 + n % 10) as char]
  }

  function KeyLine(key: string, value: string): string {
    "  " + key + ": " + value
  }

  function FileLines(files: seq<string>): seq<string> {
    if files == [] then [] else ["  - " + files[0]] + FileLines(files[1..])
  }

  datatype Field = Field(key: string, value: string)

  function KeyLines(fields: seq<Field>): seq<string> {
    if fields == [] then [] else [KeyLine(fields[0].key, fields[0].value)] + KeyLines(fields[1..])
  }

  function Fields(s: Scenario): seq<Field> {
    [ Field("title", Json.Dumps(s.title)),
      Field("expected", s.expected),
      Field("from", Json.Dumps(s.fromVer)),
      Field("to", Json.Dumps(s.toVer)),
      Field("merge_commit", s.mergeCommit),
      Field("aiobotocore_version", Json.Dumps(s.aiobotocoreVersion)),
      Field("botocore_diff", COMPARE_URL + s.fromVer + "..." + s.toVer),
      Field("aiobotocore_pr", PR_URL + Decimal(s.pr)) ]
  }

  function PrLine(s: Scenario): string {
    "- pr: " + Decimal(s.pr)
  }

  function Head(s: Scenario): seq<string> {
    [PrLine(s)] + KeyLines(Fields(s)) + ["  botocore_files_touched:"]
  }

  function Touched(s: Scenario): seq<string> {
    if s.filesTouched != [] then FileLines(s.filesTouched) else ["    []"]
  }

  function TodoLine(s: Scenario): string {
    TODO + s.expected + "."
  }

  function Tail(s: Scenario): seq<string> {
    [ "  rationale: |",
      TodoLine(s),
      "  notes: null",
      "" ]
  }

  function ScenarioLines(s: Scenario): seq<string> {
    Head(s) + Touched(s) + Tail(s)
  }

  function AllLines(scenarios: seq<Scenario>): seq<string> {
    if scenarios == [] then [] else ScenarioLines(scenarios[0]) + AllLines(scenarios[1..])
  }

  /** `sorted(scenarios, key=pr)`: ascending and stable. */
  function SortByPr(scenarios: seq<Scenario>): seq<Scenario> {
    if scenarios == [] then [] else Insert(scenarios[0], SortByPr(scenarios[1..]))
  }

  function Insert(s: Scenario, sorted: seq<Scenario>): seq<Scenario> {
    if sorted == [] || s.pr <= sorted[0].pr then [s] + sorted
    else [sorted[0]] + Insert(s, sorted[1..])
  }

  /** The head of the file: a document marker, comments, and the opening of the list. */
  function Header(comments: seq<string>): seq<string> {
    ["---"] + comments + ["scenarios:"]
  }

  function Rendered(comments: seq<string>, scenarios: seq<Scenario>): string {
    Join(Header(comments) + AllLines(SortByPr(scenarios))) + "\n"
  }

  predicate Ascending(scenarios: seq<Scenario>) {
    forall i, j | 0 <= i < j < |scenarios| :: scenarios[i].pr <= scenarios[j].pr
  }

  lemma {:induction false} InsertSorts(s: Scenario, sorted: seq<Scenario>)
    requires Ascending(sorted)
    ensures Ascending(Insert(s, sorted)) && multiset(Insert(s, sorted)) == multiset(sorted) + multiset{s}
  {
    if sorted != [] && s.pr > sorted[0].pr {
      InsertSorts(s, sorted[1..]);
      var rest := Insert(s, sorted[1..]);
      assert sorted == [sorted[0]] + sorted[1..];
      forall k | 0 <= k < |rest| ensures sorted[0].pr <= rest[k].pr {
        assert rest[k] in multiset(rest);
        assert rest[k] in sorted[1..] || rest[k] == s;
      }
    } else {
      assert [s] + sorted == Insert(s, sorted);
    }
  }

  lemma {:induction false} SortSorts(scenarios: seq<Scenario>)
    ensures Ascending(SortByPr(scenarios)) && multiset(SortByPr(scenarios)) == multiset(scenarios)
  {
    if scenarios == [] {
    } else {
      SortSorts(scenarios[1..]);
      InsertSorts(scenarios[0], SortByPr(scenarios[1..]));
      assert scenarios == [scenarios[0]] + scenarios[1..];
    }
  }

  // ---- The parser ----

  /** Wanted fields that the printer writes on one line, and the parser's default for blocks. */
  ghost predicate Usual(keys: Keys) {
    keys.scalars <= FIELD_KEYS && keys.blocks == BLOCK_SCALAR_KEYS
  }

  datatype ParserState = ParserState(rows: seq<Row>, current: Row, inBlockScalar: bool)

  /** A finished item joins the rows. */
  function Flushed(s: ParserState): seq<Row> {
    if s.current == map[] then s.rows else s.rows + [s.current]
  }

  function ParseLine(keys: Keys, s: ParserState, raw: string): ParserState {
    var line := RStrip(raw);
    if s.inBlockScalar && ("    " <= line || Strip(line) == "") then s
    else
      var s := s.(inBlockScalar := false);
      if line == "" || "#" <= LStrip(line) || line == "---" then s
      else if "- pr:" <= line then
        ParserState(Flushed(s), map["pr" := Strip(After(line))], false)
      else if "  " <= line && ColonAt(line) < |line| then
        Assigned(keys, s, Strip(Before(Strip(line))), Strip(After(Strip(line))))
      else s
  }

  /** What a wanted key, a block opener and any other key do. */
  function Assigned(keys: Keys, s: ParserState, key: string, value: string): ParserState {
    if key in keys.scalars then s.(current := s.current[key := StripQuotes(value)])
    else s.(inBlockScalar := key in keys.blocks && value == "|")
  }

  /** What is before and after the first colon. */
  function Before(s: string): string {
    s[..ColonAt(s)]
  }

  function After(s: string): string {
    if ColonAt(s) < |s| then s[ColonAt(s) + 1..] else ""
  }

  function ParseLines(keys: Keys, s: ParserState, lines: seq<string>): ParserState
    decreases |lines|
  {
    if lines == [] then s else ParseLines(keys, ParseLine(keys, s, lines[0]), lines[1..])
  }

  const START := ParserState([], map[], false)

  function Parsed(keys: Keys, text: string): seq<Row> {
    Flushed(ParseLines(keys, START, SplitLines(text)))
  }

  lemma {:induction false} ParseLinesAppend(keys: Keys, s: ParserState, a: seq<string>, b: seq<string>)
    ensures ParseLines(keys, s, a + b) == ParseLines(keys, ParseLines(keys, s, a), b)
    decreases |a|
  {
    hide ParseLine;
    if a == [] {
      assert a + b == b;
    } else {
      assert (a + b)[0] == a[0] && (a + b)[1..] == a[1..] + b;
      ParseLinesAppend(keys, ParseLine(keys, s, a[0]), a[1..], b);
    }
  }

  // ---- One line at a time ----

  /** A key as the printer writes them: no space, no colon, no comment sign. */
  ghost predicate IsKey(key: string) {
    && key != [] && key[0] != '#' && Lacks(key, ':')
    && forall i | 0 <= i < |key| :: !IsSpace(key[i])
  }

  lemma StripSolid(a: string)
    requires forall i | 0 <= i < |a| :: !IsSpace(a[i])
    ensures Strip(a) == a
  {
  }

  lemma {:induction false} RStripTwice(s: string)
    ensures RStrip(RStrip(s)) == RStrip(s)
  {
    if s == [] {
    } else if IsSpace(s[|s| - 1]) {
      RStripTwice(s[..|s| - 1]);
    }
  }

  /** An indented line: its indentation goes, its first character and its colons stay. */
  lemma IndentedStripped(c: char, rest: string)
    requires !IsSpace(c)
    ensures RStrip("  " + [c] + rest) == "  " + [c] + RStrip(rest)
    ensures Strip(RStrip("  " + [c] + rest)) == LStrip(RStrip("  " + [c] + rest)) == [c] + RStrip(rest)
  {
    hide RStrip, LStrip;
    RStripKeeps("  ", c, rest);
    RStripTwice("  " + [c] + rest);
    LStripDrops("  ", c, RStrip(rest));
  }

  /** A key line assigns its value, and ends a block in which it stands. */
  lemma KeyLineParsed(keys: Keys, s: ParserState, key: string, value: string)
    requires IsKey(key)
    ensures ParseLine(keys, s, KeyLine(key, value)) == Assigned(keys, s.(inBlockScalar := false), key, Strip(value))
  {
    hide RStrip, LStrip, StripQuotes, ColonAt, IsSpace, Lacks, Assigned;
    var raw := KeyLine(key, value);
    var rest := key[1..] + ":" + " " + value;
    assert raw == "  " + [key[0]] + rest;
    IndentedStripped(key[0], rest);
    var tail := RStrip(" " + value);
    assert RStrip(rest) == key[1..] + ":" + tail by {
      NotSpace();
      assert rest == key[1..] + [':'] + (" " + value);
      RStripKeeps(key[1..], ':', " " + value);
    }
    var inner := key + ":" + tail;
    assert [key[0]] + RStrip(rest) == inner;
    var line := "  " + key + ":" + tail;
    assert RStrip(raw) == line;
    ColonFound(key, tail);
    ColonFoundIndented(key, tail);
    StripSolid(key);
    StripSpaced(value);
    assert inner[..|key|] == key && inner[|key| + 1..] == tail;
    assert line[0] == ' ' && line[2] == key[0] == inner[0];
    SpaceIsSpace();
    assert line[2] != ' ';
  }

  lemma NotSpace()
    ensures !IsSpace(':') && !IsSpace('-') && !IsSpace('T') && !IsSpace('|') && !IsSpace('l') && !IsSpace('"')
  {
  }

  lemma SpaceIsSpace()
    ensures IsSpace(' ')
  {
  }

  lemma ColonFoundIndented(key: string, tail: string)
    requires Lacks(key, ':')
    ensures ColonAt("  " + key + ":" + tail) == |key| + 2
  {
    ColonFound("  " + key, tail);
  }

  /** A line of the file list is skipped whatever the file is called. */
  lemma FileLineSkipped(keys: Keys, s: ParserState, file: string)
    requires !s.inBlockScalar && Usual(keys)
    ensures ParseLine(keys, s, "  - " + file) == s
  {
    hide RStrip, LStrip, StripQuotes, IsSpace;
    NotSpace();
    var raw := "  - " + file;
    assert raw == "  " + ['-'] + (" " + file);
    IndentedStripped('-', " " + file);
    var tail := RStrip(" " + file);
    var line, inner := "  " + ['-'] + tail, ['-'] + tail;
    assert line[0] == ' ' && inner[0] == '-';
    if ColonAt(line) < |line| {
      var n := ColonAt(inner);
      assert n > 0;
      var more := inner[1..n];
      assert inner[..n] == [] + ['-'] + more;
      RStripKeeps([], '-', more);
      LStripDrops([], '-', RStrip(more));
      var key := Strip(Before(inner));
      assert key == ['-'] + RStrip(more);
      NoDashKeys(keys, key);
    }
  }

  lemma NoDashKeys(keys: Keys, key: string)
    requires Usual(keys) && key != [] && key[0] == '-'
    ensures key !in keys.scalars && key !in keys.blocks
  {
    assert key !in FIELD_KEYS;
  }

  // ---- The decimal number ----

  ghost predicate AllDigits(d: string) {
    forall i | 0 <= i < |d| :: '0' <= d[i] <= '9'
  }

  function NumberOf(d: string): nat
    requires AllDigits(d)
  {
    if d == [] then 0 else 10 * NumberOf(d[..|d| - 1]) + (d[|d| - 1] as int - 48)
  }

  /** Different numbers are written differently. */
  lemma {:induction false} DecimalRoundTrip(n: nat)
    ensures Decimal(n) != [] && AllDigits(Decimal(n)) && NumberOf(Decimal(n)) == n
  {
    if n < 10 {
      assert Decimal(n)[..0] == [];
    } else {
      DecimalRoundTrip(n / 10);
      var d := Decimal(n / 10);
      assert (d + [(48 + n % 10) as char])[..|d|] == d;
    }
  }

  lemma PrLineParsed(keys: Keys, s: ParserState, sc: Scenario)
    requires !s.inBlockScalar
    ensures ParseLine(keys, s, PrLine(sc)) == ParserState(Flushed(s), map["pr" := Decimal(sc.pr)], false)
  {
    hide Decimal, NumberOf;
    var d := Decimal(sc.pr);
    DecimalRoundTrip(sc.pr);
    var line := PrLine(sc);
    assert line[|line| - 1] == d[|d| - 1];
    assert RStrip(line) == line;
    assert line == "- pr" + ":" + (" " + d);
    ColonFound("- pr", " " + d);
    assert After(line) == " " + d;
    assert RStrip(" " + d) == " " + d;
    assert (" " + d)[1..] == d;
    StripSolid(d);
    assert Strip(" " + d) == d;
    assert line[0] == '-' && "- pr:" <= line;
  }

  // ---- One scenario ----

  /** The printed fields that the caller asked for. */
  function Wanted(keys: Keys, row: Row, fields: seq<Field>): Row
    decreases |fields|
  {
    if fields == [] then row
    else
      var f := fields[0];
      Wanted(keys, if f.key in keys.scalars then row[f.key := StripQuotes(Strip(f.value))] else row, fields[1..])
  }

  /** What the parser makes of one scenario. */
  function Recovered(keys: Keys, s: Scenario): Row {
    Wanted(keys, map["pr" := Decimal(s.pr)], Fields(s))
  }

  lemma {:induction false} KeyLinesParsed(keys: Keys, s: ParserState, fields: seq<Field>)
    requires !s.inBlockScalar
    requires forall i | 0 <= i < |fields| :: IsKey(fields[i].key) && fields[i].key !in keys.blocks
    ensures ParseLines(keys, s, KeyLines(fields)) == s.(current := Wanted(keys, s.current, fields))
    decreases |fields|
  {
    hide ParseLine, KeyLine, IsKey, StripQuotes, Strip;
    if fields == [] {
    } else {
      var f := fields[0];
      KeyLineParsed(keys, s, f.key, f.value);
      KeyLinesParsed(keys, ParseLine(keys, s, KeyLine(f.key, f.value)), fields[1..]);
      assert KeyLines(fields)[1..] == KeyLines(fields[1..]);
    }
  }

  /** Every touched file is on a line of its own. */
  lemma {:induction false} FileLinesAre(files: seq<string>)
    ensures |FileLines(files)| == |files|
    ensures forall i | 0 <= i < |files| :: FileLines(files)[i] == "  - " + files[i]
  {
    if files == [] {
    } else {
      FileLinesAre(files[1..]);
    }
  }

  lemma {:induction false} FileLinesSkipped(keys: Keys, s: ParserState, files: seq<string>)
    requires !s.inBlockScalar && Usual(keys)
    ensures ParseLines(keys, s, FileLines(files)) == s
    decreases |files|
  {
    hide ParseLine;
    if files == [] {
    } else {
      FileLineSkipped(keys, s, files[0]);
      FileLinesSkipped(keys, s, files[1..]);
      assert FileLines(files)[1..] == FileLines(files[1..]);
    }
  }

  lemma TouchedSkipped(keys: Keys, s: ParserState, sc: Scenario)
    requires !s.inBlockScalar && Usual(keys)
    ensures ParseLines(keys, s, ["  botocore_files_touched:"] + Touched(sc)) == s
  {
    hide ParseLine;
    assert ParseLine(keys, s, "  botocore_files_touched:") == s by {
      UnlistedKeyLine(keys, s);
    }
    if sc.filesTouched != [] {
      FileLinesSkipped(keys, s, sc.filesTouched);
    } else {
      EmptyListSkipped(keys, s);
    }
    var rest := Touched(sc);
    assert (["  botocore_files_touched:"] + rest)[1..] == rest;
  }

  lemma UnlistedKeyLine(keys: Keys, s: ParserState)
    requires !s.inBlockScalar && Usual(keys)
    ensures ParseLine(keys, s, "  botocore_files_touched:") == s
  {
    hide RStrip, LStrip, ColonAt, IsSpace;
    var key := "botocore_files_touched";
    var line, indented := "  botocore_files_touched:", "  " + key;
    NotSpace();
    assert line == indented + [':'] + "";
    RStripKeeps(indented, ':', "");
    assert KeyLine(key, "") == indented + [':'] + " ";
    RStripKeeps(indented, ':', " ");
    RStripNil();
    WordFacts(key);
    KeyLineParsed(keys, s, key, "");
    Unlisted();
  }

  lemma Unlisted()
    ensures "botocore_files_touched" !in FIELD_KEYS && "botocore_files_touched" !in BLOCK_SCALAR_KEYS
  {
    var key := "botocore_files_touched";
    assert |key| == 22;
  }

  ghost predicate IsWord(key: string) {
    key != [] && forall i | 0 <= i < |key| :: 'a' <= key[i] <= 'z' || key[i] == '_'
  }

  lemma WordFacts(key: string)
    requires IsWord(key)
    ensures IsKey(key) && SingleLine(key)
  {
  }

  lemma RStripNil()
    ensures RStrip("") == "" && RStrip(" ") == "" && Strip("") == ""
  {
  }

  lemma EmptyListSkipped(keys: Keys, s: ParserState)
    requires !s.inBlockScalar
    ensures ParseLines(keys, s, ["    []"]) == s
  {
    var line := "    []";
    assert line[|line| - 1] == ']' && RStrip(line) == line;
    LStripDrops("    ", '[', "]");
    assert line == "    " + ['['] + "]";
    NoColon(line);
  }

  lemma {:induction false} NoColon(s: string)
    requires Lacks(s, ':')
    ensures ColonAt(s) == |s|
  {
    if s == [] {
    } else {
      NoColon(s[1..]);
    }
  }

  /** The rationale block is entered, its body skipped, and the `notes` line ends it. */
  lemma TailSkipped(keys: Keys, s: ParserState, sc: Scenario)
    requires !s.inBlockScalar && Usual(keys)
    ensures ParseLines(keys, s, Tail(sc)) == s
  {
    hide ParseLine, TodoLine;
    var lines, inside := Tail(sc), s.(inBlockScalar := true);
    RationaleOpens(keys, s);
    BodySkipped(keys, inside, sc);
    NotesClose(keys, inside);
    EmptyLineSkipped(keys, s);
    ParseFour(keys, s, lines, inside, inside, s, s);
  }

  lemma RationaleOpens(keys: Keys, s: ParserState)
    requires Usual(keys)
    ensures ParseLine(keys, s, "  rationale: |") == s.(inBlockScalar := true)
  {
    hide ParseLine;
    WordFacts("rationale");
    KeyLineParsed(keys, s, "rationale", "|");
    assert KeyLine("rationale", "|") == "  rationale: |";
    NotSpace();
    StripSolid("|");
    assert "rationale" !in FIELD_KEYS;
  }

  lemma NotesClose(keys: Keys, s: ParserState)
    requires Usual(keys)
    ensures ParseLine(keys, s, "  notes: null") == s.(inBlockScalar := false)
  {
    hide ParseLine;
    WordFacts("notes");
    KeyLineParsed(keys, s, "notes", "null");
    assert KeyLine("notes", "null") == "  notes: null";
    StripSolid("null");
    assert "notes" !in FIELD_KEYS;
  }

  lemma ParseFour(keys: Keys, s: ParserState, lines: seq<string>,
                  a: ParserState, b: ParserState, c: ParserState, d: ParserState)
    requires |lines| == 4
    requires a == ParseLine(keys, s, lines[0]) && b == ParseLine(keys, a, lines[1])
    requires c == ParseLine(keys, b, lines[2]) && d == ParseLine(keys, c, lines[3])
    ensures ParseLines(keys, s, lines) == d
  {
    hide ParseLine;
    assert ParseLines(keys, c, lines[3..]) == d;
    assert lines[2..][1..] == lines[3..];
    assert ParseLines(keys, b, lines[2..]) == d;
    assert lines[1..][1..] == lines[2..];
  }

  lemma BodySkipped(keys: Keys, s: ParserState, sc: Scenario)
    requires s.inBlockScalar
    ensures ParseLine(keys, s, Tail(sc)[1]) == s
  {
    hide RStrip, LStrip;
    var raw := TodoLine(sc);
    NotSpace();
    assert raw[..4] == "    " && raw[4] == 'T';
    assert raw == raw[..4] + [raw[4]] + raw[5..];
    RStripKeeps(raw[..4], raw[4], raw[5..]);
    assert "    " <= RStrip(raw);
  }

  lemma EmptyLineSkipped(keys: Keys, s: ParserState)
    ensures ParseLine(keys, s, "") == s
  {
  }

  /** A scenario adds the finished item to the rows and leaves exactly its own fields current;
      the file list and the rationale leave no trace. */
  lemma ScenarioParsed(keys: Keys, s: ParserState, sc: Scenario)
    requires !s.inBlockScalar && Usual(keys)
    ensures ParseLines(keys, s, ScenarioLines(sc)) == ParserState(Flushed(s), Recovered(keys, sc), false)
  {
    hide ParseLine, ParseLines, Touched, Tail, Fields, PrLine, Wanted;
    var s1 := ParserState(Flushed(s), map["pr" := Decimal(sc.pr)], false);
    PrLineParsed(keys, s, sc);
    ParseOne(keys, s, PrLine(sc));
    FieldKeys(sc);
    KeyLinesParsed(keys, s1, Fields(sc));
    var s2 := s1.(current := Recovered(keys, sc));
    TouchedSkipped(keys, s2, sc);
    TailSkipped(keys, s2, sc);
    var list := ["  botocore_files_touched:"] + Touched(sc);
    assert ScenarioLines(sc) == [PrLine(sc)] + (KeyLines(Fields(sc)) + (list + Tail(sc)));
    ParseLinesAppend(keys, s, [PrLine(sc)], KeyLines(Fields(sc)) + (list + Tail(sc)));
    ParseLinesAppend(keys, s1, KeyLines(Fields(sc)), list + Tail(sc));
    ParseLinesAppend(keys, s2, list, Tail(sc));
  }

  lemma ParseOne(keys: Keys, s: ParserState, line: string)
    ensures ParseLines(keys, s, [line]) == ParseLine(keys, s, line)
  {
    hide ParseLine;
  }

  lemma FieldKeys(sc: Scenario)
    ensures forall i | 0 <= i < |Fields(sc)| ::
              IsKey(Fields(sc)[i].key) && Fields(sc)[i].key !in BLOCK_SCALAR_KEYS
  {
    hide KeyLine, Decimal, IsWord, IsKey, Json.Dumps;
    PrintedKeys();
    var fields := Fields(sc);
    forall i | 0 <= i < |fields| ensures IsKey(fields[i].key) && fields[i].key !in BLOCK_SCALAR_KEYS {
      assert fields[i].key in FIELD_KEYS;
      WordFacts(fields[i].key);
    }
  }

  lemma PrintedKeys()
    ensures forall key | key in FIELD_KEYS :: IsWord(key) && key !in BLOCK_SCALAR_KEYS
  {
    forall key | key in FIELD_KEYS ensures key !in BLOCK_SCALAR_KEYS {
      assert key[0] != 'r' && key[0] != 'n';
    }
  }

  function Rows(keys: Keys, scenarios: seq<Scenario>): seq<Row> {
    if scenarios == [] then [] else [Recovered(keys, scenarios[0])] + Rows(keys, scenarios[1..])
  }

  lemma HasPr(keys: Keys, sc: Scenario)
    ensures Recovered(keys, sc) != map[]
  {
    WantedKeeps(keys, map["pr" := Decimal(sc.pr)], Fields(sc), "pr");
  }

  lemma {:induction false} WantedKeeps(keys: Keys, row: Row, fields: seq<Field>, key: string)
    requires key in row
    ensures key in Wanted(keys, row, fields)
    decreases |fields|
  {
    if fields == [] {
    } else {
      var f := fields[0];
      var next := if f.key in keys.scalars then row[f.key := StripQuotes(Strip(f.value))] else row;
      WantedKeeps(keys, next, fields[1..], key);
    }
  }

  lemma {:induction false} AllParsed(keys: Keys, s: ParserState, scenarios: seq<Scenario>)
    requires !s.inBlockScalar && Usual(keys)
    ensures var t := ParseLines(keys, s, AllLines(scenarios));
            !t.inBlockScalar && Flushed(t) == Flushed(s) + Rows(keys, scenarios)
    decreases |scenarios|
  {
    hide ScenarioLines, ParseLine, Recovered;
    if scenarios == [] {
    } else {
      var sc, rest := scenarios[0], scenarios[1..];
      ScenarioParsed(keys, s, sc);
      HasPr(keys, sc);
      var next := ParserState(Flushed(s), Recovered(keys, sc), false);
      AllParsed(keys, next, rest);
      ParseLinesAppend(keys, s, ScenarioLines(sc), AllLines(rest));
      assert Flushed(s) + Rows(keys, scenarios) == Flushed(s) + [Recovered(keys, sc)] + Rows(keys, rest);
    }
  }

  // ---- The whole file ----

  /** The fields that are written without quoting are free of line breaks. */
  ghost predicate OneLine(sc: Scenario) {
    && SingleLine(sc.expected) && SingleLine(sc.mergeCommit) && SingleLine(sc.fromVer) && SingleLine(sc.toVer)
    && forall i | 0 <= i < |sc.filesTouched| :: SingleLine(sc.filesTouched[i])
  }

  ghost predicate AllSingle(lines: seq<string>) {
    forall i | 0 <= i < |lines| :: SingleLine(lines[i])
  }

  lemma {:induction false} HeaderParsed(keys: Keys, s: ParserState, lines: seq<string>)
    requires !s.inBlockScalar
    requires forall line <- lines :: line == "---" || "#" <= line || line == "scenarios:"
    ensures ParseLines(keys, s, lines) == s
    decreases |lines|
  {
    hide ParseLine;
    if lines == [] {
    } else {
      assert lines[0] in lines && forall line <- lines[1..] :: line in lines;
      HeaderLineSkipped(keys, s, lines[0]);
      HeaderParsed(keys, s, lines[1..]);
    }
  }

  lemma HeaderLineSkipped(keys: Keys, s: ParserState, line: string)
    requires !s.inBlockScalar
    requires line == "---" || "#" <= line || line == "scenarios:"
    ensures ParseLine(keys, s, line) == s
  {
    hide LStrip;
    if "#" <= line {
      RStripKeeps([], '#', line[1..]);
      assert line == [] + ['#'] + line[1..];
      LStripDrops([], '#', RStrip(line[1..]));
      assert RStrip(line) == [] + ['#'] + RStrip(line[1..]);
    } else {
      assert line[0] != ' ' && line[0] != '#';
      RStripSolidEnd(line);
    }
  }

  lemma RStripSolidEnd(line: string)
    requires line != [] && !IsSpace(line[|line| - 1])
    ensures RStrip(line) == line
  {
  }

  lemma {:induction false} KeyLinesSingle(fields: seq<Field>)
    requires forall i | 0 <= i < |fields| :: SingleLine(fields[i].key) && SingleLine(fields[i].value)
    ensures AllSingle(KeyLines(fields))
  {
    if fields == [] {
    } else {
      KeyLinesSingle(fields[1..]);
    }
  }

  lemma {:induction false} FileLinesSingle(files: seq<string>)
    requires AllSingle(files)
    ensures AllSingle(FileLines(files))
  {
    if files == [] {
    } else {
      FileLinesSingle(files[1..]);
    }
  }

  lemma DumpsSingle(s: string)
    ensures SingleLine(Json.Dumps(s))
  {
    Json.BodyFacts(s);
  }

  lemma DecimalSingle(n: nat)
    ensures SingleLine(Decimal(n))
  {
    DecimalRoundTrip(n);
  }

  lemma SingleConcat(a: string, b: string)
    requires SingleLine(a) && SingleLine(b)
    ensures SingleLine(a + b)
  {
  }

  lemma ScenarioSingle(sc: Scenario)
    requires OneLine(sc)
    ensures AllSingle(ScenarioLines(sc))
  {
    DumpsSingle(sc.title);
    DumpsSingle(sc.fromVer);
    DumpsSingle(sc.toVer);
    DumpsSingle(sc.aiobotocoreVersion);
    DecimalSingle(sc.pr);
    hide Json.Dumps, Decimal, IsBreak;
    LiteralsSingle();
    UrlsSingle();
    TodoSingle();
    PrintedKeys();
    forall key | key in FIELD_KEYS ensures SingleLine(key) {
      WordFacts(key);
    }
    SingleConcat("- pr: ", Decimal(sc.pr));
    assert AllSingle(KeyLines(Fields(sc))) by {
      SingleConcat(PR_URL, Decimal(sc.pr));
      SingleConcat(COMPARE_URL, sc.fromVer);
      SingleConcat(COMPARE_URL + sc.fromVer, "...");
      SingleConcat(COMPARE_URL + sc.fromVer + "...", sc.toVer);
      KeyLinesSingle(Fields(sc));
    }
    FileLinesSingle(sc.filesTouched);
    assert AllSingle(Head(sc)) && AllSingle(Touched(sc));
    SingleConcat(TODO, sc.expected);
    SingleConcat(TODO + sc.expected, ".");
    assert AllSingle(Tail(sc));
  }

  lemma LiteralsSingle()
    ensures SingleLine("---") && SingleLine("scenarios:") && SingleLine("- pr: ")
    ensures SingleLine("...") && SingleLine(".") && SingleLine("")
    ensures SingleLine("  botocore_files_touched:") && SingleLine("    []")
    ensures SingleLine("  rationale: |") && SingleLine("  notes: null")
  {
  }

  lemma UrlsSingle()
    ensures SingleLine(PR_URL) && SingleLine(COMPARE_URL)
  {
    SingleConcat("https://github.com/", "boto/botocore/compare/");
    SingleConcat("https://github.com/", "aio-libs/aiobotocore/pull/");
  }

  lemma TodoSingle()
    ensures SingleLine(TODO)
  {
    SingleConcat("    TODO: one paragraph ", "explaining WHY this was ");
  }

  lemma {:induction false} AllLinesSingle(scenarios: seq<Scenario>)
    requires forall i | 0 <= i < |scenarios| :: OneLine(scenarios[i])
    ensures AllSingle(AllLines(scenarios))
  {
    hide ScenarioLines, OneLine, SingleLine;
    if scenarios == [] {
    } else {
      ScenarioSingle(scenarios[0]);
      AllLinesSingle(scenarios[1..]);
    }
  }

  ghost predicate AreComments(lines: seq<string>) {
    forall i | 0 <= i < |lines| :: "#" <= lines[i] && SingleLine(lines[i])
  }

  lemma HeaderFacts(comments: seq<string>)
    requires AreComments(comments)
    ensures AllSingle(Header(comments)) && Header(comments) != []
    ensures forall line <- Header(comments) :: line == "---" || "#" <= line || line == "scenarios:"
  {
    LiteralsSingle();
    hide SingleLine;
  }

  /** Parsing what was printed gives one row for each scenario, in ascending order of the pull
      request, that holds the wanted fields and nothing else. */
  lemma RoundTrip(keys: Keys, comments: seq<string>, scenarios: seq<Scenario>)
    requires Usual(keys) && AreComments(comments)
    requires forall i | 0 <= i < |scenarios| :: OneLine(scenarios[i])
    ensures Parsed(keys, Rendered(comments, scenarios)) == Rows(keys, SortByPr(scenarios))
    ensures Ascending(SortByPr(scenarios)) && multiset(SortByPr(scenarios)) == multiset(scenarios)
  {
    hide ParseLine, ParseLines, Rows, AllLines, SingleLine, OneLine, SortByPr, Join, SplitLines, Header, Usual;
    SortSorts(scenarios);
    var sorted, header := SortByPr(scenarios), Header(comments);
    forall i | 0 <= i < |sorted| ensures OneLine(sorted[i]) {
      assert sorted[i] in multiset(sorted);
      assert sorted[i] in scenarios;
    }
    AllLinesSingle(sorted);
    HeaderFacts(comments);
    SplitJoined(header + AllLines(sorted));
    HeaderParsed(keys, START, header);
    ParseLinesAppend(keys, START, header, AllLines(sorted));
    AllParsed(keys, START, sorted);
  }

  // ---- When the fields come back as they were ----

  /** The keys that the evaluation of past pull requests asks for. */
  const CASE_KEYS: Keys := Keys({"title", "expected", "from", "to"}, BLOCK_SCALAR_KEYS)

  /** Neither white space nor a quote at either end. */
  ghost predicate Trimmed(s: string) {
    s == [] || (!IsSpace(s[0]) && s[0] != '"' && !IsSpace(s[|s| - 1]) && s[|s| - 1] != '"')
  }

  lemma StripShortens(s: string)
    ensures |LStrip(s)| <= |s| && |RStrip(s)| <= |s| && |StripQuotes(s)| <= |s|
    ensures s != [] && IsSpace(s[0]) ==> |LStrip(s)| < |s|
    ensures s != [] && IsSpace(s[|s| - 1]) ==> |RStrip(s)| < |s|
    ensures s != [] && (s[0] == '"' || s[|s| - 1] == '"') ==> |StripQuotes(s)| < |s|
  {
    LStripShortens(s);
    RStripShortens(s);
    RightShortens(s);
    LeftShortens(RightUnquoted(s));
  }

  lemma {:induction false} LStripShortens(s: string)
    ensures |LStrip(s)| <= |s|
    ensures s != [] && IsSpace(s[0]) ==> |LStrip(s)| < |s|
    decreases |s|
  {
    if s == [] {
    } else {
      LStripShortens(s[1..]);
    }
  }

  lemma {:induction false} RStripShortens(s: string)
    ensures RStrip(s) <= s
    ensures s != [] && IsSpace(s[|s| - 1]) ==> |RStrip(s)| < |s|
    decreases |s|
  {
    if s == [] {
    } else {
      RStripShortens(s[..|s| - 1]);
    }
  }

  lemma {:induction false} LeftShortens(s: string)
    ensures |LeftUnquoted(s)| <= |s|
    ensures s != [] && s[0] == '"' ==> |LeftUnquoted(s)| < |s|
    decreases |s|
  {
    if s == [] {
    } else {
      LeftShortens(s[1..]);
    }
  }

  lemma {:induction false} RightShortens(s: string)
    ensures RightUnquoted(s) <= s
    ensures s != [] && s[|s| - 1] == '"' ==> |RightUnquoted(s)| < |s|
    decreases |s|
  {
    if s == [] {
    } else {
      RightShortens(s[..|s| - 1]);
    }
  }

  /** A field that is written without quotes comes back exactly when it is trimmed. */
  lemma PlainFieldExactly(s: string)
    ensures StripQuotes(Strip(s)) == s <==> Trimmed(s)
  {
    hide IsSpace, StripQuotes;
    if Trimmed(s) {
      if s != [] {
        assert RStrip(s) == s && LStrip(s) == s;
      } else {
        assert Strip(s) == s;
      }
      StripUnquoted(s);
    } else {
      StripShortens(s);
      StripShortens(RStrip(s));
      StripShortens(Strip(s));
    }
  }

  lemma DumpsSolid(s: string)
    ensures Strip(Json.Dumps(s)) == Json.Dumps(s)
  {
    NotSpace();
    var d := Json.Dumps(s);
    assert d[0] == '"' && d[|d| - 1] == '"';
    hide IsSpace;
    assert RStrip(d) == d && LStrip(d) == d;
  }

  /** The values that a reader of the scenarios hopes for, in the order of the printed fields. */
  function Truths(s: Scenario): seq<Field> {
    [ Field("title", s.title),
      Field("expected", s.expected),
      Field("from", s.fromVer),
      Field("to", s.toVer),
      Field("merge_commit", s.mergeCommit),
      Field("aiobotocore_version", s.aiobotocoreVersion),
      Field("botocore_diff", COMPARE_URL + s.fromVer + "..." + s.toVer),
      Field("aiobotocore_pr", PR_URL + Decimal(s.pr)) ]
  }

  function Hoped(keys: Keys, row: Row, truths: seq<Field>): Row
    decreases |truths|
  {
    if truths == [] then row
    else
      var f := truths[0];
      Hoped(keys, if f.key in keys.scalars then row[f.key := f.value] else row, truths[1..])
  }

  function TrueRow(keys: Keys, s: Scenario): Row {
    Hoped(keys, map["pr" := Decimal(s.pr)], Truths(s))
  }

  /** The wanted quoted fields need no escape, the wanted unquoted ones are trimmed. */
  ghost predicate ComesBack(keys: Keys, s: Scenario) {
    && ("title" in keys.scalars ==> Json.AllPlain(s.title))
    && ("expected" in keys.scalars ==> Trimmed(s.expected))
    && ("from" in keys.scalars ==> Json.AllPlain(s.fromVer))
    && ("to" in keys.scalars ==> Json.AllPlain(s.toVer))
    && ("merge_commit" in keys.scalars ==> Trimmed(s.mergeCommit))
    && ("aiobotocore_version" in keys.scalars ==> Json.AllPlain(s.aiobotocoreVersion))
    && ("botocore_diff" in keys.scalars ==> TrimmedEnd(s.toVer))
  }

  ghost predicate TrimmedEnd(s: string) {
    s == [] || (!IsSpace(s[|s| - 1]) && s[|s| - 1] != '"')
  }

  // ---- One field at a time ----

  predicate Survives(printed: string, truth: string) {
    StripQuotes(Strip(printed)) == truth
  }

  ghost predicate SameKeys(fields: seq<Field>, truths: seq<Field>) {
    && |fields| == |truths|
    && (forall i | 0 <= i < |fields| :: fields[i].key == truths[i].key)
    && (forall i, j | 0 <= i < j < |fields| :: fields[i].key != fields[j].key)
  }

  lemma UpdateInjective(a: Row, b: Row, key: string, v: string, w: string)
    requires key !in a && key !in b
    ensures a[key := v] == b[key := w] <==> a == b && v == w
  {
    if a[key := v] == b[key := w] {
      assert a == a[key := v] - {key} && b == b[key := w] - {key};
      assert a[key := v][key] == b[key := w][key];
    }
  }

  /** Rows are the same exactly when they started the same and every wanted field survives. */
  lemma {:induction false} SameRow(keys: Keys, a: Row, b: Row, fields: seq<Field>, truths: seq<Field>)
    requires SameKeys(fields, truths)
    requires forall i | 0 <= i < |fields| :: fields[i].key !in a && fields[i].key !in b
    ensures Wanted(keys, a, fields) == Hoped(keys, b, truths) <==>
      a == b
      && forall i | 0 <= i < |fields| && fields[i].key in keys.scalars :: Survives(fields[i].value, truths[i].value)
    decreases |fields|
  {
    hide StripQuotes, Strip;
    if fields == [] {
    } else {
      var f, t := fields[0], truths[0];
      var v := StripQuotes(Strip(f.value));
      UpdateInjective(a, b, f.key, v, t.value);
      var a' := if f.key in keys.scalars then a[f.key := v] else a;
      var b' := if f.key in keys.scalars then b[f.key := t.value] else b;
      assert SameKeys(fields[1..], truths[1..]);
      SameRow(keys, a', b', fields[1..], truths[1..]);
      assert forall i | 0 < i < |fields| :: fields[i] == fields[1..][i - 1] && truths[i] == truths[1..][i - 1];
    }
  }

  lemma QuotedSurvives(s: string)
    ensures Survives(Json.Dumps(s), s) <==> Json.AllPlain(s)
  {
    DumpsSolid(s);
    Json.QuotesStrippedExactly(s);
  }

  lemma PlainSurvives(s: string)
    ensures Survives(s, s) <==> Trimmed(s)
  {
    PlainFieldExactly(s);
  }

  lemma DiffSurvives(s: Scenario)
    ensures var url := COMPARE_URL + s.fromVer + "..." + s.toVer; Survives(url, url) <==> TrimmedEnd(s.toVer)
  {
    var url := COMPARE_URL + s.fromVer + "..." + s.toVer;
    PlainSurvives(url);
    NotSpace();
    assert url[0] == 'h';
    assert url[|url| - 1] == if s.toVer == [] then '.' else s.toVer[|s.toVer| - 1];
  }

  lemma PrSurvives(s: Scenario)
    ensures var url := PR_URL + Decimal(s.pr); Survives(url, url)
  {
    hide Decimal;
    var url := PR_URL + Decimal(s.pr);
    PlainSurvives(url);
    DecimalRoundTrip(s.pr);
    assert url[0] == 'h';
    assert url[|url| - 1] == Decimal(s.pr)[|Decimal(s.pr)| - 1];
  }

  lemma FieldsAndTruths(s: Scenario)
    ensures SameKeys(Fields(s), Truths(s)) && |Fields(s)| == 8
    ensures forall i | 0 <= i < |Fields(s)| :: Fields(s)[i].key != "pr"
  {
    hide Decimal, Json.Dumps;
    assert |"merge_commit"| == 12 && |"aiobotocore_version"| == 19;
    assert |"botocore_diff"| == 13 && |"aiobotocore_pr"| == 14;
    assert |"title"| == 5 && |"expected"| == 8 && |"from"| == 4 && |"to"| == 2 && |"pr"| == 2 && "to"[0] != "pr"[0];
  }

  /** Whatever fields are asked for, they come back as they were exactly when the quoted ones need
      no escape and the unquoted ones are trimmed. */
  lemma RecoveredExactly(keys: Keys, s: Scenario)
    ensures Recovered(keys, s) == TrueRow(keys, s) <==> ComesBack(keys, s)
  {
    hide Decimal, Json.Dumps, Json.AllPlain, Trimmed, TrimmedEnd, Survives, Wanted, Hoped;
    var fields, truths := Fields(s), Truths(s);
    FieldsAndTruths(s);
    var start: Row := map["pr" := Decimal(s.pr)];
    SameRow(keys, start, start, fields, truths);
    QuotedSurvives(s.title);
    PlainSurvives(s.expected);
    QuotedSurvives(s.fromVer);
    QuotedSurvives(s.toVer);
    PlainSurvives(s.mergeCommit);
    QuotedSurvives(s.aiobotocoreVersion);
    DiffSurvives(s);
    PrSurvives(s);
    hide SameKeys;
    EachOfEight(keys, fields, truths);
  }

  lemma EachOfEight(keys: Keys, fields: seq<Field>, truths: seq<Field>)
    requires |fields| == |truths| == 8
    ensures (forall i | 0 <= i < |fields| && fields[i].key in keys.scalars ::
               Survives(fields[i].value, truths[i].value))
       <==> EachSurvives(keys, fields[..4], truths[..4]) && EachSurvives(keys, fields[4..], truths[4..])
  {
    hide Survives;
    assert forall i | 4 <= i < 8 :: fields[i] == fields[4..][i - 4] && truths[i] == truths[4..][i - 4];
    assert forall i | 0 <= i < 4 :: fields[4..][i] == fields[i + 4] && truths[4..][i] == truths[i + 4];
  }

  ghost predicate EachSurvives(keys: Keys, fields: seq<Field>, truths: seq<Field>)
    requires |fields| == |truths| == 4
  {
    && (fields[0].key in keys.scalars ==> Survives(fields[0].value, truths[0].value))
    && (fields[1].key in keys.scalars ==> Survives(fields[1].value, truths[1].value))
    && (fields[2].key in keys.scalars ==> Survives(fields[2].value, truths[2].value))
    && (fields[3].key in keys.scalars ==> Survives(fields[3].value, truths[3].value))
  }

  /** For the keys that the evaluation asks for: the row and the condition written out. */
  lemma CaseRow(s: Scenario)
    ensures TrueRow(CASE_KEYS, s)
         == map["pr" := Decimal(s.pr), "title" := s.title, "expected" := s.expected,
                "from" := s.fromVer, "to" := s.toVer]
    ensures ComesBack(CASE_KEYS, s) <==>
      Json.AllPlain(s.title) && Json.AllPlain(s.fromVer) && Json.AllPlain(s.toVer) && Trimmed(s.expected)
  {
    hide Decimal, Json.AllPlain, Trimmed;
    var truths, keys := Truths(s), CASE_KEYS;
    var r0: Row := map["pr" := Decimal(s.pr)];
    var r1 := r0["title" := s.title];
    var r2 := r1["expected" := s.expected];
    var r3 := r2["from" := s.fromVer];
    var r4 := r3["to" := s.toVer];
    assert truths[1..][1..] == truths[2..] && truths[2..][1..] == truths[3..] && truths[3..][1..] == truths[4..];
    Unwanted(keys, r4, truths[4..]);
    assert Hoped(keys, r3, truths[3..]) == r4;
    assert Hoped(keys, r2, truths[2..]) == r4;
    assert Hoped(keys, r1, truths[1..]) == r4;
  }

  lemma {:induction false} Unwanted(keys: Keys, row: Row, truths: seq<Field>)
    requires forall i | 0 <= i < |truths| :: truths[i].key !in keys.scalars
    ensures Hoped(keys, row, truths) == row
    decreases |truths|
  {
    if truths == [] {
    } else {
      Unwanted(keys, row, truths[1..]);
    }
  }

  function TrueRows(keys: Keys, scenarios: seq<Scenario>): seq<Row> {
    if scenarios == [] then [] else [TrueRow(keys, scenarios[0])] + TrueRows(keys, scenarios[1..])
  }

  lemma {:induction false} RowsExactly(keys: Keys, scenarios: seq<Scenario>)
    ensures Rows(keys, scenarios) == TrueRows(keys, scenarios) <==> forall s <- scenarios :: ComesBack(keys, s)
  {
    hide Recovered, TrueRow, ComesBack;
    if scenarios == [] {
    } else {
      var s, rest := scenarios[0], scenarios[1..];
      RecoveredExactly(keys, s);
      RowsExactly(keys, rest);
      assert scenarios == [s] + rest;
      var rows, hoped := Rows(keys, scenarios), TrueRows(keys, scenarios);
      assert rows[0] == Recovered(keys, s) && rows[1..] == Rows(keys, rest);
      assert hoped[0] == TrueRow(keys, s) && hoped[1..] == TrueRows(keys, rest);
      assert rows == [rows[0]] + rows[1..] && hoped == [hoped[0]] + hoped[1..];
    }
  }

  /** The printed file reads back as the scenarios themselves, in ascending order, exactly when
      every one of them comes back. */
  lemma RoundTripExactly(keys: Keys, comments: seq<string>, scenarios: seq<Scenario>)
    requires Usual(keys) && AreComments(comments)
    requires forall i | 0 <= i < |scenarios| :: OneLine(scenarios[i])
    ensures Parsed(keys, Rendered(comments, scenarios)) == TrueRows(keys, SortByPr(scenarios))
       <==> forall s <- scenarios :: ComesBack(keys, s)
  {
    hide Parsed, Rendered, Rows, TrueRows, SortByPr, OneLine, ComesBack;
    RoundTrip(keys, comments, scenarios);
    var sorted := SortByPr(scenarios);
    RowsExactly(keys, sorted);
    forall s ensures s in sorted <==> s in scenarios {
      assert s in multiset(sorted) <==> s in multiset(scenarios);
    }
  }

  // ---- The programs ----

  method RenderYaml(comments: seq<string>, scenarios: seq<Scenario>) returns (text: string)
    ensures text == Rendered(comments, scenarios)
  {
    hide Head, FileLines, Tail, SortByPr;
    var sorted := SortByPr(scenarios);
    var lines := Header(comments);
    for i := 0 to |sorted|
      invariant lines + AllLines(sorted[i..]) == Header(comments) + AllLines(sorted)
    {
      var s := sorted[i];
      ghost var before := lines;
      lines := lines + Head(s);
      if s.filesTouched != [] {
        lines := lines + FileLines(s.filesTouched);
      } else {
        lines := lines + ["    []"];
      }
      lines := lines + Tail(s);
      assert lines == before + ScenarioLines(s);
      assert sorted[i..][1..] == sorted[i + 1..];
      Associative(before, ScenarioLines(s), AllLines(sorted[i + 1..]));
    }
    assert sorted[|sorted|..] == [];
    assert lines + [] == lines;
    text := Join(lines) + "\n";
  }

  method ParseScenariosYaml(text: Option<string>, keys: Keys) returns (rows: seq<Row>)
    ensures rows == if text.None? then [] else Parsed(keys, text.value)
  {
    hide RStrip, LStrip, SplitLines, StripQuotes;
    if text == None {
      return [];
    }
    rows := [];
    var current: Row := map[];
    var inBlockScalar := false;
    var lines := SplitLines(text.value);
    for i := 0 to |lines|
      invariant ParseLines(keys, ParserState(rows, current, inBlockScalar), lines[i..])
             == ParseLines(keys, START, lines)
    {
      ghost var before := ParserState(rows, current, inBlockScalar);
      ghost var after := ParseLine(keys, before, lines[i]);
      assert lines[i..][0] == lines[i] && lines[i..][1..] == lines[i + 1..];
      assert ParseLines(keys, before, lines[i..]) == ParseLines(keys, after, lines[i + 1..]);
      var line := RStrip(lines[i]);
      if inBlockScalar {
        if "    " <= line || Strip(line) == "" {
          continue;
        }
        inBlockScalar := false;
      }
      if line == "" || "#" <= LStrip(line) || line == "---" {
        continue;
      }
      if "- pr:" <= line {
        if current != map[] {
          rows := rows + [current];
          current := map[];
        }
        current := current["pr" := Strip(After(line))];
        continue;
      }
      if "  " <= line && ColonAt(line) < |line| {
        var key, value := Strip(Before(Strip(line))), Strip(After(Strip(line)));
        if key in keys.scalars {
          current := current[key := StripQuotes(value)];
        } else if key in keys.blocks && value == "|" {
          inBlockScalar := true;
        }
      }
    }
    assert lines[|lines|..] == [];
    if current != map[] {
      rows := rows + [current];
    }
  }
}
