/** Re-reading rendered snippets: the text of one start marker, some code
    and one end marker parses back into that snippet, names compared up to
    case, and `Snippet.String` is undone by `Parse` for plain code. */
module RoundTrip {
  import opened GoStrings
  import opened Snippets

  /** The lines of a rendered body: empty code still occupies one (empty) line. */
  function CodeLines(code: seq<string>): (ls: seq<string>)
    ensures ls != [] && Join(ls, '\n') == Join(code, '\n')
    ensures code != [] ==> ls == code
  {
    if code == [] then [""] else code
  }

  function StartLine(name: string): string {
    PrefixName + " " + StartName + " " + name
  }

  function EndLine(name: string): string {
    PrefixName + " " + EndName + " " + name
  }

  /** A start marker named `a`, the code, and an end marker named `b`, each
      ended by a line feed: the layout `Snippet.String` writes. */
  function PairText(a: string, b: string, code: seq<string>): string {
    StartLine(a) + "\n" + Join(code, '\n') + "\n" + EndLine(b) + "\n"
  }

  /** Code lines that survive a re-read unchanged. */
  predicate PlainCode(code: seq<string>) {
    forall j :: 0 <= j < |code| ==>
      IsTrimmed(code[j]) && '\r' !in code[j] && '\n' !in code[j] && Ordinary(code[j])
  }

  /** Joining with a space is putting a space in front of the second string. */
  lemma SpaceJoined(x: string, y: string)
    ensures x + " " + y == x + ([' '] + y)
  {
  }

  /** The same for three strings, nested to the right. */
  lemma SpacedThree(x: string, y: string, z: string)
    ensures x + " " + y + " " + z == x + ([' '] + (y + " " + z))
  {
  }

  /** Two tokens separated by a single space are two fields. */
  lemma TwoFields(y: string, z: string)
    requires IsToken(y) && IsToken(z)
    ensures Fields(y + " " + z) == [y, z]
  {
    var rest := [' '] + z;
    SpaceJoined(y, z);
    FieldsToken(y, rest);
    FieldsSkipSpace(' ', z);
    assert z + "" == z;
    FieldsToken(z, "");
  }

  /** Three tokens separated by single spaces are three fields. */
  lemma ThreeFields(x: string, y: string, z: string)
    requires IsToken(x) && IsToken(y) && IsToken(z)
    ensures Fields(x + " " + y + " " + z) == [x, y, z]
  {
    var tail := y + " " + z;
    var rest := [' '] + tail;
    SpacedThree(x, y, z);
    FieldsToken(x, rest);
    FieldsSkipSpace(' ', tail);
    TwoFields(y, z);
  }

  /** A marker keyword and a one-token name make a three-field line. */
  lemma MarkerFields(kw: string, name: string)
    requires IsToken(kw) && IsToken(name)
    ensures Fields(TrimSpace(PrefixName + " " + kw + " " + name)) == [PrefixName, kw, name]
  {
    var line := PrefixName + " " + kw + " " + name;
    assert IsTrimmed(line) by {
      assert line[0] == '/';
      assert line[|line| - 1] == name[|name| - 1];
    }
    TrimSpaceFixes(line);
    assert IsToken(PrefixName);
    ThreeFields(PrefixName, kw, name);
  }

  /** A marker line whose keyword is `snippet` or `end` in any case, with a
      one-token name, is read as a record of that name. */
  lemma MarkerReads(kw: string, name: string, i: nat)
    requires IsToken(name) && (ToLower(kw) == StartName || ToLower(kw) == EndName)
    ensures ScanLine(PrefixName + " " + kw + " " + name, i) ==
      Marker(if ToLower(kw) == StartName then Record(Start, i + 1, name) else Record(End, i, name))
  {
    ToLowerSpec(kw);
    assert kw != [];
    forall j | 0 <= j < |kw| ensures !IsSpace(kw[j]) {
      assert ToLower(kw)[j] == LowerChar(kw[j]);
    }
    MarkerFields(kw, name);
  }

  lemma StartReads(name: string, i: nat)
    requires IsToken(name)
    ensures ScanLine(StartLine(name), i) == Marker(Record(Start, i + 1, name))
  {
    ToLowerFixes(StartName);
    MarkerReads(StartName, name, i);
  }

  lemma EndReads(name: string, i: nat)
    requires IsToken(name)
    ensures ScanLine(EndLine(name), i) == Marker(Record(End, i, name))
  {
    ToLowerFixes(EndName);
    MarkerReads(EndName, name, i);
  }

  /** A one-token name holds no carriage return or line feed, and neither do the markers it names. */
  lemma TokenChars(name: string)
    requires IsToken(name)
    ensures '\r' !in StartLine(name) && '\n' !in StartLine(name)
    ensures '\r' !in EndLine(name) && '\n' !in EndLine(name)
  {
    assert IsSpace('\r') && IsSpace('\n');
  }

  /** The lines of a pair's text: its two markers, the code lines, and the
      empty line after the final line feed. */
  lemma PairLines(a: string, b: string, code: seq<string>)
    requires IsToken(a) && IsToken(b)
    requires forall j :: 0 <= j < |code| ==> '\r' !in code[j] && '\n' !in code[j]
    ensures Lines(PairText(a, b, code)) == [StartLine(a)] + CodeLines(code) + [EndLine(b), ""]
  {
    var text := PairText(a, b, code);
    TokenChars(a);
    TokenChars(b);
    JoinAvoids(code, '\n', '\r');
    assert '\r' !in text;
    FramedLines(StartLine(a), code, EndLine(b));
  }

  /** Readings of a start, ignored lines, an end and one more ignored line
      scan to the two records. */
  lemma ScanTwo(cls: seq<Scanned>, s: Record, e: Record, n: nat)
    requires |cls| == n + 3 && cls[0] == Marker(s) && cls[n + 1] == Marker(e)
    requires forall m :: 0 < m < |cls| && m != n + 1 ==> cls[m].Ignored?
    ensures ScanFrom(cls, 0, []) == Success([s, e])
  {
    assert [] + [s] == [s];
    IgnoredRun(cls, 1, n + 1, [s]);
    assert [s] + [e] == [s, e];
    assert ScanFrom(cls, n + 1, [s]) == ScanFrom(cls, n + 2, [s, e]);
    IgnoredRun(cls, n + 2, n + 3, [s, e]);
  }

  /** A start followed by an end passes the alternation check, and the name
      check compares their names. */
  lemma PairChecks(s: Record, e: Record)
    requires s.s == Start && e.s == End
    ensures CheckAlternation([s, e], 0) == None
    ensures CheckNames([s, e], 1) == if SameName(s, e) then None else Some(Mismatch(s, e))
  {
    assert CheckAlternation([s, e], 2) == None;
  }

  /** One pair of records builds one snippet. */
  lemma BuildOne(lines: seq<string>, s: Record, e: Record)
    requires 0 <= s.line <= e.line <= |lines|
    ensures Spans(lines, [s, e])
    ensures Build(lines, [s, e]) == [Snippet(s.name, TrimAll(lines[s.line..e.line]))]
  {
    assert StartOf([s, e], 0) == s && EndOf([s, e], 0) == e;
  }

  /** Lines whose records are one start and one end, in that order. */
  lemma ParseOnePair(lines: seq<string>, s: Record, e: Record)
    requires Scan(lines) == Success([s, e])
    requires s.s == Start && e.s == End && 0 <= s.line <= e.line <= |lines|
    ensures ParseLines(lines) ==
      if SameName(s, e) then Success([Snippet(s.name, TrimAll(lines[s.line..e.line]))])
      else Failure(Mismatch(s, e))
  {
    PairChecks(s, e);
    BuildOne(lines, s, e);
  }

  /** Lines of a start marker, `n` ordinary lines, an end marker and one
      more ordinary line parse as one pair. */
  lemma ParseTwoMarkers(lines: seq<string>, a: string, b: string, n: nat)
    requires |lines| == n + 3
    requires Reads(lines)[0] == Marker(Record(Start, 1, a))
    requires Reads(lines)[n + 1] == Marker(Record(End, n + 1, b))
    requires forall m :: 0 < m < n + 3 && m != n + 1 ==> Reads(lines)[m].Ignored?
    ensures ParseLines(lines) ==
      if ToLower(a) == ToLower(b) then Success([Snippet(a, TrimAll(lines[1..n + 1]))])
      else Failure(NameMismatch(2, a, n + 2, b))
  {
    var s, e := Record(Start, 1, a), Record(End, n + 1, b);
    ScanTwo(Reads(lines), s, e, n);
    ParseOnePair(lines, s, e);
  }

  /** An ordinary line reads as ignored. */
  lemma OrdinaryReads(raw: string, i: nat)
    requires Ordinary(raw)
    ensures ScanLine(raw, i).Ignored?
  {
    ScanLineCases(raw, i);
  }

  /** How the lines of a pair's text read: the start marker first, ... */
  lemma ReadsPairStart(lines: seq<string>, a: string, b: string, body: seq<string>)
    requires IsToken(a)
    requires lines == [StartLine(a)] + body + [EndLine(b), ""]
    ensures Reads(lines)[0] == Marker(Record(Start, 1, a))
  {
    assert lines[0] == StartLine(a);
    ReadsAt(lines, 0);
    StartReads(a, 0);
  }

  /** ... the end marker after the body, ... */
  lemma ReadsPairEnd(lines: seq<string>, a: string, b: string, body: seq<string>)
    requires IsToken(b)
    requires lines == [StartLine(a)] + body + [EndLine(b), ""]
    ensures Reads(lines)[|body| + 1] == Marker(Record(End, |body| + 1, b))
  {
    assert lines[|body| + 1] == EndLine(b);
    ReadsAt(lines, |body| + 1);
    EndReads(b, |body| + 1);
  }

  /** ... and every other line ignored. */
  lemma ReadsPairIgnored(lines: seq<string>, a: string, b: string, body: seq<string>)
    requires forall j :: 0 <= j < |body| ==> Ordinary(body[j])
    requires lines == [StartLine(a)] + body + [EndLine(b), ""]
    ensures forall m :: 0 < m < |body| + 3 && m != |body| + 1 ==> Reads(lines)[m].Ignored?
  {
    var n := |body|;
    forall m | 0 < m < n + 3 && m != n + 1 ensures Reads(lines)[m].Ignored? {
      ReadsAt(lines, m);
      if m == n + 2 {
        assert lines[m] == "";
        OrdinaryEmpty();
        OrdinaryReads("", m);
      } else {
        assert lines[m] == body[m - 1];
        OrdinaryReads(lines[m], m);
      }
    }
  }

  /** Lines that are a start marker, ordinary lines, an end marker and one
      more empty line. */
  lemma ParsePairLines(lines: seq<string>, a: string, b: string, body: seq<string>)
    requires IsToken(a) && IsToken(b)
    requires forall j :: 0 <= j < |body| ==> Ordinary(body[j])
    requires lines == [StartLine(a)] + body + [EndLine(b), ""]
    ensures ParseLines(lines) ==
      if ToLower(a) == ToLower(b) then Success([Snippet(a, TrimAll(body))])
      else Failure(NameMismatch(2, a, |body| + 2, b))
  {
    ReadsPairStart(lines, a, b, body);
    ReadsPairEnd(lines, a, b, body);
    ReadsPairIgnored(lines, a, b, body);
    assert lines[1..|body| + 1] == body;
    ParseTwoMarkers(lines, a, b, |body|);
  }

  /** The text of a single pair parses to one snippet when the names agree up
      to case, and otherwise to a name mismatch citing one past the start
      marker's line number and the end marker's line number. */
  lemma ParsePair(a: string, b: string, code: seq<string>)
    requires IsToken(a) && IsToken(b)
    requires forall j :: 0 <= j < |code| ==> '\r' !in code[j] && '\n' !in code[j] && Ordinary(code[j])
    ensures Parse(PairText(a, b, code)) ==
      if ToLower(a) == ToLower(b) then Success([Snippet(a, TrimAll(CodeLines(code)))])
      else Failure(NameMismatch(2, a, |CodeLines(code)| + 2, b))
  {
    var body := CodeLines(code);
    var lines := [StartLine(a)] + body + [EndLine(b), ""];
    PairLines(a, b, code);
    CodeLinesOrdinary(code);
    ParsePairLines(lines, a, b, body);
  }

  /** The rendered body of ordinary code lines is ordinary. */
  lemma CodeLinesOrdinary(code: seq<string>)
    requires forall j :: 0 <= j < |code| ==> Ordinary(code[j])
    ensures forall j :: 0 <= j < |CodeLines(code)| ==> Ordinary(CodeLines(code)[j])
  {
    OrdinaryEmpty();
  }

  /** An empty line is ordinary. */
  lemma OrdinaryEmpty()
    ensures Ordinary("")
  {
    assert TrimSpace("") == "";
  }

  /** A trimmed line is its own trimming, so plain code is its own cleaning. */
  lemma TrimAllPlain(code: seq<string>)
    requires PlainCode(code)
    ensures TrimAll(code) == code
  {
    forall j | 0 <= j < |code| ensures TrimSpace(code[j]) == code[j] {
      TrimSpaceFixes(code[j]);
    }
  }

  /** `Get` undoes `String` for a one-token name and non-empty plain code. */
  lemma RoundTrip(s: Snippet)
    requires IsToken(s.name) && s.code != [] && PlainCode(s.code)
    ensures Parse(s.String()) == Success([s])
  {
    StringIsPairText(s);
    ParsePair(s.name, s.name, s.code);
    TrimAllPlain(s.code);
  }

  /** Empty code does not survive: it comes back as one empty line. */
  lemma EmptyCodeRoundTrip(name: string)
    requires IsToken(name)
    ensures Parse(Snippet(name, []).String()) == Success([Snippet(name, [""])])
  {
    OrdinaryEmpty();
    assert PlainCode([""]);
    TrimAllPlain([""]);
    StringIsPairText(Snippet(name, []));
    ParsePair(name, name, []);
  }

  /** `String` writes the layout of a pair with both markers named alike. */
  lemma StringIsPairText(s: Snippet)
    ensures s.String() == PairText(s.name, s.name, s.code)
  {
  }

  /** Every parsed snippet with code renders to a text that parses back to it. */
  lemma ReparseParsed(text: string, k: int)
    requires Parse(text).Success? && 0 <= k < |Parse(text).value|
    requires Parse(text).value[k].code != []
    ensures Parse(Parse(text).value[k].String()) == Success([Parse(text).value[k]])
  {
    LinesClean(text);
    ParsedCodePlain(Lines(text));
    RoundTrip(Parse(text).value[k]);
  }
}
