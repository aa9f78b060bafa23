/** The marker parser of package `snippet`: a file's text becomes named
    snippets, each the trimmed lines between a `// snippet NAME` line and the
    matching `// end NAME` line. `Parse` is the specification, `Get` the
    imperative parser proved to compute it. */
module Snippets {
  import opened GoStrings

  const PrefixName := "//"
  const StartName := "snippet"
  const EndName := "end"

  datatype Option<T> = None | Some(value: T)

  datatype Result<T, E> = Success(value: T) | Failure(error: E)

  /** Whether a marker opens (`snippet`) or closes (`end`) a snippet. */
  datatype Status = Start | End

  /** A marker line. A start record keeps the index of the line after the
      marker, an end record the index of the marker itself, so the body of a
      pair is `lines[start.line..end.line]`. */
  datatype Record = Record(s: Status, line: int, name: string)

  /** Why a file is refused. Line numbers and indices are the ones the
      source puts in its messages. */
  datatype Err =
    | MalformedName(line: int)     // 1-based line of a marker with more than three fields
    | NotStart(index: int)         // 1-based position in the record list
    | NotEnd(index: int)           // 1-based position in the record list
    | NameMismatch(startLine: int, startName: string, endLine: int, endName: string)
    | Unterminated(line: int)      // `line + 1` of the last record

  /** A named piece of code. */
  datatype Snippet = Snippet(name: string, code: seq<string>) {

    /** The marker text of the snippet: start marker, code lines, end marker.
        Its lines are those a parser splits it into, provided no name or code
        line holds a line feed. */
    function String(): (out: string)
      ensures ('\n' !in name && forall j :: 0 <= j < |code| ==> '\n' !in code[j]) ==>
        Split(out, '\n') == [PrefixName + " " + StartName + " " + name]
                            + (if code == [] then [""] else code)
                            + [PrefixName + " " + EndName + " " + name, ""]
    {
      var first := PrefixName + " " + StartName + " " + name;
      var last := PrefixName + " " + EndName + " " + name;
      MarkersKeepLines(name);
      FramedLines(first, code, last);
      first + "\n" + Join(code, '\n') + "\n" + last + "\n"
    }
  }

  /** A marker line holds a line feed only if its name does. */
  lemma MarkersKeepLines(name: string)
    ensures '\n' !in name ==>
      '\n' !in PrefixName + " " + StartName + " " + name && '\n' !in PrefixName + " " + EndName + " " + name
  {
  }

  /** How one line is read: ignored, a marker, or a fatal error. */
  datatype Scanned = Ignored | Marker(record: Record) | Malformed(error: Err)

  /** The lines of a file: carriage returns deleted, split at line feeds. */
  function Lines(text: string): seq<string> {
    Split(RemoveAll(text, '\r'), '\n')
  }

  /** Reading line `i` (0-based) of a file. */
  function ScanLine(raw: string, i: nat): (sc: Scanned)
    ensures sc.Marker? ==> MarkerLine(sc.record) == i
    ensures sc.Malformed? ==> sc.error == MalformedName(i + 1)
  {
    var fs := Fields(TrimSpace(raw));
    if |fs| < 2 then Ignored
    else
      var keyword := ToLower(fs[1]);
      if 3 < |fs| && fs[0] == PrefixName && (keyword == StartName || keyword == EndName) then
        Malformed(MalformedName(i + 1))
      else if |fs| != 3 then Ignored
      else if fs[0] == PrefixName && keyword == StartName then Marker(Record(Start, i + 1, fs[2]))
      else if fs[0] == PrefixName && keyword == EndName then Marker(Record(End, i, fs[2]))
      else Ignored
  }

  /** A line whose first two fields are the comment prefix and a keyword, in any case. */
  predicate IsMarkerLine(raw: string) {
    var fs := Fields(TrimSpace(raw));
    |fs| >= 2 && fs[0] == PrefixName && (ToLower(fs[1]) == StartName || ToLower(fs[1]) == EndName)
  }

  /** Index of the marker line a record was read from. */
  function MarkerLine(r: Record): int {
    if r.s == Start then r.line - 1 else r.line
  }

  /** How each line of a file reads. */
  function Reads(lines: seq<string>): (cls: seq<Scanned>)
    ensures |cls| == |lines|
    decreases |lines|
  {
    if lines == [] then []
    else
      var n := |lines| - 1;
      Reads(lines[..n]) + [ScanLine(lines[n], n)]
  }

  /** Line `m` reads as `ScanLine` reads it at position `m`. */
  lemma {:induction false} ReadsAt(lines: seq<string>, m: int)
    requires 0 <= m < |lines|
    ensures Reads(lines)[m] == ScanLine(lines[m], m)
    decreases |lines|
  {
    var n := |lines| - 1;
    if m < n {
      ReadsAt(lines[..n], m);
    }
  }

  /** Scanning the readings `cls[i..]` after `acc` was read from the lines before. */
  function ScanFrom(cls: seq<Scanned>, i: nat, acc: seq<Record>): Result<seq<Record>, Err>
    requires i <= |cls|
    decreases |cls| - i
  {
    if i == |cls| then Success(acc)
    else
      match cls[i]
      case Malformed(e) => Failure(e)
      case Marker(r) => ScanFrom(cls, i + 1, acc + [r])
      case Ignored => ScanFrom(cls, i + 1, acc)
  }

  /** The records of a whole file, or its first fatal line. */
  function Scan(lines: seq<string>): Result<seq<Record>, Err> {
    ScanFrom(Reads(lines), 0, [])
  }

  /** The status a record must have at 0-based position `i`. */
  function Expected(i: int): Status {
    if i % 2 == 0 then Start else End
  }

  /** The first alternation failure at position `i` or later. */
  function CheckAlternation(rs: seq<Record>, i: nat): Option<Err>
    requires i <= |rs|
    decreases |rs| - i
  {
    if i == |rs| then None
    else if i % 2 == 0 && rs[i].s != Start then Some(NotStart(i + 1))
    else if i % 2 != 0 && rs[i].s != End then Some(NotEnd(i + 1))
    else CheckAlternation(rs, i + 1)
  }

  /** The start record of pair `k`. */
  function StartOf(rs: seq<Record>, k: int): Record
    requires 0 <= k && 2 * k + 1 < |rs|
  {
    rs[2 * k]
  }

  /** The end record of pair `k`. */
  function EndOf(rs: seq<Record>, k: int): Record
    requires 0 <= k && 2 * k + 1 < |rs|
  {
    rs[2 * k + 1]
  }

  predicate SameName(a: Record, b: Record) {
    ToLower(a.name) == ToLower(b.name)
  }

  function Mismatch(a: Record, b: Record): Err {
    NameMismatch(a.line + 1, a.name, b.line + 1, b.name)
  }

  /** The first name disagreement among the pairs ending at positions `i, i + 2, ...`. */
  function CheckNames(rs: seq<Record>, i: nat): Option<Err>
    requires 1 <= i
    decreases |rs| + 1 - i
  {
    if i >= |rs| then None
    else if !SameName(rs[i - 1], rs[i]) then Some(Mismatch(rs[i - 1], rs[i]))
    else CheckNames(rs, i + 2)
  }

  /** Every pair has bounds that slice `lines`. */
  ghost predicate Spans(lines: seq<string>, rs: seq<Record>) {
    forall k :: 0 <= k && 2 * k + 1 < |rs| ==> 0 <= StartOf(rs, k).line <= EndOf(rs, k).line <= |lines|
  }

  /** The untrimmed body of pair `k`. */
  function Body(lines: seq<string>, rs: seq<Record>, k: int): seq<string>
    requires Spans(lines, rs) && 0 <= k && 2 * k + 1 < |rs|
  {
    lines[StartOf(rs, k).line..EndOf(rs, k).line]
  }

  function TrimAll(ls: seq<string>): seq<string> {
    seq(|ls|, j requires 0 <= j < |ls| => TrimSpace(ls[j]))
  }

  /** One snippet per pair, named as its start marker, with the trimmed body. */
  function Build(lines: seq<string>, rs: seq<Record>): seq<Snippet>
    requires Spans(lines, rs)
  {
    seq(|rs| / 2, k requires 0 <= k < |rs| / 2 => Snippet(StartOf(rs, k).name, TrimAll(Body(lines, rs, k))))
  }

  /** What `Get` returns for a file's text. */
  function Parse(text: string): Result<seq<Snippet>, Err> {
    ParseLines(Lines(text))
  }

  /** What `Get` returns for a file split into `lines`: the first stage that
      fails decides the error. */
  function ParseLines(lines: seq<string>): Result<seq<Snippet>, Err> {
    match Scan(lines)
    case Failure(e) => Failure(e)
    case Success(rs) =>
      if rs == [] then Success([])
      else
        match CheckAlternation(rs, 0)
        case Some(e) => Failure(e)
        case None =>
          match CheckNames(rs, 1)
          case Some(e) => Failure(e)
          case None =>
            if |rs| % 2 != 0 then Failure(Unterminated(rs[|rs| - 1].line + 1))
            else
              ScanSpec(lines);
              AlternationSpec(rs, 0);
              PairSpans(lines, rs);
              Success(Build(lines, rs))
  }

  /** `Get` on a file already read into `text`. */
  method Get(text: string) returns (r: Result<seq<Snippet>, Err>)
    ensures r == Parse(text)
  {
    var dat := RemoveAll(text, '\r');
    var lines := Split(dat, '\n');
    r := GetLines(lines);
  }

  /** `Get` once the file is split into lines: records read, checked and paired. */
  method GetLines(lines: seq<string>) returns (r: Result<seq<Snippet>, Err>)
    ensures r == ParseLines(lines)
  {
    ParseStages(lines);

    var scanned := ReadRecords(lines);
    if scanned.Failure? {
      return Failure(scanned.error);
    }
    var records := scanned.value;
    if |records| == 0 {
      return Success([]);
    }

    // Records must alternate start, end, start, ...
    var order := CheckOrder(records);
    if order.Some? {
      return Failure(order.value);
    }

    // Each pair's names must agree up to case.
    var names := CheckPairNames(records);
    if names.Some? {
      return Failure(names.value);
    }

    // An odd record count leaves the last start unclosed.
    if |records| % 2 != 0 {
      return Failure(Unterminated(records[|records| - 1].line + 1));
    }

    var snippets := CollectSnippets(lines, records);
    return Success(snippets);
  }

  /** The record loop of `Get`: each line trimmed and split into fields, the
      keyword lowered, and a marker line with more than three fields fatal. */
  method ReadRecords(lines: seq<string>) returns (r: Result<seq<Record>, Err>)
    ensures r == Scan(lines)
  {
    var records: seq<Record> := [];
    for i := 0 to |lines|
      invariant Scan(lines) == ScanFrom(Reads(lines), i, records)
    {
      ReadsAt(lines, i);
      var line := TrimSpace(lines[i]);
      var fs := Fields(line);
      if |fs| < 2 {
        continue;
      }
      fs := fs[1 := ToLower(fs[1])];
      if 3 < |fs| {
        if fs[0] == PrefixName && (fs[1] == StartName || fs[1] == EndName) {
          assert Reads(lines)[i] == Malformed(MalformedName(i + 1));
          return Failure(MalformedName(i + 1));
        }
      }
      if |fs| != 3 {
        continue;
      }
      if fs[0] == PrefixName && fs[1] == StartName {
        records := records + [Record(Start, i + 1, fs[2])];
        continue;
      }
      if fs[0] == PrefixName && fs[1] == EndName {
        records := records + [Record(End, i, fs[2])];
        continue;
      }
    }
    return Success(records);
  }

  /** The loop of `Get` that checks records alternate start, end, start, ... */
  method CheckOrder(records: seq<Record>) returns (e: Option<Err>)
    ensures e == CheckAlternation(records, 0)
  {
    for i := 0 to |records|
      invariant CheckAlternation(records, 0) == CheckAlternation(records, i)
    {
      if i % 2 == 0 && records[i].s != Start {
        return Some(NotStart(i + 1));
      }
      if i % 2 != 0 && records[i].s != End {
        return Some(NotEnd(i + 1));
      }
    }
    return None;
  }

  /** The loop of `Get` that compares the names of records `i - 1` and `i`
      for `i = 1, 3, 5, ...`, ignoring case. */
  method CheckPairNames(records: seq<Record>) returns (e: Option<Err>)
    ensures e == CheckNames(records, 1)
  {
    var i := 1;
    while i < |records|
      invariant 1 <= i
      invariant CheckNames(records, 1) == CheckNames(records, i)
      decreases |records| - i
    {
      if ToLower(records[i - 1].name) != ToLower(records[i].name) {
        return Some(NameMismatch(records[i - 1].line + 1, records[i - 1].name,
                                 records[i].line + 1, records[i].name));
      }
      i := i + 2;
    }
    return None;
  }

  /** The last two loops of `Get`: one snippet per pair of records holding
      the lines between its markers, then every code line trimmed. */
  method CollectSnippets(lines: seq<string>, records: seq<Record>) returns (snippets: seq<Snippet>)
    requires Spans(lines, records) && |records| % 2 == 0
    ensures snippets == Build(lines, records)
  {
    // One snippet per pair, holding the lines between its markers.
    snippets := [];
    var i := 1;
    while i < |records|
      invariant i == 2 * |snippets| + 1 && |snippets| <= |records| / 2
      invariant forall k :: 0 <= k < |snippets| ==>
        snippets[k] == Snippet(StartOf(records, k).name, Body(lines, records, k))
    {
      assert StartOf(records, |snippets|) == records[i - 1] && EndOf(records, |snippets|) == records[i];
      snippets := snippets + [Snippet(records[i - 1].name, lines[records[i - 1].line..records[i].line])];
      i := i + 2;
    }

    // Every code line trimmed.
    for k := 0 to |snippets|
      invariant |snippets| == |records| / 2
      invariant forall k' :: 0 <= k' < k ==> snippets[k'] == Build(lines, records)[k']
      invariant forall k' :: k <= k' < |snippets| ==>
        snippets[k'] == Snippet(StartOf(records, k').name, Body(lines, records, k'))
    {
      var cs := TrimLines(snippets[k].code);
      snippets := snippets[k := snippets[k].(code := cs)];
    }
  }

  /** The innermost loop of `Get`: every line trimmed, one at a time. */
  method TrimLines(code: seq<string>) returns (cs: seq<string>)
    ensures cs == TrimAll(code)
  {
    cs := code;
    for j := 0 to |cs|
      invariant |cs| == |code|
      invariant forall j' :: 0 <= j' < j ==> cs[j'] == TrimSpace(code[j'])
      invariant forall j' :: j <= j' < |cs| ==> cs[j'] == code[j']
    {
      cs := cs[j := TrimSpace(cs[j])];
    }
  }

  /** `ParseLines` stage by stage: the first stage that fails decides the error. */
  lemma ParseStages(lines: seq<string>)
    ensures var sc := Scan(lines);
      && (sc.Failure? ==> ParseLines(lines) == Failure(sc.error))
      && (sc.Success? && sc.value == [] ==> ParseLines(lines) == Success([]))
      && (sc.Success? && sc.value != [] && CheckAlternation(sc.value, 0).Some? ==>
            ParseLines(lines) == Failure(CheckAlternation(sc.value, 0).value))
      && (sc.Success? && sc.value != [] && CheckAlternation(sc.value, 0) == None && CheckNames(sc.value, 1).Some? ==>
            ParseLines(lines) == Failure(CheckNames(sc.value, 1).value))
      && (sc.Success? && sc.value != [] && CheckAlternation(sc.value, 0) == None && CheckNames(sc.value, 1) == None ==>
            var rs := sc.value;
            if |rs| % 2 != 0 then ParseLines(lines) == Failure(Unterminated(rs[|rs| - 1].line + 1))
            else Spans(lines, rs) && ParseLines(lines) == Success(Build(lines, rs)))
  {
    if Scan(lines).Success? && CheckAlternation(Scan(lines).value, 0) == None {
      ScanSpec(lines);
      AlternationSpec(Scan(lines).value, 0);
      PairSpans(lines, Scan(lines).value);
    }
  }

  // ---------------------------------------------------------------------------
  // Reading lines

  /** The three ways `ScanLine` reads a line, stated by the line's fields:
      marker keywords match in any case, a marker line with more than three
      fields is fatal, one with exactly three is a record, and every other
      line is ignored. */
  lemma ScanLineCases(raw: string, i: nat)
    ensures var fs := Fields(TrimSpace(raw));
      && (ScanLine(raw, i).Ignored? <==> !IsMarkerLine(raw) || |fs| == 2)
      && (ScanLine(raw, i).Malformed? <==> IsMarkerLine(raw) && |fs| > 3)
      && (ScanLine(raw, i).Marker? <==> IsMarkerLine(raw) && |fs| == 3)
      && (ScanLine(raw, i).Marker? ==>
            var start := ToLower(fs[1]) == StartName;
            ScanLine(raw, i).record == Record(if start then Start else End, if start then i + 1 else i, fs[2]))
  {
  }

  /** Every reading carries the position of its own line. */
  ghost predicate Placed(cls: seq<Scanned>) {
    forall m :: 0 <= m < |cls| ==>
      && (cls[m].Marker? ==> MarkerLine(cls[m].record) == m)
      && (cls[m].Malformed? ==> cls[m].error == MalformedName(m + 1))
  }

  lemma ReadsPlaced(lines: seq<string>)
    ensures Placed(Reads(lines))
  {
    forall m | 0 <= m < |lines|
      ensures Reads(lines)[m].Marker? ==> MarkerLine(Reads(lines)[m].record) == m
      ensures Reads(lines)[m].Malformed? ==> Reads(lines)[m].error == MalformedName(m + 1)
    {
      ReadsAt(lines, m);
    }
  }

  /** Records lie on distinct lines below `n`, in the order of those lines. */
  ghost predicate Positioned(rs: seq<Record>, n: int) {
    && (forall j :: 0 <= j < |rs| ==> 0 <= MarkerLine(rs[j]) < n)
    && (forall j, k :: 0 <= j < k < |rs| ==> MarkerLine(rs[j]) < MarkerLine(rs[k]))
  }

  /** Each record is what its own line reads as. */
  ghost predicate FromLines(cls: seq<Scanned>, rs: seq<Record>) {
    forall j :: 0 <= j < |rs| ==>
      0 <= MarkerLine(rs[j]) < |cls| && cls[MarkerLine(rs[j])] == Marker(rs[j])
  }

  /** Every marker line below `n` has its record. */
  ghost predicate CoversMarkers(cls: seq<Scanned>, rs: seq<Record>, n: int)
    requires n <= |cls|
  {
    forall m :: 0 <= m < n && cls[m].Marker? ==>
      exists j :: 0 <= j < |rs| && MarkerLine(rs[j]) == m
  }

  /** No line below `n` is fatal. */
  ghost predicate NoMalformedBefore(cls: seq<Scanned>, n: int)
    requires n <= |cls|
  {
    forall m :: 0 <= m < n ==> !cls[m].Malformed?
  }

  /** Reading a marker line keeps the scan's invariant. */
  lemma ScanStep(cls: seq<Scanned>, i: nat, acc: seq<Record>)
    requires Placed(cls) && i < |cls| && cls[i].Marker?
    requires Positioned(acc, i) && FromLines(cls, acc)
    requires CoversMarkers(cls, acc, i) && NoMalformedBefore(cls, i)
    ensures Positioned(acc + [cls[i].record], i + 1)
    ensures FromLines(cls, acc + [cls[i].record])
    ensures CoversMarkers(cls, acc + [cls[i].record], i + 1)
    ensures NoMalformedBefore(cls, i + 1)
  {
    var r := cls[i].record;
    var acc' := acc + [r];
    assert forall j :: 0 <= j < |acc| ==> acc'[j] == acc[j];
    assert acc'[|acc|] == r;
    forall m | 0 <= m < i + 1 && cls[m].Marker?
      ensures exists j :: 0 <= j < |acc'| && MarkerLine(acc'[j]) == m
    {
      if m == i {
        assert MarkerLine(acc'[|acc|]) == m;
      } else {
        var j :| 0 <= j < |acc| && MarkerLine(acc[j]) == m;
        assert MarkerLine(acc'[j]) == m;
      }
    }
  }

  /** Scanning succeeds exactly when no line is fatal, and then yields the
      records of all marker lines in line order; otherwise it fails with the
      first fatal line. */
  lemma {:induction false} ScanFromSpec(cls: seq<Scanned>, i: nat, acc: seq<Record>)
    requires Placed(cls) && i <= |cls|
    requires Positioned(acc, i) && FromLines(cls, acc)
    requires CoversMarkers(cls, acc, i) && NoMalformedBefore(cls, i)
    ensures ScanFrom(cls, i, acc).Success? <==> NoMalformedBefore(cls, |cls|)
    ensures ScanFrom(cls, i, acc).Success? ==>
      var rs := ScanFrom(cls, i, acc).value;
      Positioned(rs, |cls|) && FromLines(cls, rs) && CoversMarkers(cls, rs, |cls|)
    ensures ScanFrom(cls, i, acc).Failure? ==>
      var e := ScanFrom(cls, i, acc).error;
      && e.MalformedName? && i < e.line <= |cls|
      && cls[e.line - 1].Malformed?
      && NoMalformedBefore(cls, e.line - 1)
    decreases |cls| - i
  {
    if i < |cls| {
      match cls[i]
      case Malformed(e) =>
      case Ignored =>
        ScanFromSpec(cls, i + 1, acc);
      case Marker(r) =>
        ScanStep(cls, i, acc);
        ScanFromSpec(cls, i + 1, acc + [r]);
    }
  }

  /** The records of a file: `Scan` succeeds exactly when no line is fatal,
      and then its records are those of the file's marker lines, one per
      marker line, in line order; otherwise it reports the first fatal line. */
  lemma ScanSpec(lines: seq<string>)
    ensures Scan(lines).Success? <==> NoMalformedBefore(Reads(lines), |lines|)
    ensures Scan(lines).Success? ==>
      var rs := Scan(lines).value;
      Positioned(rs, |lines|) && FromLines(Reads(lines), rs) && CoversMarkers(Reads(lines), rs, |lines|)
    ensures Scan(lines).Failure? ==>
      var e := Scan(lines).error;
      && e.MalformedName? && 0 < e.line <= |lines|
      && Reads(lines)[e.line - 1].Malformed?
      && NoMalformedBefore(Reads(lines), e.line - 1)
  {
    ReadsPlaced(lines);
    ScanFromSpec(Reads(lines), 0, []);
  }

  /** Lines that read as ignored add nothing to the scan. */
  lemma {:induction false} IgnoredRun(cls: seq<Scanned>, i: nat, j: nat, acc: seq<Record>)
    requires i <= j <= |cls|
    requires forall m :: i <= m < j ==> cls[m].Ignored?
    ensures ScanFrom(cls, i, acc) == ScanFrom(cls, j, acc)
    decreases j - i
  {
    if i < j {
      IgnoredRun(cls, i + 1, j, acc);
    }
  }

  /** The scan stops at the first fatal line with that line's error. */
  lemma {:induction false} ScanToFatal(cls: seq<Scanned>, i: nat, m: nat, acc: seq<Record>)
    requires i <= m < |cls| && cls[m].Malformed?
    requires forall m' :: i <= m' < m ==> !cls[m'].Malformed?
    ensures ScanFrom(cls, i, acc) == Failure(cls[m].error)
    decreases m - i
  {
    if i < m {
      match cls[i]
      case Ignored => ScanToFatal(cls, i + 1, m, acc);
      case Marker(r) => ScanToFatal(cls, i + 1, m, acc + [r]);
    }
  }

  // ---------------------------------------------------------------------------
  // Validation

  /** From position `i` on, records alternate start, end, start, ... */
  ghost predicate AlternatesFrom(rs: seq<Record>, i: int) {
    forall j :: i <= j < |rs| && 0 <= j ==> rs[j].s == Expected(j)
  }

  /** The alternation check passes exactly when the records alternate, and
      otherwise reports the 1-based position of the first record out of turn:
      `NotStart` when a start was due, `NotEnd` when an end was due. */
  lemma {:induction false} AlternationSpec(rs: seq<Record>, i: nat)
    requires i <= |rs|
    ensures CheckAlternation(rs, i) == None <==> AlternatesFrom(rs, i)
    ensures CheckAlternation(rs, i) != None ==>
      var e := CheckAlternation(rs, i).value;
      && (e.NotStart? || e.NotEnd?)
      && i < e.index <= |rs|
      && rs[e.index - 1].s != Expected(e.index - 1)
      && (e.NotStart? <==> Expected(e.index - 1) == Start)
      && (forall j :: i <= j < e.index - 1 ==> rs[j].s == Expected(j))
    decreases |rs| - i
  {
    if i < |rs| {
      AlternationSpec(rs, i + 1);
    }
  }

  /** Pairs `k0..` have start and end names equal up to case. */
  ghost predicate NamesAgreeFrom(rs: seq<Record>, k0: int) {
    forall k :: 0 <= k0 <= k && 2 * k + 1 < |rs| ==> SameName(StartOf(rs, k), EndOf(rs, k))
  }

  /** Pair `k` is the first disagreeing one from pair `k0` on. */
  ghost predicate FirstMismatch(rs: seq<Record>, k0: int, k: int)
    requires 0 <= k0 <= k && 2 * k + 1 < |rs|
  {
    !SameName(StartOf(rs, k), EndOf(rs, k)) &&
    forall k' :: k0 <= k' < k ==> SameName(StartOf(rs, k'), EndOf(rs, k'))
  }

  /** The name check passes exactly when every pair agrees up to case, and
      otherwise reports the first disagreeing pair. An unpaired last record is
      not looked at. */
  lemma NamesSpec(rs: seq<Record>, k0: nat)
    ensures CheckNames(rs, 2 * k0 + 1) == None <==> NamesAgreeFrom(rs, k0)
    ensures CheckNames(rs, 2 * k0 + 1) != None ==>
      exists k :: k0 <= k && 2 * k + 1 < |rs| && FirstMismatch(rs, k0, k) &&
        CheckNames(rs, 2 * k0 + 1).value == Mismatch(StartOf(rs, k), EndOf(rs, k))
  {
    NamesAgree(rs, k0);
    if CheckNames(rs, 2 * k0 + 1) != None {
      var k := NamesFirst(rs, k0);
    }
  }

  /** The name check passes exactly when every pair from `k0` on agrees. */
  lemma {:induction false} NamesAgree(rs: seq<Record>, k0: nat)
    ensures CheckNames(rs, 2 * k0 + 1) == None <==> NamesAgreeFrom(rs, k0)
    decreases |rs| - 2 * k0
  {
    var i := 2 * k0 + 1;
    if i < |rs| {
      assert StartOf(rs, k0) == rs[i - 1] && EndOf(rs, k0) == rs[i];
      assert 2 * (k0 + 1) + 1 == i + 2;
      NamesAgree(rs, k0 + 1);
    }
  }

  /** A failing name check reports the first disagreeing pair from `k0` on. */
  lemma {:induction false} NamesFirst(rs: seq<Record>, k0: nat) returns (k: nat)
    requires CheckNames(rs, 2 * k0 + 1) != None
    ensures k0 <= k && 2 * k + 1 < |rs| && FirstMismatch(rs, k0, k)
    ensures CheckNames(rs, 2 * k0 + 1).value == Mismatch(StartOf(rs, k), EndOf(rs, k))
    decreases |rs| - 2 * k0
  {
    var i := 2 * k0 + 1;
    assert StartOf(rs, k0) == rs[i - 1] && EndOf(rs, k0) == rs[i];
    if !SameName(rs[i - 1], rs[i]) {
      k := k0;
    } else {
      assert 2 * (k0 + 1) + 1 == i + 2;
      k := NamesFirst(rs, k0 + 1);
      assert SameName(StartOf(rs, k0), EndOf(rs, k0));
    }
  }

  /** Marker lines in order and alternating records give every pair a body
      strictly between its two marker lines, and bodies of later pairs lie
      after those of earlier ones. */
  lemma PairSpans(lines: seq<string>, rs: seq<Record>)
    requires Positioned(rs, |lines|) && AlternatesFrom(rs, 0)
    ensures Spans(lines, rs)
    ensures forall k :: 0 <= k && 2 * k + 1 < |rs| ==>
      StartOf(rs, k).line == MarkerLine(StartOf(rs, k)) + 1 && EndOf(rs, k).line == MarkerLine(EndOf(rs, k))
    ensures forall k, k' :: 0 <= k < k' && 2 * k' + 1 < |rs| ==> EndOf(rs, k).line < StartOf(rs, k').line
  {
    forall k | 0 <= k && 2 * k + 1 < |rs|
      ensures StartOf(rs, k).s == Start && EndOf(rs, k).s == End
    {
      assert Expected(2 * k) == Start && Expected(2 * k + 1) == End;
    }
    forall k, k' | 0 <= k < k' && 2 * k' + 1 < |rs|
      ensures EndOf(rs, k).line < StartOf(rs, k').line
    {
      assert MarkerLine(rs[2 * k + 1]) < MarkerLine(rs[2 * k']);
    }
  }

  // ---------------------------------------------------------------------------
  // Outcomes

  /** A marker line with more than three fields: the one fatal kind of line. */
  predicate Overlong(raw: string) {
    IsMarkerLine(raw) && |Fields(TrimSpace(raw))| > 3
  }

  /** A line that is neither a record nor fatal: ordinary text, or a marker
      keyword without a name. */
  predicate Ordinary(raw: string) {
    !IsMarkerLine(raw) || |Fields(TrimSpace(raw))| == 2
  }

  /** The readings of lines, restated by the line predicates. */
  lemma ReadsCases(lines: seq<string>)
    ensures forall m :: 0 <= m < |lines| ==>
      && (Reads(lines)[m].Malformed? <==> Overlong(lines[m]))
      && (Reads(lines)[m].Ignored? <==> Ordinary(lines[m]))
  {
    forall m | 0 <= m < |lines|
      ensures Reads(lines)[m].Malformed? <==> Overlong(lines[m])
      ensures Reads(lines)[m].Ignored? <==> Ordinary(lines[m])
    {
      ReadsAt(lines, m);
      ScanLineCases(lines[m], m);
    }
  }

  /** Records that pass all three checks: none at all, or pairs of a start
      and an end with names equal up to case. */
  ghost predicate Balanced(rs: seq<Record>) {
    rs == [] || (AlternatesFrom(rs, 0) && NamesAgreeFrom(rs, 0) && |rs| % 2 == 0)
  }

  /** A file is accepted exactly when no line is fatal and its records are balanced. */
  lemma ParseAccepts(lines: seq<string>)
    ensures ParseLines(lines).Success? <==>
      (forall m :: 0 <= m < |lines| ==> !Overlong(lines[m])) &&
      Scan(lines).Success? && Balanced(Scan(lines).value)
  {
    ParseStages(lines);
    ScanSpec(lines);
    ReadsCases(lines);
    if Scan(lines).Success? {
      var rs := Scan(lines).value;
      AlternationSpec(rs, 0);
      NamesSpec(rs, 0);
    }
  }

  /** The first over-long marker line aborts the parse, cited by its 1-based number. */
  lemma FirstOverlong(lines: seq<string>, m: int)
    requires 0 <= m < |lines| && Overlong(lines[m])
    requires forall m' :: 0 <= m' < m ==> !Overlong(lines[m'])
    ensures ParseLines(lines) == Failure(MalformedName(m + 1))
  {
    forall m' | 0 <= m' < m ensures !Reads(lines)[m'].Malformed? {
      ReadsAt(lines, m');
      ScanLineCases(lines[m'], m');
    }
    ReadsAt(lines, m);
    ScanLineCases(lines[m], m);
    ScanToFatal(Reads(lines), 0, m, []);
    assert Scan(lines) == Failure(MalformedName(m + 1));
  }

  /** Without over-long marker lines the scan succeeds, and no failure is
      `MalformedName`. */
  lemma NoOverlong(lines: seq<string>)
    requires forall m :: 0 <= m < |lines| ==> !Overlong(lines[m])
    ensures Scan(lines).Success?
    ensures ParseLines(lines).Failure? ==> !ParseLines(lines).error.MalformedName?
  {
    ScanSpec(lines);
    ReadsCases(lines);
    ParseStages(lines);
    var rs := Scan(lines).value;
    if rs != [] {
      AlternationSpec(rs, 0);
      NamesSpec(rs, 0);
    }
  }

  /** Error `e` names the first record out of turn: its 1-based position, as
      `NotStart` when a start was due there and `NotEnd` when an end was. */
  ghost predicate OutOfTurn(rs: seq<Record>, e: Err) {
    && (e.NotStart? || e.NotEnd?)
    && 0 < e.index <= |rs|
    && rs[e.index - 1].s != Expected(e.index - 1)
    && (e.NotStart? <==> Expected(e.index - 1) == Start)
    && (forall j :: 0 <= j < e.index - 1 ==> rs[j].s == Expected(j))
  }

  /** The checks in their fixed order: alternation first, then names, then
      the count. Records out of turn fail with the first of them; alternating
      records whose names disagree fail with the first disagreeing pair;
      alternating, agreeing records of odd count fail at the last record,
      which is an unclosed start. */
  lemma CheckPrecedence(lines: seq<string>)
    requires Scan(lines).Success? && Scan(lines).value != []
    ensures var rs := Scan(lines).value;
      && (!AlternatesFrom(rs, 0) ==>
            ParseLines(lines).Failure? && OutOfTurn(rs, ParseLines(lines).error))
      && (AlternatesFrom(rs, 0) && !NamesAgreeFrom(rs, 0) ==>
            exists k :: 0 <= k && 2 * k + 1 < |rs| && FirstMismatch(rs, 0, k) &&
              ParseLines(lines) == Failure(NameMismatch(StartOf(rs, k).line + 1, StartOf(rs, k).name,
                                                        EndOf(rs, k).line + 1, EndOf(rs, k).name)))
      && (AlternatesFrom(rs, 0) && NamesAgreeFrom(rs, 0) && |rs| % 2 != 0 ==>
            rs[|rs| - 1].s == Start && ParseLines(lines) == Failure(Unterminated(rs[|rs| - 1].line + 1)))
  {
    AlternationFails(lines);
    NamesFail(lines);
    CountFails(lines);
  }

  /** Records out of turn fail with the first of them. */
  lemma AlternationFails(lines: seq<string>)
    requires Scan(lines).Success? && Scan(lines).value != []
    ensures !AlternatesFrom(Scan(lines).value, 0) ==>
      ParseLines(lines).Failure? && OutOfTurn(Scan(lines).value, ParseLines(lines).error)
  {
    ParseStages(lines);
    AlternationSpec(Scan(lines).value, 0);
  }

  /** Alternating records with disagreeing names fail with the first such pair. */
  lemma NamesFail(lines: seq<string>)
    requires Scan(lines).Success? && Scan(lines).value != []
    ensures var rs := Scan(lines).value;
      AlternatesFrom(rs, 0) && !NamesAgreeFrom(rs, 0) ==>
        exists k :: 0 <= k && 2 * k + 1 < |rs| && FirstMismatch(rs, 0, k) &&
          ParseLines(lines) == Failure(NameMismatch(StartOf(rs, k).line + 1, StartOf(rs, k).name,
                                                    EndOf(rs, k).line + 1, EndOf(rs, k).name))
  {
    var rs := Scan(lines).value;
    if AlternatesFrom(rs, 0) && !NamesAgreeFrom(rs, 0) {
      ParseStages(lines);
      AlternationSpec(rs, 0);
      NamesAgree(rs, 0);
      var k := NamesFirst(rs, 0);
      assert ParseLines(lines) == Failure(Mismatch(StartOf(rs, k), EndOf(rs, k)));
    }
  }

  /** Alternating, agreeing records of odd count end with an unclosed start. */
  lemma CountFails(lines: seq<string>)
    requires Scan(lines).Success? && Scan(lines).value != []
    ensures var rs := Scan(lines).value;
      AlternatesFrom(rs, 0) && NamesAgreeFrom(rs, 0) && |rs| % 2 != 0 ==>
        rs[|rs| - 1].s == Start && ParseLines(lines) == Failure(Unterminated(rs[|rs| - 1].line + 1))
  {
    var rs := Scan(lines).value;
    ParseStages(lines);
    AlternationSpec(rs, 0);
    NamesAgree(rs, 0);
    if AlternatesFrom(rs, 0) {
      assert rs[|rs| - 1].s == Expected(|rs| - 1);
    }
  }

  /** A file without marker lines holds no snippets and no error. */
  lemma NoMarkersNoError(lines: seq<string>)
    requires forall m :: 0 <= m < |lines| ==> !IsMarkerLine(lines[m])
    ensures ParseLines(lines) == Success([])
  {
    forall m | 0 <= m < |lines| ensures Reads(lines)[m].Ignored? {
      ReadsAt(lines, m);
      ScanLineCases(lines[m], m);
    }
    IgnoredRun(Reads(lines), 0, |lines|, []);
    assert Scan(lines) == Success([]);
  }

  /** On success the records are balanced and the snippets are built from them. */
  lemma ParseSuccessStages(lines: seq<string>)
    requires ParseLines(lines).Success?
    ensures Scan(lines).Success?
    ensures var rs := Scan(lines).value;
      && Balanced(rs) && Spans(lines, rs) && ParseLines(lines).value == Build(lines, rs)
  {
    ParseStages(lines);
    if Scan(lines).Success? {
      var rs := Scan(lines).value;
      if rs != [] {
        AlternationSpec(rs, 0);
        NamesSpec(rs, 0);
      }
    }
  }

  /** Snippet `s` is framed by the start marker on line `a` and the end
      marker on line `b` of `lines` (read as `cls`), with only ignored lines
      between, and its code is those lines trimmed. */
  ghost predicate FramedBy(lines: seq<string>, cls: seq<Scanned>, s: Snippet, a: int, b: int) {
    && 0 <= a < b < |lines| && |cls| == |lines|
    && cls[a] == Marker(Record(Start, a + 1, s.name))
    && cls[b].Marker? && cls[b].record.s == End
    && SameName(cls[a].record, cls[b].record)
    && (forall m :: a < m < b ==> cls[m].Ignored?)
    && s.code == TrimAll(lines[a + 1..b])
  }

  /** The records of a scan without fatal lines, once balanced, frame each
      built snippet between the marker lines of its pair. */
  lemma PairFramed(lines: seq<string>, cls: seq<Scanned>, rs: seq<Record>, k: int)
    requires |cls| == |lines| && NoMalformedBefore(cls, |lines|)
    requires Positioned(rs, |lines|) && FromLines(cls, rs) && CoversMarkers(cls, rs, |lines|)
    requires AlternatesFrom(rs, 0) && NamesAgreeFrom(rs, 0)
    requires 0 <= k && 2 * k + 1 < |rs|
    ensures Spans(lines, rs)
    ensures FramedBy(lines, cls, Build(lines, rs)[k], MarkerLine(StartOf(rs, k)), MarkerLine(EndOf(rs, k)))
  {
    PairSpans(lines, rs);
    var a, b := MarkerLine(StartOf(rs, k)), MarkerLine(EndOf(rs, k));
    assert Expected(2 * k) == Start && Expected(2 * k + 1) == End;
    assert cls[a] == Marker(rs[2 * k]) && cls[b] == Marker(rs[2 * k + 1]);
    forall m | a < m < b ensures cls[m].Ignored? {
      forall j | 0 <= j < |rs| ensures MarkerLine(rs[j]) != m {
        if j <= 2 * k {
          assert MarkerLine(rs[j]) <= MarkerLine(rs[2 * k]);
        } else {
          assert MarkerLine(rs[2 * k + 1]) <= MarkerLine(rs[j]);
        }
      }
    }
  }

  /** With an even number of records, every marker line is the start or the end of a pair. */
  lemma MarkersPaired(cls: seq<Scanned>, rs: seq<Record>, n: int)
    requires n <= |cls| && CoversMarkers(cls, rs, n) && |rs| % 2 == 0
    ensures forall m :: 0 <= m < n && cls[m].Marker? ==>
      exists k :: 0 <= k && 2 * k + 1 < |rs| && (m == MarkerLine(StartOf(rs, k)) || m == MarkerLine(EndOf(rs, k)))
  {
    forall m | 0 <= m < n && cls[m].Marker?
      ensures exists k :: 0 <= k && 2 * k + 1 < |rs| && (m == MarkerLine(StartOf(rs, k)) || m == MarkerLine(EndOf(rs, k)))
    {
      var j :| 0 <= j < |rs| && MarkerLine(rs[j]) == m;
      var k := j / 2;
      assert 2 * k + 1 < |rs|;
      assert m == MarkerLine(StartOf(rs, k)) || m == MarkerLine(EndOf(rs, k));
    }
  }

  /** On success there is one snippet per pair of marker records, each
      framed by its own pair of marker lines, the pairs in line order, and
      every marker line frames some snippet. */
  lemma ParsedSnippets(lines: seq<string>)
    requires ParseLines(lines).Success?
    ensures Scan(lines).Success? &&
      var rs := Scan(lines).value; var sn := ParseLines(lines).value;
      && 2 * |sn| == |rs|
      && (forall k :: 0 <= k < |sn| ==>
            FramedBy(lines, Reads(lines), sn[k], MarkerLine(StartOf(rs, k)), MarkerLine(EndOf(rs, k))))
      && (forall k, k' :: 0 <= k < k' < |sn| ==> MarkerLine(EndOf(rs, k)) < MarkerLine(StartOf(rs, k')))
      && (forall m :: 0 <= m < |lines| && Reads(lines)[m].Marker? ==>
            exists k :: 0 <= k < |sn| && (m == MarkerLine(StartOf(rs, k)) || m == MarkerLine(EndOf(rs, k))))
  {
    ParseSuccessStages(lines);
    ScanSpec(lines);
    var rs := Scan(lines).value;
    var sn := ParseLines(lines).value;
    if rs != [] {
      PairSpans(lines, rs);
    }
    forall k | 0 <= k < |sn|
      ensures FramedBy(lines, Reads(lines), sn[k], MarkerLine(StartOf(rs, k)), MarkerLine(EndOf(rs, k)))
    {
      PairFramed(lines, Reads(lines), rs, k);
    }
    MarkersPaired(Reads(lines), rs, |lines|);
  }

  /** Lines without carriage returns or line feeds, as those of every file are. */
  ghost predicate Clean(lines: seq<string>) {
    forall m :: 0 <= m < |lines| ==> '\r' !in lines[m] && '\n' !in lines[m]
  }

  /** No line of a file holds a carriage return or a line feed. */
  lemma LinesClean(text: string)
    ensures Clean(Lines(text))
  {
  }

  /** A trimmed clean line that reads as ignored is plain code: trimmed,
      still clean, and still ordinary. */
  lemma CodeLinePlain(raw: string, m: nat)
    requires '\r' !in raw && '\n' !in raw && ScanLine(raw, m).Ignored?
    ensures var c := TrimSpace(raw);
      IsTrimmed(c) && '\r' !in c && '\n' !in c && Ordinary(c)
  {
    TrimSpaceSpec(raw);
    TrimSpaceChars(raw, '\r');
    TrimSpaceChars(raw, '\n');
    TrimSpaceFixes(TrimSpace(raw));
    ScanLineCases(raw, m);
  }

  /** The name of a record is one token. */
  lemma MarkerNameToken(raw: string, i: nat)
    requires ScanLine(raw, i).Marker?
    ensures IsToken(ScanLine(raw, i).record.name)
  {
    FieldsTokens(TrimSpace(raw));
    ScanLineCases(raw, i);
  }

  /** Parsed code is plain: each line trimmed, free of carriage returns and
      line feeds, and ordinary; each name is one token. */
  lemma ParsedCodePlain(lines: seq<string>)
    requires Clean(lines) && ParseLines(lines).Success?
    ensures var sn := ParseLines(lines).value;
      forall k :: 0 <= k < |sn| ==>
        && IsToken(sn[k].name)
        && forall j :: 0 <= j < |sn[k].code| ==>
             var c := sn[k].code[j];
             IsTrimmed(c) && '\r' !in c && '\n' !in c && Ordinary(c)
  {
    var sn := ParseLines(lines).value;
    ParsedSnippets(lines);
    var rs := Scan(lines).value;
    forall k | 0 <= k < |sn|
      ensures IsToken(sn[k].name)
      ensures forall j :: 0 <= j < |sn[k].code| ==>
        var c := sn[k].code[j];
        IsTrimmed(c) && '\r' !in c && '\n' !in c && Ordinary(c)
    {
      SnippetPlain(lines, sn[k], MarkerLine(StartOf(rs, k)), MarkerLine(EndOf(rs, k)));
    }
  }

  /** One snippet framed by markers of clean lines has a one-token name and plain code. */
  lemma SnippetPlain(lines: seq<string>, s: Snippet, a: int, b: int)
    requires Clean(lines) && FramedBy(lines, Reads(lines), s, a, b)
    ensures IsToken(s.name)
    ensures forall j :: 0 <= j < |s.code| ==>
      var c := s.code[j];
      IsTrimmed(c) && '\r' !in c && '\n' !in c && Ordinary(c)
  {
    ReadsAt(lines, a);
    MarkerNameToken(lines[a], a);
    forall j | 0 <= j < |s.code|
      ensures var c := s.code[j];
        IsTrimmed(c) && '\r' !in c && '\n' !in c && Ordinary(c)
    {
      FramedCodeLine(lines, s, a, b, j);
    }
  }

  /** Code line `j` of a framed snippet is the trimming of an ignored line. */
  lemma FramedCodeLine(lines: seq<string>, s: Snippet, a: int, b: int, j: int)
    requires Clean(lines) && FramedBy(lines, Reads(lines), s, a, b) && 0 <= j < |s.code|
    ensures var c := s.code[j];
      IsTrimmed(c) && '\r' !in c && '\n' !in c && Ordinary(c)
  {
    var m := a + 1 + j;
    assert lines[a + 1..b][j] == lines[m];
    assert Reads(lines)[m].Ignored?;
    ReadsAt(lines, m);
    CodeLinePlain(lines[m], m);
  }

  // ---------------------------------------------------------------------------
  // Rendering

  /** A first line, lines of code and a last line, each ended by a line feed,
      are the join of those lines and a final empty one. */
  lemma JoinFramed(first: string, body: seq<string>, last: string)
    requires body != []
    ensures Join([first] + body + [last, ""], '\n') == first + "\n" + Join(body, '\n') + "\n" + last + "\n"
  {
    var tail := [last, ""];
    assert Join(tail, '\n') == last + "\n" by {
      assert tail[1..] == [""];
    }
    JoinAppend(body, tail, '\n');
    JoinAppend([first], body + tail, '\n');
    assert [first] + body + tail == [first] + (body + tail);
    calc {
      Join([first] + body + tail, '\n');
      first + "\n" + (Join(body, '\n') + "\n" + (last + "\n"));
      first + "\n" + Join(body, '\n') + "\n" + last + "\n";
    }
  }

  /** The text of a framed body splits back into its lines when none of them
      holds a line feed; an empty body reads as one empty line. */
  lemma FramedLines(first: string, code: seq<string>, last: string)
    ensures ('\n' !in first && '\n' !in last && forall j :: 0 <= j < |code| ==> '\n' !in code[j]) ==>
      Split(first + "\n" + Join(code, '\n') + "\n" + last + "\n", '\n')
        == [first] + (if code == [] then [""] else code) + [last, ""]
  {
    if '\n' !in first && '\n' !in last && forall j :: 0 <= j < |code| ==> '\n' !in code[j] {
      var body := if code == [] then [""] else code;
      assert Join(body, '\n') == Join(code, '\n');
      JoinFramed(first, body, last);
      var lines := [first] + body + [last, ""];
      forall j | 0 <= j < |lines| ensures '\n' !in lines[j] {
        if 0 < j <= |body| {
          assert lines[j] == body[j - 1];
        }
      }
      SplitJoin(lines, '\n');
    }
  }
}
