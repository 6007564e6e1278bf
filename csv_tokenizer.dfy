/**
 * `parseCSV` of `src/lib/broker-parsers.js`: the text is trimmed and split on
 * `\n`; the first line is the header, split on every comma; each later line is
 * split by a quote-aware scanner in which `"` only toggles the quoted state and
 * is never copied into a value, and a comma outside quotes ends a value.
 *
 * The scanner is specified by Segments: a comma is a separator exactly when an
 * even number of `"` precedes it on the line.
 */
module CsvTokenizer {
  import opened Js

  /** A parsed row: header name to cell value (the JavaScript object `row`). */
  type Row = map<string, string>

  datatype Csv = Csv(headers: seq<string>, rows: seq<Row>)

  /** After scanning `s`, the scanner is inside quotes: `s` holds an odd number of `"`. */
  predicate InQuotes(s: string) {
    Count(s, '"') % 2 == 1
  }

  /** `s` with every `"` dropped. */
  function Unquote(s: string): string {
    if s == [] then ""
    else Unquote(s[..|s| - 1]) + (if s[|s| - 1] == '"' then "" else [s[|s| - 1]])
  }

  lemma {:induction false} UnquoteNoQuote(s: string)
    ensures '"' !in Unquote(s)
    decreases |s|
  {
    if s != [] {
      UnquoteNoQuote(s[..|s| - 1]);
    }
  }

  lemma {:induction false} UnquoteAppend(a: string, b: string)
    ensures Unquote(a + b) == Unquote(a) + Unquote(b)
    decreases |b|
  {
    if b == [] {
      assert a + b == a;
    } else {
      assert (a + b)[..|a + b| - 1] == a + b[..|b| - 1];
      UnquoteAppend(a, b[..|b| - 1]);
    }
  }

  /** The number of separating commas in `s`. */
  function Separators(s: string): nat {
    if s == [] then 0
    else Separators(s[..|s| - 1]) + (if s[|s| - 1] == ',' && !InQuotes(s[..|s| - 1]) then 1 else 0)
  }

  /** One scanner step on the raw pieces: a separating comma opens a new piece, anything else extends the last. */
  function NextSegments(segs: seq<string>, c: char, inQuotes: bool): seq<string>
    requires |segs| >= 1
  {
    if c == ',' && !inQuotes then segs + [""]
    else segs[..|segs| - 1] + [segs[|segs| - 1] + [c]]
  }

  /** The raw pieces of a line between separating commas, quotes still in place. */
  function Segments(s: string): (r: seq<string>)
    ensures |r| >= 1
  {
    if s == [] then [""]
    else NextSegments(Segments(s[..|s| - 1]), s[|s| - 1], InQuotes(s[..|s| - 1]))
  }

  lemma {:induction false} SegmentsLength(s: string)
    ensures |Segments(s)| == Separators(s) + 1
    decreases |s|
  {
    if s != [] {
      SegmentsLength(s[..|s| - 1]);
    }
  }

  /** One value as the scanner pushes it: quotes dropped, then trimmed. */
  function CleanField(segment: string): string {
    Trim(Unquote(segment))
  }

  /** The values of one data line. */
  function SplitRow(line: string): (values: seq<string>) {
    var segs := Segments(line);
    seq(|segs|, i requires 0 <= i < |segs| => CleanField(segs[i]))
  }

  /**
   * What the scanner promises: one value more than there are separating commas,
   * no value holds a `"`, every value is trimmed, and the raw pieces joined
   * with commas give the line back (so a comma inside quotes stays in its value).
   */
  lemma SplitRowShape(line: string)
    ensures |SplitRow(line)| == Separators(line) + 1
    ensures forall i :: 0 <= i < |SplitRow(line)| ==> '"' !in SplitRow(line)[i]
    ensures forall i :: 0 <= i < |SplitRow(line)| ==> Trimmed(SplitRow(line)[i])
    ensures Join(Segments(line), ",") == line
  {
    var values := SplitRow(line);
    forall i | 0 <= i < |values|
      ensures '"' !in values[i] && Trimmed(values[i])
    {
      var u := Unquote(Segments(line)[i]);
      UnquoteNoQuote(Segments(line)[i]);
      TrimIsTrimmed(u);
      TrimSubstring(u);
    }
    SegmentsJoin(line);
    SegmentsLength(line);
  }

  lemma {:induction false} SegmentsJoin(s: string)
    ensures Join(Segments(s), ",") == s
    decreases |s|
  {
    if s != [] {
      var init := s[..|s| - 1];
      var c := s[|s| - 1];
      var p := Segments(init);
      SegmentsJoin(init);
      assert s == init + [c];
      if c == ',' && !InQuotes(init) {
        assert Segments(s) == p + [""];
        JoinSnocEmpty(p, ",");
        assert Join(p, ",") + "," == s;
      } else {
        assert Segments(s) == p[..|p| - 1] + [p[|p| - 1] + [c]];
        JoinLastAppend(p, ',', c);
      }
    }
  }

  /**
   * The row scanner of `parseCSV` (the `for (const ch of line)` loop that mutates
   * `current` and `inQuotes` and pushes to `values`).
   */
  method TokenizeLine(line: string) returns (values: seq<string>)
    ensures values == SplitRow(line)
  {
    values := [];
    var current := "";
    var inQuotes := false;
    var i := 0;
    ghost var segs := [""];
    while i < |line|
      invariant 0 <= i <= |line|
      invariant segs == Segments(line[..i])
      invariant inQuotes == InQuotes(line[..i])
      invariant Scanned(values, current, segs)
    {
      var ch := line[i];
      SegmentsSnoc(line[..i], ch);
      assert line[..i + 1] == line[..i] + [ch];
      values, current, inQuotes := ScanChar(values, current, inQuotes, ch, segs);
      segs := NextSegments(segs, ch, InQuotes(line[..i]));
      i := i + 1;
    }
    values := values + [Trim(current)];
    assert line[..i] == line;
    assert forall j :: 0 <= j < |values| ==> values[j] == CleanField(segs[j]);
  }

  /**
   * The scanner's state against the raw pieces read so far: one value pushed per
   * finished piece, and `current` the last piece with its quotes dropped.
   */
  ghost predicate Scanned(values: seq<string>, current: string, segs: seq<string>) {
    && |values| + 1 == |segs|
    && (forall j :: 0 <= j < |values| ==> values[j] == CleanField(segs[j]))
    && current == Unquote(segs[|values|])
  }

  /** The body of the scanner loop for one character `ch`, against the raw pieces `segs` read so far. */
  method ScanChar(values: seq<string>, current: string, inQuotes: bool, ch: char, ghost segs: seq<string>)
    returns (values': seq<string>, current': string, inQuotes': bool)
    requires Scanned(values, current, segs)
    ensures inQuotes' == (inQuotes != (ch == '"'))
    ensures Scanned(values', current', NextSegments(segs, ch, inQuotes))
  {
    UnquoteSnoc(segs[|segs| - 1], ch);
    values', current', inQuotes' := values, current, inQuotes;
    if ch == '"' {
      inQuotes' := !inQuotes;
      ScannedExtend(values, current, segs, ch);
    } else if ch == ',' && !inQuotes {
      values' := values + [Trim(current)];
      current' := "";
      ScannedSeparator(values, current, segs);
    } else {
      current' := current + [ch];
      ScannedExtend(values, current, segs, ch);
    }
  }

  lemma ScannedExtend(values: seq<string>, current: string, segs: seq<string>, c: char)
    requires Scanned(values, current, segs)
    ensures Scanned(values, Unquote(segs[|segs| - 1] + [c]), segs[..|segs| - 1] + [segs[|segs| - 1] + [c]])
  {
    ExtendLast(segs, c);
  }

  lemma ScannedSeparator(values: seq<string>, current: string, segs: seq<string>)
    requires Scanned(values, current, segs)
    ensures Scanned(values + [Trim(current)], "", segs + [""])
  {
    assert Unquote("") == "";
  }

  /** `"` adds nothing to the unquoted text; any other character is appended. */
  lemma UnquoteSnoc(s: string, c: char)
    ensures c == '"' ==> Unquote(s + [c]) == Unquote(s)
    ensures c != '"' ==> Unquote(s + [c]) == Unquote(s) + [c]
  {
    assert (s + [c])[..|s|] == s;
    assert Unquote(s) + "" == Unquote(s);
  }

  /** Extending the last piece leaves the others alone. */
  lemma ExtendLast(segs: seq<string>, c: char)
    requires |segs| >= 1
    ensures var r := segs[..|segs| - 1] + [segs[|segs| - 1] + [c]];
      && |r| == |segs|
      && (forall j :: 0 <= j < |segs| - 1 ==> r[j] == segs[j])
      && r[|segs| - 1] == segs[|segs| - 1] + [c]
  {
  }

  /** One more character: the scanner's state after `s + [c]` follows from its state after `s`. */
  lemma SegmentsSnoc(s: string, c: char)
    ensures InQuotes(s + [c]) == (InQuotes(s) != (c == '"'))
    ensures Segments(s + [c]) == NextSegments(Segments(s), c, InQuotes(s))
  {
    assert (s + [c])[..|s|] == s;
    CountAppend(s, [c], '"');
    assert [c][..0] == [];
  }

  // ---------------------------------------------------------------------------
  // Facts about Segments used by the export round trip

  lemma QuoteParityAppend(a: string, b: string)
    requires !InQuotes(a)
    ensures InQuotes(a + b) == InQuotes(b)
  {
    CountAppend(a, b, '"');
  }

  lemma NextSegmentsAppend(p: seq<string>, q: seq<string>, c: char, inQuotes: bool)
    requires |q| >= 1
    ensures NextSegments(p + q, c, inQuotes) == p + NextSegments(q, c, inQuotes)
  {
    if !(c == ',' && !inQuotes) {
      assert (p + q)[..|p + q| - 1] == p + q[..|q| - 1];
    }
  }

  /** After a separating comma, the scan of the rest starts a fresh segment list. */
  lemma {:induction false} SegmentsAfterSeparator(a: string, b: string)
    requires !InQuotes(a)
    ensures Segments(a + [','] + b) == Segments(a) + Segments(b)
    decreases |b|
  {
    SegmentsSnoc(a, ',');
    if b == [] {
      assert a + [','] + b == a + [','];
    } else {
      var b' := b[..|b| - 1];
      var c := b[|b| - 1];
      assert a + [','] + b == (a + [','] + b') + [c];
      assert b == b' + [c];
      SegmentsAfterSeparator(a, b');
      QuoteParityAppend(a + [','], b');
      SegmentsSnoc(a + [','] + b', c);
      SegmentsSnoc(b', c);
      NextSegmentsAppend(Segments(a), Segments(b'), c, InQuotes(b'));
    }
  }

  /** A line whose every comma is quoted is one segment. */
  lemma {:induction false} SegmentsSingle(t: string)
    requires forall j :: 0 <= j < |t| && t[j] == ',' ==> InQuotes(t[..j])
    ensures Segments(t) == [t]
    decreases |t|
  {
    if t != [] {
      var init := t[..|t| - 1];
      forall j | 0 <= j < |init| && init[j] == ',' ensures InQuotes(init[..j]) {
        assert init[..j] == t[..j];
      }
      SegmentsSingle(init);
      assert t == init + [t[|t| - 1]];
    }
  }

  // ---------------------------------------------------------------------------
  // Header line and rows

  /** `h.replace(/^"|"$/g, '')`: one leading and one trailing `"` removed. */
  function StripOuterQuotes(h: string): string {
    var a := if |h| > 0 && h[0] == '"' then h[1..] else h;
    if |a| > 0 && a[|a| - 1] == '"' then a[..|a| - 1] else a
  }

  /** One header cell: trimmed, then one leading and one trailing `"` stripped. */
  function HeaderCell(part: string): (h: string)
    ensures forall c :: c in h ==> c in part
  {
    TrimSubstring(part);
    StripOuterQuotes(Trim(part))
  }

  /** The header cells: split on every comma (quotes are not respected). */
  function HeaderCells(line: string): (headers: seq<string>)
    ensures |headers| == Count(line, ',') + 1
    ensures forall i :: 0 <= i < |headers| ==> ',' !in headers[i]
  {
    var parts := Split(line, ',');
    seq(|parts|, i requires 0 <= i < |parts| => HeaderCell(parts[i]))
  }

  /** `values[i] ?? ''`. */
  function ValueAt(values: seq<string>, i: nat): string {
    if i < |values| then values[i] else ""
  }

  /** No later header repeats the one at `i`: its value is the one that survives. */
  predicate LastOccurrence(headers: seq<string>, i: nat)
    requires i < |headers|
  {
    forall j :: i < j < |headers| ==> headers[j] != headers[i]
  }

  /**
   * `headers.forEach((h, i) => { row[h] = values[i] ?? ''; })`: the row has exactly
   * the header keys; a missing trailing value is '', a surplus value is dropped,
   * and of two equal headers the later one wins.
   */
  function MakeRow(headers: seq<string>, values: seq<string>): (row: Row)
    ensures forall h :: h in row <==> h in headers
    ensures forall i :: 0 <= i < |headers| && LastOccurrence(headers, i) ==>
      row[headers[i]] == ValueAt(values, i)
    decreases |headers|
  {
    if headers == [] then map[]
    else
      var n := |headers| - 1;
      var prev := MakeRow(headers[..n], values);
      MakeRowStep(headers, values, prev);
      prev[headers[n] := ValueAt(values, n)]
  }

  /** Assigning the last header's value keeps the row right for all headers. */
  lemma MakeRowStep(headers: seq<string>, values: seq<string>, prev: Row)
    requires |headers| > 0
    requires forall h :: h in prev <==> h in headers[..|headers| - 1]
    requires forall i :: 0 <= i < |headers| - 1 && LastOccurrence(headers[..|headers| - 1], i) ==>
      prev[headers[..|headers| - 1][i]] == ValueAt(values, i)
    ensures var row := prev[headers[|headers| - 1] := ValueAt(values, |headers| - 1)];
      && (forall h :: h in row <==> h in headers)
      && (forall i :: 0 <= i < |headers| && LastOccurrence(headers, i) ==> row[headers[i]] == ValueAt(values, i))
  {
    var n := |headers| - 1;
    var init := headers[..n];
    var row := prev[headers[n] := ValueAt(values, n)];
    assert headers == init + [headers[n]];
    forall i | 0 <= i < |headers| && LastOccurrence(headers, i) ensures row[headers[i]] == ValueAt(values, i) {
      if i < n {
        assert LastOccurrence(init, i);
        assert headers[i] != headers[n];
        assert init[i] == headers[i];
      }
    }
  }

  /** `parseCSV(text)`. */
  function ParseCsv(text: string): (r: Csv)
    ensures Count(Trim(text), '\n') == 0 ==> r == Csv([], [])
    ensures Count(Trim(text), '\n') > 0 ==> |r.rows| == Count(Trim(text), '\n')
    ensures forall i, h :: 0 <= i < |r.rows| ==> (h in r.rows[i] <==> h in r.headers)
    ensures forall i :: 0 <= i < |r.headers| ==> ',' !in r.headers[i]
  {
    var lines := Split(Trim(text), '\n');
    if |lines| < 2 then Csv([], [])
    else
      var headers := HeaderCells(lines[0]);
      Csv(headers, DataRows(headers, lines[1..]))
  }

  /** `lines.slice(1).map(line => ...)`: one row per data line. */
  function DataRows(headers: seq<string>, lines: seq<string>): (rows: seq<Row>)
    ensures |rows| == |lines|
    ensures forall i :: 0 <= i < |lines| ==> rows[i] == MakeRow(headers, SplitRow(lines[i]))
    ensures forall i, h :: 0 <= i < |rows| ==> (h in rows[i] <==> h in headers)
  {
    seq(|lines|, i requires 0 <= i < |lines| => MakeRow(headers, SplitRow(lines[i])))
  }

  /** The row for line `i + 1` of the trimmed text, cell by cell. */
  lemma ParseCsvRow(text: string, i: nat, k: nat)
    requires var lines := Split(Trim(text), '\n'); |lines| >= 2 && i < |lines| - 1
    requires k < |ParseCsv(text).headers| && LastOccurrence(ParseCsv(text).headers, k)
    ensures var lines := Split(Trim(text), '\n'); var r := ParseCsv(text);
      r.headers == HeaderCells(lines[0]) &&
      r.headers[k] in r.rows[i] &&
      r.rows[i][r.headers[k]] == ValueAt(SplitRow(lines[i + 1]), k)
  {
    var lines := Split(Trim(text), '\n');
    var r := ParseCsv(text);
    assert lines[1..][i] == lines[i + 1];
    assert r.rows[i] == MakeRow(r.headers, SplitRow(lines[i + 1]));
    assert r.headers[k] in r.headers;
  }
}
