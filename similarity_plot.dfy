/** The two report readers of scripts/similarity_plot.py. A report is a
    sequence of lines; f.readline() past the end gives "". Python's float()
    is a parameter, and a raised exception is a PyError. */
module SimilarityPlot {
  import opened Wrappers
  import opened Text

  datatype PyError = IndexError | ValueError | UnboundLocalError

  /** f.readline() as the i-th call on a fresh file: "" past the end. The
      newline Python keeps does not matter, since every line is split. */
  function ReadLine(lines: seq<string>, i: nat): string
  {
    if i < |lines| then lines[i] else ""
  }

  /** str.split() without argument. */
  function Tokens(line: string): seq<string>
  {
    Words(line, IsPySpace)
  }

  /** int(f.readline().split()[-1]) after eight skipped header lines. */
  function AtomCount(lines: seq<string>): (r: Result<int, PyError>)
    ensures r.Ok? ==> var t := Tokens(ReadLine(lines, 8)); t != [] && PyInt(t[|t| - 1]) == Some(r.value)
    ensures r == Err(IndexError) <==> Tokens(ReadLine(lines, 8)) == []
  {
    var t := Tokens(ReadLine(lines, 8));
    if t == [] then Err(IndexError)
    else match PyInt(t[|t| - 1])
      case None => Err(ValueError)
      case Some(n) => Ok(n)
  }

  /** NumPy's index into an axis of length n: a negative index counts from
      the end; anything outside -n..n-1 raises IndexError. */
  function NumpyIndex(i: int, n: nat): (r: Option<nat>)
    ensures r.Some? <==> -(n as int) <= i < n
    ensures r.Some? ==> r.value < n && (r.value == i || r.value == i + n)
  {
    if 0 <= i < n then Some(i) else if -(n as int) <= i < 0 then Some(i + n) else None
  }

  /** One write into the matrix: the cell and its new value. */
  datatype Entry = Entry(row: nat, col: nat, value: real)

  /** One data line of the similarity report: atoms int(tok0) and int(tok1),
      counted from 1, and the value 0 when the last token is "N/A", else
      float of the third token from the end. */
  function ParseEntry(line: string, n: nat, toFloat: string -> Option<real>): (r: Result<Entry, PyError>)
    ensures r.Ok? ==> r.value.row < n && r.value.col < n
  {
    var p := Tokens(line);
    if p == [] then Err(IndexError)
    else if PyInt(p[0]).None? then Err(ValueError)
    else if |p| < 2 then Err(IndexError)
    else if PyInt(p[1]).None? then Err(ValueError)
    else
      var value :=
        if p[|p| - 1] == "N/A" then Ok(0.0)
        else if |p| < 3 then Err(IndexError)
        else if toFloat(p[|p| - 3]).None? then Err(ValueError)
        else Ok(toFloat(p[|p| - 3]).value);
      if value.Err? then Err(value.error)
      else
        var row := NumpyIndex(PyInt(p[0]).value - 1, n);
        var col := NumpyIndex(PyInt(p[1]).value - 1, n);
        if row.None? || col.None? then Err(IndexError)
        else Ok(Entry(row.value, col.value, value.value))
  }

  /** A line is read without error exactly when it has two integer tokens
      that address the matrix and either ends in "N/A" or has a number
      third from the end; the entry then holds that cell and value. */
  lemma ParseEntryMeaning(line: string, n: nat, toFloat: string -> Option<real>)
    ensures var p := Tokens(line);
      ParseEntry(line, n, toFloat).Ok? <==>
        && |p| >= 2 && PyInt(p[0]).Some? && PyInt(p[1]).Some?
        && -(n as int) <= PyInt(p[0]).value - 1 < n && -(n as int) <= PyInt(p[1]).value - 1 < n
        && (p[|p| - 1] == "N/A" || (|p| >= 3 && toFloat(p[|p| - 3]).Some?))
    ensures var p := Tokens(line);
      ParseEntry(line, n, toFloat).Ok? ==>
        var e := ParseEntry(line, n, toFloat).value;
        && (e.row == PyInt(p[0]).value - 1 || e.row == PyInt(p[0]).value - 1 + n)
        && (e.col == PyInt(p[1]).value - 1 || e.col == PyInt(p[1]).value - 1 + n)
        && e.value == if p[|p| - 1] == "N/A" then 0.0 else toFloat(p[|p| - 3]).value
  {
  }

  /** The line parser of a report with n atoms. */
  function EntryParser(n: nat, toFloat: string -> Option<real>): (parse: string -> Result<Entry, PyError>)
    ensures InMatrix(parse, n)
  {
    line => ParseEntry(line, n, toFloat)
  }

  /** Every entry the parser yields lies in the n-by-n matrix. */
  ghost predicate InMatrix(parse: string -> Result<Entry, PyError>, n: nat)
  {
    forall line :: parse(line).Ok? ==> parse(line).value.row < n && parse(line).value.col < n
  }

  /** The entries of `remaining` data lines from `cursor` on, after those
      already read in acc; the first line that raises ends the reading. */
  function ReadEntries(lines: seq<string>, cursor: nat, remaining: nat,
                       parse: string -> Result<Entry, PyError>, acc: seq<Entry>): (r: Result<seq<Entry>, PyError>)
    ensures r.Ok? ==> |r.value| == |acc| + remaining && r.value[..|acc|] == acc
    ensures r.Ok? ==> forall k :: |acc| <= k < |r.value| ==> parse(ReadLine(lines, cursor + k - |acc|)) == Ok(r.value[k])
    decreases remaining
  {
    if remaining == 0 then Ok(acc)
    else match parse(ReadLine(lines, cursor))
      case Err(e) => Err(e)
      case Ok(e) =>
        var r := ReadEntries(lines, cursor + 1, remaining - 1, parse, acc + [e]);
        if r.Ok? then
          assert r.value[..|acc| + 1][..|acc|] == acc;
          r
        else r
  }

  /** The value of a cell after the writes es in order: the last write wins,
      and a cell no write addresses keeps the 0 of np.zeros. */
  function Cell(es: seq<Entry>, a: int, b: int): real
  {
    if es == [] then 0.0
    else if Addresses(es[|es| - 1], a, b) then es[|es| - 1].value
    else Cell(es[..|es| - 1], a, b)
  }

  predicate Addresses(e: Entry, a: int, b: int)
  {
    e.row == a && e.col == b
  }

  lemma {:induction false} CellUntouched(es: seq<Entry>, a: nat, b: nat)
    requires forall k :: 0 <= k < |es| ==> !Addresses(es[k], a, b)
    ensures Cell(es, a, b) == 0.0
  {
    if es != [] {
      CellUntouched(es[..|es| - 1], a, b);
    }
  }

  lemma {:induction false} CellLastWrite(es: seq<Entry>, k: nat, a: nat, b: nat)
    requires k < |es| && Addresses(es[k], a, b)
    requires forall j :: k < j < |es| ==> !Addresses(es[j], a, b)
    ensures Cell(es, a, b) == es[k].value
  {
    if k < |es| - 1 {
      CellLastWrite(es[..|es| - 1], k, a, b);
    }
  }

  type Matrix = seq<seq<real>>

  /** read_similarity_analysis_file: eight header lines, the atom count n,
      one more skipped line, then n*n data lines written into an n-by-n
      matrix of zeros. */
  function ReadSimilaritySpec(lines: seq<string>, toFloat: string -> Option<real>): (r: Result<Matrix, PyError>)
  {
    var count := AtomCount(lines);
    if count.Err? then Err(count.error)
    else if count.value < 0 then Err(ValueError)
    else SimilarityData(lines, count.value, toFloat)
  }

  /** The data lines of a report with n atoms, written into the matrix. */
  function SimilarityData(lines: seq<string>, n: nat, toFloat: string -> Option<real>): (r: Result<Matrix, PyError>)
    ensures r.Ok? ==> DataEntries(lines, n, toFloat).Ok? && r.value == Fill(DataEntries(lines, n, toFloat).value, n)
    ensures r.Err? ==> DataEntries(lines, n, toFloat).Err? && r.error == DataEntries(lines, n, toFloat).error
  {
    var es := DataEntries(lines, n, toFloat);
    if es.Err? then Err(es.error) else Ok(Fill(es.value, n))
  }

  /** The n*n data lines of a report with n atoms, read in order. */
  function DataEntries(lines: seq<string>, n: nat, toFloat: string -> Option<real>): (r: Result<seq<Entry>, PyError>)
    ensures r.Ok? ==> |r.value| == n * n
  {
    ReadEntries(lines, 10, n * n, EntryParser(n, toFloat), [])
  }

  /** np.zeros((n, n)) after the writes es. */
  function Fill(es: seq<Entry>, n: nat): (m: Matrix)
    ensures |m| == n && forall a :: 0 <= a < n ==> |m[a]| == n
    ensures forall a, b :: 0 <= a < n && 0 <= b < n ==> m[a][b] == Cell(es, a, b)
  {
    seq(n, a => seq(n, b => Cell(es, a, b)))
  }

  /** The k-th entry is what the k-th data line, after the ten header lines,
      parses to. */
  lemma EntryOfLine(lines: seq<string>, n: nat, toFloat: string -> Option<real>, k: nat)
    requires DataEntries(lines, n, toFloat).Ok? && k < n * n
    ensures ParseEntry(ReadLine(lines, 10 + k), n, toFloat) == Ok(DataEntries(lines, n, toFloat).value[k])
  {
    var es := DataEntries(lines, n, toFloat).value;
    assert EntryParser(n, toFloat)(ReadLine(lines, 10 + k)) == Ok(es[k]);
  }

  /** A cell no data line addresses keeps the 0 of np.zeros. */
  lemma UnwrittenCellIsZero(lines: seq<string>, n: nat, toFloat: string -> Option<real>, a: nat, b: nat)
    requires SimilarityData(lines, n, toFloat).Ok? && a < n && b < n
    requires var es := DataEntries(lines, n, toFloat).value;
      forall k :: 0 <= k < |es| ==> !Addresses(es[k], a, b)
    ensures SimilarityData(lines, n, toFloat).value[a][b] == 0.0
  {
    var es := DataEntries(lines, n, toFloat).value;
    CellUntouched(es, a, b);
  }

  /** A cell holds the value of the last data line that addresses it. */
  lemma LastWriteWins(lines: seq<string>, n: nat, toFloat: string -> Option<real>, a: nat, b: nat, k: nat)
    requires SimilarityData(lines, n, toFloat).Ok? && a < n && b < n
    requires var es := DataEntries(lines, n, toFloat).value;
      && k < |es| && Addresses(es[k], a, b)
      && forall j :: k < j < |es| ==> !Addresses(es[j], a, b)
    ensures SimilarityData(lines, n, toFloat).value[a][b] == DataEntries(lines, n, toFloat).value[k].value
  {
    var es := DataEntries(lines, n, toFloat).value;
    CellLastWrite(es, k, a, b);
  }

  /** The array holds the matrix m. */
  predicate Holds(mhsn: array2<real>, m: Matrix)
    reads mhsn
  {
    && mhsn.Length0 == |m|
    && (forall a :: 0 <= a < |m| ==> |m[a]| == mhsn.Length1)
    && forall a, b :: 0 <= a < mhsn.Length0 && 0 <= b < mhsn.Length1 ==> mhsn[a, b] == m[a][b]
  }

  lemma RowsLeft(n: nat, i: nat)
    requires i <= n
    ensures i == 0 ==> (n - i) * n == n * n
    ensures i == n ==> (n - i) * n == 0
    ensures i < n ==> (n - i) * n - n == (n - (i + 1)) * n && (n - i) * n >= n
  {
  }

  /** read_similarity_analysis_file: the atom count, then a zero matrix
      filled from the data lines. */
  method ReadSimilarityAnalysisFile(lines: seq<string>, toFloat: string -> Option<real>)
    returns (r: Result<array2<real>, PyError>)
    ensures ReadSimilaritySpec(lines, toFloat).Err? ==> r == Err(ReadSimilaritySpec(lines, toFloat).error)
    ensures ReadSimilaritySpec(lines, toFloat).Ok? ==>
      r.Ok? && fresh(r.value) && Holds(r.value, ReadSimilaritySpec(lines, toFloat).value)
  {
    var count := AtomCount(lines);
    if count.Err? {
      return Err(count.error);
    }
    var n := count.value;
    if n < 0 {
      return Err(ValueError);
    }
    assert ReadSimilaritySpec(lines, toFloat) == SimilarityData(lines, n, toFloat);
    var mhsn := new real[n, n]((_, _) => 0.0);
    var data;
    ghost var es;
    data, es := ReadData(mhsn, lines, EntryParser(n, toFloat));
    if data.Fail? {
      return Err(data.error);
    }
    r := Ok(mhsn);
  }

  /** The nested loops of read_similarity_analysis_file over the n*n data
      lines, each written into the n-by-n array. */
  method ReadData(mhsn: array2<real>, lines: seq<string>, parse: string -> Result<Entry, PyError>)
    returns (r: Outcome<PyError>, ghost es: seq<Entry>)
    requires mhsn.Length0 == mhsn.Length1 && InMatrix(parse, mhsn.Length0)
    requires forall a, b :: 0 <= a < mhsn.Length0 && 0 <= b < mhsn.Length1 ==> mhsn[a, b] == 0.0
    modifies mhsn
    ensures var n := mhsn.Length0;
      r.Fail? ==> ReadEntries(lines, 10, n * n, parse, []) == Err(r.error)
    ensures var n := mhsn.Length0;
      r.Pass? ==> ReadEntries(lines, 10, n * n, parse, []) == Ok(es)
    ensures r.Pass? ==>
      forall a, b :: 0 <= a < mhsn.Length0 && 0 <= b < mhsn.Length1 ==> mhsn[a, b] == Cell(es, a, b)
  {
    var n := mhsn.Length0;
    es := [];
    ghost var remaining: nat := n * n;
    RowsLeft(n, 0);
    var cursor := 10;
    var i := 0;
    while i < n
      invariant 0 <= i <= n && remaining == (n - i) * n
      invariant ReadEntries(lines, 10, n * n, parse, []) == ReadEntries(lines, cursor, remaining, parse, es)
      invariant forall a, b :: 0 <= a < n && 0 <= b < n ==> mhsn[a, b] == Cell(es, a, b)
    {
      RowsLeft(n, i);
      var row;
      row, es := ReadRow(mhsn, lines, cursor, parse, remaining, es);
      if row.Fail? {
        return row, es;
      }
      remaining := remaining - n;
      cursor := cursor + n;
      i := i + 1;
    }
    RowsLeft(n, n);
    r := Pass;
  }

  /** The inner loop of read_similarity_analysis_file: n data lines from
      cursor0 on, each written into the array. */
  method ReadRow(mhsn: array2<real>, lines: seq<string>, cursor0: nat, parse: string -> Result<Entry, PyError>,
                 ghost remaining0: nat, ghost acc0: seq<Entry>)
    returns (r: Outcome<PyError>, ghost acc: seq<Entry>)
    requires mhsn.Length0 == mhsn.Length1 && remaining0 >= mhsn.Length0 && InMatrix(parse, mhsn.Length0)
    requires forall a, b :: 0 <= a < mhsn.Length0 && 0 <= b < mhsn.Length1 ==> mhsn[a, b] == Cell(acc0, a, b)
    modifies mhsn
    ensures r.Fail? ==> ReadEntries(lines, cursor0, remaining0, parse, acc0) == Err(r.error)
    ensures r.Pass? ==>
      ReadEntries(lines, cursor0, remaining0, parse, acc0)
      == ReadEntries(lines, cursor0 + mhsn.Length0, remaining0 - mhsn.Length0, parse, acc)
    ensures r.Pass? ==>
      forall a, b :: 0 <= a < mhsn.Length0 && 0 <= b < mhsn.Length1 ==> mhsn[a, b] == Cell(acc, a, b)
  {
    var n := mhsn.Length0;
    acc := acc0;
    var cursor := cursor0;
    var j := 0;
    while j < n
      invariant 0 <= j <= n && cursor == cursor0 + j
      invariant ReadEntries(lines, cursor0, remaining0, parse, acc0) == ReadEntries(lines, cursor, remaining0 - j, parse, acc)
      invariant forall a, b :: 0 <= a < n && 0 <= b < n ==> mhsn[a, b] == Cell(acc, a, b)
    {
      var e := parse(ReadLine(lines, cursor));
      if e.Err? {
        return Fail(e.error), acc;
      }
      mhsn[e.value.row, e.value.col] := e.value.value;
      acc := acc + [e.value];
      cursor := cursor + 1;
      j := j + 1;
    }
    r := Pass;
  }

  /** Python's s[i:j] for 0 <= j: empty when i >= j. */
  function PySlice(s: seq<string>, i: nat, j: nat): (r: seq<string>)
    ensures i < j <= |s| ==> r == s[i..j]
    ensures j <= i ==> r == []
  {
    if j <= i then [] else if j <= |s| then s[i..j] else if i < |s| then s[i..] else []
  }

  /** One data line of the pattern report: its last token is the pattern,
      the tokens from the seventh up to the last, joined by spaces, the
      name. A blank line raises IndexError. */
  function PatternLine(line: string): (r: Result<(string, string), PyError>)
    ensures r.Ok? <==> Tokens(line) != []
  {
    var p := Tokens(line);
    if p == [] then Err(IndexError)
    else Ok((p[|p| - 1], Join(PySlice(p, 6, |p| - 1), " ")))
  }

  /** A name splits back into the tokens it was joined from. */
  lemma NameSplitsBack(line: string)
    requires PatternLine(line).Ok?
    ensures var p := Tokens(line);
      Words(PatternLine(line).value.1, IsPySpace) == PySlice(p, 6, |p| - 1)
  {
    var p := Tokens(line);
    WordsClean(line, IsPySpace);
    var ws := PySlice(p, 6, |p| - 1);
    assert forall k :: 0 <= k < |ws| ==> ws[k] == p[6 + k];
    WordsOfJoin(ws, ' ', IsPySpace);
  }

  /** The patterns and names of `remaining` data lines from `cursor` on,
      appended to pats and names. */
  function PatternRows(lines: seq<string>, cursor: nat, remaining: nat,
                       row: string -> Result<(string, string), PyError>,
                       pats: seq<string>, names: seq<string>): (r: Result<(seq<string>, seq<string>), PyError>)
    requires |pats| == |names|
    ensures r.Ok? ==> |r.value.0| == |r.value.1| == |pats| + remaining
    ensures r.Ok? ==> r.value.0[..|pats|] == pats && r.value.1[..|names|] == names
    ensures r.Ok? ==> forall k :: |pats| <= k < |r.value.0| ==>
      row(ReadLine(lines, cursor + k - |pats|)) == Ok((r.value.0[k], r.value.1[k]))
    decreases remaining
  {
    if remaining == 0 then Ok((pats, names))
    else match row(ReadLine(lines, cursor))
      case Err(e) => Err(e)
      case Ok(x) =>
        var r := PatternRows(lines, cursor + 1, remaining - 1, row, pats + [x.0], names + [x.1]);
        if r.Ok? then
          assert r.value.0[..|pats| + 1][..|pats|] == pats;
          assert r.value.1[..|names| + 1][..|names|] == names;
          r
        else r
  }

  /** The data-line parser of the pattern report. */
  function RowParser(): string -> Result<(string, string), PyError>
  {
    PatternLine
  }

  /** The patterns and names of all data lines: eight header lines, the
      atom count, three skipped lines, then one line per atom (none for a
      negative count, as range() gives). */
  function PatternReport(lines: seq<string>): (r: Result<(seq<string>, seq<string>), PyError>)
  {
    match AtomCount(lines)
    case Err(e) => Err(e)
    case Ok(n) => PatternRows(lines, 12, if n < 0 then 0 else n, RowParser(), [], [])
  }

  /** read_pattern_analysis as written: it returns `pattern`, the pattern of
      the last data line only, and with no data line that variable was never
      bound. */
  function ReadPatternSpec(lines: seq<string>): (r: Result<(string, seq<string>), PyError>)
  {
    LastPattern(PatternReport(lines))
  }

  /** The last pattern of a report and its names; UnboundLocalError when
      there is no pattern. */
  function LastPattern(report: Result<(seq<string>, seq<string>), PyError>): (r: Result<(string, seq<string>), PyError>)
  {
    if report.Err? then Err(report.error)
    else if report.value.0 == [] then Err(UnboundLocalError)
    else Ok((report.value.0[|report.value.0| - 1], report.value.1))
  }

  /** read_pattern_analysis as evidently intended: the list of patterns. */
  function ReadPatternsSpec(lines: seq<string>): (r: Result<(seq<string>, seq<string>), PyError>)
  {
    PatternReport(lines)
  }

  /** The intended reader gives one pattern and one name per atom in the
      header count, each taken from its own data line. */
  lemma PatternsPerAtom(lines: seq<string>)
    requires ReadPatternsSpec(lines).Ok?
    ensures AtomCount(lines).Ok?
    ensures var (pats, names) := ReadPatternsSpec(lines).value;
      var n := AtomCount(lines).value;
      && |pats| == |names| == (if n < 0 then 0 else n)
      && forall i :: 0 <= i < |pats| ==>
           var p := Tokens(ReadLine(lines, 12 + i));
           p != [] && pats[i] == p[|p| - 1] && names[i] == Join(PySlice(p, 6, |p| - 1), " ")
  {
    var n := AtomCount(lines).value;
    var r := PatternRows(lines, 12, if n < 0 then 0 else n, RowParser(), [], []);
    assert r == ReadPatternsSpec(lines);
  }

  /** The reader as written keeps only the last of the patterns the intended
      one returns, and raises where the intended one returns empty lists. */
  lemma AsWrittenLosesPatterns(lines: seq<string>)
    ensures ReadPatternsSpec(lines).Err? ==> ReadPatternSpec(lines) == Err(ReadPatternsSpec(lines).error)
    ensures ReadPatternsSpec(lines).Ok? && ReadPatternsSpec(lines).value.0 == [] ==>
      ReadPatternSpec(lines) == Err(UnboundLocalError)
    ensures ReadPatternsSpec(lines).Ok? && ReadPatternsSpec(lines).value.0 != [] ==>
      var (pats, names) := ReadPatternsSpec(lines).value;
      ReadPatternSpec(lines) == Ok((pats[|pats| - 1], names))
  {
    var report := PatternReport(lines);
    assert ReadPatternsSpec(lines) == report;
  }

  /** A report whose header count is 0 makes the reader as written raise,
      while the intended reader returns two empty lists. */
  lemma NoAtomsRaises(lines: seq<string>)
    requires AtomCount(lines) == Ok(0)
    ensures ReadPatternSpec(lines) == Err(UnboundLocalError)
    ensures ReadPatternsSpec(lines) == Ok(([], []))
  {
  }

  /** The loop of read_pattern_analysis over the data lines; row is the
      per-line parse (RowParser). */
  method ReadPatternRows(lines: seq<string>, n: int, row: string -> Result<(string, string), PyError>)
    returns (r: Result<(seq<string>, seq<string>), PyError>)
    ensures r == PatternRows(lines, 12, if n < 0 then 0 else n, row, [], [])
  {
    var patterns: seq<string> := [];
    var names: seq<string> := [];
    var cursor := 12;
    var i := 0;
    while i < n
      invariant 0 <= i <= (if n < 0 then 0 else n) && cursor == 12 + i && |patterns| == |names|
      invariant PatternRows(lines, 12, if n < 0 then 0 else n, row, [], [])
             == PatternRows(lines, cursor, (if n < 0 then 0 else n) - i, row, patterns, names)
    {
      var x := row(ReadLine(lines, cursor));
      if x.Err? {
        return Err(x.error);
      }
      patterns := patterns + [x.value.0];
      names := names + [x.value.1];
      cursor := cursor + 1;
      i := i + 1;
    }
    r := Ok((patterns, names));
  }

  /** read_pattern_analysis as written: the same loop, but only the pattern
      of the last row (the variable the loop overwrites) is returned. */
  method ReadPatternAnalysis(lines: seq<string>) returns (r: Result<(string, seq<string>), PyError>)
    ensures r == ReadPatternSpec(lines)
  {
    var rows := ReadPatternAnalysisCorrected(lines);
    r := LastPatternOf(rows);
  }

  /** The return of the reader as written, given the loop's outcome. */
  method LastPatternOf(rows: Result<(seq<string>, seq<string>), PyError>) returns (r: Result<(string, seq<string>), PyError>)
    ensures r == LastPattern(rows)
  {
    if rows.Err? {
      return Err(rows.error);
    }
    var (patterns, names) := rows.value;
    if patterns == [] {
      return Err(UnboundLocalError);
    }
    r := Ok((patterns[|patterns| - 1], names));
  }

  /** read_pattern_analysis corrected to return the list of patterns. */
  method ReadPatternAnalysisCorrected(lines: seq<string>) returns (r: Result<(seq<string>, seq<string>), PyError>)
    ensures r == ReadPatternsSpec(lines)
  {
    var count := AtomCount(lines);
    if count.Err? {
      return Err(count.error);
    }
    r := ReadPatternRows(lines, count.value, RowParser());
  }
}
