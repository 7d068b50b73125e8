/**
 * The CSV reader of the annotator: one line is split on commas, a double
 * quote toggles a region in which commas are kept as text (the quote
 * itself is dropped), and each data row becomes a sentence record whose
 * non-blank cells are its candidate translations.
 */
module Csv {
  import opened TextUtil

  /** A candidate translation as it is read from the corpus. */
  datatype Candidate = Candidate(text: string, header: string, originalColumn: int, originalIndex: int)

  /** A data row turned into a sentence: id, source text and candidates. */
  datatype Row = Row(id: string, sourceText: string, translations: seq<Candidate>)

  // ---------------------------------------------------------------------
  // One line

  /** The loop state of the line splitter after a prefix of the line. */
  datatype ScanState = ScanState(fields: seq<string>, current: string, inQuotes: bool)

  function Step(st: ScanState, c: char): ScanState {
    if c == '"' then st.(inQuotes := !st.inQuotes)
    else if c == ',' && !st.inQuotes then ScanState(st.fields + [st.current], "", st.inQuotes)
    else st.(current := st.current + [c])
  }

  /** The splitter's state after reading `p` from the start of the line. */
  function Scan(p: string): ScanState {
    if p == [] then ScanState([], "", false) else Step(Scan(p[..|p| - 1]), p[|p| - 1])
  }

  /** The fields of a line: the closed fields and the one still open at the end. */
  function Fields(line: string): seq<string> {
    Scan(line).fields + [Scan(line).current]
  }

  /** The line with every double quote removed. */
  function RemoveQuotes(p: string): string {
    if p == [] then [] else RemoveQuotes(p[..|p| - 1]) + (if p[|p| - 1] == '"' then [] else [p[|p| - 1]])
  }

  function QuoteCount(p: string): nat {
    if p == [] then 0 else QuoteCount(p[..|p| - 1]) + (if p[|p| - 1] == '"' then 1 else 0)
  }

  /** After `p`, a quoted region is open exactly when `p` holds an odd number of quotes. */
  predicate InQuotes(p: string) {
    QuoteCount(p) % 2 == 1
  }

  /** The commas of `p` that stand outside every quoted region. */
  function UnquotedCommas(p: string): nat {
    if p == [] then 0
    else UnquotedCommas(p[..|p| - 1]) + (if p[|p| - 1] == ',' && !InQuotes(p[..|p| - 1]) then 1 else 0)
  }

  /** `fields.join(',')`. */
  function JoinComma(fs: seq<string>): string
    requires |fs| >= 1
  {
    if |fs| == 1 then fs[0] else JoinComma(fs[..|fs| - 1]) + "," + fs[|fs| - 1]
  }

  /** What the splitter's state means: the quote flag, the number of closed
      fields, the absence of quotes in any text, and the text seen so far. */
  lemma {:induction false} ScanMeaning(p: string)
    ensures Scan(p).inQuotes == InQuotes(p)
    ensures |Scan(p).fields| == UnquotedCommas(p)
    ensures forall k :: 0 <= k < |Fields(p)| ==> '"' !in Fields(p)[k]
    ensures JoinComma(Fields(p)) == RemoveQuotes(p)
  {
    if p != [] {
      var q := p[..|p| - 1];
      var c := p[|p| - 1];
      ScanMeaning(q);
      var st := Scan(q);
      var fq := Fields(q);
      var fp := Fields(p);
      if c == '"' {
        assert fp == fq;
      } else if c == ',' && !st.inQuotes {
        assert fp == fq + [""];
        assert fp[..|fp| - 1] == fq;
      } else {
        assert fp == st.fields + [st.current + [c]];
        if st.fields == [] {
          assert JoinComma(fp) == st.current + [c];
        } else {
          assert fp[..|fp| - 1] == st.fields;
          assert fq[..|fq| - 1] == st.fields;
          assert JoinComma(fp) == JoinComma(st.fields) + "," + st.current + [c];
        }
      }
    }
  }

  /** `parseCSVLine`: splits one line into its fields. Joining the fields
      with commas gives the line without its quotes, there is one field more
      than there are commas outside quotes, and no field holds a quote. */
  method ParseCsvLine(line: string) returns (result: seq<string>)
    ensures result == Fields(line)
    ensures JoinComma(result) == RemoveQuotes(line)
    ensures |result| == UnquotedCommas(line) + 1
    ensures forall k :: 0 <= k < |result| ==> '"' !in result[k]
  {
    result := [];
    var current := "";
    var inQuotes := false;
    for i := 0 to |line|
      invariant ScanState(result, current, inQuotes) == Scan(line[..i])
    {
      assert line[..i + 1][..i] == line[..i];
      var c := line[i];
      if c == '"' {
        inQuotes := !inQuotes;
      } else if c == ',' && !inQuotes {
        result := result + [current];
        current := "";
      } else {
        current := current + [c];
      }
    }
    assert line[..|line|] == line;
    result := result + [current];
    ScanMeaning(line);
  }

  // ---------------------------------------------------------------------
  // One data row

  /** The header of the k-th translation column: the trimmed header cell
      when that cell exists and is not the empty string, `Col<k+2>` otherwise. */
  function HeaderFor(headers: seq<string>, k: nat): string {
    if k < |headers| && headers[k] != "" then Trim(headers[k]) else "Col" + NatToString(k + 2)
  }

  /** The candidate read from translation cell k. */
  function CandidateAt(cells: seq<string>, headers: seq<string>, k: nat): Candidate
    requires k < |cells|
  {
    Candidate(Trim(cells[k]), HeaderFor(headers, k), k + 2, k)
  }

  /** Candidates in column order: non-blank text that is its own trim,
      `originalColumn == originalIndex + 2`, and strictly increasing `originalIndex`. */
  predicate WellFormed(cs: seq<Candidate>) {
    (forall i :: 0 <= i < |cs| ==>
      cs[i].text != "" && Trim(cs[i].text) == cs[i].text &&
      cs[i].originalColumn == cs[i].originalIndex + 2 && cs[i].originalIndex >= 0) &&
    (forall i, j :: 0 <= i < j < |cs| ==> cs[i].originalIndex < cs[j].originalIndex)
  }

  /** The translation cells from index k on, mapped to candidates with the
      blank ones dropped: every candidate is the one read from its own cell,
      and they come in increasing column order. */
  function CandidatesFrom(cells: seq<string>, headers: seq<string>, k: nat): (r: seq<Candidate>)
    decreases |cells| - k
    ensures forall i :: 0 <= i < |r| ==> k <= r[i].originalIndex < |cells|
    ensures forall i, j :: 0 <= i < j < |r| ==> r[i].originalIndex < r[j].originalIndex
  {
    if k >= |cells| then []
    else
      var rest := CandidatesFrom(cells, headers, k + 1);
      if Trim(cells[k]) != "" then [CandidateAt(cells, headers, k)] + rest else rest
  }

  /** Each candidate is the one read from its own cell, and that cell is not blank. */
  lemma {:induction false} CandidatesExact(cells: seq<string>, headers: seq<string>, k: nat)
    ensures forall c :: c in CandidatesFrom(cells, headers, k) ==>
      0 <= c.originalIndex < |cells| && Trim(cells[c.originalIndex]) != "" &&
      c == CandidateAt(cells, headers, c.originalIndex)
    decreases |cells| - k
  {
    if k < |cells| {
      CandidatesExact(cells, headers, k + 1);
      var rest := CandidatesFrom(cells, headers, k + 1);
      if Trim(cells[k]) != "" {
        var r := [CandidateAt(cells, headers, k)] + rest;
        assert CandidatesFrom(cells, headers, k) == r;
        assert CandidateAt(cells, headers, k).originalIndex == k;
      }
    }
  }

  /** The candidates of a row are well formed. */
  lemma CandidatesWellFormed(cells: seq<string>, headers: seq<string>, k: nat)
    ensures WellFormed(CandidatesFrom(cells, headers, k))
  {
    var r := CandidatesFrom(cells, headers, k);
    CandidatesExact(cells, headers, k);
    forall i | 0 <= i < |r|
      ensures r[i].text != "" && Trim(r[i].text) == r[i].text
    {
      assert r[i] in r;
      TrimIdempotent(cells[r[i].originalIndex]);
    }
  }

  /** No non-blank cell is dropped: each one yields a candidate. */
  lemma {:induction false} CandidatesComplete(cells: seq<string>, headers: seq<string>, k: nat, j: nat)
    requires k <= j < |cells| && Trim(cells[j]) != ""
    ensures CandidateAt(cells, headers, j) in CandidatesFrom(cells, headers, k)
    decreases j - k
  {
    var c := CandidateAt(cells, headers, j);
    var r := CandidatesFrom(cells, headers, k);
    if j == k {
      assert r == [c] + CandidatesFrom(cells, headers, k + 1);
    } else {
      CandidatesComplete(cells, headers, k + 1, j);
      var rest := CandidatesFrom(cells, headers, k + 1);
      var head := if Trim(cells[k]) != "" then [CandidateAt(cells, headers, k)] else [];
      assert r == head + rest;
      assert c in rest;
    }
  }

  /** The row a line yields, or None when it has fewer than three columns. */
  function ParseRow(line: string, headers: seq<string>): (r: Option<Row>)
    ensures r.None? <==> |Fields(line)| < 3
    ensures r.Some? ==>
      r.value.id == Trim(Fields(line)[0]) && r.value.sourceText == Trim(Fields(line)[1]) &&
      r.value.translations == CandidatesFrom(Fields(line)[2..], headers, 0) &&
      WellFormed(r.value.translations)
  {
    var cols := Fields(line);
    if |cols| < 3 then None
    else
      CandidatesWellFormed(cols[2..], headers, 0);
      Some(Row(Trim(cols[0]), Trim(cols[1]), CandidatesFrom(cols[2..], headers, 0)))
  }

  /** The rows the data lines yield, in line order; short lines yield none. */
  function KeptRows(lines: seq<string>, headers: seq<string>): (r: seq<Row>)
    ensures |r| <= |lines|
    ensures forall k :: 0 <= k < |r| ==> WellFormed(r[k].translations)
  {
    if lines == [] then []
    else
      var prev := KeptRows(lines[..|lines| - 1], headers);
      match ParseRow(lines[|lines| - 1], headers)
      case Some(row) => prev + [row]
      case None => prev
  }

  /** One more data line adds its row, if it yields one. */
  lemma KeptRowsStep(lines: seq<string>, i: nat, headers: seq<string>)
    requires i < |lines|
    ensures KeptRows(lines[..i + 1], headers) ==
      KeptRows(lines[..i], headers) + (if ParseRow(lines[i], headers).Some? then [ParseRow(lines[i], headers).value] else [])
  {
    assert lines[..i + 1][..i] == lines[..i];
  }

  /** The translation headers: the header line's fields after the first two. */
  function TranslationHeaders(headerLine: string): seq<string> {
    var cols := Fields(headerLine);
    if |cols| <= 2 then [] else cols[2..]
  }

  datatype Option<T> = None | Some(value: T)
}
