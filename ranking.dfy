/**
 * The live candidate list of the sentence on screen and the ranking
 * records saved from it. A live candidate is built by `addTranslation`,
 * which keeps provenance only through JavaScript's `||`: an empty header
 * and a column or index of 0 all become null.
 */
module Ranking {
  import opened TextUtil
  import opened Csv

  /** What `addTranslation` receives: text typed into the editor, or a candidate object. */
  datatype TranslationInput = TypedText(text: string) | FromCandidate(candidate: Candidate)

  /** The fields of a live candidate other than its rank. */
  datatype CandidateData = CandidateData(
    text: string, header: Option<string>, originalColumn: Option<int>, originalIndex: Option<int>)

  /** An entry of the live list: its data and its rank. */
  datatype LiveCandidate = LiveCandidate(data: CandidateData, rank: int)

  /** The `id` of a ranking record: the one generated from the clock and a
      random number, or the string `original_<sentence id>_<position>`. */
  datatype RecordId = Generated | Derived(s: string)

  /** A saved ranking entry, with the fields the exported JSON has. */
  datatype RankingRecord = RankingRecord(
    rank: int, text: string, id: RecordId,
    header: Option<string>, originalColumn: Option<int>, originalIndex: Option<int>)

  /** JavaScript's `x || null` for a string and for a number. */
  function OrNullString(s: string): Option<string> {
    if s == "" then None else Some(s)
  }

  function OrNullNumber(n: int): Option<int> {
    if n == 0 then None else Some(n)
  }

  /** The data `addTranslation` keeps of its argument. */
  function DataOf(input: TranslationInput): (d: CandidateData)
    ensures input.TypedText? ==> d == CandidateData(input.text, None, None, None)
    ensures input.FromCandidate? ==>
      d.text == input.candidate.text &&
      (d.originalIndex.Some? <==> input.candidate.originalIndex != 0) &&
      (d.originalIndex.Some? ==> d.originalIndex.value == input.candidate.originalIndex) &&
      (d.originalColumn.Some? <==> input.candidate.originalColumn != 0) &&
      (d.originalColumn.Some? ==> d.originalColumn.value == input.candidate.originalColumn) &&
      (d.header.Some? <==> input.candidate.header != "") &&
      (d.header.Some? ==> d.header.value == input.candidate.header)
  {
    match input
    case TypedText(t) => CandidateData(t, None, None, None)
    case FromCandidate(c) =>
      CandidateData(c.text, OrNullString(c.header), OrNullNumber(c.originalColumn), OrNullNumber(c.originalIndex))
  }

  /** Ranks are dense: the entry at position i has rank i + 1. */
  predicate Dense(ts: seq<LiveCandidate>) {
    forall i :: 0 <= i < |ts| ==> ts[i].rank == i + 1
  }

  /** The candidates of a list, without their ranks. */
  function Entries(ts: seq<LiveCandidate>): (r: seq<CandidateData>)
    ensures |r| == |ts|
  {
    seq(|ts|, i requires 0 <= i < |ts| => ts[i].data)
  }

  /** The list with its ranks recomputed from positions (`updateRanks`):
      the same candidates in the same order, with dense ranks. */
  function Renumbered(ts: seq<LiveCandidate>): (r: seq<LiveCandidate>)
    ensures Dense(r) && Entries(r) == Entries(ts)
  {
    seq(|ts|, i requires 0 <= i < |ts| => ts[i].(rank := i + 1))
  }

  /** A dense list is its own renumbering. */
  lemma RenumberDenseIsIdentity(ts: seq<LiveCandidate>)
    requires Dense(ts)
    ensures Renumbered(ts) == ts
  {
    assert forall i :: 0 <= i < |ts| ==> Renumbered(ts)[i] == ts[i];
  }

  /** The live list `loadCurrentSessionSentence` builds from a sentence's
      shuffled candidates, one `addTranslation` each. */
  function Loaded(cs: seq<Candidate>): (r: seq<LiveCandidate>)
    ensures |r| == |cs| && Dense(r)
    ensures forall i :: 0 <= i < |cs| ==> r[i].data == DataOf(FromCandidate(cs[i]))
  {
    if cs == [] then []
    else
      var prev := Loaded(cs[..|cs| - 1]);
      prev + [LiveCandidate(DataOf(FromCandidate(cs[|cs| - 1])), |prev| + 1)]
  }

  /** Loading keeps text and every non-falsy provenance field: the header,
      the column and, other than 0, the index; an `originalIndex` of 0 turns
      into null. */
  lemma LoadedProvenance(cs: seq<Candidate>, i: nat)
    requires i < |cs|
    ensures Loaded(cs)[i].data.text == cs[i].text
    ensures cs[i].originalIndex != 0 ==> Loaded(cs)[i].data.originalIndex == Some(cs[i].originalIndex)
    ensures cs[i].originalIndex == 0 ==> Loaded(cs)[i].data.originalIndex == None
    ensures cs[i].originalColumn != 0 ==> Loaded(cs)[i].data.originalColumn == Some(cs[i].originalColumn)
    ensures cs[i].header != "" ==> Loaded(cs)[i].data.header == Some(cs[i].header)
  {
  }

  /** The record `saveCurrentRankings` makes of one live entry. */
  function RecordOf(t: LiveCandidate): RankingRecord {
    RankingRecord(t.rank, t.data.text, Generated, t.data.header, t.data.originalColumn, t.data.originalIndex)
  }

  /** The live entry a record describes; the inverse of RecordOf. */
  function LiveOf(r: RankingRecord): LiveCandidate {
    LiveCandidate(CandidateData(r.text, r.header, r.originalColumn, r.originalIndex), r.rank)
  }

  /** The rankings saved from a live list: one record per entry, in list
      order, from which the entry can be read back; dense lists give
      ranks 1..k. */
  function Snapshot(ts: seq<LiveCandidate>): (r: seq<RankingRecord>)
    ensures |r| == |ts|
    ensures forall i :: 0 <= i < |ts| ==> LiveOf(r[i]) == ts[i] && r[i].id == Generated
    ensures Dense(ts) ==> RanksDense(r)
  {
    seq(|ts|, i requires 0 <= i < |ts| => RecordOf(ts[i]))
  }

  /** Saved ranks are dense: the record at position i has rank i + 1. */
  predicate RanksDense(rs: seq<RankingRecord>) {
    forall i :: 0 <= i < |rs| ==> rs[i].rank == i + 1
  }

  /** The ranking the snapshot export invents for a sentence never saved:
      the original candidate order, ranks 1..k, provenance kept as read
      (index 0 included) and ids `original_<id>_<position>`. */
  function IdentityRanking(sentenceId: string, cs: seq<Candidate>): (r: seq<RankingRecord>)
    ensures |r| == |cs| && RanksDense(r)
    ensures forall i :: 0 <= i < |cs| ==>
      r[i].text == cs[i].text &&
      r[i].originalIndex == Some(cs[i].originalIndex) &&
      r[i].originalColumn == Some(cs[i].originalColumn) &&
      r[i].header == Some(cs[i].header) &&
      r[i].id == Derived("original_" + sentenceId + "_" + NatToString(i))
  {
    seq(|cs|, i requires 0 <= i < |cs| =>
      RankingRecord(i + 1, cs[i].text, Derived("original_" + sentenceId + "_" + NatToString(i)),
                    Some(cs[i].header), Some(cs[i].originalColumn), Some(cs[i].originalIndex)))
  }

  /** The ids the snapshot export invents are pairwise distinct: the
      position is written in decimal, and decimal rendering is injective. */
  lemma IdentityRankingIdsDistinct(sentenceId: string, cs: seq<Candidate>, i: nat, j: nat)
    requires i < j < |cs|
    ensures IdentityRanking(sentenceId, cs)[i].id != IdentityRanking(sentenceId, cs)[j].id
  {
    var p := "original_" + sentenceId + "_";
    var a, b := NatToString(i), NatToString(j);
    if p + a == p + b {
      assert a == (p + a)[|p|..];
      assert b == (p + b)[|p|..];
      NatToStringRoundTrip(i);
      NatToStringRoundTrip(j);
    }
  }

  /** Where `splice(index, 1)` starts on a list of length n: a negative
      index counts from the end and is clamped at 0, a large one at n. */
  function SpliceStart(index: int, n: nat): (k: nat)
    ensures k <= n
    ensures 0 <= index <= n ==> k == index
    ensures index < 0 ==> k == if n + index < 0 then 0 else n + index
    ensures index > n ==> k == n
  {
    if index < 0 then (if n + index < 0 then 0 else n + index)
    else if index > n then n else index
  }

  /** `translations.splice(index, 1)`: one entry fewer exactly when the
      list is non-empty and the index is below its length (negative indices
      counting from the end), the others kept in order. */
  function SpliceOne(ts: seq<LiveCandidate>, index: int): (r: seq<LiveCandidate>)
    ensures |r| == if ts != [] && index < |ts| then |ts| - 1 else |ts|
    ensures multiset(r) <= multiset(ts)
    ensures var k := SpliceStart(index, |ts|);
      r[..k] == ts[..k] && (k < |ts| ==> r[k..] == ts[k + 1..])
  {
    var k := SpliceStart(index, |ts|);
    if k < |ts| then
      assert ts == ts[..k] + [ts[k]] + ts[k + 1..];
      ts[..k] + ts[k + 1..]
    else ts
  }
}
