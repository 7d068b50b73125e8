/**
 * The records the annotator hands out: the session record `submitSession`
 * appends to its log, the archive `downloadAllAnnotations` builds from
 * that log, and the corpus snapshot `exportAnnotations` builds.
 */
module Export {
  import opened Csv
  import opened Ranking
  import opened Corpus

  /** One sentence of a submitted session, as stored in the log. */
  datatype SentenceRecord = SentenceRecord(
    id: string, sourceText: string, originalTranslations: seq<Candidate>,
    shuffledTranslations: seq<Candidate>, rankings: seq<RankingRecord>)

  /** A submitted session: when, a numeric session id, and its sentences. */
  datatype SessionRecord = SessionRecord(timestamp: string, sessionId: int, sentences: seq<SentenceRecord>)

  function SentenceRecordOf(s: Sentence): SentenceRecord
    reads s
  {
    SentenceRecord(s.id, s.sourceText, s.translations, s.shuffledTranslations, s.rankings)
  }

  /** The record of a session: one entry per session sentence, in session
      order, carrying the sentence's candidates, its shuffle and its saved
      rankings at the time of the call. */
  function SessionRecordOf(timestamp: string, sessionId: int, ss: seq<Sentence>): (r: SessionRecord)
    reads ss
    ensures r.timestamp == timestamp && r.sessionId == sessionId
    ensures |r.sentences| == |ss|
    ensures forall i :: 0 <= i < |ss| ==> r.sentences[i] == SentenceRecordOf(ss[i])
  {
    SessionRecord(timestamp, sessionId, seq(|ss|, i reads ss requires 0 <= i < |ss| => SentenceRecordOf(ss[i])))
  }

  /** The record a session yields once the sentence at position `at` has
      saved `saved` as its rankings: that sentence's entry carries `saved`,
      every other entry what its sentence holds now. */
  function SessionRecordSaving(timestamp: string, sessionId: int, ss: seq<Sentence>, at: nat, saved: seq<RankingRecord>): (r: SessionRecord)
    reads ss
    ensures r.timestamp == timestamp && r.sessionId == sessionId && |r.sentences| == |ss|
    ensures forall i :: 0 <= i < |ss| && i != at ==> r.sentences[i] == SentenceRecordOf(ss[i])
    ensures at < |ss| ==> r.sentences[at] == SentenceRecordOf(ss[at]).(rankings := saved)
  {
    SessionRecord(timestamp, sessionId,
      seq(|ss|, i reads ss requires 0 <= i < |ss| =>
        if i == at then SentenceRecordOf(ss[i]).(rankings := saved) else SentenceRecordOf(ss[i])))
  }

  /** The sentence ids a session record holds. */
  function RecordIds(r: SessionRecord): set<string> {
    set i | 0 <= i < |r.sentences| :: r.sentences[i].id
  }

  /** The sentence ids of every session in a log. */
  function LoggedIds(log: seq<SessionRecord>): set<string> {
    if log == [] then {} else LoggedIds(log[..|log| - 1]) + RecordIds(log[|log| - 1])
  }

  /** Appending a record adds exactly its ids to those of the log. */
  lemma LoggedIdsAppend(log: seq<SessionRecord>, r: SessionRecord)
    ensures LoggedIds(log + [r]) == LoggedIds(log) + RecordIds(r)
  {
    assert (log + [r])[..|log|] == log;
  }

  /** When the completed ids are exactly the logged ones, logging a record
      of some sessions' ids and merging those ids keeps it so. */
  lemma MergeKeepsLoggedIds(completed: seq<string>, log: seq<SessionRecord>, r: SessionRecord, ids: seq<string>)
    requires (set x | x in completed) == LoggedIds(log)
    requires |r.sentences| == |ids| && forall i :: 0 <= i < |ids| ==> r.sentences[i].id == ids[i]
    ensures (set x | x in MergeIds(completed, ids)) == LoggedIds(log + [r])
  {
    LoggedIdsAppend(log, r);
    var m := MergeIds(completed, ids);
    forall x
      ensures x in m <==> x in LoggedIds(log) + RecordIds(r)
    {
      if x in ids {
        var i :| 0 <= i < |ids| && ids[i] == x;
        assert r.sentences[i].id == x;
      }
      if x in RecordIds(r) {
        var i :| 0 <= i < |r.sentences| && r.sentences[i].id == x;
        assert ids[i] == x;
      }
    }
  }

  /** The number of sentence records over a log of sessions
      (`reduce((sum, session) => sum + session.sentences.length, 0)`). */
  function TotalAnnotations(log: seq<SessionRecord>): nat {
    if log == [] then 0 else TotalAnnotations(log[..|log| - 1]) + |log[|log| - 1].sentences|
  }

  /** The total of a log split in two is the sum of the totals. */
  lemma {:induction false} TotalAnnotationsConcat(a: seq<SessionRecord>, b: seq<SessionRecord>)
    ensures TotalAnnotations(a + b) == TotalAnnotations(a) + TotalAnnotations(b)
    decreases |b|
  {
    if b == [] {
      assert a + b == a;
    } else {
      TotalAnnotationsConcat(a, b[..|b| - 1]);
      assert (a + b)[..|a + b| - 1] == a + b[..|b| - 1];
    }
  }

  /** Sessions of at most k sentences make at most k times as many records as sessions. */
  lemma {:induction false} TotalAnnotationsBound(log: seq<SessionRecord>, k: nat)
    requires forall i :: 0 <= i < |log| ==> |log[i].sentences| <= k
    ensures TotalAnnotations(log) <= k * |log|
  {
    if log != [] {
      TotalAnnotationsBound(log[..|log| - 1], k);
      assert k * |log| == k * (|log| - 1) + k;
    }
  }

  /** The archive of every submitted session. */
  datatype Archive = Archive(exportTimestamp: string, totalSessions: nat, totalAnnotations: nat, sessions: seq<SessionRecord>)

  /** `downloadAllAnnotations`: nothing while the log is empty; otherwise the
      whole log with its session count and its sentence-record count. */
  function ArchiveOf(timestamp: string, log: seq<SessionRecord>): (r: Option<Archive>)
    ensures r.None? <==> log == []
    ensures r.Some? ==>
      r.value.sessions == log && r.value.totalSessions == |log| &&
      r.value.totalAnnotations == TotalAnnotations(log)
  {
    if log == [] then None else Some(Archive(timestamp, |log|, TotalAnnotations(log), log))
  }

  /** One corpus sentence in the snapshot export. */
  datatype ExportedSentence = ExportedSentence(
    id: string, sentenceIndex: nat, sourceText: string,
    originalTranslations: seq<Candidate>, rankings: seq<RankingRecord>)

  datatype CorpusSnapshot = CorpusSnapshot(timestamp: string, totalSentences: nat, sentences: seq<ExportedSentence>)

  /** The rankings exported for a sentence: the saved ones, or the original
      candidate order when none were saved. */
  function ExportedRankings(s: Sentence): (r: seq<RankingRecord>)
    reads s
    ensures |s.rankings| > 0 ==> r == s.rankings
    ensures |s.rankings| == 0 ==> r == IdentityRanking(s.id, s.translations)
  {
    if |s.rankings| > 0 then s.rankings else IdentityRanking(s.id, s.translations)
  }

  function ExportedSentenceOf(s: Sentence, index: nat): ExportedSentence
    reads s
  {
    ExportedSentence(s.id, index + 1, s.sourceText, s.translations, ExportedRankings(s))
  }

  /** The snapshot `exportAnnotations` builds: every corpus sentence in
      corpus order, numbered from 1. */
  function SnapshotOf(timestamp: string, corpus: seq<Sentence>): (r: CorpusSnapshot)
    reads corpus
    ensures r.timestamp == timestamp && r.totalSentences == |corpus| && |r.sentences| == |corpus|
    ensures forall i :: 0 <= i < |corpus| ==> r.sentences[i] == ExportedSentenceOf(corpus[i], i)
  {
    CorpusSnapshot(timestamp, |corpus|, seq(|corpus|, i reads corpus requires 0 <= i < |corpus| => ExportedSentenceOf(corpus[i], i)))
  }

  /** When every saved ranking is dense, every exported ranking is: each
      sentence of the snapshot is numbered by its corpus position and carries
      ranks 1..k, k being the number of records saved or, if none were, the
      number of candidates. */
  lemma SnapshotRanksDense(timestamp: string, corpus: seq<Sentence>)
    requires forall s :: s in corpus ==> RanksDense(s.rankings)
    ensures forall i :: 0 <= i < |corpus| ==>
      var e := SnapshotOf(timestamp, corpus).sentences[i];
      e.sentenceIndex == i + 1 && RanksDense(e.rankings) &&
      |e.rankings| == (if |corpus[i].rankings| > 0 then |corpus[i].rankings| else |corpus[i].translations|)
  {
    forall i | 0 <= i < |corpus|
      ensures RanksDense(ExportedRankings(corpus[i]))
    {
      assert corpus[i] in corpus;
    }
  }
}
