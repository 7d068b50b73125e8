/**
 * The annotator's state machine: a corpus, the list of completed sentence
 * ids, the log of submitted sessions, the current session with its cursor
 * and the set of sentences the annotator has reordered, and the live
 * candidate list of the sentence on screen.
 */
module Annotator {
  import opened TextUtil
  import opened Csv
  import opened Ranking
  import opened Shuffle
  import opened Corpus
  import opened Export

  /** How many sentences a session asks for. */
  const SessionSize: nat := 5

  /** The rows a CSV text yields: nothing unless there are a header line and
      at least one data line among the non-blank lines; otherwise the rows of
      the data lines, with the header line naming the translation columns. */
  function CorpusRows(csvText: string): seq<Row> {
    var lines := NonBlankLines(SplitLines(csvText));
    if |lines| < 2 then [] else KeptRows(lines[1..], TranslationHeaders(lines[0]))
  }

  /** The submit gate of `submitSession` lets a session through exactly when
      the button `updateCompletionStatus` enables would be enabled: while the
      interacted ids belong to the session there are never more of them than
      sentences, and as many only when every session sentence was interacted
      with and no two session sentences share an id. */
  lemma GateAgreement(interacted: set<string>, ss: seq<Sentence>)
    requires interacted <= Ids(ss)
    ensures |interacted| <= |ss|
    ensures !(|interacted| < |ss|) <==> |interacted| == |ss|
    ensures |interacted| == |ss| ==> interacted == Ids(ss) && Distinct(IdSeq(ss))
  {
    IdsCount(ss);
    var rest := Ids(ss) - interacted;
    assert Ids(ss) == interacted + rest;
    assert |Ids(ss)| == |interacted| + |rest|;
    if |interacted| == |ss| {
      assert |rest| == 0;
    }
  }

  /** Two session sentences with the same id can never all be marked, so
      such a session can never be submitted. */
  lemma DuplicateIdsBlockSubmit(interacted: set<string>, ss: seq<Sentence>)
    requires interacted <= Ids(ss) && !Distinct(IdSeq(ss))
    ensures |interacted| < |ss|
  {
    GateAgreement(interacted, ss);
  }

  /** A drop reorders by a permutation of positions and renumbers: the live
      list keeps its candidates, each exactly as often as before, with
      ranks 1..k in the new order. */
  lemma ReorderKeepsCandidates(ts: seq<LiveCandidate>, order: seq<nat>)
    requires IsPermutation(order, |ts|)
    ensures var r := Renumbered(Apply(ts, order));
      Dense(r) && |r| == |ts| && multiset(Entries(r)) == multiset(Entries(ts)) &&
      forall i :: 0 <= i < |r| ==> r[i].data == ts[order[i]].data
  {
    PermutationLength(order, |ts|);
    var es := Entries(ts);
    assert Entries(Apply(ts, order)) == Apply(es, order);
    ApplyPermutation(es, order);
  }

  /** The data-line loop of `parseCSV`: one fresh entry, with nothing
      saved and nothing shuffled, per line with at least three fields. */
  method BuildCorpus(data: seq<string>, headers: seq<string>) returns (corpus: seq<Sentence>)
    ensures RowsOf(corpus) == KeptRows(data, headers)
    ensures Distinct(corpus)
    ensures forall s :: s in corpus ==> fresh(s) && s.rankings == [] && s.shuffledTranslations == []
  {
    corpus := [];
    for i := 0 to |data|
      invariant RowsOf(corpus) == KeptRows(data[..i], headers)
      invariant forall s :: s in corpus ==> fresh(s) && s.rankings == [] && s.shuffledTranslations == []
      invariant Distinct(corpus)
    {
      var columns := ParseCsvLine(data[i]);
      KeptRowsStep(data, i, headers);
      if |columns| >= 3 {
        var row := Row(Trim(columns[0]), Trim(columns[1]), CandidatesFrom(columns[2..], headers, 0));
        assert ParseRow(data[i], headers) == Some(row);
        var sentence := new Sentence(row);
        assert sentence !in corpus;
        DistinctAppend(corpus, sentence);
        RowsOfAppend(corpus, sentence);
        corpus := corpus + [sentence];
      }
    }
    assert data[..|data|] == data;
  }

  /** Entries allocated since the start of the calling method, by position. */
  twostate lemma FreshEntries(new corpus: seq<Sentence>)
    requires forall s :: s in corpus ==> fresh(s)
    ensures forall i :: 0 <= i < |corpus| ==> fresh(corpus[i])
  {
    assert forall i :: 0 <= i < |corpus| ==> corpus[i] in corpus;
  }

  class TranslationAnnotator {
    var csvData: seq<Sentence>
    var completedAnnotations: seq<string>
    var allAnnotations: seq<SessionRecord>
    var sessionSentences: seq<Sentence>
    var sessionIndex: nat
    var interactedSentences: set<string>
    var translations: seq<LiveCandidate>
    var ownerMode: bool
    var ownerAuthenticated: bool

    /** What every operation keeps: corpus and session hold no entry twice;
        a non-empty session has its cursor inside it, holds at most
        `SessionSize` sentences and tracks only its own ids; the live list is
        ranked 1..k; and every saved ranking is too. */
    ghost predicate Valid()
      reads this`csvData, this`sessionSentences, this`sessionIndex, this`interactedSentences,
        this`translations, csvData`rankings
    {
      SessionValid() && Dense(translations)
    }

    /** The part of `Valid()` that does not involve the live list. */
    ghost predicate SessionValid()
      reads this`csvData, this`sessionSentences, this`sessionIndex, this`interactedSentences, csvData`rankings
    {
      Distinct(csvData) && Distinct(sessionSentences) &&
      (|sessionSentences| > 0 ==>
        sessionIndex < |sessionSentences| <= SessionSize && interactedSentences <= Ids(sessionSentences)) &&
      (forall s :: s in csvData ==> RanksDense(s.rankings))
    }

    /** `new TranslationAnnotator()`: no corpus and no session, the stored
        completed ids and log read back, user mode. */
    constructor (storedCompleted: seq<string>, storedLog: seq<SessionRecord>)
      ensures Valid()
      ensures csvData == [] && completedAnnotations == storedCompleted && allAnnotations == storedLog
      ensures !ownerMode && !ownerAuthenticated
      ensures sessionSentences == [] && sessionIndex == 0 && interactedSentences == {} && translations == []
    {
      csvData := [];
      completedAnnotations := storedCompleted;
      allAnnotations := storedLog;
      sessionSentences := [];
      sessionIndex := 0;
      interactedSentences := {};
      translations := [];
      ownerMode := false;
      ownerAuthenticated := false;
    }

    /** `checkForExistingData`, which `init` runs at construction: a stored
        corpus text, if there is one, is loaded as by `parseCSV`; without one
        nothing changes. */
    method CheckForExistingData(storedCsv: string, sampleSeed: seq<nat>, translationSeeds: seq<seq<nat>>)
      requires Valid()
      modifies this`csvData, this`sessionSentences, this`sessionIndex, this`interactedSentences, this`translations
      ensures Valid()
      ensures storedCsv == "" ==>
        csvData == old(csvData) && sessionSentences == old(sessionSentences) && sessionIndex == old(sessionIndex) &&
        interactedSentences == old(interactedSentences) && translations == old(translations)
      ensures storedCsv != "" ==>
        RowsOf(csvData) == CorpusRows(storedCsv) &&
        (forall s :: s in csvData ==> s.rankings == []) &&
        NewSessionFrom(old(sessionSentences), old(sessionIndex), old(interactedSentences), old(translations),
                       sampleSeed, translationSeeds)
    {
      if storedCsv != "" {
        ParseCsv(storedCsv, sampleSeed, translationSeeds);
      }
    }

    /** A session has just started: the cursor on its first sentence,
        nothing interacted with, each sentence's candidates shuffled by its
        own seed, and the first sentence's shuffle on screen. */
    ghost predicate SessionStarted(translationSeeds: seq<seq<nat>>)
      reads this`sessionSentences, this`sessionIndex, this`interactedSentences, this`translations,
        sessionSentences`shuffledTranslations
    {
      |sessionSentences| > 0 && sessionIndex == 0 && interactedSentences == {} &&
      (forall i :: 0 <= i < |sessionSentences| ==>
        sessionSentences[i].shuffledTranslations == Shuffled(sessionSentences[i].translations, SeedAt(translationSeeds, i))) &&
      translations == Loaded(sessionSentences[0].shuffledTranslations)
    }

    /** In a session just started, each sentence's shuffle holds exactly its
        candidates, each as often as the corpus row has it. */
    lemma StartedShufflesPermute(translationSeeds: seq<seq<nat>>)
      requires SessionStarted(translationSeeds)
      ensures forall i :: 0 <= i < |sessionSentences| ==>
        multiset(sessionSentences[i].shuffledTranslations) == multiset(sessionSentences[i].translations)
    {
      forall i | 0 <= i < |sessionSentences|
        ensures multiset(sessionSentences[i].shuffledTranslations) == multiset(sessionSentences[i].translations)
      {
        ShuffledPermutes(sessionSentences[i].translations, SeedAt(translationSeeds, i));
      }
    }

    /** What `startNewSession` leaves, given the session fields it found:
        without a corpus, or in owner mode, those fields as they were;
        otherwise the seed's selection from the sentences not yet completed,
        with the old cursor, interaction set and live list when nothing was
        selected and a started session when something was. */
    ghost predicate NewSessionFrom(ss0: seq<Sentence>, index0: nat, interacted0: set<string>, live0: seq<LiveCandidate>,
                                   sampleSeed: seq<nat>, translationSeeds: seq<seq<nat>>)
      reads this`csvData, this`ownerMode, this`completedAnnotations, this`sessionSentences, this`sessionIndex,
        this`interactedSentences, this`translations, sessionSentences`shuffledTranslations
    {
      if csvData == [] || ownerMode then
        sessionSentences == ss0 && sessionIndex == index0 && interactedSentences == interacted0 && translations == live0
      else
        sessionSentences == SelectRandomSentences(csvData, completedAnnotations, SessionSize, sampleSeed) &&
        (sessionSentences == [] ==> sessionIndex == index0 && interactedSentences == interacted0 && translations == live0) &&
        (sessionSentences != [] ==> SessionStarted(translationSeeds))
    }

    /** `startNewSession`: without a corpus, or in owner mode, nothing
        happens. Otherwise the session becomes the seed's selection from the
        sentences not yet completed; an empty selection leaves cursor,
        interaction set and live list alone, and a non-empty one starts a
        session. Only the selected sentences get a new shuffle. */
    method StartNewSession(sampleSeed: seq<nat>, translationSeeds: seq<seq<nat>>)
      requires Valid()
      modifies this`sessionSentences, this`sessionIndex, this`interactedSentences, this`translations,
        csvData`shuffledTranslations
      ensures Valid()
      ensures NewSessionFrom(old(sessionSentences), old(sessionIndex), old(interactedSentences), old(translations),
                             sampleSeed, translationSeeds)
      ensures csvData == [] || ownerMode ==> forall s :: s in csvData ==> s.shuffledTranslations == old(s.shuffledTranslations)
      ensures forall s :: s in csvData && s !in sessionSentences ==> s.shuffledTranslations == old(s.shuffledTranslations)
    {
      if |csvData| == 0 || ownerMode {
        return;
      }
      var selected := SelectRandomSentences(csvData, completedAnnotations, SessionSize, sampleSeed);
      if |selected| == 0 {
        sessionSentences := [];
        return;
      }
      BeginSession(selected, translationSeeds);
    }

    /** The part of `startNewSession` after a non-empty selection. */
    method BeginSession(selected: seq<Sentence>, translationSeeds: seq<seq<nat>>)
      requires Valid() && selected != [] && |selected| <= SessionSize && Distinct(selected)
      requires forall s :: s in selected ==> s in csvData
      modifies this`sessionSentences, this`sessionIndex, this`interactedSentences, this`translations,
        csvData`shuffledTranslations
      ensures Valid() && sessionSentences == selected && SessionStarted(translationSeeds)
      ensures forall s :: s in csvData && s !in selected ==> s.shuffledTranslations == old(s.shuffledTranslations)
    {
      ShuffleSession(selected, translationSeeds);
      sessionSentences := selected;
      sessionIndex := 0;
      interactedSentences := {};
      LoadCurrentSessionSentence();
    }

    /** The `forEach` of `startNewSession`: each session sentence gets the
        shuffle of its candidates that its own seed picks. */
    method ShuffleSession(selected: seq<Sentence>, translationSeeds: seq<seq<nat>>)
      requires Distinct(selected) && forall s :: s in selected ==> s in csvData
      modifies csvData`shuffledTranslations
      ensures forall k :: 0 <= k < |selected| ==>
        selected[k].shuffledTranslations == Shuffled(selected[k].translations, SeedAt(translationSeeds, k))
      ensures forall s :: s in csvData && s !in selected ==> s.shuffledTranslations == old(s.shuffledTranslations)
    {
      for i := 0 to |selected|
        invariant forall k :: 0 <= k < i ==>
          selected[k].shuffledTranslations == Shuffled(selected[k].translations, SeedAt(translationSeeds, k))
        invariant forall s :: s in csvData && s !in selected ==> s.shuffledTranslations == old(s.shuffledTranslations)
      {
        var sentence := selected[i];
        assert sentence in csvData by {
          assert sentence in selected;
        }
        assert forall k :: 0 <= k < i ==> selected[k] != sentence;
        sentence.shuffledTranslations := Shuffled(sentence.translations, SeedAt(translationSeeds, i));
      }
    }

    /** `parseCSV` (the definition that takes effect): replaces the corpus by
        fresh entries for the rows of the text, then, when the corpus is not
        empty, starts a session from it as `startNewSession` does. */
    method ParseCsv(csvText: string, sampleSeed: seq<nat>, translationSeeds: seq<seq<nat>>)
      requires Valid()
      modifies this`csvData, this`sessionSentences, this`sessionIndex, this`interactedSentences, this`translations
      ensures Valid()
      ensures RowsOf(csvData) == CorpusRows(csvText)
      ensures forall s :: s in csvData ==> fresh(s)
      ensures forall s :: s in csvData ==> s.rankings == []
      ensures NewSessionFrom(old(sessionSentences), old(sessionIndex), old(interactedSentences), old(translations),
                             sampleSeed, translationSeeds)
    {
      LoadCorpus(csvText);
      FreshEntries(csvData);
      StartFromLoaded(sampleSeed, translationSeeds);
    }

    /** The end of `parseCSV`: when the corpus is not empty, a session
        starts from it; the entries keep their empty rankings. */
    method StartFromLoaded(sampleSeed: seq<nat>, translationSeeds: seq<seq<nat>>)
      requires Valid() && forall s :: s in csvData ==> s.rankings == []
      modifies this`sessionSentences, this`sessionIndex, this`interactedSentences, this`translations,
        csvData`shuffledTranslations
      ensures Valid()
      ensures forall s :: s in csvData ==> s.rankings == []
      ensures NewSessionFrom(old(sessionSentences), old(sessionIndex), old(interactedSentences), old(translations),
                             sampleSeed, translationSeeds)
    {
      if |csvData| > 0 {
        StartNewSession(sampleSeed, translationSeeds);
      }
    }

    /** The part of `parseCSV` before the session starts: the corpus becomes
        one fresh entry per data line with at least three fields. */
    method LoadCorpus(csvText: string)
      requires Valid()
      modifies this`csvData
      ensures Valid()
      ensures RowsOf(csvData) == CorpusRows(csvText)
      ensures forall s :: s in csvData ==> fresh(s) && s.rankings == [] && s.shuffledTranslations == []
    {
      var lines := NonBlankLines(SplitLines(csvText));
      csvData := [];
      if |lines| < 2 {
        return;
      }
      var headerColumns := ParseCsvLine(lines[0]);
      var headers := if |headerColumns| <= 2 then [] else headerColumns[2..];
      var corpus := BuildCorpus(lines[1..], headers);
      InstallCorpus(corpus);
    }

    /** The assignment that ends `parseCSV`'s row loop: the corpus becomes
        the given duplicate-free entries, none with saved rankings. */
    method InstallCorpus(corpus: seq<Sentence>)
      requires Valid() && Distinct(corpus) && forall s :: s in corpus ==> s.rankings == []
      modifies this`csvData
      ensures Valid() && csvData == corpus
    {
      csvData := corpus;
    }

    /** `submitSession`: refused while fewer sentences were interacted with
        than the session has, and then nothing changes. Otherwise records
        the session and, when sentences remain, starts a new one; that
        session shares no id with the submitted one. */
    method SubmitSession(timestamp: string, sessionId: int, sampleSeed: seq<nat>, translationSeeds: seq<seq<nat>>)
      returns (submitted: bool)
      requires Valid()
      modifies this`allAnnotations, this`completedAnnotations, this`sessionSentences, this`sessionIndex,
        this`interactedSentences, this`translations, OnScreen()`rankings, csvData`shuffledTranslations
      ensures Valid()
      ensures submitted <==> !(|old(interactedSentences)| < |old(sessionSentences)|)
      ensures |old(sessionSentences)| > 0 ==> (submitted <==> old(SubmitEnabled()))
      ensures !submitted ==>
        allAnnotations == old(allAnnotations) && completedAnnotations == old(completedAnnotations) &&
        sessionSentences == old(sessionSentences) && sessionIndex == old(sessionIndex) &&
        interactedSentences == old(interactedSentences) && translations == old(translations)
      ensures !submitted ==>
        unchanged(OnScreen()) && forall s :: s in csvData ==> s.shuffledTranslations == old(s.shuffledTranslations)
      ensures submitted ==>
        allAnnotations ==
          old(allAnnotations) + [old(SessionRecordSaving(timestamp, sessionId, sessionSentences, sessionIndex, Snapshot(translations)))]
      ensures submitted && |old(sessionSentences)| > 0 ==> old(Current()).rankings == old(Snapshot(translations))
      ensures submitted ==> completedAnnotations == MergeIds(old(completedAnnotations), IdSeq(old(sessionSentences)))
      ensures Distinct(old(completedAnnotations)) ==> Distinct(completedAnnotations)
      ensures old(CompletedMatchesLog()) ==> CompletedMatchesLog()
      ensures old(LogWithinSessionSize()) ==> LogWithinSessionSize()
      ensures submitted && AvailableSentences(csvData, completedAnnotations) != [] ==>
        NewSessionFrom(old(sessionSentences), old(sessionIndex), old(interactedSentences), old(translations),
                       sampleSeed, translationSeeds) &&
        (!ownerMode ==> forall s :: s in sessionSentences ==> s.id !in Ids(old(sessionSentences)))
      ensures submitted && AvailableSentences(csvData, completedAnnotations) == [] ==>
        sessionSentences == old(sessionSentences) && sessionIndex == old(sessionIndex) &&
        interactedSentences == old(interactedSentences) && translations == old(translations)
      ensures submitted ==>
        forall s :: s in csvData && s !in sessionSentences ==> s.shuffledTranslations == old(s.shuffledTranslations)
      ensures submitted && (AvailableSentences(csvData, completedAnnotations) == [] || ownerMode) ==>
        forall s :: s in csvData ==> s.shuffledTranslations == old(s.shuffledTranslations)
    {
      if |sessionSentences| > 0 {
        GateAgreement(interactedSentences, sessionSentences);
      }
      if |interactedSentences| < |sessionSentences| {
        return false;
      }
      AcceptSession(timestamp, sessionId, sampleSeed, translationSeeds);
      submitted := true;
    }

    /** The part of `submitSession` once the gate lets the session through:
        the session is recorded and, when sentences remain, a new one starts. */
    method AcceptSession(timestamp: string, sessionId: int, sampleSeed: seq<nat>, translationSeeds: seq<seq<nat>>)
      requires Valid()
      modifies this`allAnnotations, this`completedAnnotations, this`sessionSentences, this`sessionIndex,
        this`interactedSentences, this`translations, OnScreen()`rankings, csvData`shuffledTranslations
      ensures Valid()
      ensures allAnnotations ==
        old(allAnnotations) + [old(SessionRecordSaving(timestamp, sessionId, sessionSentences, sessionIndex, Snapshot(translations)))]
      ensures |old(sessionSentences)| > 0 ==> old(Current()).rankings == old(Snapshot(translations))
      ensures completedAnnotations == MergeIds(old(completedAnnotations), IdSeq(old(sessionSentences)))
      ensures Distinct(old(completedAnnotations)) ==> Distinct(completedAnnotations)
      ensures old(CompletedMatchesLog()) ==> CompletedMatchesLog()
      ensures old(LogWithinSessionSize()) ==> LogWithinSessionSize()
      ensures AvailableSentences(csvData, completedAnnotations) != [] ==>
        NewSessionFrom(old(sessionSentences), old(sessionIndex), old(interactedSentences), old(translations),
                       sampleSeed, translationSeeds) &&
        (!ownerMode ==> forall s :: s in sessionSentences ==> s.id !in Ids(old(sessionSentences)))
      ensures AvailableSentences(csvData, completedAnnotations) == [] ==>
        sessionSentences == old(sessionSentences) && sessionIndex == old(sessionIndex) &&
        interactedSentences == old(interactedSentences) && translations == old(translations)
      ensures forall s :: s in csvData && s !in sessionSentences ==> s.shuffledTranslations == old(s.shuffledTranslations)
      ensures AvailableSentences(csvData, completedAnnotations) == [] || ownerMode ==>
        forall s :: s in csvData ==> s.shuffledTranslations == old(s.shuffledTranslations)
    {
      RecordSession(timestamp, sessionId);
      ContinueSessions(old(completedAnnotations), sampleSeed, translationSeeds);
    }

    /** The end of `submitSession`, once the session's ids are merged into
        the completed list: a new session when sentences remain, and one
        that shares no id with the submitted session. */
    method ContinueSessions(ghost completed0: seq<string>, sampleSeed: seq<nat>, translationSeeds: seq<seq<nat>>)
      requires Valid() && completedAnnotations == MergeIds(completed0, IdSeq(sessionSentences))
      modifies this`sessionSentences, this`sessionIndex, this`interactedSentences, this`translations,
        csvData`shuffledTranslations
      ensures Valid()
      ensures AvailableSentences(csvData, completedAnnotations) != [] ==>
        NewSessionFrom(old(sessionSentences), old(sessionIndex), old(interactedSentences), old(translations),
                       sampleSeed, translationSeeds) &&
        (!ownerMode ==> forall s :: s in sessionSentences ==> s.id !in Ids(old(sessionSentences)))
      ensures AvailableSentences(csvData, completedAnnotations) == [] ==>
        sessionSentences == old(sessionSentences) && sessionIndex == old(sessionIndex) &&
        interactedSentences == old(interactedSentences) && translations == old(translations)
      ensures forall s :: s in csvData && s !in sessionSentences ==> s.shuffledTranslations == old(s.shuffledTranslations)
      ensures AvailableSentences(csvData, completedAnnotations) == [] || ownerMode ==>
        forall s :: s in csvData ==> s.shuffledTranslations == old(s.shuffledTranslations)
    {
      var remaining := AvailableSentences(csvData, completedAnnotations);
      if |remaining| > 0 {
        SessionsDisjoint(csvData, completed0, sessionSentences, SessionSize, sampleSeed);
        StartNewSession(sampleSeed, translationSeeds);
      }
    }

    /** The part of `submitSession` past the gate: saves the rankings on
        screen, appends one record of the session to the log, and pushes
        each session id not yet completed onto the completed list. */
    method RecordSession(timestamp: string, sessionId: int)
      requires Valid()
      modifies this`allAnnotations, this`completedAnnotations, OnScreen()`rankings
      ensures Valid()
      ensures allAnnotations ==
        old(allAnnotations) + [old(SessionRecordSaving(timestamp, sessionId, sessionSentences, sessionIndex, Snapshot(translations)))]
      ensures completedAnnotations == MergeIds(old(completedAnnotations), IdSeq(sessionSentences))
      ensures Distinct(old(completedAnnotations)) ==> Distinct(completedAnnotations)
      ensures |sessionSentences| > 0 ==> Current().rankings == old(Snapshot(translations))
      ensures old(CompletedMatchesLog()) ==> CompletedMatchesLog()
      ensures old(LogWithinSessionSize()) ==> LogWithinSessionSize()
    {
      ghost var log, completed := allAnnotations, completedAnnotations;
      LogSession(timestamp, sessionId);
      MergeSessionIds();
      if (set x | x in completed) == LoggedIds(log) {
        MergeKeepsLoggedIds(completed, log, allAnnotations[|log|], IdSeq(sessionSentences));
      }
    }

    /** The part of `submitSession` before the merge: the on-screen sentence
        saves its rankings and the session's record is appended to the log. */
    method LogSession(timestamp: string, sessionId: int)
      requires Valid()
      modifies this`allAnnotations, OnScreen()`rankings
      ensures Valid()
      ensures allAnnotations ==
        old(allAnnotations) + [old(SessionRecordSaving(timestamp, sessionId, sessionSentences, sessionIndex, Snapshot(translations)))]
      ensures |sessionSentences| > 0 ==> Current().rankings == old(Snapshot(translations))
      ensures old(LogWithinSessionSize()) ==> LogWithinSessionSize()
    {
      ghost var expected := SessionRecordSaving(timestamp, sessionId, sessionSentences, sessionIndex, Snapshot(translations));
      SaveCurrentRankings();
      var record := SessionRecordOf(timestamp, sessionId, sessionSentences);
      forall i | 0 <= i < |sessionSentences|
        ensures record.sentences[i] == expected.sentences[i]
      {
        if i != sessionIndex {
          assert sessionSentences[i] != sessionSentences[sessionIndex];
        }
      }
      assert record.sentences == expected.sentences;
      allAnnotations := allAnnotations + [record];
    }

    /** The `forEach` of `submitSession` that pushes each session id not
        yet in the completed list. */
    method MergeSessionIds()
      modifies this`completedAnnotations
      ensures completedAnnotations == MergeIds(old(completedAnnotations), IdSeq(sessionSentences))
      ensures Distinct(old(completedAnnotations)) ==> Distinct(completedAnnotations)
    {
      ghost var ids := IdSeq(sessionSentences);
      for i := 0 to |sessionSentences|
        invariant completedAnnotations == MergeIds(old(completedAnnotations), ids[..i])
      {
        assert ids[..i + 1][..i] == ids[..i];
        var id := sessionSentences[i].id;
        if id !in completedAnnotations {
          completedAnnotations := completedAnnotations + [id];
        }
      }
      assert ids[..|ids|] == ids;
      MergeIdsDistinct(old(completedAnnotations), ids);
    }

    /** Every logged session holds at most `SessionSize` sentences. */
    ghost predicate LogWithinSessionSize()
      reads this`allAnnotations
    {
      forall i :: 0 <= i < |allAnnotations| ==> |allAnnotations[i].sentences| <= SessionSize
    }

    /** The archive's record count is at most `SessionSize` per logged session. */
    lemma LoggedRecordsBound()
      requires LogWithinSessionSize()
      ensures TotalAnnotations(allAnnotations) <= SessionSize * |allAnnotations|
    {
      TotalAnnotationsBound(allAnnotations, SessionSize);
    }

    /** The completed ids are exactly the ids of the logged sessions. */
    ghost predicate CompletedMatchesLog()
      reads this`completedAnnotations, this`allAnnotations
    {
      (set x | x in completedAnnotations) == LoggedIds(allAnnotations)
    }

    /** `switchMode`: owner mode only once authenticated; switching to user
        mode drops the authentication. */
    method SwitchMode(owner: bool)
      modifies this`ownerMode, this`ownerAuthenticated
      ensures owner && !old(ownerAuthenticated) ==> ownerMode == old(ownerMode) && !ownerAuthenticated
      ensures owner && old(ownerAuthenticated) ==> ownerMode && ownerAuthenticated
      ensures !owner ==> !ownerMode && !ownerAuthenticated
    {
      if owner && !ownerAuthenticated {
        return;
      }
      if !owner {
        ownerAuthenticated := false;
      }
      ownerMode := owner;
    }

    /** `promptOwnerPassword`, given whether the prompt was cancelled
        (`None`) or its answer matched the owner password: a match
        authenticates and switches to owner mode, a mismatch drops the
        authentication, a cancel changes nothing. */
    method Authenticate(answer: Option<bool>)
      modifies this`ownerMode, this`ownerAuthenticated
      ensures answer == Some(true) ==> ownerMode && ownerAuthenticated
      ensures answer == Some(false) ==> ownerMode == old(ownerMode) && !ownerAuthenticated
      ensures answer == None ==> ownerMode == old(ownerMode) && ownerAuthenticated == old(ownerAuthenticated)
    {
      match answer
      case None =>
      case Some(matches) =>
        if matches {
          ownerAuthenticated := true;
          SwitchMode(true);
        } else {
          ownerAuthenticated := false;
        }
    }

    /** The submit button is enabled (`updateCompletionStatus`). */
    predicate SubmitEnabled()
      reads this
    {
      |interactedSentences| == |sessionSentences|
    }

    /** The sentence on screen, when there is a session. */
    function Current(): Sentence
      reads this
      requires |sessionSentences| > 0 && sessionIndex < |sessionSentences|
    {
      sessionSentences[sessionIndex]
    }

    /** The objects `saveCurrentRankings` may write: the sentence on screen. */
    function OnScreen(): set<Sentence>
      reads this
    {
      if |sessionSentences| > 0 && sessionIndex < |sessionSentences| then {sessionSentences[sessionIndex]} else {}
    }

    /** `addTranslation`: appends the candidate with rank length + 1. */
    method AddTranslation(input: TranslationInput)
      requires Valid()
      modifies this`translations
      ensures Valid()
      ensures translations == old(translations) + [LiveCandidate(DataOf(input), |old(translations)| + 1)]
    {
      translations := translations + [LiveCandidate(DataOf(input), |translations| + 1)];
    }

    /** `updateRanks`: gives every entry the rank of its position. */
    method UpdateRanks()
      modifies this`translations
      ensures translations == Renumbered(old(translations))
    {
      var i := 0;
      while i < |translations|
        invariant 0 <= i <= |translations| == |old(translations)|
        invariant forall k :: 0 <= k < i ==> translations[k] == old(translations)[k].(rank := k + 1)
        invariant forall k :: i <= k < |translations| ==> translations[k] == old(translations)[k]
      {
        translations := translations[i := translations[i].(rank := i + 1)];
        i := i + 1;
      }
      assert translations == Renumbered(old(translations));
    }

    /** `deleteTranslation`: once confirmed, splices one entry out and renumbers. */
    method DeleteTranslation(index: int, confirmed: bool)
      requires Valid()
      modifies this`translations
      ensures Valid()
      ensures translations == if confirmed then Renumbered(SpliceOne(old(translations), index)) else old(translations)
    {
      if confirmed {
        translations := SpliceOne(translations, index);
        UpdateRanks();
      }
    }

    /** `markSentenceAsInteracted`: adds the id of the sentence on screen. */
    method MarkSentenceAsInteracted()
      requires Valid()
      modifies this`interactedSentences
      ensures Valid()
      ensures interactedSentences ==
        if |sessionSentences| > 0 then old(interactedSentences) + {Current().id} else old(interactedSentences)
    {
      if |sessionSentences| > 0 {
        var current := sessionSentences[sessionIndex];
        interactedSentences := interactedSentences + {current.id};
      }
    }

    /** The drop handler: reorders the live list by the positions the page
        reports, renumbers, and marks the sentence on screen as interacted. */
    method DropReorder(order: seq<nat>)
      requires Valid() && IsPermutation(order, |translations|)
      modifies this`translations, this`interactedSentences
      ensures Valid()
      ensures translations == Renumbered(Apply(old(translations), order))
      ensures multiset(Entries(translations)) == multiset(Entries(old(translations)))
      ensures interactedSentences ==
        if |sessionSentences| > 0 then old(interactedSentences) + {Current().id} else old(interactedSentences)
    {
      ReorderKeepsCandidates(translations, order);
      translations := Apply(translations, order);
      UpdateRanks();
      MarkSentenceAsInteracted();
    }

    /** `saveCurrentRankings`: the sentence on screen gets a record of the
        live list, one per entry in list order. */
    method SaveCurrentRankings()
      requires Valid()
      modifies OnScreen()`rankings
      ensures Valid()
      ensures |sessionSentences| > 0 ==> Current().rankings == Snapshot(translations)
    {
      if |sessionSentences| > 0 && sessionIndex < |sessionSentences| {
        var current := sessionSentences[sessionIndex];
        current.rankings := Snapshot(translations);
      }
    }

    /** `loadCurrentSessionSentence`: rebuilds the live list from the shuffle
        of the sentence on screen, one `addTranslation` per candidate. */
    method LoadCurrentSessionSentence()
      requires Valid()
      modifies this`translations
      ensures Valid()
      ensures |sessionSentences| > 0 ==> translations == Loaded(Current().shuffledTranslations)
      ensures |sessionSentences| == 0 ==> translations == old(translations)
    {
      if |sessionSentences| == 0 {
        return;
      }
      var current := sessionSentences[sessionIndex];
      var cs := current.shuffledTranslations;
      translations := [];
      for i := 0 to |cs|
        invariant Valid()
        invariant translations == Loaded(cs[..i])
      {
        assert cs[..i + 1][..i] == cs[..i];
        AddTranslation(FromCandidate(cs[i]));
      }
      assert cs[..|cs|] == cs;
    }

    /** `previousSentence`: unless on the first sentence, saves the rankings
        of the sentence being left, steps back and reloads. */
    method PreviousSentence()
      requires Valid()
      modifies this`sessionIndex, this`translations, OnScreen()`rankings
      ensures Valid()
      ensures old(sessionIndex) > 0 ==> sessionIndex == old(sessionIndex) - 1
      ensures old(sessionIndex) == 0 ==> sessionIndex == 0 && translations == old(translations) && unchanged(OnScreen())
      ensures |sessionSentences| == 0 ==> translations == old(translations)
      ensures old(sessionIndex) > 0 && |sessionSentences| > 0 ==>
        sessionSentences[old(sessionIndex)].rankings == Snapshot(old(translations)) &&
        translations == Loaded(Current().shuffledTranslations)
    {
      if sessionIndex > 0 {
        SaveCurrentRankings();
        sessionIndex := sessionIndex - 1;
        LoadCurrentSessionSentence();
      }
    }

    /** `nextSentence`: saves the rankings of the sentence on screen; unless
        it is the last one, steps forward and reloads. */
    method NextSentence()
      requires Valid()
      modifies this`sessionIndex, this`translations, OnScreen()`rankings
      ensures Valid()
      ensures sessionIndex == if old(sessionIndex) < |sessionSentences| - 1 then old(sessionIndex) + 1 else old(sessionIndex)
      ensures |sessionSentences| > 0 ==> sessionSentences[old(sessionIndex)].rankings == Snapshot(old(translations))
      ensures sessionIndex != old(sessionIndex) ==> translations == Loaded(Current().shuffledTranslations)
      ensures sessionIndex == old(sessionIndex) ==> translations == old(translations)
    {
      if sessionIndex < |sessionSentences| - 1 {
        SaveCurrentRankings();
        sessionIndex := sessionIndex + 1;
        LoadCurrentSessionSentence();
      } else {
        SaveCurrentRankings();
      }
    }

    /** `resetAllData`: once confirmed, forgets the corpus, the completed
        ids and the log; the session on screen is left as it is. */
    method ResetAllData(confirmed: bool)
      requires Valid()
      modifies this`csvData, this`completedAnnotations, this`allAnnotations
      ensures Valid()
      ensures confirmed ==> csvData == [] && completedAnnotations == [] && allAnnotations == []
      ensures !confirmed ==>
        csvData == old(csvData) && completedAnnotations == old(completedAnnotations) &&
        allAnnotations == old(allAnnotations)
      ensures confirmed || old(CompletedMatchesLog()) ==> CompletedMatchesLog()
      ensures confirmed || old(LogWithinSessionSize()) ==> LogWithinSessionSize()
    {
      if confirmed {
        completedAnnotations := [];
        allAnnotations := [];
        csvData := [];
      }
    }

    /** `exportAnnotations`: nothing without a corpus; otherwise saves the
        rankings on screen and snapshots the whole corpus, which sees them
        because session sentences are corpus entries. */
    method ExportAnnotations(timestamp: string) returns (r: Option<CorpusSnapshot>)
      requires Valid()
      modifies OnScreen()`rankings
      ensures Valid()
      ensures csvData == [] ==> r == None && (|sessionSentences| > 0 ==> Current().rankings == old(Current().rankings))
      ensures csvData != [] ==>
        (|sessionSentences| > 0 ==> Current().rankings == Snapshot(translations)) &&
        r == Some(SnapshotOf(timestamp, csvData))
    {
      if |csvData| == 0 {
        return None;
      }
      SaveCurrentRankings();
      r := Some(SnapshotOf(timestamp, csvData));
    }
  }
}
