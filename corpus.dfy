/**
 * The corpus and the pool of sentences still to annotate. Each sentence is
 * an object: a session holds references to corpus entries, so a shuffle or
 * a saved ranking written through the session is seen through the corpus.
 */
module Corpus {
  import opened Csv
  import opened Ranking
  import opened Shuffle

  /** A corpus entry: what its row said, plus the two fields sessions write. */
  class Sentence {
    const id: string
    const sourceText: string
    const translations: seq<Candidate>
    var shuffledTranslations: seq<Candidate>
    var rankings: seq<RankingRecord>

    constructor (row: Row)
      ensures id == row.id && sourceText == row.sourceText && translations == row.translations
      ensures shuffledTranslations == [] && rankings == []
    {
      id := row.id;
      sourceText := row.sourceText;
      translations := row.translations;
      shuffledTranslations := [];
      rankings := [];
    }
  }

  /** The rows the entries were built from. */
  function RowsOf(corpus: seq<Sentence>): seq<Row> {
    seq(|corpus|, i requires 0 <= i < |corpus| => Row(corpus[i].id, corpus[i].sourceText, corpus[i].translations))
  }

  lemma RowsOfAppend(corpus: seq<Sentence>, s: Sentence)
    ensures RowsOf(corpus + [s]) == RowsOf(corpus) + [Row(s.id, s.sourceText, s.translations)]
  {
  }

  /** The ids of the entries, in order. */
  function IdSeq(ss: seq<Sentence>): seq<string> {
    seq(|ss|, i requires 0 <= i < |ss| => ss[i].id)
  }

  /** The ids of the entries, as a set. */
  function Ids(ss: seq<Sentence>): set<string> {
    set s | s in ss :: s.id
  }

  lemma IdSeqIds(ss: seq<Sentence>)
    ensures forall x :: x in IdSeq(ss) <==> x in Ids(ss)
  {
    forall x | x in Ids(ss) ensures x in IdSeq(ss) {
      var s :| s in ss && s.id == x;
      var i :| 0 <= i < |ss| && ss[i] == s;
      assert IdSeq(ss)[i] == x;
    }
  }

  /** There are at most as many ids as entries, and as many exactly when
      no id repeats. */
  lemma {:induction false} IdsCount(ss: seq<Sentence>)
    ensures |Ids(ss)| <= |ss|
    ensures |Ids(ss)| == |ss| ==> Distinct(IdSeq(ss))
  {
    if ss != [] {
      var p := ss[..|ss| - 1];
      var last := ss[|ss| - 1];
      IdsCount(p);
      assert ss == p + [last];
      assert Ids(ss) == Ids(p) + {last.id};
      if |Ids(ss)| == |ss| {
        assert last.id !in Ids(p);
        IdSeqIds(p);
        assert IdSeq(ss) == IdSeq(p) + [last.id];
      }
    }
  }

  /** `getAvailableSentences`: the entries whose id is not among the completed ones. */
  function AvailableSentences(corpus: seq<Sentence>, completed: seq<string>): (r: seq<Sentence>)
    ensures |r| <= |corpus|
  {
    if corpus == [] then []
    else
      var prev := AvailableSentences(corpus[..|corpus| - 1], completed);
      var s := corpus[|corpus| - 1];
      if s.id in completed then prev else prev + [s]
  }

  /** An entry is available exactly when it is in the corpus and its id is
      not completed. */
  lemma {:induction false} AvailableMembers(corpus: seq<Sentence>, completed: seq<string>)
    ensures forall s :: s in AvailableSentences(corpus, completed) <==> s in corpus && s.id !in completed
  {
    if corpus != [] {
      var p, x := corpus[..|corpus| - 1], corpus[|corpus| - 1];
      AvailableMembers(p, completed);
      assert corpus == p + [x];
    }
  }

  /** The filter works entry by entry, so it keeps corpus order. */
  lemma {:induction false} AvailableConcat(a: seq<Sentence>, b: seq<Sentence>, completed: seq<string>)
    ensures AvailableSentences(a + b, completed) == AvailableSentences(a, completed) + AvailableSentences(b, completed)
    decreases |b|
  {
    if b == [] {
      assert a + b == a;
    } else {
      var b' := b[..|b| - 1];
      AvailableConcat(a, b', completed);
      assert (a + b)[..|a + b| - 1] == a + b';
    }
  }

  /** With nothing completed, every entry is available. */
  lemma {:induction false} AvailableNoneCompleted(corpus: seq<Sentence>, completed: seq<string>)
    requires forall s :: s in corpus ==> s.id !in completed
    ensures AvailableSentences(corpus, completed) == corpus
  {
    if corpus != [] {
      AvailableNoneCompleted(corpus[..|corpus| - 1], completed);
      assert corpus == corpus[..|corpus| - 1] + [corpus[|corpus| - 1]];
    }
  }

  /** Filtering a list of distinct entries gives distinct entries. */
  lemma {:induction false} AvailableDistinct(corpus: seq<Sentence>, completed: seq<string>)
    ensures Distinct(corpus) ==> Distinct(AvailableSentences(corpus, completed))
  {
    if corpus != [] && Distinct(corpus) {
      var p := corpus[..|corpus| - 1];
      var s := corpus[|corpus| - 1];
      assert Distinct(p);
      AvailableDistinct(p, completed);
      AvailableMembers(p, completed);
      assert s !in p;
    }
  }

  function Min(a: int, b: int): int {
    if a < b then a else b
  }

  /** Splitting a sequence splits its multiset. */
  lemma PrefixMultiset<T>(s: seq<T>, k: nat)
    requires k <= |s|
    ensures multiset(s[..k]) <= multiset(s)
    ensures Distinct(s) ==> Distinct(s[..k])
  {
    assert s == s[..k] + s[k..];
  }

  /** `selectRandomSentences(count)`: up to `count` available entries, drawn
      without replacement in the order the seed shuffles them; empty exactly
      when nothing is available or nothing is asked for. */
  function SelectRandomSentences(corpus: seq<Sentence>, completed: seq<string>, count: nat, seed: seq<nat>): (r: seq<Sentence>)
    ensures |r| == Min(count, |AvailableSentences(corpus, completed)|)
    ensures forall s :: s in r ==> s in corpus && s.id !in completed
    ensures r == [] <==> count == 0 || AvailableSentences(corpus, completed) == []
    ensures Distinct(corpus) ==> Distinct(r)
  {
    var avail := AvailableSentences(corpus, completed);
    if |avail| == 0 then []
    else
      var shuffled := Shuffled(avail, seed);
      var k := Min(count, |avail|);
      AvailableDistinct(corpus, completed);
      AvailableMembers(corpus, completed);
      ShuffledDistinct(avail, seed);
      ShuffledPermutes(avail, seed);
      PrefixMultiset(shuffled, k);
      assert forall s :: s in shuffled[..k] ==> s in multiset(avail);
      shuffled[..k]
  }

  /** The selection is drawn without replacement: no entry is selected more
      often than it is available. */
  lemma SelectionFromAvailable(corpus: seq<Sentence>, completed: seq<string>, count: nat, seed: seq<nat>)
    ensures multiset(SelectRandomSentences(corpus, completed, count, seed)) <= multiset(AvailableSentences(corpus, completed))
  {
    var avail := AvailableSentences(corpus, completed);
    if |avail| > 0 {
      ShuffledPermutes(avail, seed);
      PrefixMultiset(Shuffled(avail, seed), Min(count, |avail|));
    }
  }

  /** Every arrangement of the available entries can come first out of the
      shuffle, so any `count` of them, in any order, may be selected. */
  lemma SelectionReachesEvery(corpus: seq<Sentence>, completed: seq<string>, count: nat, ys: seq<Sentence>)
    requires multiset(ys) == multiset(AvailableSentences(corpus, completed))
    ensures exists seed :: SelectRandomSentences(corpus, completed, count, seed) == ys[..Min(count, |ys|)]
  {
    var avail := AvailableSentences(corpus, completed);
    if avail == [] {
      assert |multiset(ys)| == 0;
      assert SelectRandomSentences(corpus, completed, count, []) == ys[..Min(count, |ys|)];
    } else {
      var seed := SeedFor(avail, ys);
      assert SelectRandomSentences(corpus, completed, count, seed) == ys[..Min(count, |ys|)];
    }
  }

  /** The shuffle seed of the i-th selected sentence. */
  function SeedAt(seeds: seq<seq<nat>>, i: nat): seq<nat> {
    if i < |seeds| then seeds[i] else []
  }

  /** The completed list after `submitSession` has pushed each id not yet in
      it, in session order: exactly the old ids and the new ones, with the
      old list kept as a prefix. */
  function MergeIds(completed: seq<string>, ids: seq<string>): (r: seq<string>)
    ensures forall x :: x in r <==> x in completed || x in ids
    ensures |completed| <= |r| && r[..|completed|] == completed
  {
    if ids == [] then completed
    else
      var m := MergeIds(completed, ids[..|ids| - 1]);
      var x := ids[|ids| - 1];
      assert ids == ids[..|ids| - 1] + [x];
      if x in m then m else m + [x]
  }

  /** Merging never introduces a duplicate. */
  lemma {:induction false} MergeIdsDistinct(completed: seq<string>, ids: seq<string>)
    ensures Distinct(completed) ==> Distinct(MergeIds(completed, ids))
  {
    if ids != [] {
      MergeIdsDistinct(completed, ids[..|ids| - 1]);
    }
  }

  /** Merging ids that are all present already changes nothing. */
  lemma {:induction false} MergeIdsKnown(completed: seq<string>, ids: seq<string>)
    requires forall x :: x in ids ==> x in completed
    ensures MergeIds(completed, ids) == completed
  {
    if ids != [] {
      var p := ids[..|ids| - 1];
      assert forall x :: x in p ==> x in ids;
      MergeIdsKnown(completed, p);
      assert ids[|ids| - 1] in ids;
    }
  }

  /** Marking the same sentences completed twice is marking them once. */
  lemma MergeIdsIdempotent(completed: seq<string>, ids: seq<string>)
    ensures MergeIds(MergeIds(completed, ids), ids) == MergeIds(completed, ids)
  {
    MergeIdsKnown(MergeIds(completed, ids), ids);
  }

  /** After a session's ids are merged into the completed list, no sentence
      with one of those ids can be selected again. */
  lemma SessionsDisjoint(corpus: seq<Sentence>, completed: seq<string>, session: seq<Sentence>, count: nat, seed: seq<nat>)
    ensures forall s :: s in SelectRandomSentences(corpus, MergeIds(completed, IdSeq(session)), count, seed) ==>
      s.id !in Ids(session) && s !in session
  {
    IdSeqIds(session);
  }
}
