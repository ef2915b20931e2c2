/** The review aggregator: turns one LLM answer into a feature review,
    folds the answer's memory suggestion into the stored feature memory, and
    merges the reviews of all features into the text posted on the pull
    request. */
module Aggregator {
  import opened Base
  import opened Seqs
  import opened JavaString
  import opened Dto
  import MemoryStore

  /** Posted when no feature produced a review. */
  const NoReviews := "리뷰 결과가 없습니다."

  /** Opens a report that combines two or more reviews. */
  const MergedHeading := "# 전체 리뷰 결과\n\n"

  /** Separates an old summary from the one appended to it. */
  const SummarySeparator := " | "

  /** One feature's review inside a combined report. */
  function ReviewBlock(r: AggregatedReview): string {
    "## " + r.feature + " 기능\n\n" + r.review + "\n\n" + "---\n\n"
  }

  /** `mergeReviews`: the fixed sentence for no reviews, a lone review as it
      is, and otherwise a heading followed by one block per review. */
  function MergeReviews(reviews: seq<AggregatedReview>): (r: string)
    ensures reviews == [] ==> r == NoReviews
    ensures |reviews| == 1 ==> r == reviews[0].review
    ensures |reviews| >= 2 ==> StartsWith(r, MergedHeading)
    ensures |reviews| >= 2 ==> |r| == |MergedHeading| + |Flatten(reviews, ReviewBlock)|
  {
    if reviews == [] then NoReviews
    else if |reviews| == 1 then reviews[0].review
    else
      var r := MergedHeading + Flatten(reviews, ReviewBlock);
      assert r[..|MergedHeading|] == MergedHeading;
      r
  }

  /** In a combined report, review `i` is rendered right after the blocks of
      the reviews before it, so blocks keep input order. */
  lemma MergedBlockAt(reviews: seq<AggregatedReview>, i: nat)
    requires |reviews| >= 2 && i < |reviews|
    ensures StartsAt(MergeReviews(reviews),
                     |MergedHeading| + |Flatten(reviews[..i], ReviewBlock)|,
                     ReviewBlock(reviews[i]))
  {
    assert MergeReviews(reviews) == MergedHeading + Flatten(reviews, ReviewBlock) + "";
    LocateRendered(MergedHeading, reviews, i, ReviewBlock, "");
  }

  /** Reviewing more features only appends blocks to a combined report. */
  lemma MergeReviewsAppend(a: seq<AggregatedReview>, b: seq<AggregatedReview>)
    requires |a| >= 2
    ensures MergeReviews(a + b) == MergeReviews(a) + Flatten(b, ReviewBlock)
  {
    PrefixedFlattenAppend(MergedHeading, a, b, ReviewBlock);
  }

  /** The related-file merge: each suggested file not already in the growing
      list is appended, in suggestion order. */
  function MergeFiles(merged: seq<string>, suggested: seq<string>): (r: seq<string>)
    ensures merged <= r
    ensures forall f :: f in r ==> f in merged || f in suggested
    ensures forall f :: f in merged || f in suggested ==> f in r
    ensures |r| <= |merged| + |suggested|
    ensures NoDup(merged) ==> NoDup(r)
    decreases |suggested|
  {
    if suggested == [] then merged
    else
      var f := suggested[0];
      var next := if f in merged then merged else merged + [f];
      assert forall g :: g in suggested ==> g == f || g in suggested[1..];
      var r := MergeFiles(next, suggested[1..]);
      assert merged <= next;
      r
  }

  /** Merging one more suggestion appends it exactly when it is new. */
  lemma {:induction false} MergeFilesSnoc(merged: seq<string>, suggested: seq<string>, x: string)
    ensures MergeFiles(merged, suggested + [x])
         == var r := MergeFiles(merged, suggested); if x in r then r else r + [x]
    decreases |suggested|
  {
    if suggested == [] {
      assert suggested + [x] == [x];
    } else {
      var f := suggested[0];
      var next := if f in merged then merged else merged + [f];
      assert (suggested + [x])[0] == f;
      assert (suggested + [x])[1..] == suggested[1..] + [x];
      MergeFilesSnoc(next, suggested[1..], x);
    }
  }

  function NotIn(xs: seq<string>): string -> bool {
    f => f !in xs
  }

  /** A suggestion the old list already has leaves both sides alone. */
  lemma UnionStepKnown(merged: seq<string>, init: seq<string>, x: string)
    requires x in merged
    ensures Filter(init + [x], NotIn(merged)) == Filter(init, NotIn(merged))
    ensures MergeFiles(merged, init + [x]) == MergeFiles(merged, init)
  {
    FilterAppend(init, [x], NotIn(merged));
    assert Filter([x], NotIn(merged)) == [];
    MergeFilesSnoc(merged, init, x);
    assert merged <= MergeFiles(merged, init);
  }

  /** A new suggestion already merged earlier leaves both sides alone. */
  lemma UnionStepRepeated(merged: seq<string>, init: seq<string>, x: string)
    requires x !in merged && x in Filter(init, NotIn(merged))
    requires MergeFiles(merged, init) == merged + Dedup(Filter(init, NotIn(merged)))
    ensures Dedup(Filter(init + [x], NotIn(merged))) == Dedup(Filter(init, NotIn(merged)))
    ensures MergeFiles(merged, init + [x]) == MergeFiles(merged, init)
  {
    var fi := Filter(init, NotIn(merged));
    FilterAppend(init, [x], NotIn(merged));
    assert Filter([x], NotIn(merged)) == [x];
    DedupSnoc(fi, x);
    MergeFilesSnoc(merged, init, x);
    assert x in Dedup(fi);
  }

  /** A suggestion seen for the first time is appended on both sides. */
  lemma UnionStepFresh(merged: seq<string>, init: seq<string>, x: string)
    requires x !in merged && x !in Filter(init, NotIn(merged))
    requires MergeFiles(merged, init) == merged + Dedup(Filter(init, NotIn(merged)))
    ensures Dedup(Filter(init + [x], NotIn(merged))) == Dedup(Filter(init, NotIn(merged))) + [x]
    ensures MergeFiles(merged, init + [x]) == MergeFiles(merged, init) + [x]
  {
    var fi := Filter(init, NotIn(merged));
    FilterAppend(init, [x], NotIn(merged));
    assert Filter([x], NotIn(merged)) == [x];
    DedupSnoc(fi, x);
    MergeFilesSnoc(merged, init, x);
    assert x !in Dedup(fi);
  }

  /** The merged list is the old list followed by the first occurrence of
      every suggested file that the old list lacks. */
  lemma {:induction false} MergeFilesIsUnion(merged: seq<string>, suggested: seq<string>)
    ensures MergeFiles(merged, suggested) == merged + Dedup(Filter(suggested, NotIn(merged)))
    decreases |suggested|
  {
    if suggested != [] {
      var init := suggested[..|suggested| - 1];
      var x := suggested[|suggested| - 1];
      assert suggested == init + [x];
      MergeFilesIsUnion(merged, init);
      if x in merged {
        UnionStepKnown(merged, init, x);
      } else if x in Filter(init, NotIn(merged)) {
        UnionStepRepeated(merged, init, x);
      } else {
        UnionStepFresh(merged, init, x);
      }
    }
  }

  /** `updateMemoryFromSuggestion` without the save: a first suggestion is
      taken over as it is; a later one is appended to the existing memory. */
  function MergeMemory(existing: Option<FeatureMemory>, feature: string,
                       s: MemorySuggestion, now: Timestamp): (r: FeatureMemory)
    ensures r.feature == feature && r.updatedAt == now
    ensures existing.None? ==>
              r.summary == s.summary && r.keyPoints == s.keyPoints && r.relatedFiles == s.relatedFiles
    ensures existing.Some? ==>
              r.summary == existing.value.summary + SummarySeparator + s.summary
              && r.keyPoints == existing.value.keyPoints + s.keyPoints
              && |r.keyPoints| == |existing.value.keyPoints| + |s.keyPoints|
    ensures existing.Some? ==>
              var before := existing.value.relatedFiles.GetOr([]);
              var added := s.relatedFiles.GetOr([]);
              (r.relatedFiles.None? <==> before == [] && added == [])
              && (r.relatedFiles.Some? ==>
                    before <= r.relatedFiles.value
                    && (forall f :: f in r.relatedFiles.value ==> f in before || f in added)
                    && (forall f :: f in before || f in added ==> f in r.relatedFiles.value)
                    && |r.relatedFiles.value| <= |before| + |added|
                    && (NoDup(before) ==> NoDup(r.relatedFiles.value))
                    && r.relatedFiles.value == before + Dedup(Filter(added, NotIn(before))))
  {
    match existing
    case None =>
      FeatureMemory(feature, s.summary, s.keyPoints, s.relatedFiles, now)
    case Some(prev) =>
      var oldFiles := prev.relatedFiles.GetOr([]);
      var newFiles := s.relatedFiles.GetOr([]);
      var files := MergeFiles(oldFiles, newFiles);
      MergeFilesIsUnion(oldFiles, newFiles);
      assert newFiles != [] ==> newFiles[0] in files;
      FeatureMemory(feature, prev.summary + SummarySeparator + s.summary,
                    prev.keyPoints + s.keyPoints,
                    if files == [] then None else Some(files), now)
  }

  /** `updateMemoryFromSuggestion`: merge with what is stored for the
      feature, save the result under the feature, and return it. */
  function UpdateMemory(store: MemoryStore.Store, feature: string,
                        s: MemorySuggestion, now: Timestamp): (r: (MemoryStore.Store, FeatureMemory))
    ensures r.1 == MergeMemory(MemoryStore.Find(store, feature), feature, s, now)
    ensures MemoryStore.Find(r.0, feature) == Some(r.1)
    ensures forall f :: f != feature ==> MemoryStore.Find(r.0, f) == MemoryStore.Find(store, f)
  {
    var m := MergeMemory(MemoryStore.Find(store, feature), feature, s, now);
    (MemoryStore.Save(store, m), m)
  }

  /** `aggregate`: the feature's review, stamped with `now`; a memory
      suggestion, when present, is merged, saved and reported back, and
      without one the store is not touched. */
  function Aggregate(store: MemoryStore.Store, feature: string, response: ReviewResponse,
                     now: Timestamp): (r: (MemoryStore.Store, AggregatedReview))
    ensures r.1.feature == feature && r.1.review == response.review && r.1.reviewedAt == now
    ensures response.memorySuggestion.None? ==> r.0 == store && r.1.updatedMemory.None?
    ensures response.memorySuggestion.Some? ==>
              r.1.updatedMemory.Some?
              && MemoryStore.Find(r.0, feature) == r.1.updatedMemory
              && r.1.updatedMemory.value.feature == feature
    ensures response.memorySuggestion.Some? ==>
              var (st, m) := UpdateMemory(store, feature, response.memorySuggestion.value, now);
              r.0 == st && r.1.updatedMemory == Some(m)
    ensures forall f :: f != feature ==> MemoryStore.Find(r.0, f) == MemoryStore.Find(store, f)
  {
    match response.memorySuggestion
    case None => (store, AggregatedReview(feature, response.review, now, None))
    case Some(s) =>
      var (st, m) := UpdateMemory(store, feature, s, now);
      (st, AggregatedReview(feature, response.review, now, Some(m)))
  }

  /** Two suggestions for a feature with no memory leave their summaries
      joined by the separator and their key points concatenated. */
  lemma TwoSuggestions(store: MemoryStore.Store, feature: string,
                       r1: ReviewResponse, r2: ReviewResponse, t1: Timestamp, t2: Timestamp)
    requires MemoryStore.Find(store, feature).None?
    requires r1.memorySuggestion.Some? && r2.memorySuggestion.Some?
    ensures var (st1, _) := Aggregate(store, feature, r1, t1);
            var (st2, review2) := Aggregate(st1, feature, r2, t2);
            var s1 := r1.memorySuggestion.value;
            var s2 := r2.memorySuggestion.value;
            MemoryStore.Find(st2, feature) == review2.updatedMemory
            && review2.updatedMemory.value.summary == s1.summary + SummarySeparator + s2.summary
            && review2.updatedMemory.value.keyPoints == s1.keyPoints + s2.keyPoints
            && review2.updatedMemory.value.updatedAt == t2
  {
    var (st1, a1) := Aggregate(store, feature, r1, t1);
    assert a1.updatedMemory.value.summary == r1.memorySuggestion.value.summary;
  }

  /** A memory whose related files have no duplicates keeps that property
      through every later suggestion, whatever the suggestion contains. */
  lemma RelatedFilesStayDistinct(store: MemoryStore.Store, feature: string,
                                 response: ReviewResponse, now: Timestamp)
    requires MemoryStore.Find(store, feature).Some?
    requires NoDup(MemoryStore.Find(store, feature).value.relatedFiles.GetOr([]))
    ensures var (st, _) := Aggregate(store, feature, response, now);
            NoDup(MemoryStore.Find(st, feature).value.relatedFiles.GetOr([]))
  {
  }
}
