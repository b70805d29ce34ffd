/**
 * Laws of the vibe score: what `parse_vibes` promises its callers, proved
 * about the specification functions that `RecsApi.ParseVibes` is checked against.
 */
module ScoreLaws {
  import opened PyStr
  import opened RecsApi

  /** Different vibes hand different words to the synonym lookup. */
  lemma NameInjective(v: Vibe, w: Vibe)
    ensures Name(v) == Name(w) ==> v == w
  {
  }

  /** A synonym is in the gathered list exactly when some synset lists it. */
  lemma {:induction false} FlattenMember(synsets: seq<seq<string>>, word: string)
    ensures word in Flatten(synsets) <==> exists i :: 0 <= i < |synsets| && word in synsets[i]
  {
    if synsets != [] {
      FlattenMember(synsets[1..], word);
      if word in Flatten(synsets[1..]) {
        var i :| 0 <= i < |synsets[1..]| && word in synsets[1..][i];
        assert word in synsets[i + 1];
      }
      forall i | 0 <= i < |synsets| && word in synsets[i] && i > 0
        ensures word in Flatten(synsets[1..])
      {
        assert synsets[1..][i - 1] == synsets[i];
      }
    }
  }

  /** The gathered list is as long as all synsets together: nothing is dropped or merged. */
  function TotalLemmas(synsets: seq<seq<string>>): nat {
    if synsets == [] then 0 else |synsets[0]| + TotalLemmas(synsets[1..])
  }

  lemma {:induction false} FlattenLength(synsets: seq<seq<string>>)
    ensures |Flatten(synsets)| == TotalLemmas(synsets)
  {
    if synsets != [] {
      FlattenLength(synsets[1..]);
    }
  }

  /** No reviews: every vibe scores 0. */
  lemma EmptyReviewsScoreZero(lookup: Lookup)
    ensures forall v: Vibe :: VibeScores([], lookup)[v] == 0
  {
  }

  lemma {:induction false} ScoreWithoutSynonyms(reviews: seq<string>)
    ensures Score(reviews, []) == 0
  {
    if reviews != [] {
      ScoreWithoutSynonyms(reviews[1..]);
    }
  }

  /** A vibe the lookup knows no synonyms for scores 0, whatever the reviews say. */
  lemma NoSynonymsScoreZero(reviews: seq<string>, lookup: Lookup, v: Vibe)
    requires Synonyms(lookup, v) == []
    ensures VibeScores(reviews, lookup)[v] == 0
  {
    ScoreWithoutSynonyms(reviews);
  }

  lemma {:induction false} ReviewScoreZeroIff(review: string, synonyms: seq<string>)
    ensures ReviewScore(review, synonyms) == 0
        <==> forall j :: 0 <= j < |synonyms| ==> !Contains(review, synonyms[j])
  {
    if synonyms != [] {
      CountZeroIff(review, synonyms[0]);
      ReviewScoreZeroIff(review, synonyms[1..]);
      assert forall j :: 1 <= j < |synonyms| ==> synonyms[1..][j - 1] == synonyms[j];
    }
  }

  lemma {:induction false} ScoreZeroIff(reviews: seq<string>, synonyms: seq<string>)
    ensures Score(reviews, synonyms) == 0
        <==> forall i, j :: 0 <= i < |reviews| && 0 <= j < |synonyms| ==> !Contains(reviews[i], synonyms[j])
  {
    if reviews != [] {
      ReviewScoreZeroIff(reviews[0], synonyms);
      ScoreZeroIff(reviews[1..], synonyms);
      assert forall i :: 1 <= i < |reviews| ==> reviews[1..][i - 1] == reviews[i];
    }
  }

  /** A vibe scores 0 exactly when none of its synonyms occurs in any review. */
  lemma VibeScoreZeroIff(reviews: seq<string>, lookup: Lookup, v: Vibe)
    ensures VibeScores(reviews, lookup)[v] == 0
        <==> forall i, j :: 0 <= i < |reviews| && 0 <= j < |Synonyms(lookup, v)|
                 ==> !Contains(reviews[i], Synonyms(lookup, v)[j])
  {
    ScoreZeroIff(reviews, Synonyms(lookup, v));
  }

  /** Additivity: the scores of `r1 + r2` are the pointwise sums of the scores of `r1` and of `r2`. */
  lemma ScoresAdditive(r1: seq<string>, r2: seq<string>, lookup: Lookup)
    ensures forall v: Vibe :: VibeScores(r1 + r2, lookup)[v] == VibeScores(r1, lookup)[v] + VibeScores(r2, lookup)[v]
  {
    forall v: Vibe
      ensures VibeScores(r1 + r2, lookup)[v] == VibeScores(r1, lookup)[v] + VibeScores(r2, lookup)[v]
    {
      ScoreAppend(r1, r2, Synonyms(lookup, v));
    }
  }

  /** Appending a review adds that review's own contribution, so no score decreases. */
  lemma AppendReviewMonotone(reviews: seq<string>, review: string, lookup: Lookup, v: Vibe)
    ensures VibeScores(reviews + [review], lookup)[v]
         == VibeScores(reviews, lookup)[v] + ReviewScore(review, Synonyms(lookup, v))
    ensures VibeScores(reviews + [review], lookup)[v] >= VibeScores(reviews, lookup)[v]
  {
    ScoreAppend(reviews, [review], Synonyms(lookup, v));
  }

  /** Removing the review at `i` removes exactly its contribution. */
  lemma ScoreRemoveAt(reviews: seq<string>, i: nat, synonyms: seq<string>)
    requires i < |reviews|
    ensures Score(reviews, synonyms)
         == ReviewScore(reviews[i], synonyms) + Score(reviews[..i] + reviews[i + 1..], synonyms)
  {
    assert reviews == reviews[..i] + [reviews[i]] + reviews[i + 1..];
    ScoreAppend(reviews[..i] + [reviews[i]], reviews[i + 1..], synonyms);
    ScoreAppend(reviews[..i], [reviews[i]], synonyms);
    ScoreAppend(reviews[..i], reviews[i + 1..], synonyms);
  }

  /** Taking the first review of `r1` and its match in a permutation `r2` leaves permutations. */
  lemma PermutationTail(r1: seq<string>, r2: seq<string>, i: nat)
    requires multiset(r1) == multiset(r2)
    requires r1 != [] && i < |r2| && r2[i] == r1[0]
    ensures multiset(r1[1..]) == multiset(r2[..i] + r2[i + 1..])
  {
    assert r1 == [r1[0]] + r1[1..];
    assert r2 == r2[..i] + [r2[i]] + r2[i + 1..];
    assert multiset(r1[1..]) == multiset(r1) - multiset{r1[0]};
    assert multiset(r2[..i] + r2[i + 1..]) == multiset(r2) - multiset{r2[i]};
  }

  lemma {:induction false} ScorePermutation(r1: seq<string>, r2: seq<string>, synonyms: seq<string>)
    requires multiset(r1) == multiset(r2)
    ensures Score(r1, synonyms) == Score(r2, synonyms)
    decreases |r1|
  {
    if r1 == [] {
      assert |r2| == |multiset(r2)| == 0;
    } else {
      assert r1[0] in multiset(r2);
      var i :| 0 <= i < |r2| && r2[i] == r1[0];
      PermutationTail(r1, r2, i);
      ScorePermutation(r1[1..], r2[..i] + r2[i + 1..], synonyms);
      ScoreRemoveAt(r2, i, synonyms);
    }
  }

  /** Reordering the reviews leaves every score unchanged. */
  lemma ScoresOrderIndependent(r1: seq<string>, r2: seq<string>, lookup: Lookup)
    requires multiset(r1) == multiset(r2)
    ensures VibeScores(r1, lookup) == VibeScores(r2, lookup)
  {
    forall v: Vibe ensures VibeScores(r1, lookup)[v] == VibeScores(r2, lookup)[v] {
      ScorePermutation(r1, r2, Synonyms(lookup, v));
    }
  }

  /** A vibe's score depends on nothing but what the lookup returns for that vibe's name. */
  lemma ScoreDependsOnOwnSynonyms(reviews: seq<string>, l1: Lookup, l2: Lookup, v: Vibe, w: Vibe)
    requires forall word :: word != Name(w) ==> l1(word) == l2(word)
    requires v != w
    ensures VibeScores(reviews, l1)[v] == VibeScores(reviews, l2)[v]
  {
  }

  /** `review.count(synonym)` summed over the reviews, for one synonym. */
  function Occurrences(reviews: seq<string>, synonym: string): nat {
    if reviews == [] then 0 else Count(reviews[0], synonym) + Occurrences(reviews[1..], synonym)
  }

  /** The same nested sum taken synonym by synonym: each entry of the list adds its occurrences. */
  function ScoreBySynonym(reviews: seq<string>, synonyms: seq<string>): nat {
    if synonyms == [] then 0 else Occurrences(reviews, synonyms[0]) + ScoreBySynonym(reviews, synonyms[1..])
  }

  lemma {:induction false} ScoreBySynonymFirstReview(reviews: seq<string>, synonyms: seq<string>)
    requires reviews != []
    ensures ScoreBySynonym(reviews, synonyms)
         == ReviewScore(reviews[0], synonyms) + ScoreBySynonym(reviews[1..], synonyms)
  {
    if synonyms != [] {
      ScoreBySynonymFirstReview(reviews, synonyms[1..]);
    }
  }

  /** Summing over reviews then synonyms equals summing over synonyms then reviews. */
  lemma {:induction false} ScoreTranspose(reviews: seq<string>, synonyms: seq<string>)
    ensures Score(reviews, synonyms) == ScoreBySynonym(reviews, synonyms)
  {
    if reviews == [] {
      ScoreWithoutReviews(synonyms);
    } else {
      ScoreTranspose(reviews[1..], synonyms);
      ScoreBySynonymFirstReview(reviews, synonyms);
    }
  }

  lemma {:induction false} ScoreWithoutReviews(synonyms: seq<string>)
    ensures ScoreBySynonym([], synonyms) == 0
  {
    if synonyms != [] {
      ScoreWithoutReviews(synonyms[1..]);
    }
  }

  /** A synonym listed twice (by two synsets) is counted twice. */
  lemma DuplicateSynonymCountsTwice(reviews: seq<string>, synonyms: seq<string>, synonym: string)
    ensures Score(reviews, synonyms + [synonym, synonym])
         == Score(reviews, synonyms) + 2 * Occurrences(reviews, synonym)
  {
    ScoreTranspose(reviews, synonyms + [synonym, synonym]);
    ScoreTranspose(reviews, synonyms);
    ScoreBySynonymAppend(reviews, synonyms, [synonym, synonym]);
    assert [synonym, synonym][1..] == [synonym];
    assert ScoreBySynonym(reviews, [synonym]) == Occurrences(reviews, synonym);
  }

  lemma {:induction false} ScoreBySynonymAppend(reviews: seq<string>, a: seq<string>, b: seq<string>)
    ensures ScoreBySynonym(reviews, a + b) == ScoreBySynonym(reviews, a) + ScoreBySynonym(reviews, b)
  {
    if a == [] {
      assert a + b == b;
    } else {
      assert (a + b)[1..] == a[1..] + b;
      ScoreBySynonymAppend(reviews, a[1..], b);
    }
  }

  lemma {:induction false} ReviewScoreAtLeast(review: string, synonyms: seq<string>, j: nat)
    requires j < |synonyms|
    ensures ReviewScore(review, synonyms) >= Count(review, synonyms[j])
  {
    if j > 0 {
      ReviewScoreAtLeast(review, synonyms[1..], j - 1);
    }
  }

  lemma {:induction false} ScoreAtLeast(reviews: seq<string>, synonyms: seq<string>, i: nat)
    requires i < |reviews|
    ensures Score(reviews, synonyms) >= ReviewScore(reviews[i], synonyms)
  {
    if i > 0 {
      ScoreAtLeast(reviews[1..], synonyms, i - 1);
    }
  }

  /**
   * A review consisting of a synonym of `v`, a separator and the synonym again
   * (such as "quiet quiet") gives `v` a score of at least 2.
   */
  lemma RepeatedSynonymScoresTwo(reviews: seq<string>, lookup: Lookup, v: Vibe, synonym: string, sep: string)
    requires synonym in Synonyms(lookup, v) && synonym != []
    requires synonym + sep + synonym in reviews
    ensures VibeScores(reviews, lookup)[v] >= 2
  {
    var synonyms := Synonyms(lookup, v);
    var j :| 0 <= j < |synonyms| && synonyms[j] == synonym;
    var i :| 0 <= i < |reviews| && reviews[i] == synonym + sep + synonym;
    CountRepeated(synonym, sep);
    ReviewScoreAtLeast(reviews[i], synonyms, j);
    ScoreAtLeast(reviews, synonyms, i);
  }
}
