# CafeRec vibe scorer, modelled in Dafny

The cafe recommendation backend (`src/backend/recs_api.py`) matches a cafe to
each of five moods, the `Vibe` enumeration (QUIET, TALKATIVE, ETHNIC, TASTY,
AESTHETIC), by scoring the cafe's review texts. `parse_vibes` does this. For
each vibe it asks the WordNet lexical database for the synsets of the vibe's
name. It first sets the vibe's entry to 0. It then appends every lemma name
of every synset to a plain list of synonyms, so duplicates stay in. Finally it
adds `review.count(synonym)` for every review and every synonym.

The model has three modules:

- `PyStr` (`py_str.dfy`): Python's `str.count` as a pure function `Count`.
  Occurrences do not overlap and are found scanning from the left. An empty
  pattern counts `|s| + 1`, as Python does. The file also proves what the count
  means: it is zero exactly when the pattern is not a substring.
- `RecsApi` (`recs_api.dfy`): the `Vibe` datatype and the vibe names. The
  specification of the score is a nested sum: `ReviewScore` sums over
  synonyms, `Score` over reviews, and `VibeScores` builds the mapping. The
  imperative `ParseVibes` mirrors the source's loops and updates one map:
  a loop over the vibes sets each entry to 0. The synonym-gathering append
  loops are `GatherSynonyms`. The loops over reviews and synonyms, which
  add to the entry, are `AddOccurrences`. `ParseVibes` is proved equal to
  `VibeScores`.
- `ScoreLaws` (`score_laws.dfy`): the laws the scorer's result obeys. Two
  promises are not here but in the contracts of `RecsApi`: every vibe is a
  key (ensures of `VibeScores` and of `ParseVibes`) and every score is at
  least 0 (ensures of `ParseVibes`). The laws here are: zero for no reviews
  or no synonyms, zero exactly when nothing matches, additive and order-independent
  over reviews, monotone under appending a review, independent of other vibes'
  synonyms, and duplicate synonyms counted once per appearance.

The WordNet lookup is a foreign corpus call. It is a parameter
`lookup: string -> seq<seq<string>>`: for a word, the lemma names of each of
its synsets, in order. Two facts about the code that the model follows:

- `str.count` counts non-overlapping occurrences, so `"aaa".count("aa") == 1`.
- The synonyms are a list, so a lemma named by two synsets appears twice and
  is counted twice.

A vibe with no synsets (or only empty ones) has an empty synonym list and
scores 0.

## Model

| member | source | states |
|---|---|---|
| `RecsApi.MembersComplete` | src/backend/recs_api.py:32-43 | the iteration order lists every vibe, each exactly once, and its set is the five members |
| `RecsApi.VibeScores` | src/backend/recs_api.py:96-99 | the result has an entry for every vibe and exactly five entries |
| `RecsApi.GatherSynonyms` | src/backend/recs_api.py:100-104 | the appended list is the lemma names of all synsets of the vibe's name, in order |
| `RecsApi.AddOccurrences` | src/backend/recs_api.py:107-109 | the in-place additions raise the vibe's entry by exactly its nested sum over reviews and synonyms and change no other entry |
| `RecsApi.ParseVibes` | src/backend/recs_api.py:88-111 | the map built in place equals the nested-sum specification; every vibe is a key and every score is at least 0 |
| `RecsApi.FlattenAppend` | src/backend/recs_api.py:102-104 | gathering over two runs of synsets gives the two synonym lists one after the other |
| `RecsApi.ReviewScoreAppend` | src/backend/recs_api.py:108-109 | one review's contribution is additive over a split synonym list |
| `RecsApi.ScoreAppend` | src/backend/recs_api.py:107-109 | a score is additive over a split review list |
| `PyStr.Count` | src/backend/recs_api.py:109 | non-overlapping: the count times the pattern length never exceeds the text length, for a non-empty pattern |
| `PyStr.OccursAtTail` | src/backend/recs_api.py:109 | dropping the first character of a review shifts every occurrence one place left |
| `PyStr.OccurrenceCounted` | src/backend/recs_api.py:109 | any occurrence of the synonym in the review makes the count positive |
| `PyStr.CountedOccurs` | src/backend/recs_api.py:109 | a positive count means the synonym occurs in the review |
| `PyStr.CountZeroIff` | src/backend/recs_api.py:109 | the count is 0 if and only if the pattern is not a substring of the review |
| `PyStr.CountLeadingMatch` | src/backend/recs_api.py:109 | a match at the start is counted and the scan resumes after it |
| `PyStr.CountRepeated` | src/backend/recs_api.py:109 | a word, any separator and the word again ("quiet quiet") count the word at least twice |
| `ScoreLaws.NameInjective` | src/backend/recs_api.py:32-43 | distinct vibes have distinct names, so each vibe gets its own lookup |
| `ScoreLaws.FlattenMember` | src/backend/recs_api.py:102-104 | a word is a synonym exactly when some synset lists it |
| `ScoreLaws.FlattenLength` | src/backend/recs_api.py:102-104 | the synonym list is as long as all synsets' lemma lists together: duplicates stay in |
| `ScoreLaws.EmptyReviewsScoreZero` | src/backend/recs_api.py:99-109 | with no reviews every vibe scores 0 |
| `ScoreLaws.ScoreWithoutSynonyms` | src/backend/recs_api.py:107-109 | with an empty synonym list the sum over any reviews is 0 |
| `ScoreLaws.NoSynonymsScoreZero` | src/backend/recs_api.py:100-109 | a vibe whose synonym list is empty scores 0 whatever the reviews contain |
| `ScoreLaws.ReviewScoreZeroIff` | src/backend/recs_api.py:108-109 | a review contributes 0 exactly when it contains none of the synonyms |
| `ScoreLaws.ScoreZeroIff` | src/backend/recs_api.py:107-109 | the sum is 0 exactly when no review contains any synonym |
| `ScoreLaws.VibeScoreZeroIff` | src/backend/recs_api.py:98-109 | a vibe scores 0 exactly when no review contains any of its synonyms |
| `ScoreLaws.ScoresAdditive` | src/backend/recs_api.py:107-109 | the scores for `r1 + r2` are the pointwise sums of the scores for `r1` and for `r2` |
| `ScoreLaws.AppendReviewMonotone` | src/backend/recs_api.py:107-109 | appending a review adds exactly its own contribution, so no score decreases |
| `ScoreLaws.ScoreRemoveAt` | src/backend/recs_api.py:107-109 | removing one review from the list removes exactly that review's contribution |
| `ScoreLaws.PermutationTail` | src/backend/recs_api.py:107-109 | removing a review and its match from two permutations of a review list leaves two permutations |
| `ScoreLaws.ScorePermutation` | src/backend/recs_api.py:107-109 | two review lists with the same multiset of reviews give the same sum |
| `ScoreLaws.ScoresOrderIndependent` | src/backend/recs_api.py:107-109 | reordering the reviews leaves the whole score mapping unchanged |
| `ScoreLaws.ScoreDependsOnOwnSynonyms` | src/backend/recs_api.py:98-109 | changing the lookup only at another vibe's name leaves a vibe's score unchanged |
| `ScoreLaws.ScoreBySynonymFirstReview` | src/backend/recs_api.py:107-109 | the per-synonym sum splits off the first review's contribution |
| `ScoreLaws.ScoreWithoutReviews` | src/backend/recs_api.py:107-109 | the per-synonym sum over no reviews is 0 |
| `ScoreLaws.ScoreTranspose` | src/backend/recs_api.py:107-109 | summing reviews-then-synonyms equals summing synonyms-then-reviews |
| `ScoreLaws.ScoreBySynonymAppend` | src/backend/recs_api.py:107-109 | the per-synonym sum is additive over a split synonym list |
| `ScoreLaws.DuplicateSynonymCountsTwice` | src/backend/recs_api.py:102-109 | a synonym listed twice adds its occurrences twice |
| `ScoreLaws.ReviewScoreAtLeast` | src/backend/recs_api.py:108-109 | a review's contribution is at least the count of any one of the synonyms |
| `ScoreLaws.ScoreAtLeast` | src/backend/recs_api.py:107-109 | a score is at least the contribution of any one review |
| `ScoreLaws.RepeatedSynonymScoresTwo` | src/backend/recs_api.py:98-109 | a review made of a non-empty synonym of the vibe, a separator and the synonym again gives the vibe a score of at least 2 |

## Left out

- The WordNet lookup (`wordnet.synsets`, `synset.lemmas()`, `lemma.name()`) is a foreign corpus call. It is the `lookup` parameter. Any case folding or morphology WordNet applies to the upper-case vibe name is inside it.
- `zip_to_coord` is left out. It does network geocoding through Nominatim, and its errors are only printed.
- `unique_id` is left out. It calls SHA-256, and it passes a string to `struct.pack` as the format, so it has no well-defined behaviour to state.
- The SQLAlchemy in-memory table and the sample insert are persistence set-up only. The insert is built but never executed.
- The FastAPI application and its two route handlers are left out. Their bodies are `pass`.
- `Cafe` declares fields and has no behaviour, so it is left out.
- The enum's payloads (`(1,)` against `5`) have no effect on scoring, so they are not modelled. Only the five members and their names are.
- A failing lookup is not modelled. `wordnet.synsets` can raise, for instance NLTK's `LookupError` when the corpus is not installed. `parse_vibes` does not catch it and then raises with no result. The model's `Lookup` is a total function and cannot fail.
- Key order is not modelled. Python returns a dict whose keys are in insertion order: QUIET, TALKATIVE, ETHNIC, TASTY, AESTHETIC. A Dafny `map<Vibe, int>` has no key order. No caller in the repository depends on that order.
- Python's integers are unbounded, so the model uses unbounded `int` and `nat` with no wrap-around.
