/**
 * The vibe scorer of the cafe recommendation backend: the `Vibe` enumeration
 * and `parse_vibes`, which scores a cafe's reviews against the synonyms of
 * each vibe's name.
 */
module RecsApi {
  import opened PyStr

  /** The closed set of moods a cafe can be matched to. */
  datatype Vibe = Quiet | Talkative | Ethnic | Tasty | Aesthetic

  /** The members in declaration order, the order in which `for vibe in Vibe` visits them. */
  const MEMBERS: seq<Vibe> := [Quiet, Talkative, Ethnic, Tasty, Aesthetic]

  /** Every vibe is listed, exactly once. */
  lemma MembersComplete()
    ensures forall v: Vibe :: v in MEMBERS
    ensures forall i, j :: 0 <= i < j < |MEMBERS| ==> MEMBERS[i] != MEMBERS[j]
    ensures (set v | v in MEMBERS) == {Quiet, Talkative, Ethnic, Tasty, Aesthetic}
  {
    forall v: Vibe ensures v in MEMBERS {
      match v
      case Quiet => assert MEMBERS[0] == v;
      case Talkative => assert MEMBERS[1] == v;
      case Ethnic => assert MEMBERS[2] == v;
      case Tasty => assert MEMBERS[3] == v;
      case Aesthetic => assert MEMBERS[4] == v;
    }
  }

  /** The member's `name`, the word handed to the synonym lookup. */
  function Name(v: Vibe): string {
    match v
    case Quiet => "QUIET"
    case Talkative => "TALKATIVE"
    case Ethnic => "ETHNIC"
    case Tasty => "TASTY"
    case Aesthetic => "AESTHETIC"
  }

  /**
   * The lexical database, fixed for one run: for a word, the lemma names of
   * each of its synsets, in the order the database gives them.
   */
  type Lookup = string -> seq<seq<string>>

  /** The lemma names of all synsets, one after another; duplicates stay in. */
  function Flatten(synsets: seq<seq<string>>): seq<string> {
    if synsets == [] then [] else synsets[0] + Flatten(synsets[1..])
  }

  /** The synonym list gathered for a vibe. */
  function Synonyms(lookup: Lookup, v: Vibe): seq<string> {
    Flatten(lookup(Name(v)))
  }

  /** What one review contributes: the occurrences of every synonym in it, summed over the list. */
  function ReviewScore(review: string, synonyms: seq<string>): nat {
    if synonyms == [] then 0 else Count(review, synonyms[0]) + ReviewScore(review, synonyms[1..])
  }

  /** A vibe's score: the contributions of all reviews, summed. */
  function Score(reviews: seq<string>, synonyms: seq<string>): nat {
    if reviews == [] then 0 else ReviewScore(reviews[0], synonyms) + Score(reviews[1..], synonyms)
  }

  /** The mapping `parse_vibes` returns: one score per vibe. */
  function VibeScores(reviews: seq<string>, lookup: Lookup): (scores: map<Vibe, nat>)
    ensures forall v: Vibe :: v in scores
    ensures |scores| == 5
  {
    MembersComplete();
    map v | v in MEMBERS :: Score(reviews, Synonyms(lookup, v))
  }

  lemma {:induction false} FlattenAppend(a: seq<seq<string>>, b: seq<seq<string>>)
    ensures Flatten(a + b) == Flatten(a) + Flatten(b)
  {
    if a == [] {
      assert a + b == b;
    } else {
      assert (a + b)[1..] == a[1..] + b;
      FlattenAppend(a[1..], b);
    }
  }

  lemma {:induction false} ReviewScoreAppend(review: string, a: seq<string>, b: seq<string>)
    ensures ReviewScore(review, a + b) == ReviewScore(review, a) + ReviewScore(review, b)
  {
    if a == [] {
      assert a + b == b;
    } else {
      assert (a + b)[1..] == a[1..] + b;
      ReviewScoreAppend(review, a[1..], b);
    }
  }

  lemma {:induction false} ScoreAppend(r1: seq<string>, r2: seq<string>, synonyms: seq<string>)
    ensures Score(r1 + r2, synonyms) == Score(r1, synonyms) + Score(r2, synonyms)
  {
    if r1 == [] {
      assert r1 + r2 == r2;
    } else {
      assert (r1 + r2)[1..] == r1[1..] + r2;
      ScoreAppend(r1[1..], r2, synonyms);
    }
  }

  /**
   * The synonym list of `parse_vibes` in `recs_api.py`, built by appending
   * every lemma name of every synset.
   */
  method GatherSynonyms(lookup: Lookup, v: Vibe) returns (synonyms: seq<string>)
    ensures synonyms == Synonyms(lookup, v)
  {
    var synsets := lookup(Name(v));
    synonyms := [];
    for i := 0 to |synsets|
      invariant synonyms == Flatten(synsets[..i])
    {
      var lemmas := synsets[i];
      for j := 0 to |lemmas|
        invariant synonyms == Flatten(synsets[..i]) + lemmas[..j]
      {
        synonyms := synonyms + [lemmas[j]];
      }
      assert lemmas[..|lemmas|] == lemmas;
      assert synsets[..i + 1] == synsets[..i] + [lemmas];
      FlattenAppend(synsets[..i], [lemmas]);
      assert Flatten([lemmas]) == lemmas + Flatten([]);
    }
    assert synsets[..|synsets|] == synsets;
  }

  /**
   * The inner loops of `parse_vibes` in `recs_api.py`: `vibe_counts[vibe] +=
   * review.count(synonym)` for every review and every synonym; no other entry
   * changes.
   */
  method AddOccurrences(counts: map<Vibe, int>, vibe: Vibe, reviews: seq<string>, synonyms: seq<string>)
    returns (updated: map<Vibe, int>)
    requires vibe in counts
    ensures updated == counts[vibe := counts[vibe] + Score(reviews, synonyms)]
  {
    updated := counts;
    for i := 0 to |reviews|
      invariant updated == counts[vibe := counts[vibe] + Score(reviews[..i], synonyms)]
    {
      var review := reviews[i];
      for j := 0 to |synonyms|
        invariant updated == counts[vibe := counts[vibe] + Score(reviews[..i], synonyms) + ReviewScore(review, synonyms[..j])]
      {
        updated := updated[vibe := updated[vibe] + Count(review, synonyms[j])];
        assert synonyms[..j + 1] == synonyms[..j] + [synonyms[j]];
        ReviewScoreAppend(review, synonyms[..j], [synonyms[j]]);
      }
      assert synonyms[..|synonyms|] == synonyms;
      assert reviews[..i + 1] == reviews[..i] + [review];
      ScoreAppend(reviews[..i], [review], synonyms);
    }
    assert reviews[..|reviews|] == reviews;
  }

  /**
   * `parse_vibes`: for each vibe in turn its entry is set to 0, its synonyms are
   * gathered and their occurrences in the reviews are added to the entry.
   */
  method ParseVibes(reviews: seq<string>, lookup: Lookup) returns (counts: map<Vibe, int>)
    ensures counts == VibeScores(reviews, lookup)
    ensures forall v: Vibe :: v in counts && counts[v] >= 0
  {
    counts := map[];
    for k := 0 to |MEMBERS|
      invariant counts.Keys == set m | m in MEMBERS[..k]
      invariant forall m :: m in counts ==> counts[m] == Score(reviews, Synonyms(lookup, m))
    {
      var vibe := MEMBERS[k];
      counts := counts[vibe := 0];
      var synonyms := GatherSynonyms(lookup, vibe);
      counts := AddOccurrences(counts, vibe, reviews, synonyms);
      assert MEMBERS[..k + 1] == MEMBERS[..k] + [vibe];
    }
    assert MEMBERS[..|MEMBERS|] == MEMBERS;
  }
}
