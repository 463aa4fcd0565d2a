/** The SPARQL-side computations: the term co-occurrence similarity matrix of
    `get_corpus_zscores` with its lookup closure, and the term maps of `get_pp_terms`.
    The query results arrive as sequences of bindings; the HTTP requests are not modelled. */
module VirtuosoCalls {
  import opened Wrappers

  // ---------------------------------------------------------------------------
  // Co-occurrence similarity

  /** One row of the co-occurrence query: two term URIs and the z-score of their co-occurrence. */
  datatype Cooccurrence = Cooccurrence(uri1: string, uri2: string, score: real)

  /** The ordered pair a binding stores its score under. */
  function PairOf(b: Cooccurrence): (string, string)
  {
    (b.uri1, b.uri2)
  }

  type SimMatrix = map<(string, string), real>

  /** Why no lookup closure is produced: `max` of no values raises, and a zero maximum makes
      every normalised entry a division by zero. */
  datatype ZscoreError = NoRetainedPairs | ZeroMaximum

  /** The filling loop of `get_corpus_zscores` as a value: each binding whose two URIs are both terms writes the transformed
      score under its ordered pair, a later binding of the same pair replacing an earlier one.
      `log2` stands for `np.log2` after `float`. */
  function Retained(termUris: seq<string>, bindings: seq<Cooccurrence>, log2: real -> real): SimMatrix
  {
    if bindings == [] then map[]
    else
      var m := Retained(termUris, bindings[..|bindings| - 1], log2);
      var b := bindings[|bindings| - 1];
      if b.uri1 in termUris && b.uri2 in termUris then m[PairOf(b) := log2(b.score)] else m
  }

  /** Binding `i` is the last one stored under pair `p`. */
  predicate LastFor(bindings: seq<Cooccurrence>, i: int, p: (string, string))
  {
    0 <= i < |bindings| && PairOf(bindings[i]) == p
    && forall j :: i < j < |bindings| ==> PairOf(bindings[j]) != p
  }

  /** A pair is stored exactly when both of its URIs are terms and some binding carries it. */
  lemma {:induction false} RetainedKeys(termUris: seq<string>, bindings: seq<Cooccurrence>, log2: real -> real)
    ensures forall p :: p in Retained(termUris, bindings, log2) <==>
      p.0 in termUris && p.1 in termUris && exists i :: 0 <= i < |bindings| && PairOf(bindings[i]) == p
  {
    if bindings != [] {
      var front := bindings[..|bindings| - 1];
      RetainedKeys(termUris, front, log2);
      forall p ensures p in Retained(termUris, bindings, log2) <==>
        p.0 in termUris && p.1 in termUris && exists i :: 0 <= i < |bindings| && PairOf(bindings[i]) == p
      {
        if exists i :: 0 <= i < |front| && PairOf(front[i]) == p {
          var i :| 0 <= i < |front| && PairOf(front[i]) == p;
          assert PairOf(bindings[i]) == p;
        }
        if exists i :: 0 <= i < |bindings| && PairOf(bindings[i]) == p {
          var i :| 0 <= i < |bindings| && PairOf(bindings[i]) == p;
          if i < |front| {
            assert PairOf(front[i]) == p;
          }
        }
      }
    }
  }

  /** The value stored under a pair of terms is the transformed score of the last binding of
      that pair. */
  lemma {:induction false} RetainedLastWins(termUris: seq<string>, bindings: seq<Cooccurrence>, log2: real -> real,
                                            i: int, p: (string, string))
    requires LastFor(bindings, i, p)
    requires p.0 in termUris && p.1 in termUris
    ensures p in Retained(termUris, bindings, log2)
    ensures Retained(termUris, bindings, log2)[p] == log2(bindings[i].score)
  {
    var front := bindings[..|bindings| - 1];
    if i < |bindings| - 1 {
      assert LastFor(front, i, p) by {
        forall j | i < j < |front| ensures PairOf(front[j]) != p {
          assert front[j] == bindings[j];
        }
      }
      RetainedLastWins(termUris, front, log2, i, p);
      assert PairOf(bindings[|bindings| - 1]) != p;
    }
  }

  /** `mx` is the largest value of `m`. */
  ghost predicate IsMaximum(m: SimMatrix, mx: real)
  {
    (exists k :: k in m && m[k] == mx) && forall k :: k in m ==> m[k] <= mx
  }

  /** A map has at most one maximum, so the normalisation below is determined by the input. */
  lemma MaximumUnique(m: SimMatrix, a: real, b: real)
    requires IsMaximum(m, a) && IsMaximum(m, b)
    ensures a == b
  {
  }

  /** The normalising loop of `get_corpus_zscores` as a value: every entry divided by the same `mx`. */
  function Normalised(m: SimMatrix, mx: real): (r: SimMatrix)
    requires mx != 0.0
    ensures r.Keys == m.Keys
  {
    map k | k in m :: m[k] / mx
  }

  /** Dividing a value no larger than the divisor: the quotient is 1 exactly when the two are
      equal, at most 1 for a positive divisor, at least 1 for a negative one, and positive for a
      positive value over a positive divisor. */
  lemma QuotientByMaximum(x: real, mx: real)
    requires mx != 0.0 && x <= mx
    ensures x / mx == 1.0 <==> x == mx
    ensures mx > 0.0 ==> x / mx <= 1.0
    ensures mx > 0.0 && x > 0.0 ==> x / mx > 0.0
    ensures mx < 0.0 ==> x / mx >= 1.0
  {
    if x / mx == 1.0 {
      assert x == (x / mx) * mx;
    }
    if mx > 0.0 {
      assert x / mx <= mx / mx;
    } else {
      assert x / mx >= mx / mx;
    }
  }

  /** Normalising by the maximum maps exactly the pairs holding it to 1; when the maximum is
      positive no entry exceeds 1, and when every score is positive every entry stays positive. */
  lemma NormalisedByMaximum(m: SimMatrix, mx: real)
    requires mx != 0.0 && IsMaximum(m, mx)
    ensures exists k :: k in m && Normalised(m, mx)[k] == 1.0
    ensures forall k :: k in m ==> (Normalised(m, mx)[k] == 1.0 <==> m[k] == mx)
    ensures mx > 0.0 ==> forall k :: k in m ==> Normalised(m, mx)[k] <= 1.0
    ensures mx > 0.0 && (forall k :: k in m ==> m[k] > 0.0) ==> forall k :: k in m ==> Normalised(m, mx)[k] > 0.0
    ensures mx < 0.0 ==> forall k :: k in m ==> Normalised(m, mx)[k] >= 1.0
  {
    var top :| top in m && m[top] == mx;
    assert Normalised(m, mx)[top] == 1.0;
    forall k | k in m
      ensures Normalised(m, mx)[k] == 1.0 <==> m[k] == mx
      ensures mx > 0.0 ==> Normalised(m, mx)[k] <= 1.0
      ensures mx > 0.0 && m[k] > 0.0 ==> Normalised(m, mx)[k] > 0.0
      ensures mx < 0.0 ==> Normalised(m, mx)[k] >= 1.0
    {
      QuotientByMaximum(m[k], mx);
    }
  }

  /** The `max` of `get_corpus_zscores`: the largest stored value, by a pass over the keys. */
  method MaxScore(m: SimMatrix) returns (mx: real)
    requires m != map[]
    ensures IsMaximum(m, mx)
  {
    var todo := m.Keys;
    var first :| first in todo;
    mx := m[first];
    todo := todo - {first};
    while todo != {}
      invariant todo <= m.Keys
      invariant exists k :: k in m && m[k] == mx
      invariant forall k :: k in m && k !in todo ==> m[k] <= mx
      decreases todo
    {
      var k :| k in todo;
      if m[k] > mx {
        mx := m[k];
      }
      todo := todo - {k};
    }
  }

  /** `get_corpus_zscores` without the query: fill the pair map from the bindings,
      take its maximum and divide every entry by it in place. The
      returned map is what the `similarity` closure looks its pairs up in. */
  method GetCorpusZscores(termUris: seq<string>, bindings: seq<Cooccurrence>, log2: real -> real)
    returns (r: Result<SimMatrix, ZscoreError>)
    ensures r == Err(NoRetainedPairs) <==> Retained(termUris, bindings, log2) == map[]
    ensures r == Err(ZeroMaximum) <==>
      Retained(termUris, bindings, log2) != map[] && IsMaximum(Retained(termUris, bindings, log2), 0.0)
    ensures r.Ok? ==> exists mx :: (mx != 0.0 && IsMaximum(Retained(termUris, bindings, log2), mx)
      && r.value == Normalised(Retained(termUris, bindings, log2), mx))
  {
    var sim: SimMatrix := map[];
    var i := 0;
    while i < |bindings|
      invariant 0 <= i <= |bindings|
      invariant sim == Retained(termUris, bindings[..i], log2)
    {
      var b := bindings[i];
      assert bindings[..i + 1][..i] == bindings[..i];
      if b.uri1 in termUris && b.uri2 in termUris {
        sim := sim[(b.uri1, b.uri2) := log2(b.score)];
      }
      i := i + 1;
    }
    assert bindings[..i] == bindings;
    if sim == map[] {
      return Err(NoRetainedPairs);
    }
    var maxScore := MaxScore(sim);
    if maxScore == 0.0 {
      return Err(ZeroMaximum);
    }
    ghost var original := sim;
    var todo := sim.Keys;
    while todo != {}
      invariant todo <= original.Keys && sim.Keys == original.Keys
      invariant forall k :: k in todo ==> sim[k] == original[k]
      invariant forall k :: k in original && k !in todo ==> sim[k] == original[k] / maxScore
      decreases todo
    {
      var k :| k in todo;
      sim := sim[k := sim[k] / maxScore];
      todo := todo - {k};
    }
    assert sim == Normalised(original, maxScore);
    r := Ok(sim);
    if IsMaximum(original, 0.0) {
      MaximumUnique(original, 0.0, maxScore);
    }
  }

  /** The `similarity` closure: 1 for a term against itself, else the stored
      (a, b) entry, else the stored (b, a) entry, else 0. */
  function Similarity(m: SimMatrix, a: string, b: string): real
  {
    if a == b then 1.0
    else if (a, b) in m then m[(a, b)]
    else if (b, a) in m then m[(b, a)]
    else 0.0
  }

  /** The lookup is symmetric as long as the two directions of a pair do not disagree. */
  lemma SimilaritySymmetric(m: SimMatrix, a: string, b: string)
    requires (a, b) in m && (b, a) in m ==> m[(a, b)] == m[(b, a)]
    ensures Similarity(m, a, b) == Similarity(m, b, a)
  {
  }

  /** When both directions are stored with different scores, the lookup is not symmetric. */
  lemma SimilarityAsymmetric()
    ensures Similarity(map[("x", "y") := 0.5, ("y", "x") := 1.0], "x", "y") == 0.5
    ensures Similarity(map[("x", "y") := 0.5, ("y", "x") := 1.0], "y", "x") == 1.0
  {
  }

  /** Read through the bindings: a term against itself scores 1; two distinct URIs of which one
      is not a term score 0; a pair of terms scores the normalised value of the last binding of
      (a, b) when there is one, and otherwise that of the last binding of (b, a). */
  lemma SimilarityOfBindings(termUris: seq<string>, bindings: seq<Cooccurrence>, log2: real -> real,
                             mx: real, a: string, b: string)
    requires mx != 0.0
    ensures Similarity(Normalised(Retained(termUris, bindings, log2), mx), a, a) == 1.0
    ensures a != b && (a !in termUris || b !in termUris) ==>
      Similarity(Normalised(Retained(termUris, bindings, log2), mx), a, b) == 0.0
    ensures forall i :: a != b && a in termUris && b in termUris && LastFor(bindings, i, (a, b)) ==>
      Similarity(Normalised(Retained(termUris, bindings, log2), mx), a, b) == log2(bindings[i].score) / mx
    ensures forall i ::
      (a != b && a in termUris && b in termUris && LastFor(bindings, i, (b, a))
       && forall j :: 0 <= j < |bindings| ==> PairOf(bindings[j]) != (a, b)) ==>
      Similarity(Normalised(Retained(termUris, bindings, log2), mx), a, b) == log2(bindings[i].score) / mx
    ensures a != b && (forall j :: 0 <= j < |bindings| ==> PairOf(bindings[j]) != (a, b) && PairOf(bindings[j]) != (b, a)) ==>
      Similarity(Normalised(Retained(termUris, bindings, log2), mx), a, b) == 0.0
  {
    var R := Retained(termUris, bindings, log2);
    RetainedKeys(termUris, bindings, log2);
    forall i | a != b && a in termUris && b in termUris && LastFor(bindings, i, (a, b))
      ensures Similarity(Normalised(R, mx), a, b) == log2(bindings[i].score) / mx
    {
      RetainedLastWins(termUris, bindings, log2, i, (a, b));
    }
    forall i | a != b && a in termUris && b in termUris && LastFor(bindings, i, (b, a))
      && (forall j :: 0 <= j < |bindings| ==> PairOf(bindings[j]) != (a, b))
      ensures Similarity(Normalised(R, mx), a, b) == log2(bindings[i].score) / mx
    {
      RetainedLastWins(termUris, bindings, log2, i, (b, a));
      assert (a, b) !in R;
    }
  }

  // ---------------------------------------------------------------------------
  // Term maps

  /** One row of the term query: a term URI, its name and its combined relevance score. */
  datatype TermBinding = TermBinding(termUri: string, name: string, score: real)

  /** The score map of `get_pp_terms` as a value: later bindings of a name overwrite earlier ones. */
  function TermScores(bindings: seq<TermBinding>): map<string, real>
  {
    if bindings == [] then map[]
    else
      var b := bindings[|bindings| - 1];
      TermScores(bindings[..|bindings| - 1])[b.name := b.score]
  }

  /** The URI map of `get_pp_terms` as a value. */
  function TermUris(bindings: seq<TermBinding>): map<string, string>
  {
    if bindings == [] then map[]
    else
      var b := bindings[|bindings| - 1];
      TermUris(bindings[..|bindings| - 1])[b.name := b.termUri]
  }

  /** Binding `i` is the last one with name `n`. */
  predicate LastNamed(bindings: seq<TermBinding>, i: int, n: string)
  {
    0 <= i < |bindings| && bindings[i].name == n
    && forall j :: i < j < |bindings| ==> bindings[j].name != n
  }

  /** Both maps are keyed by exactly the names that occur in the bindings. */
  lemma {:induction false} TermMapsKeys(bindings: seq<TermBinding>)
    ensures TermScores(bindings).Keys == TermUris(bindings).Keys
    ensures TermScores(bindings).Keys == set b | b in bindings :: b.name
  {
    if bindings != [] {
      var front := bindings[..|bindings| - 1];
      var last := bindings[|bindings| - 1];
      TermMapsKeys(front);
      assert bindings == front + [last];
      var names := set b | b in bindings :: b.name;
      var frontNames := set b | b in front :: b.name;
      forall n ensures n in names <==> n in frontNames || n == last.name {
        if n in names {
          var b :| b in bindings && b.name == n;
          assert b in front || b == last;
        }
      }
    }
  }

  /** For each name both maps hold the values of the last binding with that name. */
  lemma {:induction false} TermMapsLastWins(bindings: seq<TermBinding>, i: int, n: string)
    requires LastNamed(bindings, i, n)
    ensures n in TermScores(bindings) && TermScores(bindings)[n] == bindings[i].score
    ensures n in TermUris(bindings) && TermUris(bindings)[n] == bindings[i].termUri
  {
    var front := bindings[..|bindings| - 1];
    if i < |bindings| - 1 {
      assert LastNamed(front, i, n) by {
        forall j | i < j < |front| ensures front[j].name != n {
          assert front[j] == bindings[j];
        }
      }
      TermMapsLastWins(front, i, n);
    }
  }

  /** The map-building loop of `get_pp_terms` over the query's bindings. */
  method GetPpTerms(bindings: seq<TermBinding>) returns (scores: map<string, real>, uris: map<string, string>)
    ensures scores == TermScores(bindings) && uris == TermUris(bindings)
    ensures scores.Keys == uris.Keys == set b | b in bindings :: b.name
  {
    scores := map[];
    uris := map[];
    var i := 0;
    while i < |bindings|
      invariant 0 <= i <= |bindings|
      invariant scores == TermScores(bindings[..i]) && uris == TermUris(bindings[..i])
    {
      var b := bindings[i];
      assert bindings[..i + 1][..i] == bindings[..i];
      scores := scores[b.name := b.score];
      uris := uris[b.name := b.termUri];
      i := i + 1;
    }
    assert bindings[..i] == bindings;
    TermMapsKeys(bindings);
  }
}
