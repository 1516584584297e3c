/**
 * The multi-nutrient coverage scorer (suggest_best_ingredients): every catalog
 * ingredient is scored by how much of each deficient nutrient's minimum it
 * covers, each nutrient capped at 1.0, and the best five are suggested.
 */
module Coverage {
  import opened Nutrients
  import opened Ranking

  /** How many suggestions are kept. */
  const BestLimit: nat := 5

  /** One suggestion: the ingredient's code and name, its score and the nutrients it covers. */
  datatype Suggestion = Suggestion(foodCode: int, name: string, score: real, covered: seq<Nutrient>)

  function Min(a: real, b: real): real {
    if a <= b then a else b
  }

  /** A deficient nutrient earns a term only when its minimum and the ingredient's amount are both positive. */
  predicate Contributes(ing: Ingredient, standards: Standards, n: Nutrient) {
    standards.Minimum(n) > 0.0 && ing.Value(n) > 0.0
  }

  /**
   * The coverage term of one nutrient: the ingredient's amount over the minimum, capped at
   * 1.0, or 0 when the nutrient does not contribute.
   */
  function Term(ing: Ingredient, standards: Standards, n: Nutrient): real {
    if Contributes(ing, standards, n) then Min(ing.Value(n) / standards.Minimum(n), 1.0) else 0.0
  }

  /**
   * A term lies in [0, 1] and is positive exactly when the nutrient contributes. A surplus of
   * any size earns exactly 1.0, and below the minimum the term is the amount over the minimum.
   */
  lemma TermContract(ing: Ingredient, standards: Standards, n: Nutrient)
    ensures 0.0 <= Term(ing, standards, n) <= 1.0
    ensures Term(ing, standards, n) > 0.0 <==> Contributes(ing, standards, n)
    ensures Contributes(ing, standards, n) && ing.Value(n) >= standards.Minimum(n) ==> Term(ing, standards, n) == 1.0
    ensures Contributes(ing, standards, n) && ing.Value(n) < standards.Minimum(n) ==>
              Term(ing, standards, n) * standards.Minimum(n) == ing.Value(n)
  {
    if Contributes(ing, standards, n) {
      RatioBounds(ing.Value(n), standards.Minimum(n));
    }
  }

  /** A product of two positive reals is positive. */
  lemma ProductPositive(a: real, b: real)
    requires 0.0 < a && 0.0 < b
    ensures 0.0 < a * b
  {
  }

  /** The ratio of two positive amounts is positive, multiplies back, and is below 1 exactly when the amount is. */
  lemma RatioBounds(v: real, m: real)
    requires 0.0 < v && 0.0 < m
    ensures (v / m) * m == v
    ensures 0.0 < v / m
    ensures v >= m ==> v / m >= 1.0
    ensures v < m ==> v / m < 1.0
  {
    var q := v / m;
    assert q * m == v;
    if q <= 0.0 {
      if q < 0.0 { ProductPositive(-q, m); }
    }
    if v >= m && q < 1.0 { ProductPositive(1.0 - q, m); }
    if v < m && q >= 1.0 {
      if q > 1.0 { ProductPositive(q - 1.0, m); }
    }
  }

  /** The deficient nutrients the ingredient contributes to, in deficiency order. */
  function Covered(ing: Ingredient, standards: Standards, deficiencies: seq<Nutrient>): (c: seq<Nutrient>)
    ensures forall m :: m in c <==> m in deficiencies && Contributes(ing, standards, m)
    ensures |c| <= |deficiencies|
    decreases |deficiencies|
  {
    if deficiencies == [] then []
    else
      var init := deficiencies[..|deficiencies| - 1];
      var n := deficiencies[|deficiencies| - 1];
      assert deficiencies == init + [n];
      Covered(ing, standards, init) + (if Contributes(ing, standards, n) then [n] else [])
  }

  /**
   * The ingredient's score: the sum of its coverage terms. It is positive exactly when some
   * nutrient is covered, and never exceeds the number of covered nutrients.
   */
  function Score(ing: Ingredient, standards: Standards, deficiencies: seq<Nutrient>): (s: real)
    ensures 0.0 <= s <= |Covered(ing, standards, deficiencies)| as real
    ensures s > 0.0 <==> Covered(ing, standards, deficiencies) != []
    decreases |deficiencies|
  {
    if deficiencies == [] then 0.0
    else
      TermContract(ing, standards, deficiencies[|deficiencies| - 1]);
      Score(ing, standards, deficiencies[..|deficiencies| - 1])
      + Term(ing, standards, deficiencies[|deficiencies| - 1])
  }

  /** The suggestion record built for one ingredient. */
  function SuggestionFor(ing: Ingredient, standards: Standards, deficiencies: seq<Nutrient>): Suggestion {
    Suggestion(ing.foodCode, ing.name, Score(ing, standards, deficiencies), Covered(ing, standards, deficiencies))
  }

  /** The suggestions of the ingredients with a positive score, in catalog order. */
  function Candidates(catalog: Catalog, standards: Standards, deficiencies: seq<Nutrient>): seq<Suggestion>
    decreases |catalog|
  {
    if catalog == [] then []
    else
      var ing := catalog[|catalog| - 1];
      Candidates(catalog[..|catalog| - 1], standards, deficiencies)
      + (if Score(ing, standards, deficiencies) > 0.0 then [SuggestionFor(ing, standards, deficiencies)] else [])
  }

  /** The sort key: a suggestion's score. */
  function ScoreOf(s: Suggestion): real {
    s.score
  }

  /** The candidates sorted stably by descending score, cut to the first five. */
  function BestSuggestions(catalog: Catalog, standards: Standards, deficiencies: seq<Nutrient>): seq<Suggestion> {
    Top(Candidates(catalog, standards, deficiencies), ScoreOf, BestLimit)
  }

  /**
   * The inner loop of suggest_best_ingredients: the running score of one ingredient and the
   * running list of the deficiencies it covers.
   */
  method ScoreIngredient(ing: Ingredient, standards: Standards, deficiencies: seq<Nutrient>)
    returns (total: real, covered: seq<Nutrient>)
    ensures total == Score(ing, standards, deficiencies)
    ensures covered == Covered(ing, standards, deficiencies)
  {
    total := 0.0;
    covered := [];
    for j := 0 to |deficiencies|
      invariant total == Score(ing, standards, deficiencies[..j])
      invariant covered == Covered(ing, standards, deficiencies[..j])
    {
      var n := deficiencies[j];
      var value := ing.Value(n);
      var standard := standards.Minimum(n);
      assert deficiencies[..j + 1][..j] == deficiencies[..j];
      assert deficiencies[..j + 1][j] == n;
      if standard > 0.0 && value > 0.0 {
        var partial := Min(value / standard, 1.0);
        total := total + partial;
        covered := covered + [n];
      }
    }
    assert deficiencies[..|deficiencies|] == deficiencies;
  }

  /**
   * suggest_best_ingredients: scores every catalog ingredient with a running total and a
   * running list of covered nutrients, keeps those with a positive score, and returns the
   * five best by score.
   */
  method SuggestBest(catalog: Catalog, standards: Standards, deficiencies: seq<Nutrient>)
    returns (best: seq<Suggestion>)
    ensures best == BestSuggestions(catalog, standards, deficiencies)
  {
    var candidates := [];
    for i := 0 to |catalog|
      invariant candidates == Candidates(catalog[..i], standards, deficiencies)
    {
      var ing := catalog[i];
      var total, covered := ScoreIngredient(ing, standards, deficiencies);
      assert catalog[..i + 1][..i] == catalog[..i];
      assert catalog[..i + 1][i] == ing;
      if total > 0.0 {
        candidates := candidates + [Suggestion(ing.foodCode, ing.name, total, covered)];
      }
    }
    assert catalog[..|catalog|] == catalog;
    best := Top(candidates, ScoreOf, BestLimit);
  }

  /** Covered respects the order of the deficiency list: it distributes over concatenation. */
  lemma {:induction false} CoveredAppend(ing: Ingredient, standards: Standards, a: seq<Nutrient>, b: seq<Nutrient>)
    ensures Covered(ing, standards, a + b) == Covered(ing, standards, a) + Covered(ing, standards, b)
    decreases |b|
  {
    if b == [] {
      assert a + b == a;
    } else {
      var b' := b[..|b| - 1];
      assert (a + b)[..|a + b| - 1] == a + b';
      assert (a + b)[|a + b| - 1] == b[|b| - 1];
      CoveredAppend(ing, standards, a, b');
    }
  }

  /** Candidates keep catalog order: building them distributes over concatenation of catalogs. */
  lemma {:induction false} CandidatesAppend(a: Catalog, b: Catalog, standards: Standards, deficiencies: seq<Nutrient>)
    ensures Candidates(a + b, standards, deficiencies)
              == Candidates(a, standards, deficiencies) + Candidates(b, standards, deficiencies)
    decreases |b|
  {
    if b == [] {
      assert a + b == a;
    } else {
      var b' := b[..|b| - 1];
      assert (a + b)[..|a + b| - 1] == a + b';
      assert (a + b)[|a + b| - 1] == b[|b| - 1];
      CandidatesAppend(a, b', standards, deficiencies);
    }
  }

  /**
   * Exactly the catalog ingredients with a positive score become candidates: each candidate
   * is the suggestion of some catalog ingredient with a positive score, and every such
   * ingredient's suggestion is a candidate.
   */
  lemma {:induction false} CandidatesExact(catalog: Catalog, standards: Standards, deficiencies: seq<Nutrient>)
    ensures forall s :: s in Candidates(catalog, standards, deficiencies) ==>
              s.score > 0.0 && exists ing :: ing in catalog && s == SuggestionFor(ing, standards, deficiencies)
    ensures forall ing :: ing in catalog && Score(ing, standards, deficiencies) > 0.0 ==>
              SuggestionFor(ing, standards, deficiencies) in Candidates(catalog, standards, deficiencies)
    decreases |catalog|
  {
    if catalog != [] {
      var init := catalog[..|catalog| - 1];
      CandidatesExact(init, standards, deficiencies);
      assert catalog == init + [catalog[|catalog| - 1]];
    }
  }

  /** At most five suggestions, fewer only when fewer ingredients score, in non-increasing order of score. */
  lemma BestSuggestionsRanked(catalog: Catalog, standards: Standards, deficiencies: seq<Nutrient>)
    ensures |BestSuggestions(catalog, standards, deficiencies)| ==
              if BestLimit < |Candidates(catalog, standards, deficiencies)| then BestLimit
              else |Candidates(catalog, standards, deficiencies)|
    ensures forall i, j :: 0 <= i < j < |BestSuggestions(catalog, standards, deficiencies)| ==>
              BestSuggestions(catalog, standards, deficiencies)[i].score
                >= BestSuggestions(catalog, standards, deficiencies)[j].score
  {
    TopContract(Candidates(catalog, standards, deficiencies), ScoreOf, BestLimit);
  }

  /**
   * Every suggestion is the record of a catalog ingredient, with a score above 0 and at most
   * the number of nutrients it covers, and so at most the number of deficiencies.
   */
  lemma BestSuggestionsScored(catalog: Catalog, standards: Standards, deficiencies: seq<Nutrient>)
    ensures forall s :: s in BestSuggestions(catalog, standards, deficiencies) ==>
              && 0.0 < s.score <= |s.covered| as real
              && |s.covered| <= |deficiencies|
              && exists ing :: ing in catalog && s == SuggestionFor(ing, standards, deficiencies)
  {
    var c := Candidates(catalog, standards, deficiencies);
    var best := BestSuggestions(catalog, standards, deficiencies);
    CandidatesExact(catalog, standards, deficiencies);
    TopContract(c, ScoreOf, BestLimit);
    forall s | s in best
      ensures s in c
    {
      assert s in multiset(best);
    }
  }

  /** No candidate is left out of the suggestions while one with a lower score is kept. */
  lemma BestDominates(catalog: Catalog, standards: Standards, deficiencies: seq<Nutrient>)
    ensures forall i, j :: 0 <= i < |BestSuggestions(catalog, standards, deficiencies)|
              && 0 <= j < |Candidates(catalog, standards, deficiencies)|
              && Candidates(catalog, standards, deficiencies)[j] !in BestSuggestions(catalog, standards, deficiencies)
              ==> BestSuggestions(catalog, standards, deficiencies)[i].score
                    >= Candidates(catalog, standards, deficiencies)[j].score
  {
    TopDominates(Candidates(catalog, standards, deficiencies), ScoreOf, BestLimit);
  }

  /**
   * Equal scores keep catalog order: for every score, the suggestions with that score are the
   * first of the candidates with that score, in catalog order.
   */
  lemma BestStable(catalog: Catalog, standards: Standards, deficiencies: seq<Nutrient>, v: real)
    ensures IsPrefix(Ties(BestSuggestions(catalog, standards, deficiencies), ScoreOf, v),
                     Ties(Candidates(catalog, standards, deficiencies), ScoreOf, v))
  {
    TopStable(Candidates(catalog, standards, deficiencies), ScoreOf, BestLimit, v);
  }
}
