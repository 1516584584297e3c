/**
 * The single-nutrient suggester: for each deficient nutrient, the catalog
 * ingredients richest in it, ranked descending and cut to a limit.
 */
module Suggester {
  import opened Wrappers
  import opened Nutrients
  import opened Ranking

  /** How many ingredients suggest_ingredients_for_deficiencies keeps per nutrient. */
  const TopLimit: nat := 15

  /** How many ingredients process_adjust keeps per nutrient. */
  const PositiveLimit: nat := 5

  /** Raised when a deficiency names something that is not a column of the ingredient table. */
  datatype Error = UnknownNutrient(nutrient: Nutrient)

  /** The ranking key for nutrient `n`: an ingredient's amount of it per 100 g. */
  function ByValue(n: Nutrient): Ingredient -> real {
    (ing: Ingredient) => ing.Value(n)
  }

  /** The first `limit` ingredients of the catalog ranked by their amount of `n`. */
  function TopFor(catalog: Catalog, n: Nutrient, limit: nat): seq<Ingredient> {
    Top(catalog, ByValue(n), limit)
  }

  /** The catalog ingredients with a strictly positive amount of `n`, in catalog order. */
  function PositiveFor(catalog: Catalog, n: Nutrient): seq<Ingredient> {
    if catalog == [] then []
    else (if catalog[0].Value(n) > 0.0 then [catalog[0]] else []) + PositiveFor(catalog[1..], n)
  }

  /** The positive filter keeps exactly the catalog's ingredients with a positive amount, none more often. */
  lemma {:induction false} PositiveForMembers(catalog: Catalog, n: Nutrient)
    ensures forall ing :: ing in PositiveFor(catalog, n) <==> ing in catalog && ing.Value(n) > 0.0
    ensures multiset(PositiveFor(catalog, n)) <= multiset(catalog)
  {
    if catalog != [] {
      PositiveForMembers(catalog[1..], n);
      assert catalog == [catalog[0]] + catalog[1..];
    }
  }

  /** The first `limit` ingredients with a positive amount of `n`, ranked by that amount. */
  function PositiveTopFor(catalog: Catalog, n: Nutrient, limit: nat): seq<Ingredient> {
    TopFor(PositiveFor(catalog, n), n, limit)
  }

  /**
   * suggest_ingredients_for_deficiencies: an entry for each deficient nutrient that is one of
   * the ingredient table's `columns` (`Columns` in this application), holding its top 15
   * ingredients; others are skipped.
   */
  method SuggestForDeficiencies(catalog: Catalog, columns: set<Nutrient>, deficiencies: seq<Nutrient>)
    returns (suggestions: map<Nutrient, seq<Ingredient>>)
    ensures suggestions.Keys == set n | n in deficiencies && n in columns
    ensures forall n :: n in suggestions ==> suggestions[n] == TopFor(catalog, n, TopLimit)
  {
    suggestions := map[];
    var i := 0;
    while i < |deficiencies|
      invariant 0 <= i <= |deficiencies|
      invariant suggestions.Keys == set n | n in deficiencies[..i] && n in columns
      invariant forall n :: n in suggestions ==> suggestions[n] == TopFor(catalog, n, TopLimit)
    {
      var n := deficiencies[i];
      assert deficiencies[..i + 1] == deficiencies[..i] + [n];
      if n in columns {
        suggestions := suggestions[n := TopFor(catalog, n, TopLimit)];
      }
      i := i + 1;
    }
    assert deficiencies[..i] == deficiencies;
  }

  /**
   * The per-nutrient block of process_adjust: for each deficiency, its top 5 ingredients
   * among those with a positive amount; a deficiency that is not one of the table's
   * `columns` raises, and the error names the first such deficiency.
   */
  method SuggestPositive(catalog: Catalog, columns: set<Nutrient>, deficiencies: seq<Nutrient>)
    returns (r: Result<map<Nutrient, seq<Ingredient>>, Error>)
    ensures r.Success? <==> forall n :: n in deficiencies ==> n in columns
    ensures r.Failure? ==> exists k :: 0 <= k < |deficiencies| && r.error == UnknownNutrient(deficiencies[k])
                             && deficiencies[k] !in columns
                             && forall j :: 0 <= j < k ==> deficiencies[j] in columns
    ensures r.Success? ==> r.value.Keys == (set n | n in deficiencies)
    ensures r.Success? ==> forall n :: n in r.value ==> r.value[n] == PositiveTopFor(catalog, n, PositiveLimit)
  {
    var suggestions := map[];
    var i := 0;
    while i < |deficiencies|
      invariant 0 <= i <= |deficiencies|
      invariant forall j :: 0 <= j < i ==> deficiencies[j] in columns
      invariant suggestions.Keys == set n | n in deficiencies[..i]
      invariant forall n :: n in suggestions ==> suggestions[n] == PositiveTopFor(catalog, n, PositiveLimit)
    {
      var n := deficiencies[i];
      assert deficiencies[..i + 1] == deficiencies[..i] + [n];
      if n !in columns {
        return Failure(UnknownNutrient(n));
      }
      suggestions := suggestions[n := PositiveTopFor(catalog, n, PositiveLimit)];
      i := i + 1;
    }
    assert deficiencies[..i] == deficiencies;
    return Success(suggestions);
  }

  /**
   * The top ingredients for a nutrient: as many as the limit allows, in non-increasing order
   * of that nutrient, each taken from the catalog.
   */
  lemma TopForContract(catalog: Catalog, n: Nutrient, limit: nat)
    ensures |TopFor(catalog, n, limit)| == if limit < |catalog| then limit else |catalog|
    ensures forall i, j :: 0 <= i < j < |TopFor(catalog, n, limit)| ==>
              TopFor(catalog, n, limit)[i].Value(n) >= TopFor(catalog, n, limit)[j].Value(n)
    ensures multiset(TopFor(catalog, n, limit)) <= multiset(catalog)
  {
    TopContract(catalog, ByValue(n), limit);
  }

  /** No catalog ingredient is left out of the top list while one with less of the nutrient is kept. */
  lemma TopForDominates(catalog: Catalog, n: Nutrient, limit: nat)
    ensures forall i, j :: 0 <= i < |TopFor(catalog, n, limit)| && 0 <= j < |catalog|
              && catalog[j] !in TopFor(catalog, n, limit)
              ==> TopFor(catalog, n, limit)[i].Value(n) >= catalog[j].Value(n)
  {
    TopDominates(catalog, ByValue(n), limit);
  }

  /**
   * The process_adjust suggestions for a nutrient: min(5, number of ingredients with a strictly
   * positive amount of it), each with a positive amount, in non-increasing order, and each
   * from the catalog.
   */
  lemma PositiveTopForContract(catalog: Catalog, n: Nutrient)
    ensures |PositiveTopFor(catalog, n, PositiveLimit)| ==
              if PositiveLimit < |PositiveFor(catalog, n)| then PositiveLimit else |PositiveFor(catalog, n)|
    ensures forall ing :: ing in PositiveTopFor(catalog, n, PositiveLimit) ==> ing in catalog && ing.Value(n) > 0.0
    ensures forall i, j :: 0 <= i < j < |PositiveTopFor(catalog, n, PositiveLimit)| ==>
              PositiveTopFor(catalog, n, PositiveLimit)[i].Value(n) >= PositiveTopFor(catalog, n, PositiveLimit)[j].Value(n)
    ensures multiset(PositiveTopFor(catalog, n, PositiveLimit)) <= multiset(catalog)
  {
    var pos := PositiveFor(catalog, n);
    var r := PositiveTopFor(catalog, n, PositiveLimit);
    TopForContract(pos, n, PositiveLimit);
    PositiveForMembers(catalog, n);
    forall ing | ing in r
      ensures ing in pos
    {
      assert ing in multiset(r);
    }
  }

  /** No catalog ingredient with a positive amount is left out while one with less of the nutrient is kept. */
  lemma PositiveTopDominates(catalog: Catalog, n: Nutrient)
    ensures forall i, j :: 0 <= i < |PositiveTopFor(catalog, n, PositiveLimit)| && 0 <= j < |catalog|
              && catalog[j].Value(n) > 0.0 && catalog[j] !in PositiveTopFor(catalog, n, PositiveLimit)
              ==> PositiveTopFor(catalog, n, PositiveLimit)[i].Value(n) >= catalog[j].Value(n)
  {
    var pos := PositiveFor(catalog, n);
    var r := PositiveTopFor(catalog, n, PositiveLimit);
    TopForDominates(pos, n, PositiveLimit);
    PositiveForMembers(catalog, n);
    forall i, j | 0 <= i < |r| && 0 <= j < |catalog| && catalog[j].Value(n) > 0.0 && catalog[j] !in r
      ensures r[i].Value(n) >= catalog[j].Value(n)
    {
      assert catalog[j] in pos;
      var m :| 0 <= m < |pos| && pos[m] == catalog[j];
      assert pos[m] !in r;
      assert r[i].Value(n) >= pos[m].Value(n);
    }
  }
}
