/**
 * Worked examples on small catalogs: the aggregator, the classifier, both
 * suggesters and the scorer, relying on their contracts and unfolding the
 * specification functions on concrete values.
 */
module Scenarios {
  import opened Wrappers
  import opened Nutrients
  import opened Aggregator
  import opened Classifier
  import opened Ranking
  import opened Coverage
  import opened Suggester

  /** A total equal to the minimum passes; one below it is deficient. */
  method BoundaryScenario() {
    var a := Ingredient(1, "A", map["CA" := 10.0]);
    var b := Ingredient(2, "B", map["CA" := 0.0]);
    var catalog := [a, b];
    var standards := Standards(["CA"], map["CA" := 5.0]);
    assert Lookup(catalog, 1) == Some(a);

    var totals, grams, rows, skipped := Aggregate(catalog, [Entry(1, 50.0)], standards);
    assert Total(catalog, [Entry(1, 50.0)], "CA") == Scaled(10.0, 50.0);
    assert totals["CA"] == 5.0;
    assert Deficiencies(totals, standards) == [];
    assert ResultSymbols(totals, standards)["CA"] == PassSymbol;

    totals, grams, rows, skipped := Aggregate(catalog, [Entry(1, 40.0)], standards);
    assert Total(catalog, [Entry(1, 40.0)], "CA") == Scaled(10.0, 40.0);
    assert totals["CA"] == 4.0;
    assert Deficiencies(totals, standards) == ["CA"];
    assert ResultSymbols(totals, standards)["CA"] == FailSymbol;
  }

  /** An unknown food code is skipped and reported; the known entries are still summed. */
  method UnknownCodeScenario() {
    var a := Ingredient(1, "A", map["CA" := 10.0]);
    var catalog := [a];
    var standards := Standards(["CA"], map["CA" := 5.0]);
    var selection := [Entry(1, 100.0), Entry(9999, 30.0)];
    assert Lookup(catalog, 1) == Some(a);
    assert Lookup(catalog, 9999) == None;
    assert selection[..1] == [Entry(1, 100.0)];

    var totals, grams, rows, skipped := Aggregate(catalog, selection, standards);
    assert Total(catalog, selection, "CA") == Scaled(10.0, 100.0);
    assert totals["CA"] == 10.0;
    assert grams == 100.0;
    assert rows == [Row(1, 100.0, "A")];
    assert skipped == [Entry(9999, 30.0)];
  }

  /** A surplus earns a capped term of 1.0, and an ingredient without the nutrient is not suggested. */
  method CoverageScenario() {
    var a := Ingredient(1, "A", map["CA" := 10.0]);
    var b := Ingredient(2, "B", map["CA" := 0.0]);
    var catalog := [a, b];
    var standards := Standards(["CA"], map["CA" := 5.0]);
    var c := Suggestion(1, "A", 1.0, ["CA"]);
    assert Candidates(catalog, standards, ["CA"]) == [c] by {
      assert Term(a, standards, "CA") == 1.0;
      assert Score(a, standards, ["CA"]) == 1.0;
      assert Covered(a, standards, ["CA"]) == ["CA"];
      assert Score(b, standards, ["CA"]) == 0.0;
      assert [a][..0] == [] && catalog[..1] == [a];
      assert Candidates([a], standards, ["CA"]) == [c];
    }
    assert Top([c], ScoreOf, BestLimit) == [c] by {
      assert SortDesc([c], ScoreOf) == [c];
    }
    var best := SuggestBest(catalog, standards, ["CA"]);
    assert best == [c];
  }

  /**
   * With this application's nutrient columns, both suggesters answer for a deficiency that is a
   * column.
   */
  method ColumnsScenario() {
    var a := Ingredient(1, "A", map["CA" := 10.0]);
    assert "CA" in Columns;
    var top := SuggestForDeficiencies([a], Columns, ["CA"]);
    assert top.Keys == {"CA"};
    var positive := SuggestPositive([a], Columns, ["CA"]);
    assert positive.Success? && positive.value.Keys == {"CA"};
  }

  /** A name outside the columns is skipped by the top-15 suggester and raises in process_adjust. */
  method UnknownColumnScenario() {
    var a := Ingredient(1, "A", map["CA" := 10.0]);
    var columns := {"CA"};
    var top := SuggestForDeficiencies([a], columns, ["CA", "Q"]);
    assert top.Keys == {"CA"};
    var defs := ["CA", "Q"];
    var positive := SuggestPositive([a], columns, defs);
    assert defs[1] !in columns;
    assert positive.Failure?;
    var k :| 0 <= k < |defs| && positive.error == UnknownNutrient(defs[k]) && defs[k] !in columns;
    assert k == 1 by {
      assert defs[0] in columns;
    }
    assert positive == Failure(UnknownNutrient("Q"));
  }


}
