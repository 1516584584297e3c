/**
 * The nutrient aggregator: one routine for the weighted-sum loop that the
 * application repeats in calculate_totals, calculate_nutrients, calculate,
 * process_adjust and calculate_nutrients_endpoint.
 */
module Aggregator {
  import opened Wrappers
  import opened Nutrients

  /** An amount per 100 g scaled to a weight in grams. */
  function Scaled(per100: real, grams: real): real {
    per100 * (grams / 100.0)
  }

  /** What one selection entry adds to the total of `n`: value * (grams / 100), or 0 if unresolved. */
  function Contribution(catalog: Catalog, e: Entry, n: Nutrient): real {
    match Lookup(catalog, e.foodCode)
    case None => 0.0
    case Some(ing) => Scaled(ing.Value(n), e.grams)
  }

  /** The total of `n` over a selection: the sum of the entries' contributions. */
  function Total(catalog: Catalog, selection: seq<Entry>, n: Nutrient): real
    decreases |selection|
  {
    if selection == [] then 0.0
    else Total(catalog, selection[..|selection| - 1], n) + Contribution(catalog, selection[|selection| - 1], n)
  }

  /** A resolved entry as it is listed back to the user: food code, grams, display name. */
  datatype Row = Row(foodCode: int, grams: real, name: string)

  /** True when the entry's food code names a catalog record. */
  predicate Resolves(catalog: Catalog, e: Entry) {
    Lookup(catalog, e.foodCode).Some?
  }

  /** The resolved entries of a selection, in selection order, with their names. */
  function ResolvedRows(catalog: Catalog, selection: seq<Entry>): (rows: seq<Row>)
    decreases |selection|
  {
    if selection == [] then []
    else
      var e := selection[|selection| - 1];
      var init := selection[..|selection| - 1];
      var rest := ResolvedRows(catalog, init);
      match Lookup(catalog, e.foodCode)
      case None => rest
      case Some(ing) => rest + [Row(e.foodCode, e.grams, ing.name)]
  }

  /** The entries of a selection whose food code the catalog does not know, in selection order. */
  function Unresolved(catalog: Catalog, selection: seq<Entry>): (skipped: seq<Entry>)
    decreases |selection|
  {
    if selection == [] then []
    else
      var e := selection[|selection| - 1];
      var rest := Unresolved(catalog, selection[..|selection| - 1]);
      if Resolves(catalog, e) then rest else rest + [e]
  }

  /** The grams of a selection summed over exactly its resolved entries. */
  function ResolvedGrams(catalog: Catalog, selection: seq<Entry>): real
    decreases |selection|
  {
    if selection == [] then 0.0
    else
      var e := selection[|selection| - 1];
      ResolvedGrams(catalog, selection[..|selection| - 1]) + (if Resolves(catalog, e) then e.grams else 0.0)
  }

  /** The sum of the grams column of a list of rows. */
  function RowGrams(rows: seq<Row>): real {
    if rows == [] then 0.0 else RowGrams(rows[..|rows| - 1]) + rows[|rows| - 1].grams
  }

  /** One step of the inner loop: the entry's scaled amounts added to every key of the totals. */
  method AddScaled(totals: map<Nutrient, real>, ing: Ingredient, grams: real, keys: seq<Nutrient>)
    returns (updated: map<Nutrient, real>)
    requires Distinct(keys)
    requires forall n :: n in keys ==> n in totals
    ensures updated.Keys == totals.Keys
    ensures forall n :: n in updated ==>
              updated[n] == if n in keys then totals[n] + Scaled(ing.Value(n), grams) else totals[n]
  {
    updated := totals;
    var j := 0;
    while j < |keys|
      invariant 0 <= j <= |keys|
      invariant updated.Keys == totals.Keys
      invariant forall n :: n in updated ==>
                  updated[n] == if n in keys[..j] then totals[n] + Scaled(ing.Value(n), grams) else totals[n]
    {
      var n := keys[j];
      assert n !in keys[..j];
      assert keys[..j + 1] == keys[..j] + [n];
      updated := updated[n := updated[n] + Scaled(ing.Value(n), grams)];
      j := j + 1;
    }
    assert keys[..j] == keys;
  }

  /** The four specification functions of a selection extended by one entry. */
  lemma SnocStep(catalog: Catalog, init: seq<Entry>, e: Entry)
    ensures (init + [e])[..|init|] == init && (init + [e])[|init|] == e
    ensures ResolvedGrams(catalog, init + [e])
              == ResolvedGrams(catalog, init) + (if Resolves(catalog, e) then e.grams else 0.0)
    ensures Unresolved(catalog, init + [e]) == Unresolved(catalog, init) + (if Resolves(catalog, e) then [] else [e])
    ensures Resolves(catalog, e) ==>
              ResolvedRows(catalog, init + [e])
                == ResolvedRows(catalog, init) + [Row(e.foodCode, e.grams, Lookup(catalog, e.foodCode).value.name)]
    ensures !Resolves(catalog, e) ==> ResolvedRows(catalog, init + [e]) == ResolvedRows(catalog, init)
  {
    assert (init + [e])[..|init|] == init;
  }

  /** The total of one nutrient over a selection extended by one entry. */
  lemma TotalSnoc(catalog: Catalog, init: seq<Entry>, e: Entry, n: Nutrient)
    ensures Total(catalog, init + [e], n) == Total(catalog, init, n) + Contribution(catalog, e, n)
  {
    assert (init + [e])[..|init|] == init;
  }

  /** The running state of the summing loop after the entries `done`. */
  predicate Accumulated(catalog: Catalog, standards: Standards, done: seq<Entry>, totals: map<Nutrient, real>,
                        totalGrams: real, rows: seq<Row>, skipped: seq<Entry>)
  {
    && totals.Keys == standards.minimum.Keys
    && (forall n :: n in totals ==> totals[n] == Total(catalog, done, n))
    && totalGrams == ResolvedGrams(catalog, done)
    && rows == ResolvedRows(catalog, done)
    && skipped == Unresolved(catalog, done)
  }

  /**
   * One pass of the summing loop: a resolved entry adds its row, its grams and its scaled
   * amounts; an unresolved one is appended to the skipped list.
   */
  method AddEntry(catalog: Catalog, standards: Standards, ghost done: seq<Entry>, e: Entry,
                  totals: map<Nutrient, real>, totalGrams: real, rows: seq<Row>, skipped: seq<Entry>)
    returns (totals': map<Nutrient, real>, totalGrams': real, rows': seq<Row>, skipped': seq<Entry>)
    requires standards.Valid()
    requires Accumulated(catalog, standards, done, totals, totalGrams, rows, skipped)
    ensures Accumulated(catalog, standards, done + [e], totals', totalGrams', rows', skipped')
  {
    SnocStep(catalog, done, e);
    totals', totalGrams', rows', skipped' := totals, totalGrams, rows, skipped;
    var found := Lookup(catalog, e.foodCode);
    if found.Some? {
      var ing := found.value;
      rows' := rows + [Row(e.foodCode, e.grams, ing.name)];
      totalGrams' := totalGrams + e.grams;
      totals' := AddScaled(totals, ing, e.grams, standards.order);
      forall n | n in totals'
        ensures totals'[n] == Total(catalog, done + [e], n)
      {
        TotalSnoc(catalog, done, e, n);
        assert n in standards.order;
      }
    } else {
      skipped' := skipped + [e];
      forall n | n in totals'
        ensures totals'[n] == Total(catalog, done + [e], n)
      {
        TotalSnoc(catalog, done, e, n);
      }
    }
  }

  /**
   * Totals start at 0 for every key of the standards table; each resolved entry adds
   * value * (grams / 100) to every key; an unresolved entry is skipped and reported.
   * Also returns the gram total and the rows of the resolved entries.
   */
  method Aggregate(catalog: Catalog, selection: seq<Entry>, standards: Standards)
    returns (totals: map<Nutrient, real>, totalGrams: real, rows: seq<Row>, skipped: seq<Entry>)
    requires standards.Valid()
    ensures totals.Keys == standards.minimum.Keys
    ensures forall n :: n in totals ==> totals[n] == Total(catalog, selection, n)
    ensures totalGrams == ResolvedGrams(catalog, selection)
    ensures rows == ResolvedRows(catalog, selection)
    ensures skipped == Unresolved(catalog, selection)
  {
    totals := map n | n in standards.minimum :: 0.0;
    totalGrams, rows, skipped := 0.0, [], [];
    var i := 0;
    while i < |selection|
      invariant 0 <= i <= |selection|
      invariant Accumulated(catalog, standards, selection[..i], totals, totalGrams, rows, skipped)
    {
      assert selection[..i + 1] == selection[..i] + [selection[i]];
      totals, totalGrams, rows, skipped :=
        AddEntry(catalog, standards, selection[..i], selection[i], totals, totalGrams, rows, skipped);
      i := i + 1;
    }
    assert selection[..i] == selection;
  }

  /** The total over a concatenated selection is the sum of the totals over its parts. */
  lemma {:induction false} TotalAppend(catalog: Catalog, a: seq<Entry>, b: seq<Entry>, n: Nutrient)
    ensures Total(catalog, a + b, n) == Total(catalog, a, n) + Total(catalog, b, n)
    decreases |b|
  {
    if b == [] {
      assert a + b == a;
    } else {
      var b' := b[..|b| - 1];
      assert (a + b)[..|a + b| - 1] == a + b';
      assert (a + b)[|a + b| - 1] == b[|b| - 1];
      TotalAppend(catalog, a, b', n);
    }
  }

  /** An entry of 0 grams changes no total, wherever it stands in the selection. */
  lemma ZeroGramsContributeNothing(catalog: Catalog, a: seq<Entry>, code: int, b: seq<Entry>, n: Nutrient)
    ensures Total(catalog, a + [Entry(code, 0.0)] + b, n) == Total(catalog, a + b, n)
  {
    var e := Entry(code, 0.0);
    TotalAppend(catalog, a + [e], b, n);
    TotalAppend(catalog, a, [e], n);
    TotalAppend(catalog, a, b, n);
    assert [e][..0] == [];
  }

  /** An entry whose food code the catalog does not know changes no total. */
  lemma UnresolvedContributesNothing(catalog: Catalog, a: seq<Entry>, e: Entry, b: seq<Entry>, n: Nutrient)
    requires !Resolves(catalog, e)
    ensures Total(catalog, a + [e] + b, n) == Total(catalog, a + b, n)
  {
    TotalAppend(catalog, a + [e], b, n);
    TotalAppend(catalog, a, [e], n);
    TotalAppend(catalog, a, b, n);
    assert [e][..0] == [];
  }

  /** Listing an entry twice adds its contribution twice: duplicates are summed, not merged. */
  lemma DuplicateAddsTwice(catalog: Catalog, s: seq<Entry>, e: Entry, n: Nutrient)
    ensures Total(catalog, s + [e, e], n) == Total(catalog, s, n) + 2.0 * Contribution(catalog, e, n)
  {
    TotalAppend(catalog, s, [e, e], n);
    assert [e, e][..1] == [e];
    assert [e][..0] == [];
    assert Total(catalog, [e], n) == Contribution(catalog, e, n);
    assert Total(catalog, [e, e], n) == Total(catalog, [e], n) + Contribution(catalog, e, n);
  }

  /** Removing the element at `j` removes one occurrence of it. */
  lemma RemoveAt<T>(t: seq<T>, j: nat)
    requires j < |t|
    ensures t == t[..j] + [t[j]] + t[j + 1..]
    ensures multiset(t[..j] + t[j + 1..]) == multiset(t) - multiset{t[j]}
  {
    assert t == t[..j] + [t[j]] + t[j + 1..];
    assert multiset(t) == multiset(t[..j]) + multiset{t[j]} + multiset(t[j + 1..]);
  }

  /** The total over a selection is the total without the entry at `j` plus that entry's contribution. */
  lemma TotalRemoveAt(catalog: Catalog, t: seq<Entry>, j: nat, n: Nutrient)
    requires j < |t|
    ensures Total(catalog, t, n) == Total(catalog, t[..j] + t[j + 1..], n) + Contribution(catalog, t[j], n)
  {
    assert t == t[..j] + [t[j]] + t[j + 1..];
    TotalAppend(catalog, t[..j] + [t[j]], t[j + 1..], n);
    TotalSnoc(catalog, t[..j], t[j], n);
    TotalAppend(catalog, t[..j], t[j + 1..], n);
  }

  /** The totals do not depend on the order of the selection's entries. */
  lemma {:induction false} TotalPermutation(catalog: Catalog, s: seq<Entry>, t: seq<Entry>, n: Nutrient)
    requires multiset(s) == multiset(t)
    ensures Total(catalog, s, n) == Total(catalog, t, n)
    decreases |s|
  {
    if s != [] {
      var x := s[|s| - 1];
      var s' := s[..|s| - 1];
      assert s == s' + [x];
      assert x in multiset(t);
      var j :| 0 <= j < |t| && t[j] == x;
      RemoveAt(t, j);
      assert multiset(s') == multiset(s) - multiset{x} by {
        assert multiset(s) == multiset(s') + multiset{x};
      }
      TotalPermutation(catalog, s', t[..j] + t[j + 1..], n);
      TotalRemoveAt(catalog, t, j, n);
      TotalSnoc(catalog, s', x, n);
    } else {
      assert t == [];
    }
  }

  /** The gram total is the sum of the grams of the rows listed back, that is of the resolved entries. */
  lemma {:induction false} ResolvedGramsAreRowGrams(catalog: Catalog, selection: seq<Entry>)
    ensures ResolvedGrams(catalog, selection) == RowGrams(ResolvedRows(catalog, selection))
    decreases |selection|
  {
    if selection != [] {
      var init := selection[..|selection| - 1];
      ResolvedGramsAreRowGrams(catalog, init);
      var rest := ResolvedRows(catalog, init);
      var e := selection[|selection| - 1];
      if Resolves(catalog, e) {
        var rows := rest + [Row(e.foodCode, e.grams, Lookup(catalog, e.foodCode).value.name)];
        assert rows[..|rows| - 1] == rest;
      }
    }
  }

  /**
   * The rows and the skipped entries split the selection: every row is a resolved entry with
   * its catalog name, every skipped entry fails to resolve, and together they account for
   * every entry.
   */
  lemma {:induction false} RowsAndSkippedPartition(catalog: Catalog, selection: seq<Entry>)
    ensures |ResolvedRows(catalog, selection)| + |Unresolved(catalog, selection)| == |selection|
    ensures forall r :: r in ResolvedRows(catalog, selection) ==>
              exists e :: e in selection && Lookup(catalog, e.foodCode).Some?
                && r == Row(e.foodCode, e.grams, Lookup(catalog, e.foodCode).value.name)
    ensures forall e :: e in Unresolved(catalog, selection) ==> e in selection && !Resolves(catalog, e)
    ensures forall e :: e in selection && Resolves(catalog, e) ==> Row(e.foodCode, e.grams, Lookup(catalog, e.foodCode).value.name) in ResolvedRows(catalog, selection)
    ensures forall e :: e in selection && !Resolves(catalog, e) ==> e in Unresolved(catalog, selection)
    decreases |selection|
  {
    if selection != [] {
      var init := selection[..|selection| - 1];
      var e := selection[|selection| - 1];
      RowsAndSkippedPartition(catalog, init);
      assert selection == init + [e];
      assert forall x :: x in selection <==> x in init || x == e;
    }
  }
}
