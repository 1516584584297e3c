/**
 * Data model of the nutrient engine: ingredient records of the catalog,
 * entries of a user's selection and the table of minimum standards.
 */
module Nutrients {
  import opened Wrappers

  /** A nutrient key, named as the ingredient table's column (ENERC_KCAL, CA, VITD, ...). */
  type Nutrient = string

  /** The nutrient columns of the ingredient table; `hasattr(Ingredient, n)` holds for these. */
  const Columns: set<Nutrient> :=
      {"ENERC_KCAL", "WATER", "ILE", "LEU", "LYS", "MET", "CYS", "PHE", "TYR", "THR"}
    + {"TRP", "VAL", "HIS", "ARG", "F18D2N6", "F18D3N3", "F22D6N3", "NAT", "K", "CA"}
    + {"MG", "P", "FE", "ZN", "CU", "MN", "YO", "SE", "CR", "RETOL"}
    + {"CARTA", "CARTB", "CRYPXB", "CARTBEQ", "VITA_RAE", "VITD", "TOCPHA", "TOCPHB", "TOCPHG", "TOCPHD"}
    + {"THIA", "RIBF", "NIA", "VITB6A", "VITB12", "FOL", "PANTAC", "NACL_EQ"}

  /** One row of the ingredient catalog: its food code, display name and amounts per 100 g. */
  datatype Ingredient = Ingredient(foodCode: int, name: string, nutrients: map<Nutrient, real>) {

    /** The amount of `n` per 100 g; a nutrient the record lacks reads as 0. */
    function Value(n: Nutrient): real {
      if n in nutrients then nutrients[n] else 0.0
    }
  }

  /** The catalog, in the order the ingredient table returns its rows. */
  type Catalog = seq<Ingredient>

  /** One entry of the user's selection: a food code and a weight in grams. */
  datatype Entry = Entry(foodCode: int, grams: real)

  /** True when no element of `s` occurs twice. */
  predicate Distinct<T(==)>(s: seq<T>) {
    forall i, j :: 0 <= i < j < |s| ==> s[i] != s[j]
  }

  /**
   * The minimum-standards table: `order` is the table's key order (a dictionary's
   * insertion order) and `minimum` its values.
   */
  datatype Standards = Standards(order: seq<Nutrient>, minimum: map<Nutrient, real>) {

    /** Each key occurs once in `order`, and `order` lists exactly the keys of `minimum`. */
    predicate Valid() {
      && Distinct(order)
      && (forall n :: n in minimum ==> n in order)
      && (forall n :: n in order ==> n in minimum)
    }

    /** The minimum for `n`, or 0 when the table has no entry for it. */
    function Minimum(n: Nutrient): real {
      if n in minimum then minimum[n] else 0.0
    }
  }

  /** The table that results when the standards file is missing. */
  const NoStandards: Standards := Standards([], map[])

  /** The first catalog record whose food code is `code`, as a query's `.first()` finds it. */
  function Lookup(catalog: Catalog, code: int): Option<Ingredient> {
    if catalog == [] then None
    else if catalog[0].foodCode == code then Some(catalog[0])
    else Lookup(catalog[1..], code)
  }

  /**
   * The lookup fails exactly when no record has the code; otherwise it finds the first
   * record, in catalog order, that has it.
   */
  lemma {:induction false} LookupFirst(catalog: Catalog, code: int)
    ensures Lookup(catalog, code).None? <==> forall i :: 0 <= i < |catalog| ==> catalog[i].foodCode != code
    ensures Lookup(catalog, code).Some? ==>
              exists i :: 0 <= i < |catalog| && catalog[i] == Lookup(catalog, code).value
                && catalog[i].foodCode == code
                && forall j :: 0 <= j < i ==> catalog[j].foodCode != code
  {
    if catalog != [] && catalog[0].foodCode != code {
      LookupFirst(catalog[1..], code);
      assert forall i :: 1 <= i < |catalog| ==> catalog[i] == catalog[1..][i - 1];
      if Lookup(catalog, code).Some? {
        var i :| 0 <= i < |catalog[1..]| && catalog[1..][i] == Lookup(catalog, code).value
                 && catalog[1..][i].foodCode == code
                 && forall j :: 0 <= j < i ==> catalog[1..][j].foodCode != code;
        assert catalog[i + 1] == catalog[1..][i];
        assert forall j :: 0 <= j < i + 1 ==> catalog[j].foodCode != code by {
          forall j | 0 <= j < i + 1 ensures catalog[j].foodCode != code {
            if j > 0 { assert catalog[j] == catalog[1..][j - 1]; }
          }
        }
      }
    }
  }
}
