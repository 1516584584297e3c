/**
 * The deficiency classifier: which nutrients fall strictly short of their
 * minimum, and the pass/fail symbol shown beside each nutrient.
 */
module Classifier {
  import opened Nutrients

  /** The symbol shown for a nutrient below its minimum (U+00D7). */
  const FailSymbol: string := "\U{00D7}"

  /** The symbol shown for a nutrient that meets its minimum (U+25CB). */
  const PassSymbol: string := "\U{25CB}"

  /** The total recorded for `n`, or 0 when there is none (`totals.get(n, 0)`). */
  function TotalOf(totals: map<Nutrient, real>, n: Nutrient): real {
    if n in totals then totals[n] else 0.0
  }

  /** A nutrient is deficient when its total is strictly below its minimum. */
  predicate IsDeficient(totals: map<Nutrient, real>, standards: Standards, n: Nutrient) {
    TotalOf(totals, n) < standards.Minimum(n)
  }

  /** The deficient nutrients among `keys`, in the order of `keys`. */
  function DeficientAmong(keys: seq<Nutrient>, totals: map<Nutrient, real>, standards: Standards): (r: seq<Nutrient>)
    ensures forall n :: n in r <==> n in keys && IsDeficient(totals, standards, n)
    ensures |r| <= |keys|
    ensures Distinct(keys) ==> Distinct(r)
  {
    if keys == [] then []
    else
      var rest := DeficientAmong(keys[1..], totals, standards);
      assert forall n :: n in keys <==> n == keys[0] || n in keys[1..];
      if IsDeficient(totals, standards, keys[0]) then [keys[0]] + rest else rest
  }

  /** The deficient nutrients keep the order of the keys: the filter distributes over concatenation. */
  lemma {:induction false} DeficientAmongAppend(a: seq<Nutrient>, b: seq<Nutrient>, totals: map<Nutrient, real>,
                                                standards: Standards)
    ensures DeficientAmong(a + b, totals, standards)
              == DeficientAmong(a, totals, standards) + DeficientAmong(b, totals, standards)
  {
    if a == [] {
      assert a + b == b;
    } else {
      assert (a + b)[0] == a[0] && (a + b)[1..] == a[1..] + b;
      DeficientAmongAppend(a[1..], b, totals, standards);
    }
  }

  /**
   * The deficiency list: the nutrients of the standards table, in the table's order,
   * whose total is below the minimum.
   */
  function Deficiencies(totals: map<Nutrient, real>, standards: Standards): seq<Nutrient> {
    DeficientAmong(standards.order, totals, standards)
  }

  /** The pass/fail symbol for each nutrient of the standards table. */
  function ResultSymbols(totals: map<Nutrient, real>, standards: Standards): map<Nutrient, string> {
    map n | n in standards.minimum :: if IsDeficient(totals, standards, n) then FailSymbol else PassSymbol
  }

  /**
   * The deficiency list holds exactly the nutrients of the standards table whose total is
   * strictly below the minimum, each once; a total equal to the minimum passes, and a
   * nutrient the table does not list is never flagged.
   */
  lemma DeficienciesExact(totals: map<Nutrient, real>, standards: Standards)
    requires standards.Valid()
    ensures forall n :: n in Deficiencies(totals, standards) <==>
              n in standards.minimum && TotalOf(totals, n) < standards.minimum[n]
    ensures forall n :: TotalOf(totals, n) >= standards.Minimum(n) ==> n !in Deficiencies(totals, standards)
    ensures Distinct(Deficiencies(totals, standards))
  {
  }

  /** The fail symbol marks exactly the deficient nutrients, and every other listed nutrient passes. */
  lemma SymbolsMatchDeficiencies(totals: map<Nutrient, real>, standards: Standards)
    requires standards.Valid()
    ensures ResultSymbols(totals, standards).Keys == standards.minimum.Keys
    ensures forall n :: n in ResultSymbols(totals, standards) ==>
              (ResultSymbols(totals, standards)[n] == FailSymbol <==> n in Deficiencies(totals, standards))
    ensures forall n :: n in ResultSymbols(totals, standards) ==>
              (ResultSymbols(totals, standards)[n] == PassSymbol <==> n !in Deficiencies(totals, standards))
  {
  }

  /** With the empty table used when no standards file exists, nothing is listed and nothing is deficient. */
  lemma NoStandardsNoDeficiencies(totals: map<Nutrient, real>)
    ensures Deficiencies(totals, NoStandards) == []
    ensures ResultSymbols(totals, NoStandards) == map[]
  {
  }
}
