# Nutrient engine of the dog-food calculator, in Dafny

This project models the nutrient engine of a Flask application that checks a home-made
dog-food recipe against AAFCO minimum standards. The user picks ingredients by food code
and gives grams. The engine then:

- sums each nutrient over the recipe, scaling the catalog's per-100 g amounts;
- flags a nutrient as deficient when its total is strictly below its minimum, and gives it
  the pass/fail symbol "○" or "×";
- for each deficient nutrient, suggests the catalog ingredients richest in it;
- scores every ingredient by how much of each deficit it covers, capped at 1.0 per
  nutrient, and suggests the five best.

The two tables the engine reads are the ingredient catalog and the standards table. Both are
inputs here. The catalog is a `seq<Ingredient>` in table order. The standards table is a
key order plus a `map`, because the order of a Python dictionary decides the order of the
deficiency list. Amounts, grams and minimums are `real`.

Modules, one per component:

- `Wrappers`: `Option` and `Result`.
- `Nutrients`: the data model. It holds the nutrient column set `Columns`, `Ingredient`, `Entry`,
  `Standards` and `Lookup`, where `Lookup` returns the first catalog record with a food code.
- `Ranking`: the stable descending sort that Python's `sorted(..., reverse=True)` performs,
  and truncation `s[:k]`.
- `Aggregator`: one `Aggregate` method. It stands in for every copy of the summing loop:
  `calculate_totals` (app.py:635-650, which replaces the broken definition at app.py:88-96),
  both `calculate_nutrients` (app.py:259-272, 452-462), and the inline loops of `calculate`
  (app.py:303-318), `process_adjust` (app.py:402-410) and `calculate_nutrients_endpoint`
  (app.py:561-577). It returns the totals, the gram
  total, the rows listed back to the user and the entries skipped with a warning. It is
  proved against the specification function `Total`.
- `Classifier`: the deficiency list and the result symbols.
- `Suggester`: the per-nutrient suggestions. The set of table columns is a parameter;
  `Columns` holds this application's 48 nutrient columns, and a scenario passes it. One variant keeps the top 15 and skips
  nutrients that are not columns. The `process_adjust` variant keeps the top 5 with a positive
  amount and raises on a nutrient that is not a column.
- `Coverage`: `suggest_best_ingredients` as a method with the source's nested loops, proved
  against `BestSuggestions`.
- `Scenarios`: worked examples on small catalogs. They rely on the contracts above and unfold
  the specification functions (`Total`, `Deficiencies`, `Score`, `Candidates`, ...) on concrete values.

Choices where the code's behaviour is easy to misread:

- A deficiency that is not a column of the ingredient table is skipped silently by
  `suggest_ingredients_for_deficiencies` (app.py:102) and raises in `process_adjust`
  (app.py:416-417). Each variant is modelled as its code behaves.
- Ties keep catalog order. Python's sort is stable (app.py:376), and the SQL queries leave the
  order of ties unspecified, so the model breaks those ties by catalog order too.
- Entries with any grams are accepted, negative ones included, and summed as given.
- The covered nutrients are a list in deficiency order (app.py:364), not a set.

## Model

| member | source | states |
|---|---|---|
| `Nutrients.LookupFirst` | app.py:642-643 | The result is None exactly when no catalog record has the food code; otherwise it is the first record, in catalog order, that has it. |
| `Aggregator.Aggregate` | app.py:635-650 | Totals have exactly the standards' keys. Each total equals `Total`, the sum over resolved entries of value * grams / 100. The gram total is the grams summed over resolved entries. The rows are the resolved entries with their names, and the skipped list is the unresolved entries, both in selection order. |
| `Aggregator.AddEntry` | app.py:640-648 | One pass of the loop keeps the running state equal to the specification functions: it moves from the entries already summed to those entries plus the next one. |
| `Aggregator.AddScaled` | app.py:644-646 | Every key of the standards order gets the ingredient's amount scaled to the grams added to it. Other keys and the key set are unchanged. |
| `Aggregator.TotalAppend` | app.py:639-646 | The total of a concatenated selection is the sum of the totals of its parts, so entries are summed independently. |
| `Aggregator.ZeroGramsContributeNothing` | app.py:641-646 | Inserting an entry of 0 grams anywhere in a selection changes no total. |
| `Aggregator.UnresolvedContributesNothing` | app.py:643-648 | Inserting an entry whose food code is absent from the catalog anywhere in a selection changes no total. |
| `Aggregator.DuplicateAddsTwice` | app.py:639-646 | Listing an entry twice adds its contribution twice. |
| `Aggregator.TotalPermutation` | app.py:639-646 | Two selections that are permutations of each other have the same totals. |
| `Aggregator.ResolvedGramsAreRowGrams` | app.py:307-315 | The gram total equals the sum of grams over the rows listed back, which are the resolved entries. |
| `Aggregator.RowsAndSkippedPartition` | app.py:307-315 | The rows and the skipped entries together account for every entry. Every resolved entry appears as a row with its catalog name, and every unresolved one is skipped. |
| `Classifier.DeficientAmong` | app.py:321 | A key is in the result exactly when it is among the keys and its total is strictly below its minimum. Distinct keys give a distinct result, no longer than the key list. |
| `Classifier.DeficientAmongAppend` | app.py:321 | The deficient keys keep the order of the key list: filtering a concatenation gives the concatenation of the filtered parts. |
| `Classifier.DeficienciesExact` | app.py:603-606 | The deficiency list holds exactly the standards' nutrients whose total is strictly below the minimum, each once. A total equal to the minimum passes, and a nutrient absent from the table is never flagged. |
| `Classifier.SymbolsMatchDeficiencies` | app.py:435-438 | There is a symbol for each standards key. It is "×" exactly for the deficient nutrients and "○" for every other key. |
| `Classifier.NoStandardsNoDeficiencies` | app.py:81-83 | With the empty standards table the loader falls back to, the deficiency list and the symbol map are empty. |
| `Ranking.InsertCounts` | app.py:376 | Inserting adds exactly one occurrence of the element and lengthens the list by one. |
| `Ranking.InsertSorted` | app.py:376 | Inserting into a non-increasing list keeps it non-increasing. |
| `Ranking.SortDescContract` | app.py:376 | The sort is a permutation of its input and is non-increasing by the key. |
| `Ranking.Take` | app.py:376 | `s[:k]` has length min(k, len(s)) and is a prefix of `s`. |
| `Ranking.SortStable` | app.py:376 | For every key value, the elements with that key keep their input order, as Python's stable sort keeps them. |
| `Ranking.TopStable` | app.py:376 | For every key value, the kept elements with that key are the first ones with that key in the input. |
| `Ranking.TopDominates` | app.py:376 | No input element left out of the first k has a larger key than a kept one. |
| `Ranking.TopContract` | app.py:376 | The first k of the sort number min(k, len(s)), are in non-increasing order of the key, and are taken from the input, each at most as often as it occurs there. |
| `Suggester.SuggestForDeficiencies` | app.py:99-119 | There is an entry exactly for each deficient nutrient that is a column of the ingredient table. It holds that nutrient's top 15 ranking. |
| `Suggester.TopForContract` | app.py:103-105 | The per-nutrient list has min(limit, catalog size) ingredients, in non-increasing order of the nutrient, each taken from the catalog at most as often as it occurs there. |
| `Suggester.TopForDominates` | app.py:103-105 | No catalog ingredient left out of the per-nutrient list has more of the nutrient than one kept. |
| `Suggester.PositiveForMembers` | app.py:416 | The filter keeps exactly the catalog ingredients with a strictly positive amount of the nutrient. |
| `Suggester.SuggestPositive` | app.py:414-429 | The call fails exactly when some deficiency is not a column, and the error names the first such deficiency. Otherwise there is one entry per deficiency, holding its positive top-5 ranking. |
| `Suggester.PositiveTopForContract` | app.py:415-420 | Exactly min(5, number of catalog ingredients with a strictly positive amount of the nutrient) ingredients, each from the catalog with a positive amount, in non-increasing order of the nutrient. |
| `Suggester.PositiveTopDominates` | app.py:415-420 | No catalog ingredient with a positive amount that is left out has more of the nutrient than one kept. |
| `Coverage.TermContract` | app.py:358-363 | A term lies between 0 and 1. It is positive exactly when the minimum and the amount are both positive. A surplus of any size gives exactly 1.0, and below the minimum the term is amount / minimum. |
| `Coverage.Covered` | app.py:357-364 | The covered list holds exactly the deficient nutrients whose minimum and amount are both positive, and is no longer than the deficiency list. |
| `Coverage.CoveredAppend` | app.py:357-364 | The covered list follows deficiency order: covering a concatenated list gives the concatenation of the two covered lists. |
| `Coverage.Score` | app.py:352-365 | The score is at least 0 and at most the number of covered nutrients. It is positive exactly when some nutrient is covered. |
| `Coverage.ScoreIngredient` | app.py:352-364 | The inner loop's running total ends as the ingredient's `Score`, and the running list as its `Covered` list. |
| `Coverage.SuggestBest` | app.py:343-376 | The running score and running covered list give each ingredient's suggestion. The result is the candidates stably sorted by score, descending, cut to five. |
| `Coverage.CandidatesAppend` | app.py:352-373 | Candidates keep catalog order: the candidates of a concatenated catalog are the concatenation of the parts' candidates. |
| `Coverage.CandidatesExact` | app.py:366-373 | The candidates are exactly the suggestions of the catalog ingredients with a positive score. |
| `Coverage.BestSuggestionsRanked` | app.py:376 | There are min(5, number of candidates) suggestions, in non-increasing order of score. |
| `Coverage.BestSuggestionsScored` | app.py:366-376 | Every suggestion belongs to a catalog ingredient. Its score is above 0 and at most its number of covered nutrients, which is at most the number of deficiencies. |
| `Coverage.BestDominates` | app.py:376 | No candidate left out has a higher score than a kept suggestion. |
| `Coverage.BestStable` | app.py:376 | Equal scores keep catalog order: the kept suggestions with a given score are the first candidates with that score. |

## Left out

- The Flask layer (routes, JSON parsing, sessions, `render_template`, `jsonify`, error-to-500 handlers) is web I/O. The model's outputs are the values those routes serialize.
- Database access is not modelled. The catalog is a sequence in table order, `filter_by(...).first()` and `next(...)` are `Lookup`, and `Ingredient.query.all()` is the sequence itself.
- The spreadsheet loaders `process_excel` and `load_aafco_standards` are file I/O through pandas. Only the empty-table fallback is modelled, as `NoStandards`.
- Floating point: amounts are exact reals, so the model has no rounding error in the sums, and the scoring division is exact.
- Aggregator.TotalAppend, Aggregator.TotalPermutation and Aggregator.DuplicateAddsTwice hold exactly only over reals. In the program's double sums the order of additions changes the last bits, and that can flip a deficiency at the boundary: an ingredient with 1.0 per 100 g selected as 10 g, 20 g, 30 g sums to 0.6000000000000001 in that order and to 0.6 in reverse, so against a minimum of 0.6000000000000001 only the reversed selection is deficient.
- `round(total_score, 2)` is left out: the model stores and sorts on the unrounded score. Two scores that round to the same two-decimal value tie in the source and keep catalog order; the model ranks them by exact score. This can also decide which of them make the top five (`Coverage.BestDominates`, `Coverage.BestStable`).
- Coverage.BestSuggestionsScored: "score above 0" holds of the exact score only. The source admits a candidate on the unrounded `total_score > 0` (app.py:367) but returns `round(total_score, 2)` (app.py:371), so an ingredient with a total of 0.004 (an amount of 0.004 against a minimum of 1) is returned with score 0.0.
- `suggest_ingredients_for_deficiencies` and `process_adjust` rank with SQL `ORDER BY ... DESC LIMIT`, whose tie order is unspecified. The model breaks ties by catalog order, so the exact lists in `SuggestForDeficiencies` and `SuggestPositive` are one admissible answer.
- Suggester.TopForContract: together with `Suggester.TopForDominates`, states only length, order, membership and dominance, because SQL fixes nothing more.
- `hasattr(Ingredient, n)` and `getattr(Ingredient, n)` also succeed for non-nutrient attributes (`id`, `food_code`, `name`, `query`). The model takes the column check to be membership in the 48 nutrient columns.
- Ingredient records are not tied to the column set: an `Ingredient`'s map may hold a name outside `Columns`, which the source would read as 0 through `getattr(ingredient, n, 0)` (app.py:358, 645). Every lemma holds for all catalogs, so this only widens the inputs; in this application every record is keyed by the 48 columns.
- `getattr(ingredient, n, 0) or 0` reads a missing nutrient as 0. A `None` value cannot occur because the columns are non-nullable, so the `or 0` is not modelled separately.
- Input coercion is not modelled: `item.get('grams', 0)`, `int(...)`/`float(...)` conversions, the list-versus-dict checks of `process_adjust` and `recalculate`, and the `IndexError` that `selected_list[0]` raises on an empty list. Entries are well-formed `(food code, grams)` pairs.
- The warning `print`s of `calculate_totals`, both `calculate_nutrients` and `calculate_nutrients_endpoint` are modelled as the `skipped` list that `Aggregate` returns. The copies in `calculate` (app.py:313-318) and `process_adjust` (app.py:406-410) have no else branch and print nothing, so for them `skipped` is extra output. The other debug `print`s are not modelled.
- The display table `nutrient_labels` and the session-merging glue of `adjust` GET (app.py:475-495) are not modelled.
- The earlier `calculate_totals` (app.py:88-96), which reads the undefined `food_database`, is shadowed by the later definition and never runs. Only the later one is modelled. The two identical `calculate_nutrients` definitions are one.
