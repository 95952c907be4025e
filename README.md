# Star Wars planet search: the planets table filter

This project models the filtering logic of the `PlanetsTable` component of a
small React application that lists the planets of the Star Wars universe and
lets the user narrow the list. The component has three pieces of logic, and
the model has all three:

- the **name filter**: a case-insensitive substring search on a planet's
  name. It runs in the effect that watches `planets` and `nameFilter`, and
  again in the handler of the search box;
- the **pending criterion** `{ column, comparison, value }`. It starts as
  `population` / `maior que` / `"0"`. The change handler edits one part at a
  time;
- the **single-criterion numeric filter** run by the "Filter" button. It
  starts from the full planet list. If the pending criterion is complete, it
  applies one of `maior que` (greater than), `menor que` (less than) or
  `igual a` (equal to) to the number parsed from each planet's attribute.

Files and modules:

- `wrappers.dfy` (`Wrappers`): `Option`.
- `sequences.dfy` (`Sequences`): `Filter`, which is `Array.prototype.filter`.
  It is specified by membership, by multiplicities and by an
  order-preserving subsequence relation.
- `text.dfy` (`Text`): ASCII `toLowerCase`/`toUpperCase`, and `includes`
  proved equal to "occurs as a contiguous block".
- `numbers.dfy` (`Numbers`): `parseFloat` on decimal text, with an optional
  fraction and exponent part. `None` stands for NaN. It has round trips for
  integers, decimal fractions and exponents, and the exact value of the
  fraction digits.
- `planets.dfy` (`Planets`): the planet record and the name filter.
- `criteria.dfy` (`Criteria`): the pending criterion, one-field edits, the
  completeness guard, and the filter one button press applies.
  `ApplyCriterion` is a single filter with one combined predicate
  (`Admits`). The button handler has the source's branch-by-branch shape and
  is proved equal to it.
- `planets_table.dfy` (`PlanetsTableComponent`): the component as a class.
  `planets` is a constant. `nameFilter`, `pending` and `filteredPlanets` are
  fields. The class has methods for the three handlers and for the effect
  (`Recompute`).
- `planets_table_test.dfy` (`PlanetsTableTest`): `FilterScenario`, a client
  of the class that replays the component test.
- `scenarios.dfy` (`Scenarios`): the two-planet data of the component tests,
  with what each filter makes of it.

The component's test file assumes more than the component does. The model
follows the component's code:

- The test presses `button-remove-filters` between two criteria and looks
  for rows with the id `planet-row`. It thereby assumes a set of criteria
  with a "remove all" control and rows that carry that id. None of these
  exists in `src/components/PlanetsTable.js`.
- In the code, each press of the button applies exactly one criterion to the
  full planet list. That is why the test's second and third presses see both
  planets again even without the remove control. The result ignores the
  name filter (`Scenarios.ClickIgnoresNameFilter`).
- In the code, typing in the search box shows the name filter over the full
  list. This drops the criterion applied before.

## Model

| member | source | states |
|---|---|---|
| `Sequences.Filter` | src/components/PlanetsTable.js:14-16 | `Array.filter` keeps exactly the elements the callback accepts, each as often as in the input, as an order-preserving subsequence |
| `Sequences.FilterCongruent` | src/components/PlanetsTable.js:41-51 | two callbacks that agree on every element give the same filtered list |
| `Sequences.FilterKeepsAll` | src/components/PlanetsTable.js:35 | a callback that accepts everything returns the list unchanged |
| `Text.Lower` | src/components/PlanetsTable.js:14-15 | `toLowerCase` keeps the length, turns each capital into the small letter at the same place in the alphabet, and leaves every other character alone |
| `Text.LowerOfUpper` | src/components/PlanetsTable.js:30-31 | lower-casing erases every difference of letter case |
| `Text.LowerIdempotent` | src/components/PlanetsTable.js:14-15 | lower-casing twice equals lower-casing once |
| `Text.Includes` | src/components/PlanetsTable.js:14-15 | `includes` is true exactly when the query occurs as a contiguous block of the text |
| `Text.ContainsEmpty` | src/components/PlanetsTable.js:15 | the empty query occurs in every name |
| `Text.FirstCharOccurs` | src/components/PlanetsTable.js:30-31 | a name that lacks the first character of the query does not contain it |
| `Numbers.ParseFloat` | src/components/PlanetsTable.js:38 | `parseFloat` yields NaN for text with no digit |
| `Numbers.ParseUnsigned` | src/components/PlanetsTable.js:42 | an unsigned decimal prefix is a number exactly when the text starts with a digit or with a point and a digit, and it is never negative |
| `Numbers.FractionValueExact` | src/components/PlanetsTable.js:38 | the digits after the decimal point denote exactly their integer value with the point moved one place left per digit (".25" is 25 / 100) |
| `Numbers.TenthsIsQuotient` | src/components/PlanetsTable.js:38 | moving the decimal point `n` places to the left divides by 10 to the power `n` |
| `Numbers.Scale10IsProduct` | src/components/PlanetsTable.js:38 | moving the decimal point `n` places to the right multiplies by 10 to the power `n` |
| `Numbers.PointRoundTrip` | src/components/PlanetsTable.js:38-42 | digits, a point and digits parse to the integer part plus the fraction digits shifted right by their count, when what follows does not start with a digit or an exponent letter |
| `Numbers.ExponentRoundTrip` | src/components/PlanetsTable.js:38-42 | digits, `e` and digits parse to the mantissa with the point moved right by the exponent ("1e6" is a million), which the number input accepts |
| `Numbers.NegativeExponentRoundTrip` | src/components/PlanetsTable.js:38-42 | digits, `e-` and digits parse to the mantissa with the point moved left by the exponent |
| `Numbers.DecimalRoundTrip` | src/components/PlanetsTable.js:38-42 | the decimal text of a natural number parses back to that number, with or without a minus sign, when what follows does not start with a digit, a point or an exponent letter |
| `Numbers.DigitsThenStop` | src/components/PlanetsTable.js:42 | `parseFloat` reads the whole run of digits and ignores what follows when that does not start with a digit, a point or an exponent letter |
| `Numbers.NotANumber` | src/components/PlanetsTable.js:42 | text that starts with a letter, such as "unknown", and the empty text parse as NaN; this holds in JavaScript for every such text other than one starting with `Infinity` |
| `Planets.Lookup` | src/components/PlanetsTable.js:42 | `planet[column]` is the name for "name", the attribute otherwise, and undefined exactly when the planet has no such attribute |
| `Planets.NameMatches` | src/components/PlanetsTable.js:14-15 | the name-filter callback accepts a planet exactly when its lower-cased name contains the lower-cased query |
| `Planets.FilterByName` | src/components/PlanetsTable.js:14-15 | the name filter keeps exactly the planets whose lower-cased name contains the lower-cased query, in their original order |
| `Planets.EmptyQueryKeepsAll` | src/components/PlanetsTable.js:14-15 | an empty query keeps every planet |
| `Planets.QueryCaseInsensitive` | src/components/PlanetsTable.js:30-31 | queries that lower-case alike select the same planets |
| `Planets.UpperCaseQuery` | src/components/PlanetsTable.js:30-31 | changing the query to upper case never changes the result |
| `Criteria.WithField` | src/components/PlanetsTable.js:21-24 | an edit sets the named part of the pending criterion and leaves the other two parts unchanged |
| `Criteria.EditsCommute` | src/components/PlanetsTable.js:19-25 | edits of two different controls give the same criterion in either order |
| `Criteria.DefaultCriterionReady` | src/components/PlanetsTable.js:6-10 | the initial criterion is complete, names the first column and the first comparison of the selectors, and its value reads as 0 |
| `Criteria.IsComplete` | src/components/PlanetsTable.js:37 | the guard holds exactly when none of the three parts is the empty string |
| `Criteria.FieldNumber` | src/components/PlanetsTable.js:42 | a missing attribute is NaN, and a present attribute gives exactly `parseFloat` of its text |
| `Criteria.Greater` | src/components/PlanetsTable.js:42 | `a > b` holds exactly when `b < a` holds, and never together with `a === b` |
| `Criteria.Trichotomy` | src/components/PlanetsTable.js:40-51 | two numbers stand in exactly one of `>`, `<` and `===`; NaN on either side stands in none of them |
| `Criteria.Less` | src/components/PlanetsTable.js:46 | `a < b` holds only for two numbers that are not equal |
| `Criteria.Same` | src/components/PlanetsTable.js:50 | `a === b` holds exactly for two equal numbers, so NaN equals nothing, not even NaN |
| `Criteria.Admits` | src/components/PlanetsTable.js:37-52 | a planet passes the press when the guard fails or the comparison is unknown; otherwise exactly when the callback of the chosen comparison accepts it |
| `Criteria.ApplyCriterion` | src/components/PlanetsTable.js:34-56 | one press gives a subsequence of the full list that keeps each admitted planet as often as the list holds it and drops every other planet. It gives the full list when the criterion is incomplete or names an unknown comparison. It gives nothing when the target value does not parse |
| `Criteria.OperatorSemantics` | src/components/PlanetsTable.js:40-51 | `maior que`, `menor que` and `igual a` keep exactly the planets whose parsed attribute is greater than, less than or equal to the parsed value |
| `Criteria.NonNumericFieldDropped` | src/components/PlanetsTable.js:38-51 | a planet whose attribute is missing or is not a number is never kept by a comparison |
| `Criteria.DefaultDropsUnknownPopulation` | src/components/PlanetsTable.js:6-10 | pressing the button with the initial criterion (population greater than 0) drops every planet whose population is "unknown" |
| `PlanetsTableComponent.PlanetsTable.constructor` | src/components/PlanetsTable.js:5-11 | the first render has the default pending criterion and an empty view |
| `PlanetsTableComponent.PlanetsTable.Recompute` | src/components/PlanetsTable.js:13-17 | the effect sets the view to the name filter over the full list |
| `PlanetsTableComponent.PlanetsTable.HandleChange` | src/components/PlanetsTable.js:19-25 | a change event replaces one part of the pending criterion. Nothing else changes, including the view |
| `PlanetsTableComponent.PlanetsTable.HandleNameFilterChange` | src/components/PlanetsTable.js:27-32 | the typed text becomes the name filter unchanged. The view becomes the name filter over the full list, so the effect that follows changes nothing |
| `PlanetsTableComponent.PlanetsTable.HandleFilterClick` | src/components/PlanetsTable.js:34-56 | the view becomes `ApplyCriterion(planets, pending)`. It depends on neither the previous view nor the name filter, so a second press with the same criterion changes nothing |
| `Scenarios.GreaterThanScenario` | src/tests/PlanetsTable.test.js:37-44 | population `maior que` 1500000 leaves only Planet 2 |
| `Scenarios.LessThanScenario` | src/tests/PlanetsTable.test.js:49-56 | population `menor que` 1500000 leaves only Planet 1 |
| `Scenarios.EqualToScenario` | src/tests/PlanetsTable.test.js:60-66 | population `igual a` 1000000 leaves exactly Planet 1 |
| `Scenarios.ExponentValueScenario` | src/components/PlanetsTable.js:38-50 | population `igual a` "1e6" also leaves exactly Planet 1, since both sides are compared as numbers |
| `Scenarios.PlanQueryScenario` | src/components/PlanetsTable.js:30-31 | the query "Plan" keeps both test planets |
| `Scenarios.ZzzQueryScenario` | src/components/PlanetsTable.js:30-31 | the query "zzz" keeps no test planet |
| `Scenarios.ClickIgnoresNameFilter` | src/components/PlanetsTable.js:34-55 | with the query "zzz" no planet matches by name, yet a press with the default criterion shows both planets |
| `PlanetsTableTest.FilterScenario` | src/tests/PlanetsTable.test.js:26-67 | the test's three presses on the component, each from both planets, leave Planet 2, then Planet 1, then Planet 1 |

## Left out

- The provider's remote fetch, its loading indicator and the context wiring
  are left out (src/contexts/PlanetsProvider.js). They are network and
  asynchronous I/O. The planet list is a constructor argument of the table.
  The provider's loading flag starts false (src/contexts/PlanetsProvider.js:8),
  so a first table mounts with the empty list. The provider unmounts it when
  the fetch sets the flag, and mounts a new table with the full list when the
  fetch ends. So each mounted table only ever sees one list.
- `src/App.js` only composes the provider and the table.
- The JSX markup, the table rows and the option lists of the selectors are
  left out. The five column names and the three comparison strings are
  constants (`Criteria.Columns`, `Criteria.Comparisons`).
- React's scheduling is left out. The effect on `[planets, nameFilter]` is
  the method `Recompute`, which the host calls after mounting and after
  `nameFilter` changes.
- `HandleChange` takes the control's `name` as one of three tags. Only the
  three controls that carry those names call the handler, so the model does
  not cover the extra key that any other name would add.
- Numbers.ParseFloat: "Infinity", white space outside ASCII and exponents so
  large that a double overflows to Infinity are not modelled. The planet data
  does not contain them; a user could type only the last into the number
  input.
- Numbers.NotANumber: the model also reads text starting with `Infinity` as
  NaN, where JavaScript reads it as a number. The planet data and the number
  input never hold that text.
- Numbers.ParseFloat: numbers are exact reals, not IEEE-754 doubles. Rounding
  of long decimal fractions, and therefore `===` between two texts that round
  to the same double, is not modelled.
- Text.Lower: only ASCII letters change case. Unicode case mapping is not
  modelled.
- `planet[column]` on an attribute that is not text (the `films` array) is
  not modelled. Every attribute is text, and a missing one is NaN.
- The test file also uses controls the component does not have
  (`button-remove-filters`, `button-remove-filter`, `filter`) and row ids it
  never renders (`planet-row`). These, and the criterion set, column
  availability and combined view they assume, are not part of this model.
