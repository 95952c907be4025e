/** The pending numeric criterion of the planets table and the single-
    criterion filter the "Filter" button applies. */
module Criteria {
  import opened Wrappers
  import opened Numbers
  import opened Planets
  import Sequences

  /** The three comparison options of the comparison selector. */
  const GreaterThan: string := "maior que"
  const LessThan: string := "menor que"
  const EqualTo: string := "igual a"
  const Comparisons: seq<string> := [GreaterThan, LessThan, EqualTo]

  /** The five options of the column selector. */
  const Columns: seq<string> := ["population", "orbital_period", "diameter", "rotation_period", "surface_water"]

  /** The pending criterion `{ column, comparison, value }`. Every part is
      free text: the selectors and the number input deliver strings, and the
      value is parsed only when the button is pressed. */
  datatype Criterion = Criterion(column: string, comparison: string, value: string)

  /** The state the component starts with: population, greater than, "0". */
  const DefaultCriterion: Criterion := Criterion("population", GreaterThan, "0")

  /** The initial criterion is complete, names the first column and the
      first comparison of the selectors, and its value reads as 0. */
  lemma DefaultCriterionReady()
    ensures IsComplete(DefaultCriterion)
    ensures DefaultCriterion.column == Columns[0] && DefaultCriterion.comparison == Comparisons[0]
    ensures ParseFloat(DefaultCriterion.value).Some? && ParseFloat(DefaultCriterion.value).value == 0.0
  {
    assert Decimal(0) == "0";
    DecimalRoundTrip(0, "");
    assert "0" + "" == "0";
  }

  /** The `name` attribute of the control that fired a change event. */
  datatype FieldName = ColumnField | ComparisonField | ValueField

  /** `criterion[name]`. */
  function Get(c: Criterion, f: FieldName): string
  {
    match f
    case ColumnField => c.column
    case ComparisonField => c.comparison
    case ValueField => c.value
  }

  /** `{ ...c, [f]: v }`: the criterion with one part replaced. */
  function WithField(c: Criterion, f: FieldName, v: string): (r: Criterion)
    ensures Get(r, f) == v
    ensures forall g :: g != f ==> Get(r, g) == Get(c, g)
  {
    match f
    case ColumnField => c.(column := v)
    case ComparisonField => c.(comparison := v)
    case ValueField => c.(value := v)
  }

  /** Edits of two different controls can be made in either order. */
  lemma EditsCommute(c: Criterion, f: FieldName, a: string, g: FieldName, b: string)
    requires f != g
    ensures WithField(WithField(c, f, a), g, b) == WithField(WithField(c, g, b), f, a)
  {
  }

  /** The guard of the button handler: column and comparison are truthy
      strings and the value is not the empty string. */
  predicate IsComplete(c: Criterion): (b: bool)
    ensures b <==> forall f :: Get(c, f) != ""
  {
    assert Get(c, ColumnField) == c.column && Get(c, ComparisonField) == c.comparison;
    assert Get(c, ValueField) == c.value;
    c.column != "" && c.comparison != "" && c.value != ""
  }

  /** `parseFloat(planet[column])`; a missing attribute is NaN. */
  function FieldNumber(p: Planet, column: string): (r: Option<real>)
    ensures column != "name" && column !in p.fields ==> r == None
    ensures r.Some? ==> Lookup(p, column).Some? && ParseFloat(Lookup(p, column).value) == r
    ensures Lookup(p, column).Some? ==> r == ParseFloat(Lookup(p, column).value)
  {
    match Lookup(p, column)
    case None => None
    case Some(text) => ParseFloat(text)
  }

  /** `a > b`, `a < b` and `a === b` on numbers, where NaN (`None`) makes
      each of them false. */
  predicate Greater(a: Option<real>, b: Option<real>): (r: bool)
    ensures r <==> Less(b, a)
    ensures r ==> !Same(a, b)
  {
    a.Some? && b.Some? && a.value > b.value
  }

  predicate Less(a: Option<real>, b: Option<real>): (r: bool)
    ensures r ==> a.Some? && b.Some? && !Same(a, b)
  {
    a.Some? && b.Some? && a.value < b.value
  }

  predicate Same(a: Option<real>, b: Option<real>): (r: bool)
    ensures r <==> a.Some? && a == b
  {
    a.Some? && b.Some? && a.value == b.value
  }

  /** Two numbers (neither NaN) stand in exactly one of the three
      relations; NaN on either side stands in none. */
  lemma Trichotomy(a: Option<real>, b: Option<real>)
    ensures a.Some? && b.Some? ==>
      (Greater(a, b) || Less(a, b) || Same(a, b)) &&
      !(Greater(a, b) && Less(a, b)) && !(Greater(a, b) && Same(a, b)) && !(Less(a, b) && Same(a, b))
    ensures a.None? || b.None? ==> !Greater(a, b) && !Less(a, b) && !Same(a, b)
  {
  }

  /** The relation a known comparison option names. */
  predicate Holds(op: string, actual: real, target: real)
  {
    (op == GreaterThan && actual > target) ||
    (op == LessThan && actual < target) ||
    (op == EqualTo && actual == target)
  }

  /** Whether planet `p` survives one press of the button with pending
      criterion `c`: an incomplete criterion or an unknown comparison keeps
      everything; otherwise both numbers must parse and stand in the
      relation the comparison names. */
  predicate Admits(c: Criterion, p: Planet): (b: bool)
    ensures !IsComplete(c) || c.comparison !in Comparisons ==> b
    ensures IsComplete(c) && c.comparison == GreaterThan ==>
      (b <==> Greater(FieldNumber(p, c.column), ParseFloat(c.value)))
    ensures IsComplete(c) && c.comparison == LessThan ==>
      (b <==> Less(FieldNumber(p, c.column), ParseFloat(c.value)))
    ensures IsComplete(c) && c.comparison == EqualTo ==>
      (b <==> Same(FieldNumber(p, c.column), ParseFloat(c.value)))
  {
    var actual, target := FieldNumber(p, c.column), ParseFloat(c.value);
    !IsComplete(c) || c.comparison !in Comparisons ||
    (actual.Some? && target.Some? && Holds(c.comparison, actual.value, target.value))
  }

  /** The view one press of the button produces from the full planet list. */
  function ApplyCriterion(planets: seq<Planet>, c: Criterion): (r: seq<Planet>)
    ensures Sequences.IsSubsequence(r, planets)
    ensures forall p :: multiset(r)[p] == if Admits(c, p) then multiset(planets)[p] else 0
    ensures !IsComplete(c) ==> r == planets
    ensures c.comparison !in Comparisons ==> r == planets
    ensures IsComplete(c) && c.comparison in Comparisons && ParseFloat(c.value) == None ==> r == []
  {
    var r := Sequences.Filter(planets, p => Admits(c, p));
    assert !IsComplete(c) || c.comparison !in Comparisons ==> r == planets by {
      if !IsComplete(c) || c.comparison !in Comparisons {
        Sequences.FilterKeepsAll(planets, p => Admits(c, p));
      }
    }
    r
  }

  /** What each comparison keeps, for a complete criterion. */
  lemma OperatorSemantics(planets: seq<Planet>, c: Criterion, p: Planet)
    requires IsComplete(c)
    ensures var a, t := FieldNumber(p, c.column), ParseFloat(c.value);
      c.comparison == GreaterThan ==>
        (p in ApplyCriterion(planets, c) <==> p in planets && a.Some? && t.Some? && a.value > t.value)
    ensures var a, t := FieldNumber(p, c.column), ParseFloat(c.value);
      c.comparison == LessThan ==>
        (p in ApplyCriterion(planets, c) <==> p in planets && a.Some? && t.Some? && a.value < t.value)
    ensures var a, t := FieldNumber(p, c.column), ParseFloat(c.value);
      c.comparison == EqualTo ==>
        (p in ApplyCriterion(planets, c) <==> p in planets && a.Some? && t.Some? && a.value == t.value)
  {
  }

  /** A planet whose attribute is not a number is never kept by a
      comparison. */
  lemma NonNumericFieldDropped(planets: seq<Planet>, c: Criterion, p: Planet)
    requires IsComplete(c) && c.comparison in Comparisons
    requires FieldNumber(p, c.column) == None
    ensures p !in ApplyCriterion(planets, c)
  {
  }

  /** With the default criterion, a planet whose population is "unknown"
      (as the data source reports missing figures) disappears. */
  lemma DefaultDropsUnknownPopulation(planets: seq<Planet>, p: Planet)
    requires "population" in p.fields && p.fields["population"] == "unknown"
    ensures p !in ApplyCriterion(planets, DefaultCriterion)
  {
    NotANumber("unknown");
    assert Lookup(p, DefaultCriterion.column) == Some("unknown");
    assert FieldNumber(p, DefaultCriterion.column) == None;
    assert IsComplete(DefaultCriterion) && DefaultCriterion.comparison in Comparisons;
    NonNumericFieldDropped(planets, DefaultCriterion, p);
  }
}
