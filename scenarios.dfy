/** The two-planet data set of the component's tests, and what the filters
    make of it. */
module Scenarios {
  import opened Wrappers
  import opened Numbers
  import opened Text
  import opened Planets
  import opened Criteria
  import Sequences

  const Planet1: Planet := Planet("Planet 1", map["population" := "1000000"])
  const Planet2: Planet := Planet("Planet 2", map["population" := "2000000"])
  const TestPlanets: seq<Planet> := [Planet1, Planet2]

  lemma ParseOneMillion()
    ensures ParseFloat("1000000") == Some(1000000.0)
  {
    assert Decimal(1) == "1" && Decimal(10) == "10" && Decimal(100) == "100";
    assert Decimal(1000) == "1000" && Decimal(10000) == "10000" && Decimal(100000) == "100000";
    assert Decimal(1000000) == "1000000";
    DecimalRoundTrip(1000000, "");
    assert "1000000" + "" == "1000000";
  }

  lemma ParseTwoMillion()
    ensures ParseFloat("2000000") == Some(2000000.0)
  {
    assert Decimal(2) == "2" && Decimal(20) == "20" && Decimal(200) == "200";
    assert Decimal(2000) == "2000" && Decimal(20000) == "20000" && Decimal(200000) == "200000";
    assert Decimal(2000000) == "2000000";
    DecimalRoundTrip(2000000, "");
    assert "2000000" + "" == "2000000";
  }

  lemma ParseOneAndAHalfMillion()
    ensures ParseFloat("1500000") == Some(1500000.0)
  {
    assert Decimal(1) == "1" && Decimal(15) == "15" && Decimal(150) == "150";
    assert Decimal(1500) == "1500" && Decimal(15000) == "15000" && Decimal(150000) == "150000";
    assert Decimal(1500000) == "1500000";
    DecimalRoundTrip(1500000, "");
    assert "1500000" + "" == "1500000";
  }

  /** The number input also accepts exponent notation: "1e6" is a million. */
  lemma ParseOneEMillion()
    ensures ParseFloat("1e6") == Some(1000000.0)
  {
    assert DigitsValue("1") == 1 && DigitsValue("6") == 6;
    assert Scale10(1.0, 6) == 1000000.0;
    ExponentRoundTrip("1", "6", "");
    assert "1" + ("e" + ("6" + "")) == "1e6";
  }

  lemma ParsePopulations()
    ensures FieldNumber(Planet1, "population") == Some(1000000.0)
    ensures FieldNumber(Planet2, "population") == Some(2000000.0)
  {
    ParseOneMillion();
    ParseTwoMillion();
  }

  /** Filtering the two test planets keeps exactly those `keep` accepts. */
  lemma FilterTestPlanets(keep: Planet -> bool)
    ensures Sequences.Filter(TestPlanets, keep) ==
      (if keep(Planet1) then [Planet1] else []) + (if keep(Planet2) then [Planet2] else [])
  {
    assert TestPlanets[1..] == [Planet2];
    assert TestPlanets[1..][1..] == [];
  }

  /** A callback that accepts both test planets keeps the list whole. */
  lemma KeepBothTestPlanets(keep: Planet -> bool)
    requires keep(Planet1) && keep(Planet2)
    ensures Sequences.Filter(TestPlanets, keep) == TestPlanets
  {
    Sequences.FilterKeepsAll(TestPlanets, keep);
  }

  /** With both numbers known, a complete criterion admits a planet
      exactly when its comparison holds. */
  lemma AdmitsByNumbers(c: Criterion, p: Planet, a: real, t: real)
    requires IsComplete(c) && c.comparison in Comparisons
    requires FieldNumber(p, c.column) == Some(a) && ParseFloat(c.value) == Some(t)
    ensures Admits(c, p) == Holds(c.comparison, a, t)
  {
  }

  /** "population maior que 1500000" leaves only Planet 2. */
  lemma GreaterThanScenario()
    ensures ApplyCriterion(TestPlanets, Criterion("population", GreaterThan, "1500000")) == [Planet2]
  {
    var c := Criterion("population", GreaterThan, "1500000");
    ParsePopulations();
    ParseOneAndAHalfMillion();
    AdmitsByNumbers(c, Planet1, 1000000.0, 1500000.0);
    AdmitsByNumbers(c, Planet2, 2000000.0, 1500000.0);
    FilterTestPlanets(p => Admits(c, p));
  }

  /** "population menor que 1500000" leaves only Planet 1. */
  lemma LessThanScenario()
    ensures ApplyCriterion(TestPlanets, Criterion("population", LessThan, "1500000")) == [Planet1]
  {
    var c := Criterion("population", LessThan, "1500000");
    ParsePopulations();
    ParseOneAndAHalfMillion();
    AdmitsByNumbers(c, Planet1, 1000000.0, 1500000.0);
    AdmitsByNumbers(c, Planet2, 2000000.0, 1500000.0);
    FilterTestPlanets(p => Admits(c, p));
  }

  /** "population igual a 1000000" leaves exactly Planet 1. */
  lemma EqualToScenario()
    ensures ApplyCriterion(TestPlanets, Criterion("population", EqualTo, "1000000")) == [Planet1]
  {
    var c := Criterion("population", EqualTo, "1000000");
    ParsePopulations();
    ParseOneMillion();
    AdmitsByNumbers(c, Planet1, 1000000.0, 1000000.0);
    AdmitsByNumbers(c, Planet2, 2000000.0, 1000000.0);
    FilterTestPlanets(p => Admits(c, p));
  }

  /** "population igual a 1e6" compares numbers, not text: it also leaves
      exactly Planet 1, whose population is written "1000000". */
  lemma ExponentValueScenario()
    ensures ApplyCriterion(TestPlanets, Criterion("population", EqualTo, "1e6")) == [Planet1]
  {
    var c := Criterion("population", EqualTo, "1e6");
    ParsePopulations();
    ParseOneEMillion();
    AdmitsByNumbers(c, Planet1, 1000000.0, 1000000.0);
    AdmitsByNumbers(c, Planet2, 2000000.0, 1000000.0);
    FilterTestPlanets(p => Admits(c, p));
  }

  /** The query "Plan" keeps both planets. */
  lemma PlanQueryScenario()
    ensures FilterByName(TestPlanets, "Plan") == TestPlanets
  {
    assert Lower("Plan") == "plan";
    assert Lower(Planet1.name) == "planet 1" && Lower(Planet2.name) == "planet 2";
    assert Includes("planet 1", "plan") && Includes("planet 2", "plan");
    KeepBothTestPlanets(p => NameMatches(p, "Plan"));
  }

  /** The query "zzz" keeps no planet. */
  lemma ZzzQueryScenario()
    ensures FilterByName(TestPlanets, "zzz") == []
  {
    assert Lower("zzz") == "zzz";
    assert Lower(Planet1.name) == "planet 1" && Lower(Planet2.name) == "planet 2";
    assert 'z' !in "planet 1" && 'z' !in "planet 2";
    FirstCharOccurs("planet 1", "zzz");
    FirstCharOccurs("planet 2", "zzz");
    assert !NameMatches(Planet1, "zzz") && !NameMatches(Planet2, "zzz");
    FilterTestPlanets(p => NameMatches(p, "zzz"));
  }

  /** A press of the button does not respect the name filter: with the
      query "zzz" no planet matches by name, yet the default criterion
      shows both. */
  lemma ClickIgnoresNameFilter()
    ensures FilterByName(TestPlanets, "zzz") == []
    ensures ApplyCriterion(TestPlanets, DefaultCriterion) == TestPlanets
  {
    ZzzQueryScenario();
    ParsePopulations();
    DefaultCriterionReady();
    assert DefaultCriterion.comparison in Comparisons;
    assert ParseFloat(DefaultCriterion.value) == Some(0.0);
    AdmitsByNumbers(DefaultCriterion, Planet1, 1000000.0, 0.0);
    AdmitsByNumbers(DefaultCriterion, Planet2, 2000000.0, 0.0);
    assert Admits(DefaultCriterion, Planet1) && Admits(DefaultCriterion, Planet2);
    KeepBothTestPlanets(p => Admits(DefaultCriterion, p));
  }
}
