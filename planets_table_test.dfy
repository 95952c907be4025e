/** A client of the `PlanetsTable` component that replays the component's
    test on the two-planet data set. */
module PlanetsTableTest {
  import opened Planets
  import opened Criteria
  import opened Scenarios
  import opened PlanetsTableComponent

  /** The scenario of the component's test: two planets, a press with
      "population maior que 1500000", then one with "menor que", then one
      with "igual a 1000000". Each press starts again from both planets. */
  method FilterScenario() returns (afterGreater: seq<Planet>, afterLess: seq<Planet>, afterEqual: seq<Planet>)
    ensures afterGreater == [Planet2]
    ensures afterLess == [Planet1]
    ensures afterEqual == [Planet1]
  {
    var table := new PlanetsTable(TestPlanets, "");
    table.Recompute();
    EmptyQueryKeepsAll(TestPlanets);
    assert table.filteredPlanets == TestPlanets;

    table.HandleChange(ColumnField, "population");
    table.HandleChange(ComparisonField, GreaterThan);
    table.HandleChange(ValueField, "1500000");
    assert table.pending == Criterion("population", GreaterThan, "1500000");
    table.HandleFilterClick();
    GreaterThanScenario();
    afterGreater := table.filteredPlanets;

    table.HandleChange(ComparisonField, LessThan);
    assert table.pending == Criterion("population", LessThan, "1500000");
    table.HandleFilterClick();
    LessThanScenario();
    afterLess := table.filteredPlanets;

    table.HandleChange(ComparisonField, EqualTo);
    table.HandleChange(ValueField, "1000000");
    assert table.pending == Criterion("population", EqualTo, "1000000");
    table.HandleFilterClick();
    EqualToScenario();
    afterEqual := table.filteredPlanets;

    table.HandleNameFilterChange("zzz");
    ZzzQueryScenario();
    assert table.filteredPlanets == [];
  }
}
