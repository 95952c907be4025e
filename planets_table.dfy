/** The `PlanetsTable` component: the planet list it is given, the name
    filter it shares with its provider, the pending criterion and the
    filtered view it renders. */
module PlanetsTableComponent {
  import opened Numbers
  import opened Planets
  import opened Criteria
  import Sequences

  class PlanetsTable {
    /** The planets from the context. The provider's loading flag starts
        false, so a first table mounts with the empty list; the provider
        unmounts it when the fetch sets the flag, and mounts a new table
        with the full list when the fetch ends. Each mounted table
        therefore only ever sees one list. */
    const planets: seq<Planet>
    /** The name filter text held by the provider. */
    var nameFilter: string
    /** The criterion being edited (`filters`). */
    var pending: Criterion
    /** The rows the table renders (`filteredPlanets`). */
    var filteredPlanets: seq<Planet>

    /** The view is the name filter applied to the full list, the state
        the effect on `[planets, nameFilter]` establishes. */
    predicate ShowsNameView()
      reads this
    {
      filteredPlanets == FilterByName(planets, nameFilter)
    }

    /** The first render: default pending criterion and an empty view. */
    constructor (planets: seq<Planet>, nameFilter: string)
      ensures this.planets == planets && this.nameFilter == nameFilter
      ensures pending == DefaultCriterion && filteredPlanets == []
    {
      this.planets := planets;
      this.nameFilter := nameFilter;
      pending := DefaultCriterion;
      filteredPlanets := [];
    }

    /** The effect that runs after mounting and whenever `nameFilter`
        changes. */
    method Recompute()
      modifies this`filteredPlanets
      ensures ShowsNameView()
    {
      filteredPlanets := FilterByName(planets, nameFilter);
    }

    /** `handleChange`: the control named `field` now holds `value`; only
        that part of the pending criterion changes, and the view stays as
        it was until the button is pressed. */
    method HandleChange(field: FieldName, value: string)
      modifies this`pending
      ensures pending == WithField(old(pending), field, value)
    {
      pending := WithField(pending, field, value);
    }

    /** `handleNameFilterChange`: stores the typed text as it is and shows
        the name filter over the full list, dropping any criterion applied
        before. The effect that follows finds the view already current. */
    method HandleNameFilterChange(value: string)
      modifies this`nameFilter, this`filteredPlanets
      ensures nameFilter == value
      ensures filteredPlanets == FilterByName(planets, value)
      ensures ShowsNameView()
    {
      nameFilter := value;
      filteredPlanets := FilterByName(planets, value);
    }

    /** `handleFilterClick`: starts from the full list (not from the
        current view, and without the name filter) and applies the pending
        criterion once if it is complete and names a known comparison. */
    method HandleFilterClick()
      modifies this`filteredPlanets
      ensures filteredPlanets == ApplyCriterion(planets, pending)
    {
      var filteredData := planets;
      var c := pending;
      if c.column != "" && c.comparison != "" && c.value != "" {
        var filterNumber := ParseFloat(c.value);
        if c.comparison == GreaterThan {
          filteredData := Sequences.Filter(filteredData,
            p => Greater(FieldNumber(p, c.column), filterNumber));
          Sequences.FilterCongruent(planets,
            p => Greater(FieldNumber(p, c.column), filterNumber), p => Admits(c, p));
        } else if c.comparison == LessThan {
          filteredData := Sequences.Filter(filteredData,
            p => Less(FieldNumber(p, c.column), filterNumber));
          Sequences.FilterCongruent(planets,
            p => Less(FieldNumber(p, c.column), filterNumber), p => Admits(c, p));
        } else if c.comparison == EqualTo {
          filteredData := Sequences.Filter(filteredData,
            p => Same(FieldNumber(p, c.column), filterNumber));
          Sequences.FilterCongruent(planets,
            p => Same(FieldNumber(p, c.column), filterNumber), p => Admits(c, p));
        }
      }
      filteredPlanets := filteredData;
    }
  }
}
