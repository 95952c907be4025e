/** Planet records as the component receives them, and the name filter
    applied to them. */
module Planets {
  import opened Wrappers
  import opened Text
  import Sequences

  /** One planet: its `name` and its other attributes (`population`,
      `diameter`, ...), all of which the data source delivers as text. */
  datatype Planet = Planet(name: string, fields: map<string, string>)

  /** `planet[column]`: the attribute named `column`, or `None` where
      JavaScript would give `undefined`. */
  function Lookup(p: Planet, column: string): (r: Option<string>)
    ensures r == None <==> column != "name" && column !in p.fields
    ensures column == "name" ==> r == Some(p.name)
    ensures column != "name" && column in p.fields ==> r == Some(p.fields[column])
  {
    if column == "name" then Some(p.name)
    else if column in p.fields then Some(p.fields[column])
    else None
  }

  /** The callback of the name filter: the lower-cased name includes the
      lower-cased query. */
  predicate NameMatches(p: Planet, query: string): (b: bool)
    ensures b <==> Contains(Lower(p.name), Lower(query))
  {
    Includes(Lower(p.name), Lower(query))
  }

  /** `planets.filter((planet) => planet.name.toLowerCase()
      .includes(query.toLowerCase()))`. */
  function FilterByName(planets: seq<Planet>, query: string): (r: seq<Planet>)
    ensures forall p :: p in r <==> p in planets && Contains(Lower(p.name), Lower(query))
    ensures Sequences.IsSubsequence(r, planets)
    ensures forall p :: multiset(r)[p] == if NameMatches(p, query) then multiset(planets)[p] else 0
  {
    Sequences.Filter(planets, p => NameMatches(p, query))
  }

  /** An empty query keeps every planet, in order. */
  lemma EmptyQueryKeepsAll(planets: seq<Planet>)
    ensures FilterByName(planets, "") == planets
  {
    forall p | p in planets ensures NameMatches(p, "") {
      ContainsEmpty(Lower(p.name));
    }
    Sequences.FilterKeepsAll(planets, p => NameMatches(p, ""));
  }

  /** Queries that differ only in letter case select the same planets. */
  lemma QueryCaseInsensitive(planets: seq<Planet>, q1: string, q2: string)
    requires Lower(q1) == Lower(q2)
    ensures FilterByName(planets, q1) == FilterByName(planets, q2)
  {
    Sequences.FilterCongruent(planets, p => NameMatches(p, q1), p => NameMatches(p, q2));
  }

  /** Upper-casing the query never changes the result. */
  lemma UpperCaseQuery(planets: seq<Planet>, query: string)
    ensures FilterByName(planets, Upper(query)) == FilterByName(planets, query)
  {
    LowerOfUpper(query);
    QueryCaseInsensitive(planets, Upper(query), query);
  }
}
