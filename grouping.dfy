/**
 * Grouping by year (the body of `cubify`): the catalog is split into one
 * group per year, or collapsed into one group keyed by the first record's year.
 * Each group is the nested dict of the source, kept as entries in insertion order.
 */
module Grouping {
  import opened Strings
  import opened Catalog

  /** The entries of the catalog whose record falls in `year`, in catalog order. */
  function WithYear(catalog: seq<Entry>, year: int): (r: seq<Entry>)
    ensures |r| <= |catalog|
    ensures forall e :: e in r <==> e in catalog && e.record.year == year
  {
    if catalog == [] then []
    else
      var last := catalog[|catalog| - 1];
      WithYear(catalog[..|catalog| - 1], year) + (if last.record.year == year then [last] else [])
  }

  /** Appending an entry extends the group of its year, and only that group. */
  lemma WithYearAppend(catalog: seq<Entry>, e: Entry, year: int)
    ensures WithYear(catalog + [e], year) == WithYear(catalog, year) + (if e.record.year == year then [e] else [])
  {
    assert (catalog + [e])[..|catalog|] == catalog;
  }

  /** A year no entry has has an empty group. */
  lemma NoGroupForUnseenYear(catalog: seq<Entry>, year: int)
    requires forall e :: e in catalog ==> e.record.year != year
    ensures WithYear(catalog, year) == []
  {
  }

  /** The years of the catalog, each once, in the order they first appear. */
  function YearsInOrder(catalog: seq<Entry>): (ys: seq<int>)
    ensures Distinct(ys)
    ensures forall y :: y in ys <==> exists e :: e in catalog && e.record.year == y
  {
    if catalog == [] then []
    else
      var ys := YearsInOrder(catalog[..|catalog| - 1]);
      var last := catalog[|catalog| - 1];
      assert forall e :: e in catalog <==> e in catalog[..|catalog| - 1] || e == last;
      if last.record.year in ys then ys else ys + [last.record.year]
  }

  /** `indexes_grouped`: the group keys in insertion order, and each key's group. */
  datatype Grouped = Grouped(years: seq<int>, groups: map<int, seq<Entry>>)

  /**
   * The grouping `cubify` builds, as a value: one group per year, or one
   * group for the whole catalog. Either way the keys are distinct, each has a
   * non-empty group of catalog entries, every entry of the catalog is in a
   * group, and with `splitYears` each group holds only entries of its year.
   */
  function GroupingOf(catalog: seq<Entry>, splitYears: bool): (g: Grouped)
    requires splitYears || catalog != []
    ensures Distinct(g.years) && forall y :: y in g.groups <==> y in g.years
    ensures forall y :: y in g.groups ==> g.groups[y] != [] && forall e :: e in g.groups[y] ==> e in catalog
    ensures forall e :: e in catalog ==> exists y :: y in g.groups && e in g.groups[y]
    ensures forall y :: y in g.years ==> exists e :: e in catalog && e.record.year == y
    ensures splitYears ==> forall y, e :: y in g.groups && e in g.groups[y] ==> e.record.year == y
  {
    if splitYears then
      var groups := map y | y in YearsInOrder(catalog) :: WithYear(catalog, y);
      assert forall e :: e in catalog ==> e.record.year in groups && e in groups[e.record.year];
      Grouped(YearsInOrder(catalog), groups)
    else
      var first := catalog[0].record.year;
      assert forall e :: e in catalog ==> first in map[first := catalog] && e in map[first := catalog][first];
      Grouped([first], map[first := catalog])
  }

  /**
   * The grouping loop. With `splitYears`, one group per year of the catalog,
   * in the order the years first appear, each holding exactly the entries of
   * its year in catalog order. Without it, one group keyed by the first
   * record's year that holds the whole catalog.
   */
  method GroupByYear(catalog: seq<Entry>, splitYears: bool) returns (g: Grouped)
    requires splitYears || catalog != []
    ensures splitYears ==> g.years == YearsInOrder(catalog)
    ensures splitYears ==> forall y :: y in g.groups <==> y in g.years
    ensures splitYears ==> forall y :: y in g.groups ==> g.groups[y] == WithYear(catalog, y)
    ensures !splitYears ==> g.years == [catalog[0].record.year]
    ensures !splitYears ==> g.groups == map[catalog[0].record.year := catalog]
  {
    if splitYears {
      var years: seq<int> := [];
      var groups: map<int, seq<Entry>> := map[];
      for i := 0 to |catalog|
        invariant years == YearsInOrder(catalog[..i])
        invariant forall y :: y in groups <==> y in years
        invariant forall y :: y in groups ==> groups[y] == WithYear(catalog[..i], y)
      {
        var e := catalog[i];
        var y := e.record.year;
        assert catalog[..i + 1] == catalog[..i] + [e];
        forall z ensures WithYear(catalog[..i + 1], z) == WithYear(catalog[..i], z) + (if y == z then [e] else []) {
          WithYearAppend(catalog[..i], e, z);
        }
        if y !in groups {
          NoGroupForUnseenYear(catalog[..i], y);
          years := years + [y];
          groups := groups[y := []];
        }
        groups := groups[y := groups[y] + [e]];
      }
      assert catalog[..|catalog|] == catalog;
      g := Grouped(years, groups);
    } else {
      var first := catalog[0].record.year;
      var group: seq<Entry> := [];
      for i := 0 to |catalog|
        invariant group == catalog[..i]
      {
        group := group + [catalog[i]];
      }
      assert catalog[..|catalog|] == catalog;
      g := Grouped([first], map[first := group]);
    }
  }

  /** The grouping loop builds exactly `GroupingOf`. */
  lemma GroupingOfLoop(catalog: seq<Entry>, splitYears: bool, g: Grouped)
    requires splitYears || catalog != []
    requires splitYears ==> g.years == YearsInOrder(catalog)
    requires splitYears ==> forall y :: y in g.groups <==> y in g.years
    requires splitYears ==> forall y :: y in g.groups ==> g.groups[y] == WithYear(catalog, y)
    requires !splitYears ==> g == Grouped([catalog[0].record.year], map[catalog[0].record.year := catalog])
    ensures g == GroupingOf(catalog, splitYears)
  {
  }

  /** The entries of all groups of `years`, counted with multiplicity. */
  function Regrouped(catalog: seq<Entry>, years: seq<int>): multiset<Entry>
  {
    if years == [] then multiset{}
    else Regrouped(catalog, years[..|years| - 1]) + multiset(WithYear(catalog, years[|years| - 1]))
  }

  /** Appending an entry adds it to the regrouping once when its year is listed, and not at all otherwise. */
  lemma {:induction false} RegroupedAppend(catalog: seq<Entry>, e: Entry, years: seq<int>)
    requires Distinct(years)
    ensures Regrouped(catalog + [e], years)
         == Regrouped(catalog, years) + (if e.record.year in years then multiset{e} else multiset{})
  {
    if years != [] {
      var init := years[..|years| - 1];
      var y := years[|years| - 1];
      assert (catalog + [e])[..|catalog|] == catalog;
      assert years == init + [y];
      assert e.record.year in years <==> e.record.year in init || e.record.year == y;
      RegroupedAppend(catalog, e, init);
    }
  }

  /**
   * The groups of a year split partition the catalog: every entry is in the
   * group of its own year and in no other, and together the groups hold the
   * catalog's entries exactly as often as the catalog does.
   */
  lemma {:induction false} SplitPartitions(catalog: seq<Entry>)
    ensures Regrouped(catalog, YearsInOrder(catalog)) == multiset(catalog)
    ensures forall e :: e in catalog ==> e in WithYear(catalog, e.record.year)
    ensures forall e, y :: e in WithYear(catalog, y) ==> y == e.record.year
  {
    if catalog != [] {
      var init := catalog[..|catalog| - 1];
      var e := catalog[|catalog| - 1];
      var ys := YearsInOrder(init);
      assert catalog == init + [e];
      SplitPartitions(init);
      RegroupedAppend(init, e, ys);
      if e.record.year !in ys {
        NewYearGroup(init, e, ys);
      }
      forall x, y | x in WithYear(catalog, y) ensures y == x.record.year {
        WithYearAppend(init, e, y);
      }
    }
  }

  /** A year not seen before opens a group holding only the new entry. */
  lemma NewYearGroup(init: seq<Entry>, e: Entry, ys: seq<int>)
    requires ys == YearsInOrder(init) && e.record.year !in ys
    requires Regrouped(init, ys) == multiset(init)
    requires Regrouped(init + [e], ys) == Regrouped(init, ys)
    ensures Regrouped(init + [e], ys + [e.record.year]) == multiset(init + [e])
  {
    var y := e.record.year;
    NoGroupForUnseenYear(init, y);
    WithYearAppend(init, e, y);
    assert WithYear(init + [e], y) == [e];
    assert (ys + [y])[..|ys|] == ys;
    assert Regrouped(init + [e], ys + [y]) == Regrouped(init + [e], ys) + multiset(WithYear(init + [e], y));
    assert multiset(init + [e]) == multiset(init) + multiset{e};
  }
}
