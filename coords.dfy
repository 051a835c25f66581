/**
 * Coordinate derivation (`_indexes_to_coords`): one axis per record field,
 * holding that field's values across a group, each once, in ascending order.
 */
module Coords {
  import opened Strings
  import opened Keys

  /**
   * A coordinate label: a temperature (or a spatial coordinate of the sample
   * array), a model or scenario name, or a time, which is always 1 January of its year.
   */
  datatype Label = Num(x: real) | Text(s: string) | Date(year: int)

  function Rank(l: Label): nat
  {
    match l
    case Num(_) => 0
    case Text(_) => 1
    case Date(_) => 2
  }

  /**
   * The order `sorted` uses: numbers, strings and dates each in their own
   * order. An axis never mixes kinds; ranking the kinds only makes the order total.
   */
  predicate Below(a: Label, b: Label)
  {
    match (a, b)
    case (Num(x), Num(y)) => x < y
    case (Text(s), Text(t)) => LexLess(s, t)
    case (Date(x), Date(y)) => x < y
    case _ => Rank(a) < Rank(b)
  }

  lemma BelowIrreflexive(a: Label)
    ensures !Below(a, a)
  {
    if a.Text? {
      LexLessIrreflexive(a.s);
    }
  }

  lemma BelowTransitive(a: Label, b: Label, c: Label)
    requires Below(a, b) && Below(b, c)
    ensures Below(a, c)
  {
    if a.Text? && b.Text? && c.Text? {
      LexLessTransitive(a.s, b.s, c.s);
    }
  }

  lemma BelowTotal(a: Label, b: Label)
    ensures a == b || Below(a, b) || Below(b, a)
  {
    if a.Text? && b.Text? {
      LexLessTotal(a.s, b.s);
    }
  }

  /** Strictly ascending: sorted, and so without duplicates. */
  predicate Increasing(s: seq<Label>)
  {
    forall i, j :: 0 <= i < j < |s| ==> Below(s[i], s[j])
  }

  lemma IncreasingIsDistinct(s: seq<Label>)
    requires Increasing(s)
    ensures Distinct(s)
  {
    forall i, j | 0 <= i < j < |s| ensures s[i] != s[j] {
      if s[i] == s[j] {
        BelowIrreflexive(s[i]);
      }
    }
  }

  /** A non-empty set of labels has a least element. */
  lemma MinimumExists(s: set<Label>)
    requires s != {}
    ensures exists m :: m in s && forall x :: x in s && x != m ==> Below(m, x)
  {
    var y :| y in s;
    if s != {y} {
      MinimumExists(s - {y});
      var m :| m in s - {y} && forall x :: x in s - {y} && x != m ==> Below(m, x);
      BelowTotal(m, y);
      if Below(y, m) {
        forall x | x in s && x != y ensures Below(y, x) {
          if x != m {
            BelowTransitive(y, m, x);
          }
        }
      } else {
        assert forall x :: x in s && x != m ==> Below(m, x);
      }
    } else {
      assert forall x :: x in s && x != y ==> Below(y, x);
    }
  }

  /** `sorted(values)` on a set: its elements in ascending order, each once. */
  method SortSet(values: set<Label>) returns (r: seq<Label>)
    ensures Increasing(r)
    ensures forall l :: l in r <==> l in values
    ensures |r| == |values|
  {
    r := [];
    var rest := values;
    while rest != {}
      invariant Increasing(r)
      invariant forall l :: l in values <==> l in r || l in rest
      invariant forall l :: l in r ==> l !in rest
      invariant forall l, m :: l in r && m in rest ==> Below(l, m)
      invariant |r| + |rest| == |values|
      decreases |rest|
    {
      MinimumExists(rest);
      var m :| m in rest && forall x :: x in rest && x != m ==> Below(m, x);
      r := r + [m];
      rest := rest - {m};
    }
  }

  /** The fields of a record, in the order of the dict `_parse_index_name` returns. */
  datatype Field = Temperature | Gcm | Scenario | Time

  const FIELDS: seq<Field> := [Temperature, Gcm, Scenario, Time]

  /** The name of a field's coordinate. */
  function FieldName(f: Field): string
  {
    match f
    case Temperature => "temperature"
    case Gcm => "gcm"
    case Scenario => "scenario"
    case Time => "time"
  }

  function FieldLabel(r: IndexRecord, f: Field): Label
  {
    match f
    case Temperature => Num(r.temperature)
    case Gcm => Text(r.gcm)
    case Scenario => Text(r.scenario)
    case Time => Date(r.year)
  }

  lemma EveryFieldListed(f: Field)
    ensures f in FIELDS
  {
    assert FIELDS[0] == Temperature && FIELDS[1] == Gcm && FIELDS[2] == Scenario && FIELDS[3] == Time;
  }

  /** The values a field takes across the records. */
  function FieldValues(records: seq<IndexRecord>, f: Field): set<Label>
  {
    set r | r in records :: FieldLabel(r, f)
  }

  /** A named axis: a coordinate of the cube and its labels in axis order. */
  datatype Coord = Coord(name: string, values: seq<Label>)

  /**
   * `_indexes_to_coords`: for each field, in field order, an axis named after
   * the field holding every value the field takes across the records, each
   * once and in ascending order.
   */
  method IndexesToCoords(records: seq<IndexRecord>) returns (coords: seq<Coord>)
    requires records != []
    ensures |coords| == |FIELDS|
    ensures forall k :: 0 <= k < |FIELDS| ==> coords[k].name == FieldName(FIELDS[k])
    ensures forall k :: 0 <= k < |FIELDS| ==> Increasing(coords[k].values)
    ensures forall k, l :: 0 <= k < |FIELDS| ==> (l in coords[k].values <==> l in FieldValues(records, FIELDS[k]))
  {
    var sets := CollectFieldValues(records);

    // each set replaced by its sorted list
    coords := [];
    for k := 0 to |FIELDS|
      invariant |coords| == k
      invariant forall n :: 0 <= n < k ==> coords[n].name == FieldName(FIELDS[n])
      invariant forall n :: 0 <= n < k ==> Increasing(coords[n].values)
      invariant forall n, l :: 0 <= n < k ==> (l in coords[n].values <==> l in FieldValues(records, FIELDS[n]))
    {
      var axis := SortSet(sets[FIELDS[k]]);
      coords := coords + [Coord(FieldName(FIELDS[k]), axis)];
    }
  }

  /**
   * The first loop of `_indexes_to_coords`: one set per field, created from
   * the first record's fields, collecting the field's value from every record.
   */
  method CollectFieldValues(records: seq<IndexRecord>) returns (sets: map<Field, set<Label>>)
    requires records != []
    ensures forall f :: f in sets && sets[f] == FieldValues(records, f)
  {
    sets := map[];
    for i := 0 to |records|
      invariant forall f :: f in sets <==> i > 0
      invariant forall f :: f in sets ==> sets[f] == FieldValues(records[..i], f)
    {
      if i == 0 {
        sets := map f | f in FIELDS :: {};
        forall f ensures f in sets {
          EveryFieldListed(f);
        }
      }
      var r := records[i];
      assert records[..i + 1] == records[..i] + [r];
      sets := AddFieldValues(sets, r);
    }
    assert records[..|records|] == records;
  }

  /** `for key, value in index.items(): coords[key].add(value)`: each field's set gains the record's value. */
  method AddFieldValues(sets: map<Field, set<Label>>, r: IndexRecord) returns (sets': map<Field, set<Label>>)
    requires forall f :: f in sets
    ensures forall f :: f in sets' && sets'[f] == sets[f] + {FieldLabel(r, f)}
  {
    sets' := sets;
    for j := 0 to |FIELDS|
      invariant forall f :: f in sets'
      invariant forall k :: 0 <= k < j ==> sets'[FIELDS[k]] == sets[FIELDS[k]] + {FieldLabel(r, FIELDS[k])}
      invariant forall k :: j <= k < |FIELDS| ==> sets'[FIELDS[k]] == sets[FIELDS[k]]
    {
      var f := FIELDS[j];
      sets' := sets'[f := sets'[f] + {FieldLabel(r, f)}];
    }
    forall f ensures sets'[f] == sets[f] + {FieldLabel(r, f)} {
      EveryFieldListed(f);
    }
  }

  /** The position of a label on an axis, or the axis length when it is not there. */
  function IndexOf(values: seq<Label>, l: Label): (i: nat)
    ensures i <= |values|
    ensures i < |values| ==> values[i] == l
    ensures i == |values| <==> l !in values
  {
    if values == [] then 0
    else if values[0] == l then 0
    else 1 + IndexOf(values[1..], l)
  }

  /** On an axis without duplicates, the position of a label is the one place it occurs. */
  lemma IndexOfDistinct(values: seq<Label>, i: nat)
    requires Distinct(values) && i < |values|
    ensures IndexOf(values, values[i]) == i
  {
  }
}
