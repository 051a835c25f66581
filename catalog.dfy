/**
 * Catalog building (`_index_arrays`): which keys of the store are source
 * arrays, and the record each of them encodes. The catalog is the dict the
 * source returns, kept as a sequence of entries in insertion order.
 */
module Catalog {
  import opened Wrappers
  import opened Strings
  import opened Keys

  const INDICATOR_NAME: string := "indicator"

  /** The metadata file that marks a directory of the store as an array. */
  const ARRAY_SUFFIX: string := "/.zarray"

  /** The nested layout keeps each array one level down, under the indicator's name. */
  const NESTED_SUFFIX: string := "/" + INDICATOR_NAME + ARRAY_SUFFIX

  /** One catalog entry: the array's key with "/.zarray" removed, and its record. */
  datatype Entry = Entry(name: string, record: IndexRecord)

  datatype CatalogError =
    | NoMatchingKeys(found: seq<string>)             // RuntimeError listing every key of the store
    | UnparsableKey(key: string, error: ParseError)  // the first key `_parse_index_name` rejects

  /**
   * The glob `*_????<suffix>`: the key ends with `suffix`, and the character
   * five places before the suffix is '_' (`?` matches any one character and
   * `*` any run).
   */
  predicate MatchesLayout(key: string, suffix: string)
  {
    |key| >= |suffix| + 5 && EndsWith(key, suffix) && key[|key| - |suffix| - 5] == '_'
  }

  /** The glob read literally: a key matches exactly when it is some head, '_', four characters, then the suffix. */
  lemma LayoutIsGlob(key: string, suffix: string)
    ensures MatchesLayout(key, suffix) <==> exists head: string, four: string :: |four| == 4 && key == head + "_" + four + suffix
  {
    if MatchesLayout(key, suffix) {
      var n := |key| - |suffix| - 5;
      assert key == key[..n] + "_" + key[n + 1..n + 5] + suffix;
    }
    if exists head: string, four: string :: |four| == 4 && key == head + "_" + four + suffix {
      var head: string, four: string :| |four| == 4 && key == head + "_" + four + suffix;
      assert key[|head|] == '_';
      assert key[|key| - |suffix|..] == suffix;
    }
  }

  /** `fnmatch.filter`: the keys that match the layout, in their original order. */
  function FilterLayout(keys: seq<string>, suffix: string): (r: seq<string>)
    ensures |r| <= |keys|
    ensures forall k :: k in r <==> k in keys && MatchesLayout(k, suffix)
    ensures Distinct(keys) ==> Distinct(r)
  {
    if keys == [] then []
    else
      var tail := FilterLayout(keys[1..], suffix);
      if MatchesLayout(keys[0], suffix) then [keys[0]] + tail else tail
  }

  /** Filtering keeps the order of the keys: a key added at the end is kept at the end, or dropped. */
  lemma {:induction false} FilterLayoutAppend(keys: seq<string>, k: string, suffix: string)
    ensures FilterLayout(keys + [k], suffix) == FilterLayout(keys, suffix) + (if MatchesLayout(k, suffix) then [k] else [])
  {
    if keys == [] {
      assert keys + [k] == [k] && [k][1..] == [];
    } else {
      assert (keys + [k])[0] == keys[0] && (keys + [k])[1..] == keys[1..] + [k];
      FilterLayoutAppend(keys[1..], k, suffix);
    }
  }

  /** Filtering a listing in two parts filters each part and keeps them in order. */
  lemma {:induction false} FilterLayoutConcat(front: seq<string>, back: seq<string>, suffix: string)
    ensures FilterLayout(front + back, suffix) == FilterLayout(front, suffix) + FilterLayout(back, suffix)
  {
    if front == [] {
      assert front + back == back;
    } else {
      assert (front + back)[0] == front[0] && (front + back)[1..] == front[1..] + back;
      FilterLayoutConcat(front[1..], back, suffix);
    }
  }

  /**
   * The keys that name source arrays: those of the nested layout, or, only
   * when there are none, those of the flat layout; an error listing all keys
   * when neither layout matches anything.
   */
  function SelectArrayKeys(keys: seq<string>): (r: Result<seq<string>, CatalogError>)
    ensures r.Ok? ==> r.value != []
    ensures r.Ok? ==> forall k :: k in r.value ==> k in keys && EndsWith(k, ARRAY_SUFFIX)
    ensures r.Err? <==> forall k :: k in keys ==> !MatchesLayout(k, NESTED_SUFFIX) && !MatchesLayout(k, ARRAY_SUFFIX)
    ensures r.Err? ==> r.error == NoMatchingKeys(keys)
    ensures (exists k :: k in keys && MatchesLayout(k, NESTED_SUFFIX)) ==> r == Ok(FilterLayout(keys, NESTED_SUFFIX))
    ensures (forall k :: k in keys ==> !MatchesLayout(k, NESTED_SUFFIX)) && (exists k :: k in keys && MatchesLayout(k, ARRAY_SUFFIX))
            ==> r == Ok(FilterLayout(keys, ARRAY_SUFFIX))
  {
    var nested := FilterLayout(keys, NESTED_SUFFIX);
    if nested != [] then
      assert nested[0] in nested;
      NestedEndsWithArraySuffix(nested);
      Ok(nested)
    else
      var flat := FilterLayout(keys, ARRAY_SUFFIX);
      if flat != [] then
        assert flat[0] in flat;
        Ok(flat)
      else Err(NoMatchingKeys(keys))
  }

  /** "/indicator/.zarray" itself ends with "/.zarray". */
  lemma NestedEndsWithArraySuffix(keys: seq<string>)
    requires forall k :: k in keys ==> MatchesLayout(k, NESTED_SUFFIX)
    ensures forall k :: k in keys ==> EndsWith(k, ARRAY_SUFFIX)
  {
    forall k | k in keys ensures EndsWith(k, ARRAY_SUFFIX) {
      assert k[|k| - |ARRAY_SUFFIX|..] == k[|k| - |NESTED_SUFFIX|..][|NESTED_SUFFIX| - |ARRAY_SUFFIX|..];
    }
  }

  /** The names of the arrays: each key with "/.zarray" removed, in order. */
  function StripArraySuffix(keys: seq<string>): (names: seq<string>)
    ensures |names| == |keys|
    ensures forall k :: 0 <= k < |keys| ==> names[k] == RemoveSuffix(keys[k], ARRAY_SUFFIX)
    ensures forall k :: 0 <= k < |keys| && EndsWith(keys[k], ARRAY_SUFFIX) ==> names[k] + ARRAY_SUFFIX == keys[k]
  {
    seq(|keys|, k requires 0 <= k < |keys| => RemoveSuffix(keys[k], ARRAY_SUFFIX))
  }

  /** `_parse_index_name` applied to each name, in order. */
  function ParseEach(names: seq<string>): (results: seq<Result<IndexRecord, ParseError>>)
    ensures |results| == |names| && forall k :: 0 <= k < |names| ==> results[k] == ParseIndexName(names[k])
  {
    seq(|names|, k requires 0 <= k < |names| => ParseIndexName(names[k]))
  }

  /** The position of the first failed result, or the number of results when none failed. */
  function FirstFailure(results: seq<Result<IndexRecord, ParseError>>): (i: nat)
    ensures i <= |results|
    ensures forall j :: 0 <= j < i ==> results[j].Ok?
    ensures i < |results| ==> results[i].Err?
  {
    if results == [] || results[0].Err? then 0 else 1 + FirstFailure(results[1..])
  }

  /** The position of the first name that does not parse, or the number of names when all parse. */
  function FirstUnparsable(names: seq<string>): (i: nat)
    ensures i <= |names|
    ensures forall j :: 0 <= j < i ==> ParseIndexName(names[j]).Ok?
    ensures i < |names| ==> ParseIndexName(names[i]).Err?
  {
    FirstFailure(ParseEach(names))
  }

  /** Pairs each name with its parsed record, or gives the error of the first failed result. */
  function Collect(names: seq<string>, results: seq<Result<IndexRecord, ParseError>>): (r: Result<seq<Entry>, CatalogError>)
    requires |results| == |names|
    ensures r.Ok? <==> FirstFailure(results) == |names|
    ensures r.Ok? ==> |r.value| == |names|
    ensures r.Ok? ==> forall k :: 0 <= k < |names| ==> r.value[k].name == names[k] && results[k] == Ok(r.value[k].record)
    ensures r.Err? ==> FirstFailure(results) < |names|
                       && r.error == UnparsableKey(names[FirstFailure(results)], results[FirstFailure(results)].error)
  {
    if names == [] then Ok([])
    else
      match results[0]
      case Err(e) => Err(UnparsableKey(names[0], e))
      case Ok(record) =>
        match Collect(names[1..], results[1..])
        case Err(e) => Err(e)
        case Ok(rest) => Ok([Entry(names[0], record)] + rest)
  }

  /**
   * The dict comprehension `{key: _parse_index_name(key) for key in keys}`:
   * one entry per name, in order, or the error of the first name that does not parse.
   */
  function ParseAll(names: seq<string>): (r: Result<seq<Entry>, CatalogError>)
    ensures r.Ok? <==> FirstUnparsable(names) == |names|
    ensures r.Ok? ==> |r.value| == |names|
    ensures r.Ok? ==> forall k :: 0 <= k < |names| ==> r.value[k].name == names[k]
    ensures r.Ok? ==> forall k :: 0 <= k < |names| ==> ParseIndexName(names[k]) == Ok(r.value[k].record)
    ensures r.Err? ==> FirstUnparsable(names) < |names|
                       && r.error == UnparsableKey(names[FirstUnparsable(names)], ParseIndexName(names[FirstUnparsable(names)]).error)
  {
    Collect(names, ParseEach(names))
  }

  /** `_index_arrays(store)`: the catalog of the store whose keys are `keys`. */
  function IndexArrays(keys: seq<string>): (r: Result<seq<Entry>, CatalogError>)
    ensures r.Ok? ==> r.value != [] && forall e :: e in r.value ==> MIN_YEAR <= e.record.year <= MAX_YEAR
  {
    match SelectArrayKeys(keys)
    case Err(e) => Err(e)
    case Ok(selected) => ParseAll(StripArraySuffix(selected))
  }

  function Names(catalog: seq<Entry>): (names: seq<string>)
    ensures |names| == |catalog| && forall k :: 0 <= k < |catalog| ==> names[k] == catalog[k].name
  {
    seq(|catalog|, k requires 0 <= k < |catalog| => catalog[k].name)
  }

  /** The store's keys are rejected, before any parsing, exactly when neither layout matches any of them. */
  lemma CatalogFailsIffNoLayout(keys: seq<string>)
    ensures IndexArrays(keys) == Err(NoMatchingKeys(keys))
        <==> forall k :: k in keys ==> !MatchesLayout(k, NESTED_SUFFIX) && !MatchesLayout(k, ARRAY_SUFFIX)
  {
  }

  /**
   * A catalog holds one entry per selected key, in order, named by the key
   * without "/.zarray" and holding the record that name parses to.
   */
  lemma CatalogEntries(keys: seq<string>)
    requires IndexArrays(keys).Ok?
    ensures SelectArrayKeys(keys).Ok?
    ensures IndexArrays(keys).value != []
    ensures Names(IndexArrays(keys).value) == StripArraySuffix(SelectArrayKeys(keys).value)
    ensures forall e :: e in IndexArrays(keys).value ==> ParseIndexName(e.name) == Ok(e.record)
  {
    var catalog := IndexArrays(keys).value;
    assert Names(catalog) == StripArraySuffix(SelectArrayKeys(keys).value);
  }

  /** Distinct store keys give distinct catalog names. */
  lemma CatalogNamesDistinct(keys: seq<string>)
    requires IndexArrays(keys).Ok? && Distinct(keys)
    ensures Distinct(Names(IndexArrays(keys).value))
  {
    var selected := SelectArrayKeys(keys).value;
    var names := StripArraySuffix(selected);
    CatalogEntries(keys);
    assert Distinct(selected) by {
      if selected != FilterLayout(keys, NESTED_SUFFIX) {
        assert selected == FilterLayout(keys, ARRAY_SUFFIX);
      }
    }
    forall i, j | 0 <= i < j < |names| ensures names[i] != names[j] {
      assert selected[i] in selected && selected[j] in selected;
    }
  }
}
