# Cubify: yearly data cubes from an OS-Climate hazard store

This project is a Dafny model of the "cubify" pipeline of the OS-Climate
hazard stactools plugin (`src/stactools/osc_hazard/cubify.py`). The pipeline
reads a flat hazard store that holds one array per (temperature, GCM,
scenario, year). It turns the store into dense data cubes, one per year. The
model proves properties of each stage.

- **Key parsing** (`keys.dfy`, module `Keys`). `_parse_index_name` is modelled
  as a small grammar rather than as a regular-expression engine. The greedy
  `.*` makes the match start at the rightmost `_` from which the rest of the
  pattern matches. From there, every group is the longest run of its
  character class. The parser returns a record or one of three errors:
  - no match (`ValueError`);
  - an empty year group (`int(None)`, a `TypeError`);
  - a year that `datetime` rejects.
- **Catalog building** (`catalog.dfy`, module `Catalog`). `_index_arrays`
  reduces to two glob shapes stated as string predicates. The nested layout
  is preferred and the flat layout is the fallback. If neither matches, the
  result is an error. Otherwise `/.zarray` is removed and every name is
  parsed. The first failure is the error. The catalog is the dict's entries
  in insertion order.
- **Grouping by year** (`grouping.dfy`, module `Grouping`). The loop in
  `cubify` builds the nested dict of groups:
  - with `split_years`, one group per year;
  - without it, a single group keyed by the first record's year.
- **Coordinates** (`coords.dfy`, module `Coords`). `_indexes_to_coords`
  works in two steps:
  - its first loop gathers one set per field;
  - its second loop replaces each set with its sorted list.
  Labels are numbers, strings and dates, and each kind has the order that
  `sorted` uses.
- **The cube** (`cube.dfy`, module `Cube`). `_create_empty_array` produces a
  `DataCube` object:
  - a zero-filled four-dimensional array, with one cell per combination of
    temperature, GCM, scenario and time;
  - each cell holds the flattened slab over the sample's spatial axes;
  - the cube's attributes and the attributes of each coordinate.
  `da.loc[index] = ...` updates one cell in place. `to_dataset()` takes a
  snapshot of the cube as a value.
- **The pipeline** (`cubify.dfy`, module `Cubify`).
  `build_yearly_zarr_cubes` and `cubify` are modelled over a value model of
  the store and of the output directory:
  - The store is its list of keys plus the arrays it holds by name.
  - The output directory is a map from each path to the dataset stored
    there.
  - Removing an old output and writing the new one are updates of that map.
  - The `ATTRS` registry is a parameter.

The pattern needs a `_` before the temperature. A key without one, such as
`1.5c_modelA_rcp45_2030`, does not match and is rejected with the no-match
error (`Keys.ParseMatchesIffShaped`).

## Model

All source paths are in `src/stactools/osc_hazard/`.

| member | source | states |
|---|---|---|
| Keys.RunEnd | src/stactools/osc_hazard/cubify.py:20 | A group extends over the longest run of its character class: every character up to the end is in the class, and the next one is not |
| Keys.MatchAt | src/stactools/osc_hazard/cubify.py:19-21 | When the pattern matches with its `_` at a given position, the temperature group is `[0-9]+\.?[0-9]+`, the GCM and scenario groups are non-empty tokens of their classes, and the year group is all digits |
| Keys.LastMatch | src/stactools/osc_hazard/cubify.py:19-21 | The greedy prefix: the position found is the rightmost where the pattern matches, no later position matches, and "none" means that no position matches |
| Keys.ToRecord | src/stactools/osc_hazard/cubify.py:24-30 | An empty year group is the `int(None)` error, exactly; a year outside 1..9999 is the `datetime` range error with that year; otherwise the record of the temperature's value, the GCM, the scenario and the year |
| Keys.ParseIndexName | src/stactools/osc_hazard/cubify.py:18-31 | A parsed record has a year in 1..9999 and a GCM and a scenario that are non-empty tokens of their classes |
| Keys.ShapedDeterminesMatch | src/stactools/osc_hazard/cubify.py:19-24 | Where the pattern's shape holds at a `_`, the match there captures exactly the shape's pieces, and the year is the digit run after the last `_` |
| Keys.MatchIsShaped | src/stactools/osc_hazard/cubify.py:19-23 | Where the pattern matches, its shape holds |
| Keys.ParseMatchesIffShaped | src/stactools/osc_hazard/cubify.py:19-23 | A key is rejected with the no-match error exactly when no `_` in it starts the pattern's shape (both directions) |
| Keys.ParseUsesRightmostShape | src/stactools/osc_hazard/cubify.py:19-30 | The record is built from the pieces at the rightmost `_` that starts the shape |
| Keys.ShapeIsRightmost | src/stactools/osc_hazard/cubify.py:19-21 | When the year digits are followed by a tail without `_`, no later `_` starts the shape |
| Keys.ParseShapedKey | src/stactools/osc_hazard/cubify.py:19-30 | A shaped key whose year digits end the digit run and are followed by no `_` parses to the temperature, GCM, scenario and year its pieces spell |
| Keys.ParseFormattedKey | src/stactools/osc_hazard/cubify.py:19-30 | Round trip: `prefix_<T>c_<G>_<S>_<Y><rest>` parses to the value of T, G, S and the year Y spells, for any prefix without a newline and any tail that has no `_` and does not start with a digit |
| Keys.TemperatureTokenParts | src/stactools/osc_hazard/cubify.py:26 | A temperature token is digits, then possibly one '.' and more digits, which is what `float` reads as a decimal number |
| Keys.DecimalValueScaled | src/stactools/osc_hazard/cubify.py:26 | `float` of a temperature token: the value times ten to the number of fraction digits is the integer the token's digits spell once the `.` is left out |
| Strings.NatToDigitsRoundTrip | src/stactools/osc_hazard/cubify.py:98 | The decimal spelling of a year reads back as that year |
| Strings.ZeroPadded | src/stactools/osc_hazard/cubify.py:98 | `{year:04d}` is all digits and reads back as the year; it has at least 4 digits, and exactly 4 below 10000 |
| Strings.RemoveSuffix | src/stactools/osc_hazard/cubify.py:44 | `removesuffix`: the suffix is dropped when present and the string is kept otherwise |
| Strings.RemoveAppendedSuffix | src/stactools/osc_hazard/cubify.py:44 | Removing an appended suffix gives back the original string |
| Strings.LexLessIrreflexive | src/stactools/osc_hazard/cubify.py:58 | Python's string order puts no string before itself |
| Strings.LexLessTransitive | src/stactools/osc_hazard/cubify.py:58 | Python's string order is transitive |
| Strings.LexLessTotal | src/stactools/osc_hazard/cubify.py:58 | Of two different strings, one comes before the other |
| Strings.LexLessFirstDifference | src/stactools/osc_hazard/cubify.py:58 | Python's string order stated without recursion: `s` comes first exactly when, at the first position where the two differ, `s` has ended or has the smaller code point and `t` has not ended |
| Catalog.FilterLayout | src/stactools/osc_hazard/cubify.py:36 | `fnmatch.filter` keeps exactly the keys that match the glob shape, and keeps distinct keys distinct |
| Catalog.FilterLayoutAppend | src/stactools/osc_hazard/cubify.py:36 | Filtering keeps listing order: a key added at the end of the listing is kept at the end of the result when it matches, and dropped otherwise |
| Catalog.FilterLayoutConcat | src/stactools/osc_hazard/cubify.py:36 | Filtering a listing in two parts gives the filtered first part followed by the filtered second part |
| Catalog.LayoutIsGlob | src/stactools/osc_hazard/cubify.py:36-39 | A key matches `*_????<suffix>` exactly when it is some head, then `_`, then four characters, then the suffix (both directions) |
| Catalog.SelectArrayKeys | src/stactools/osc_hazard/cubify.py:35-43 | When any key has the nested layout, the selection is every nested key, in order. Otherwise, when any key has the flat layout, it is every flat key, in order. When neither layout matches any key, the result is the error listing every key. Selected keys end in `/.zarray` |
| Catalog.NestedEndsWithArraySuffix | src/stactools/osc_hazard/cubify.py:36-44 | A key of the nested layout also ends in `/.zarray`, so `removesuffix` strips it too |
| Catalog.StripArraySuffix | src/stactools/osc_hazard/cubify.py:44 | One name per key, in order; appending `/.zarray` to the name of a key that ends with it gives back the key |
| Catalog.FirstFailure | src/stactools/osc_hazard/cubify.py:45 | Every result before the position found succeeded, and the result at that position failed |
| Catalog.FirstUnparsable | src/stactools/osc_hazard/cubify.py:45 | Every name before the position found parses, and the name at that position does not |
| Catalog.Collect | src/stactools/osc_hazard/cubify.py:45 | Success exactly when no result failed; then one entry per name with that name's record, in order; otherwise the error of the first failed result |
| Catalog.ParseAll | src/stactools/osc_hazard/cubify.py:45 | The dict comprehension: one entry per name, in order, each holding the record the name parses to; otherwise the error of the first name that does not parse |
| Catalog.IndexArrays | src/stactools/osc_hazard/cubify.py:34-45 | A catalog is non-empty, and every record's year is one a date can hold |
| Catalog.CatalogFailsIffNoLayout | src/stactools/osc_hazard/cubify.py:36-43 | The catalog fails with the no-matching-keys error, before any parsing, exactly when neither layout matches a key |
| Catalog.CatalogEntries | src/stactools/osc_hazard/cubify.py:44-45 | The catalog's names are the selected keys with `/.zarray` removed, in order, and each entry's record is what its name parses to |
| Catalog.CatalogNamesDistinct | src/stactools/osc_hazard/cubify.py:44-45 | Distinct store keys give distinct catalog names |
| Grouping.WithYear | src/stactools/osc_hazard/cubify.py:147-151 | A year's group holds exactly the catalog entries of that year |
| Grouping.WithYearAppend | src/stactools/osc_hazard/cubify.py:147-151 | A new entry extends the group of its own year and no other |
| Grouping.YearsInOrder | src/stactools/osc_hazard/cubify.py:146-150 | The group keys are the catalog's years, each once |
| Grouping.GroupingOf | src/stactools/osc_hazard/cubify.py:145-156 | The grouping as a value: distinct keys, each with a non-empty group of catalog entries; every catalog entry is in some group; every key is a catalog year; with `split_years`, a group holds only entries of its own year |
| Grouping.GroupByYear | src/stactools/osc_hazard/cubify.py:145-156 | With `split_years`, one group per year in first-seen order, each holding that year's entries in catalog order. Without it, one group keyed by the first record's year that holds the whole catalog |
| Grouping.GroupingOfLoop | src/stactools/osc_hazard/cubify.py:145-156 | The grouping loop builds exactly the grouping stated as a value |
| Grouping.RegroupedAppend | src/stactools/osc_hazard/cubify.py:147-151 | Appending an entry adds it once to the union of the groups when its year is a key, and not at all otherwise |
| Grouping.SplitPartitions | src/stactools/osc_hazard/cubify.py:145-151 | The groups partition the catalog: every entry is in its own year's group and in no other, and the groups together hold each entry as often as the catalog does |
| Coords.BelowIrreflexive | src/stactools/osc_hazard/cubify.py:58 | The order `sorted` uses is irreflexive |
| Coords.BelowTransitive | src/stactools/osc_hazard/cubify.py:58 | The order `sorted` uses is transitive |
| Coords.BelowTotal | src/stactools/osc_hazard/cubify.py:58 | The order `sorted` uses is total |
| Coords.IncreasingIsDistinct | src/stactools/osc_hazard/cubify.py:57-58 | A strictly ascending axis has no duplicates |
| Coords.MinimumExists | src/stactools/osc_hazard/cubify.py:58 | A non-empty set of labels has a least element |
| Coords.SortSet | src/stactools/osc_hazard/cubify.py:58 | `sorted` on a set gives its elements in strictly ascending order, each once and nothing else |
| Coords.AddFieldValues | src/stactools/osc_hazard/cubify.py:54-55 | Every field's set gains exactly the record's value of that field |
| Coords.CollectFieldValues | src/stactools/osc_hazard/cubify.py:49-55 | After the first loop, every field has a set, and it holds exactly the values the field takes across the records |
| Coords.IndexesToCoords | src/stactools/osc_hazard/cubify.py:48-60 | One axis per field, in field order, named after the field: strictly ascending and holding exactly the field's values across the records |
| Coords.IndexOf | src/stactools/osc_hazard/cubify.py:123 | Looking up a label by position gives a place where the label is, or the axis length exactly when the label is absent |
| Coords.IndexOfDistinct | src/stactools/osc_hazard/cubify.py:123 | On a duplicate-free axis, a label's position is the one place it occurs |
| Cube.PaintedByLastWriter | src/stactools/osc_hazard/cubify.py:121-123 | A cell holds the slab of the last assignment that addresses it |
| Cube.PaintedUntouched | src/stactools/osc_hazard/cubify.py:121-123 | A cell that no assignment addresses keeps its initial zeros |
| Cube.DataCube.Shape | src/stactools/osc_hazard/cubify.py:64 | The cube's shape is the list of its axis lengths, and the first four are the array's dimensions |
| Cube.DataCube.ToDataset | src/stactools/osc_hazard/cubify.py:126 | `to_dataset()` keeps the name, axes and attributes, and every value on the four field axes is the cube's cell |
| Cube.DataCube.constructor | src/stactools/osc_hazard/cubify.py:68-73 | The new array has the given name, axes and attributes. Every cell is zero, and no coordinate has attributes |
| Cube.DataCube.SetCoordAttrs | src/stactools/osc_hazard/cubify.py:78 | One coordinate's attributes are replaced, the cube stays well formed, and nothing else changes |
| Cube.DataCube.SetLoc | src/stactools/osc_hazard/cubify.py:123 | The addressed cell takes the slab, and no other cell changes |
| Cube.CreateEmptyArray | src/stactools/osc_hazard/cubify.py:63-82 | A fresh zero cube named after the indicator over the given axes. Its attributes are the sample's, updated key by key by `ATTRS[indicator][indicator]`. Each coordinate has the registry's attributes where the registry names it, else the sample's, else none |
| Cube.SetAllCoordAttrs | src/stactools/osc_hazard/cubify.py:76-80 | After the loop, every coordinate has the registry's attributes if any, else the sample's, else none. The cube's own attributes are unchanged |
| Cube.CopyCoordAttrs | src/stactools/osc_hazard/cubify.py:77-80 | One loop step: the later, registry assignment wins over the sample's, a name with neither keeps its empty attributes, and the cube stays well formed |
| Cubify.AddressOf | src/stactools/osc_hazard/cubify.py:123 | A record whose labels lie on the axes selects a cell inside the cube |
| Cubify.AddressOfInjective | src/stactools/osc_hazard/cubify.py:123 | Two records on the axes select the same cell exactly when they are equal |
| Cubify.RecordCellHoldsItsArray | src/stactools/osc_hazard/cubify.py:121-123 | After the fill, a record's cell holds that record's array at `index=0`, unless a later entry with the same record overwrote it |
| Cubify.UnselectedCellStaysBlank | src/stactools/osc_hazard/cubify.py:121-123 | A cell that no record selects stays zero |
| Cubify.RecordsOnCubeAxes | src/stactools/osc_hazard/cubify.py:107-113 | Every record of a group lies on the axes derived from that group |
| Cubify.AugmentCoords | src/stactools/osc_hazard/cubify.py:110-113 | The sample's spatial axes follow the field axes, in order and unchanged |
| Cubify.FillCube | src/stactools/osc_hazard/cubify.py:121-123 | After the fill, each cell holds the first layer of the last entry whose record selects it, or zeros when none does |
| Cubify.AssembleCube | src/stactools/osc_hazard/cubify.py:106-126 | For a group whose arrays share the sample's grid, the dataset of the group: named after the indicator; over the group's sorted field axes followed by the sample's spatial axes; with the attributes the registry and the sample give; and holding the last array written to each cell, or zeros |
| Cubify.CubeSnapshot | src/stactools/osc_hazard/cubify.py:126 | The snapshot of a filled cube is the dataset of its group |
| Cubify.OutputFileName | src/stactools/osc_hazard/cubify.py:97-98 | The file name is `indicator_`, then digits that spell the year, then `.zarr`. A year that a date can hold gets exactly four digits |
| Cubify.OutputFileNamesDistinct | src/stactools/osc_hazard/cubify.py:97-98 | Different years get different files |
| Cubify.BuildYearlyCubes | src/stactools/osc_hazard/cubify.py:85-129 | Exactly one output path per group year, named after the indicator and the zero-padded year. Each path holds the dataset of its year's group, and every other file is as it was |
| Cubify.WriteYear | src/stactools/osc_hazard/cubify.py:95-127 | One year loop iteration: it records the year's path, and that path then holds the year's dataset, while the outputs of the earlier years are kept |
| Cubify.OutputAdded | src/stactools/osc_hazard/cubify.py:97-127 | Writing a new year's dataset at its own path keeps the earlier years' outputs |
| Cubify.NewPathUnused | src/stactools/osc_hazard/cubify.py:97-98 | A year not yet written gets a path that no earlier year uses |
| Cubify.FilesKeptAdded | src/stactools/osc_hazard/cubify.py:103-127 | Replacing the file at a new path adds that path and leaves every other file unchanged |
| Cubify.DatasetsWrittenAdded | src/stactools/osc_hazard/cubify.py:126-127 | The earlier years' paths still hold their datasets after a new path is written |
| Cubify.Cubify | src/stactools/osc_hazard/cubify.py:132-166 | The pipeline's outcome, in three cases. A catalog error is returned with no file touched. An indicator missing from the registry fails after the first year's output was removed. Otherwise the output path of every year of the grouping is returned, with the datasets written as `build_yearly_zarr_cubes` promises. It succeeds exactly when the catalog succeeds and the indicator is registered |
| Cubify.YearsInOrderStartsWithFirst | src/stactools/osc_hazard/cubify.py:145-153 | Split or not, the first group key is the first record's year |
| Cubify.GroupingReadable | src/stactools/osc_hazard/cubify.py:145-156 | When every group can be assembled, every group is non-empty and names arrays the store holds, the keys are distinct and exactly the group years, and every year is one a date can hold |

## Left out

- **Zarr, xarray and `OscZarr` I/O.** This covers opening the store, `target.read`, `to_zarr` in append mode with consolidated metadata, and `shutil.rmtree`. The store is modelled as its keys plus its arrays by name. The output directory is modelled as a map from path to dataset, where removal and writing are map updates. Encoding, chunking and `dtype` are not modelled.
- **Path kinds.** Whether an output path is a directory (`is_dir`) is not modelled: the old output at a path is always replaced. A plain file at an output path is not modelled.
- **Float rounding.** Temperatures are exact decimal numbers (`real`); `float`'s binary rounding is not modelled. Spatial coordinate values and data values are exact reals too.
- **Unicode digits.** `\d` is modelled as the ASCII digits only, whereas Python's `str` patterns also accept other Unicode decimal digits.
- **`datetime`.** A time is modelled as its year. The month and the day are always 1 January.
- **`ATTRS` and the other static tables in `constants.py`.** They are not part of this model. The registry is a parameter of the pipeline.
- **Other parts of the plugin.** The STAC item builder (`stac.py`), the command line wiring (`commands.py`) and plugin registration are not part of this model.
- **Failed reads.** What a group's assembly reads is a precondition (`Cubify.Assemblable`), not an error path. It covers only the arrays the catalog names, one group at a time:
  - every entry of the group names an array the store holds, with a first layer laid out over its spatial axes;
  - every array of the group has the spatial axes of the group's sample (its first entry); different groups may use different grids;
  - the spatial axes have distinct names that differ from the field names.
  Without these, `target.read` or the `da.loc` assignment raises inside zarr or xarray, and those errors are not modelled. Arrays the catalog does not name are never read and are not constrained. A spatial axis named like a field would replace that field's axis in the coordinate dict. `Cubify.Cubify` asks this of every group whenever the catalog succeeds, including when the indicator is then found missing from the registry; in that case the source reads only the first group's sample before it fails.
- **Spatial grid layout.** The spatial part of a cell is the flattened grid of the source array; its internal index order is not modelled.
- Catalog.ParseAll: keeps one entry per name, in order. The source's dict would keep the last record of a repeated name. A store lists each key once, and distinct keys give distinct names (`Catalog.CatalogNamesDistinct`), so names repeat only for a key list no store produces.
- Cubify.Cubify: returns the output paths as a map from year to path, which has no order. The source's dict lists them in the order of the group keys, which is `Grouping.GroupingOf(...).years` (first-seen year order with `split_years`).
