/**
 * Cube assembly and the pipeline (`build_yearly_zarr_cubes`, `cubify`): per
 * group, the axes are derived from the records and the first array's spatial
 * axes, a zero cube is created, and every array's first layer is written into
 * the cell its record addresses; one output path is recorded per year.
 *
 * The store is its list of keys and the arrays it holds by name; the output
 * directory is the map from each path to the dataset stored there.
 */
module Cubify {
  import opened Wrappers
  import opened Strings
  import opened Keys
  import opened Catalog
  import opened Grouping
  import opened Coords
  import opened Cube

  /**
   * An array as `target.read(key)` returns it: its attributes, its spatial
   * axes (those after the leading `index` axis), the attributes of its
   * coordinates, and one flattened spatial grid per `index` position.
   */
  datatype SourceArray = SourceArray(attrs: Attrs, dims: seq<Coord>, coordAttrs: map<string, Attrs>, layers: seq<seq<real>>)

  /** The store: its keys in listing order, and the arrays it holds by name. */
  datatype Store = Store(keys: seq<string>, arrays: map<string, SourceArray>)

  /** `_read_source_array`: the array at `index=0`. */
  function ReadSourceArray(a: SourceArray): (grid: seq<real>)
    requires |a.layers| > 0
    ensures grid == a.layers[0]
  {
    a.layers[0]
  }

  /** Spatial axes that can follow the field axes: their names are distinct and none is a field's. */
  predicate SpatialDims(dims: seq<Coord>)
  {
    && Distinct(CoordNames(dims))
    && forall k, f :: 0 <= k < |dims| ==> dims[k].name != FieldName(f)
  }

  /** Every entry of the group names an array of the store. */
  predicate Readable(store: Store, group: seq<Entry>)
  {
    forall e :: e in group ==> e.name in store.arrays
  }

  /** The registry has attributes for the indicator itself: `ATTRS[indicator][indicator]` exists. */
  predicate Registered(registry: Registry, indicator: string)
  {
    indicator in registry && indicator in registry[indicator]
  }

  /** `indexes.values()`: the records of a group, in order. */
  function RecordsOf(group: seq<Entry>): (records: seq<IndexRecord>)
    ensures |records| == |group| && forall k :: 0 <= k < |group| ==> records[k] == group[k].record
  {
    seq(|group|, k requires 0 <= k < |group| => group[k].record)
  }

  /** Each field's label of the record lies on that field's axis. */
  predicate OnAxes(coords: seq<Coord>, r: IndexRecord)
    requires |coords| >= |FIELDS|
  {
    forall k :: 0 <= k < |FIELDS| ==> FieldLabel(r, FIELDS[k]) in coords[k].values
  }

  /** `da.loc[index]`: the cell a record selects, by the position of each field's label on its axis. */
  function AddressOf(coords: seq<Coord>, r: IndexRecord): (at: Address)
    requires |coords| >= |FIELDS|
    ensures OnAxes(coords, r) ==> at.t < |coords[0].values| && at.g < |coords[1].values|
                                  && at.s < |coords[2].values| && at.y < |coords[3].values|
  {
    Address(IndexOf(coords[0].values, FieldLabel(r, Temperature)), IndexOf(coords[1].values, FieldLabel(r, Gcm)),
            IndexOf(coords[2].values, FieldLabel(r, Scenario)), IndexOf(coords[3].values, FieldLabel(r, Time)))
  }

  /** Two records on the axes select the same cell exactly when they agree on every field. */
  lemma AddressOfInjective(coords: seq<Coord>, r1: IndexRecord, r2: IndexRecord)
    requires |coords| >= |FIELDS| && OnAxes(coords, r1) && OnAxes(coords, r2)
    ensures AddressOf(coords, r1) == AddressOf(coords, r2) <==> r1 == r2
  {
    if AddressOf(coords, r1) == AddressOf(coords, r2) {
      assert FieldLabel(r1, FIELDS[0]) in coords[0].values && FieldLabel(r2, FIELDS[0]) in coords[0].values;
      assert FieldLabel(r1, FIELDS[1]) in coords[1].values && FieldLabel(r2, FIELDS[1]) in coords[1].values;
      assert FieldLabel(r1, FIELDS[2]) in coords[2].values && FieldLabel(r2, FIELDS[2]) in coords[2].values;
      assert FieldLabel(r1, FIELDS[3]) in coords[3].values && FieldLabel(r2, FIELDS[3]) in coords[3].values;
    }
  }

  /** The writes of the fill loop: each entry's first layer, at the cell its record selects. */
  function WritesOf(store: Store, coords: seq<Coord>, group: seq<Entry>): (writes: seq<Write>)
    requires |coords| >= |FIELDS| && Readable(store, group)
    requires forall e :: e in group ==> |store.arrays[e.name].layers| > 0
    ensures |writes| == |group|
    ensures forall k :: 0 <= k < |group| ==> writes[k].at == AddressOf(coords, group[k].record)
    ensures forall k :: 0 <= k < |group| ==> writes[k].slab == ReadSourceArray(store.arrays[group[k].name])
  {
    seq(|group|, k requires 0 <= k < |group| =>
      Write(AddressOf(coords, group[k].record), ReadSourceArray(store.arrays[group[k].name])))
  }

  /**
   * After the fill, the cell of a record holds that record's array at
   * `index=0`, unless a later entry of the group has the same record and so
   * overwrote it.
   */
  lemma RecordCellHoldsItsArray(store: Store, coords: seq<Coord>, group: seq<Entry>, k: nat, blank: seq<real>)
    requires |coords| >= |FIELDS| && Readable(store, group)
    requires forall e :: e in group ==> |store.arrays[e.name].layers| > 0
    requires forall e :: e in group ==> OnAxes(coords, e.record)
    requires k < |group| && forall j :: k < j < |group| ==> group[j].record != group[k].record
    ensures Painted(WritesOf(store, coords, group), AddressOf(coords, group[k].record), blank)
         == ReadSourceArray(store.arrays[group[k].name])
  {
    var writes := WritesOf(store, coords, group);
    forall j | k < j < |writes| ensures writes[j].at != writes[k].at {
      assert group[j] in group && group[k] in group;
      AddressOfInjective(coords, group[j].record, group[k].record);
    }
    PaintedByLastWriter(writes, k, blank);
  }

  /** A cell that no record of the group selects keeps the zeros it started with. */
  lemma UnselectedCellStaysBlank(store: Store, coords: seq<Coord>, group: seq<Entry>, at: Address, blank: seq<real>)
    requires |coords| >= |FIELDS| && Readable(store, group)
    requires forall e :: e in group ==> |store.arrays[e.name].layers| > 0
    requires forall e :: e in group ==> AddressOf(coords, e.record) != at
    ensures Painted(WritesOf(store, coords, group), at, blank) == blank
  {
    var writes := WritesOf(store, coords, group);
    forall j | 0 <= j < |writes| ensures writes[j].at != at {
      assert group[j] in group;
    }
    PaintedUntouched(writes, at, blank);
  }

  /**
   * The axes of a group's cube: for each field, in field order, the field's
   * values across the records, ascending and each once; then the sample's
   * spatial axes as they are.
   */
  ghost predicate CubeAxes(coords: seq<Coord>, records: seq<IndexRecord>, dims: seq<Coord>)
  {
    && |coords| == |FIELDS| + |dims|
    && (forall k :: 0 <= k < |FIELDS| ==> coords[k].name == FieldName(FIELDS[k]))
    && (forall k :: 0 <= k < |FIELDS| ==> Increasing(coords[k].values))
    && (forall k, l :: 0 <= k < |FIELDS| ==> (l in coords[k].values <==> l in FieldValues(records, FIELDS[k])))
    && coords[|FIELDS|..] == dims
  }

  /** Every record of a group lies on the axes derived from the group. */
  lemma RecordsOnCubeAxes(coords: seq<Coord>, group: seq<Entry>, dims: seq<Coord>)
    requires CubeAxes(coords, RecordsOf(group), dims)
    ensures forall e :: e in group ==> OnAxes(coords, e.record)
  {
    var records := RecordsOf(group);
    forall e | e in group ensures OnAxes(coords, e.record) {
      var i :| 0 <= i < |group| && group[i] == e;
      assert records[i] == e.record;
      forall k | 0 <= k < |FIELDS| ensures FieldLabel(e.record, FIELDS[k]) in coords[k].values {
        assert FieldLabel(records[i], FIELDS[k]) in FieldValues(records, FIELDS[k]);
      }
    }
  }

  /** The array a group's cube takes its spatial axes and attributes from: its first entry's. */
  function SampleOf(store: Store, group: seq<Entry>): SourceArray
    requires group != [] && Readable(store, group)
  {
    assert group[0] in group;
    store.arrays[group[0].name]
  }

  /** An array the pipeline can read: a first layer laid out over its spatial axes. */
  predicate ReadableArray(a: SourceArray)
  {
    |a.layers| > 0 && |a.layers[0]| == GridSize(a.dims) && SpatialDims(a.dims)
  }

  /**
   * What one iteration of the year loop reads: every entry of the group names
   * an array the store holds, readable and over the same spatial axes as the
   * group's sample. Arrays outside the group are never read.
   */
  predicate Assemblable(store: Store, group: seq<Entry>)
  {
    && group != [] && Readable(store, group)
    && forall e :: e in group ==> ReadableArray(store.arrays[e.name]) && store.arrays[e.name].dims == SampleOf(store, group).dims
  }

  /** Every group of the grouping can be assembled; the groups need not share a grid. */
  ghost predicate GroupsAssemblable(store: Store, grouped: Grouped)
  {
    forall y :: y in grouped.groups ==> Assemblable(store, grouped.groups[y])
  }

  /**
   * The dataset `build_yearly_zarr_cubes` writes for one group: named after
   * the indicator; over the group's axes; attributes from the sample updated
   * by the registry; coordinate attributes from the registry, else the
   * sample, else none; and each cell holding the last array written to it,
   * or zeros.
   */
  ghost predicate DatasetOf(ds: Dataset, store: Store, group: seq<Entry>, indicator: string, registry: Registry)
  {
    && group != [] && Readable(store, group) && Registered(registry, indicator)
    && (forall e :: e in group ==> |store.arrays[e.name].layers| > 0)
    && ds.name == indicator
    && CubeAxes(ds.coords, RecordsOf(group), SampleOf(store, group).dims)
    && UpdatedAttrs(ds.attrs, SampleOf(store, group).attrs, registry[indicator][indicator])
    && ds.coordAttrs.Keys == set n | n in CoordNames(ds.coords)
    && (forall n :: n in ds.coordAttrs ==>
          ds.coordAttrs[n] == CoordAttrsFor(n, SampleOf(store, group).coordAttrs, registry[indicator]))
    && GridShaped(ds.values, ds.coords)
    && (forall at :: OnGrid(at, ds.coords) ==>
          ValueAt(ds.values, at) == Painted(WritesOf(store, ds.coords, group), at, ZeroSlab(GridSize(ds.coords[|FIELDS|..]))))
  }

  /** One iteration of the year loop, without the path: the cube of one group. */
  method AssembleCube(store: Store, group: seq<Entry>, indicator: string, registry: Registry) returns (da: DataCube)
    requires Assemblable(store, group) && Registered(registry, indicator)
    ensures fresh(da) && fresh(da.cells) && da.Valid()
    ensures DatasetOf(da.ToDataset(), store, group, indicator, registry)
  {
    var records := RecordsOf(group);
    var fields := IndexesToCoords(records);
    assert group[0] in group;
    var sample := store.arrays[group[0].name];
    var coords := AugmentCoords(fields, sample.dims);
    assert coords[..|FIELDS|] == fields && coords[|FIELDS|..] == sample.dims;
    assert CubeAxes(coords, records, sample.dims);
    RecordsOnCubeAxes(coords, group, sample.dims);
    da := CreateEmptyArray(coords, sample.attrs, sample.coordAttrs, indicator, registry);
    forall e | e in group ensures |store.arrays[e.name].layers[0]| == da.slabSize {
      assert store.arrays[e.name].dims == sample.dims;
    }
    FillCube(da, store, group);
    CubeSnapshot(da, store, group, indicator, registry);
  }

  /** The snapshot of a cube built from the group holds what the cube holds. */
  lemma CubeSnapshot(da: DataCube, store: Store, group: seq<Entry>, indicator: string, registry: Registry)
    requires group != [] && Readable(store, group) && Registered(registry, indicator)
    requires forall e :: e in group ==> |store.arrays[e.name].layers| > 0
    requires da.Valid() && da.name == indicator
    requires CubeAxes(da.coords, RecordsOf(group), SampleOf(store, group).dims)
    requires UpdatedAttrs(da.attrs, SampleOf(store, group).attrs, registry[indicator][indicator])
    requires forall n :: n in da.coordAttrs ==>
      da.coordAttrs[n] == CoordAttrsFor(n, SampleOf(store, group).coordAttrs, registry[indicator])
    requires forall at :: da.InBounds(at) ==>
      da.Cell(at) == Painted(WritesOf(store, da.coords, group), at, ZeroSlab(da.slabSize))
    ensures DatasetOf(da.ToDataset(), store, group, indicator, registry)
  {
  }

  /** `for key in sample_array.dims: coords[key] = ...`: the spatial axes follow the field axes, in order. */
  method AugmentCoords(fields: seq<Coord>, dims: seq<Coord>) returns (coords: seq<Coord>)
    ensures coords == fields + dims
  {
    coords := fields;
    for k := 0 to |dims|
      invariant coords == fields + dims[..k]
    {
      coords := coords + [dims[k]];
    }
  }

  /**
   * `for key, index in indexes.items(): da.loc[index] = source_data`: each
   * cell ends holding the first layer of the last entry whose record selects
   * it, and zeros when none does.
   */
  method FillCube(da: DataCube, store: Store, group: seq<Entry>)
    requires da.Valid() && Readable(store, group)
    requires forall e :: e in group ==> OnAxes(da.coords, e.record)
    requires forall e :: e in group ==> |store.arrays[e.name].layers| > 0 && |store.arrays[e.name].layers[0]| == da.slabSize
    requires forall at :: da.InBounds(at) ==> da.Cell(at) == ZeroSlab(da.slabSize)
    modifies da.cells
    ensures da.Valid()
    ensures forall at :: da.InBounds(at) ==> da.Cell(at) == Painted(WritesOf(store, da.coords, group), at, ZeroSlab(da.slabSize))
  {
    ghost var writes := WritesOf(store, da.coords, group);
    for k := 0 to |group|
      invariant da.Valid()
      invariant forall at :: da.InBounds(at) ==> da.Cell(at) == Painted(writes[..k], at, ZeroSlab(da.slabSize))
    {
      var e := group[k];
      assert e in group;
      da.SetLoc(AddressOf(da.coords, e.record), ReadSourceArray(store.arrays[e.name]));
      assert writes[..k + 1][..k] == writes[..k];
    }
    assert writes[..|group|] == writes;
  }

  /** `output_dir / f"{indicator}_{year:04d}.zarr"`. */
  datatype Path = Path(dir: string, file: string)

  /**
   * The file name of a year's output. The year can be read back from it: the
   * digits between the indicator's "_" and ".zarr" spell it, with exactly
   * four of them for the years a date can hold.
   */
  function OutputFileName(indicator: string, year: nat): (name: string)
    ensures |name| >= |indicator| + 6
    ensures name[..|indicator| + 1] == indicator + "_" && name[|name| - 5..] == ".zarr"
    ensures AllDigits(name[|indicator| + 1..|name| - 5]) && DigitsValue(name[|indicator| + 1..|name| - 5]) == year
    ensures year <= MAX_YEAR ==> |name| == |indicator| + 10
  {
    var digits := ZeroPadded(year, 4);
    var name := (indicator + "_") + digits + ".zarr";
    assert name[|indicator| + 1..|name| - 5] == digits;
    assert Pow10(4) == 10000;
    name
  }

  /** Different years get different files. */
  lemma OutputFileNamesDistinct(indicator: string, y1: nat, y2: nat)
    requires y1 != y2
    ensures OutputFileName(indicator, y1) != OutputFileName(indicator, y2)
  {
  }

  /** A grouping as the grouping loop leaves it: distinct years, each with a non-empty group of readable entries. */
  ghost predicate GroupsReadable(store: Store, grouped: Grouped)
  {
    && Distinct(grouped.years)
    && (forall y :: y in grouped.groups <==> y in grouped.years)
    && (forall y :: y in grouped.groups ==> grouped.groups[y] != [] && Readable(store, grouped.groups[y]))
    && (forall y :: y in grouped.years ==> MIN_YEAR <= y <= MAX_YEAR)
  }

  /** Each year's output path is named after the indicator and the zero-padded year. */
  predicate PathsNamed(paths: map<int, Path>, indicator: string, outputDir: string)
  {
    forall y: int :: y in paths ==> y >= 0 && paths[y] == Path(outputDir, OutputFileName(indicator, y))
  }

  /** The paths the years have been written to. */
  function UsedPaths(paths: map<int, Path>): set<Path>
  {
    set y | y in paths :: paths[y]
  }

  /** The output paths are added to the files, and every other file is as it was. */
  predicate FilesKept(paths: map<int, Path>, files: map<Path, Dataset>, files': map<Path, Dataset>)
  {
    && files'.Keys == files.Keys + UsedPaths(paths)
    && (forall p :: p in files && p !in UsedPaths(paths) ==> files'[p] == files[p])
  }

  /** Each year's output path holds the dataset of that year's group. */
  ghost predicate DatasetsWritten(paths: map<int, Path>, files': map<Path, Dataset>, store: Store,
                                  grouped: Grouped, indicator: string, registry: Registry)
  {
    forall y :: y in paths ==>
      y in grouped.groups && paths[y] in files' && DatasetOf(files'[paths[y]], store, grouped.groups[y], indicator, registry)
  }

  /** The outputs of the years in `paths`. */
  ghost predicate Outputs(paths: map<int, Path>, files: map<Path, Dataset>, files': map<Path, Dataset>, store: Store,
                          grouped: Grouped, indicator: string, outputDir: string, registry: Registry)
  {
    && PathsNamed(paths, indicator, outputDir)
    && FilesKept(paths, files, files')
    && DatasetsWritten(paths, files', store, grouped, indicator, registry)
  }

  /** What `build_yearly_zarr_cubes` leaves behind: the outputs of every group year. */
  ghost predicate Written(paths: map<int, Path>, files: map<Path, Dataset>, files': map<Path, Dataset>, store: Store,
                          grouped: Grouped, indicator: string, outputDir: string, registry: Registry)
  {
    && paths.Keys == (set y | y in grouped.years)
    && Outputs(paths, files, files', store, grouped, indicator, outputDir, registry)
  }

  /** `build_yearly_zarr_cubes`: the output path of each group year, and the datasets written there. */
  method BuildYearlyCubes(store: Store, grouped: Grouped, indicator: string, outputDir: string, registry: Registry,
                          files: map<Path, Dataset>)
    returns (paths: map<int, Path>, files': map<Path, Dataset>)
    requires GroupsReadable(store, grouped) && GroupsAssemblable(store, grouped) && Registered(registry, indicator)
    ensures Written(paths, files, files', store, grouped, indicator, outputDir, registry)
  {
    paths := map[];
    files' := files;
    for i := 0 to |grouped.years|
      invariant paths.Keys == YearsDone(grouped.years, i)
      invariant Outputs(paths, files, files', store, grouped, indicator, outputDir, registry)
    {
      var year := grouped.years[i];
      NextYear(grouped.years, i, paths);
      paths, files' := WriteYear(store, grouped, indicator, outputDir, registry, year, paths, files, files');
    }
    assert grouped.years[..|grouped.years|] == grouped.years;
  }

  /** The years the loop has handled before position `i`. */
  function YearsDone(years: seq<int>, i: nat): set<int>
    requires i <= |years|
  {
    set y | y in years[..i]
  }

  /** The next year of the loop has no path yet, and recording it extends the years done by one. */
  lemma NextYear(years: seq<int>, i: nat, paths: map<int, Path>)
    requires Distinct(years) && i < |years| && paths.Keys == YearsDone(years, i)
    ensures years[i] in years && years[i] !in paths
    ensures YearsDone(years, i + 1) == paths.Keys + {years[i]}
  {
    assert years[..i + 1] == years[..i] + [years[i]];
  }

  /**
   * One iteration of the year loop: the dataset of the year's group is
   * written at the year's path, which no earlier year has used.
   */
  method WriteYear(store: Store, grouped: Grouped, indicator: string, outputDir: string, registry: Registry,
                   year: int, paths: map<int, Path>, files: map<Path, Dataset>, current: map<Path, Dataset>)
    returns (paths': map<int, Path>, current': map<Path, Dataset>)
    requires GroupsReadable(store, grouped) && GroupsAssemblable(store, grouped) && Registered(registry, indicator)
    requires year in grouped.years && year !in paths
    requires Outputs(paths, files, current, store, grouped, indicator, outputDir, registry)
    ensures paths' == paths[year := Path(outputDir, OutputFileName(indicator, year))]
    ensures Outputs(paths', files, current', store, grouped, indicator, outputDir, registry)
  {
    var path := Path(outputDir, OutputFileName(indicator, year));
    var da := AssembleCube(store, grouped.groups[year], indicator, registry);
    var ds := da.ToDataset();
    paths' := paths[year := path];
    current' := current[path := ds];
    OutputAdded(paths, files, current, store, grouped, indicator, outputDir, registry, year, path, ds);
  }

  /** Writing a new year's dataset at its own path keeps the outputs of the earlier years. */
  lemma OutputAdded(paths: map<int, Path>, files: map<Path, Dataset>, current: map<Path, Dataset>, store: Store,
                    grouped: Grouped, indicator: string, outputDir: string, registry: Registry,
                    year: int, path: Path, ds: Dataset)
    requires Outputs(paths, files, current, store, grouped, indicator, outputDir, registry)
    requires year !in paths && year in grouped.groups && year >= 0
    requires path == Path(outputDir, OutputFileName(indicator, year))
    requires DatasetOf(ds, store, grouped.groups[year], indicator, registry)
    ensures Outputs(paths[year := path], files, current[path := ds], store, grouped, indicator, outputDir, registry)
  {
    NewPathUnused(paths, indicator, outputDir, year, path);
    FilesKeptAdded(paths, files, current, year, path, ds);
    DatasetsWrittenAdded(paths, current, store, grouped, indicator, registry, year, path, ds);
  }

  /** A year without an output yet gets a path no other year uses. */
  lemma NewPathUnused(paths: map<int, Path>, indicator: string, outputDir: string, year: int, path: Path)
    requires PathsNamed(paths, indicator, outputDir)
    requires year !in paths && year >= 0 && path == Path(outputDir, OutputFileName(indicator, year))
    ensures forall y :: y in paths ==> paths[y] != path
  {
    forall y: int | y in paths ensures paths[y] != path {
      OutputFileNamesDistinct(indicator, y, year);
    }
  }

  lemma FilesKeptAdded(paths: map<int, Path>, files: map<Path, Dataset>, current: map<Path, Dataset>,
                       year: int, path: Path, ds: Dataset)
    requires FilesKept(paths, files, current)
    requires year !in paths && forall y :: y in paths ==> paths[y] != path
    ensures FilesKept(paths[year := path], files, current[path := ds])
  {
    var paths' := paths[year := path];
    forall p | p in UsedPaths(paths') ensures p in UsedPaths(paths) + {path} {
      var y: int :| y in paths' && paths'[y] == p;
      if y != year {
        assert paths[y] == p;
      }
    }
    forall p | p in UsedPaths(paths) ensures p in UsedPaths(paths') {
      var y: int :| y in paths && paths[y] == p;
      assert paths'[y] == p;
    }
    assert paths'[year] == path;
    assert UsedPaths(paths') == UsedPaths(paths) + {path};
  }

  lemma DatasetsWrittenAdded(paths: map<int, Path>, current: map<Path, Dataset>, store: Store,
                             grouped: Grouped, indicator: string, registry: Registry,
                             year: int, path: Path, ds: Dataset)
    requires DatasetsWritten(paths, current, store, grouped, indicator, registry)
    requires year !in paths && year in grouped.groups && forall y :: y in paths ==> paths[y] != path
    requires DatasetOf(ds, store, grouped.groups[year], indicator, registry)
    ensures DatasetsWritten(paths[year := path], current[path := ds], store, grouped, indicator, registry)
  {
    var paths', current' := paths[year := path], current[path := ds];
    forall y | y in paths'
      ensures y in grouped.groups && paths'[y] in current' && DatasetOf(current'[paths'[y]], store, grouped.groups[y], indicator, registry)
    {
      if y != year {
        assert y in paths;
        assert current'[paths'[y]] == current[paths[y]];
      }
    }
  }

  datatype CubifyError =
    | CatalogFailed(error: CatalogError)  // `_index_arrays` raised
    | UnknownIndicator(name: string)      // `ATTRS[indicator][indicator]` raised KeyError

  /**
   * `cubify`: the output path of every group year, each holding the dataset
   * of its group afterwards; or the error the source raises first, with no
   * file written.
   */
  method Cubify(store: Store, indicator: string, outputDir: string, splitYears: bool, registry: Registry,
                files: map<Path, Dataset>)
    returns (r: Result<map<int, Path>, CubifyError>, files': map<Path, Dataset>)
    requires IndexArrays(store.keys).Ok? ==> GroupsAssemblable(store, GroupingOf(IndexArrays(store.keys).value, splitYears))
    ensures IndexArrays(store.keys).Err? ==> r == Err(CatalogFailed(IndexArrays(store.keys).error)) && files' == files
    ensures IndexArrays(store.keys).Ok? && !Registered(registry, indicator) ==>
      && r == Err(UnknownIndicator(indicator))
      && files' == files - {Path(outputDir, OutputFileName(indicator, IndexArrays(store.keys).value[0].record.year))}
    ensures r.Ok? <==> IndexArrays(store.keys).Ok? && Registered(registry, indicator)
    ensures r.Ok? ==>
      Written(r.value, files, files', store, GroupingOf(IndexArrays(store.keys).value, splitYears), indicator, outputDir, registry)
  {
    files' := files;
    var indexed := IndexArrays(store.keys);
    if indexed.Err? {
      return Err(CatalogFailed(indexed.error)), files';
    }
    var catalog := indexed.value;
    var grouped := GroupByYear(catalog, splitYears);
    GroupingOfLoop(catalog, splitYears, grouped);
    if !Registered(registry, indicator) {
      // the first year's output is removed before the attributes are looked up
      YearsInOrderStartsWithFirst(catalog);
      files' := files - {Path(outputDir, OutputFileName(indicator, grouped.years[0]))};
      return Err(UnknownIndicator(indicator)), files';
    }
    GroupingReadable(store, catalog, splitYears);
    var paths;
    paths, files' := BuildYearlyCubes(store, grouped, indicator, outputDir, registry, files);
    r := Ok(paths);
  }

  /** The first key of the grouping is the first record's year, whether or not the years are split. */
  lemma {:induction false} YearsInOrderStartsWithFirst(catalog: seq<Entry>)
    requires catalog != []
    ensures YearsInOrder(catalog) != [] && YearsInOrder(catalog)[0] == catalog[0].record.year
  {
    if |catalog| > 1 {
      var init := catalog[..|catalog| - 1];
      assert init[0] == catalog[0];
      YearsInOrderStartsWithFirst(init);
    }
  }

  /** The groups of a catalog whose groups can be assembled are non-empty and readable, under distinct date years. */
  lemma GroupingReadable(store: Store, catalog: seq<Entry>, splitYears: bool)
    requires catalog != [] && forall e :: e in catalog ==> MIN_YEAR <= e.record.year <= MAX_YEAR
    requires GroupsAssemblable(store, GroupingOf(catalog, splitYears))
    ensures GroupsReadable(store, GroupingOf(catalog, splitYears))
  {
  }
}
