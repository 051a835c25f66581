/**
 * The dense data cube (`_create_empty_array` and the `da.loc[index] = ...`
 * writes): a zero-filled array with one axis per coordinate, its attributes,
 * and the attributes of each of its coordinates. The four field axes are the
 * dimensions of `cells`; the sample's spatial axes are flattened into the
 * slab each cell holds.
 */
module Cube {
  import opened Strings
  import opened Coords

  /** The attributes of a variable. */
  type Attrs = map<string, string>

  /** `ATTRS`: per indicator, the attributes of each variable by name. */
  type Registry = map<string, map<string, Attrs>>

  /** The number of values on a grid with these axes. */
  function GridSize(dims: seq<Coord>): (n: nat)
  {
    if dims == [] then 1 else GridSize(dims[..|dims| - 1]) * |dims[|dims| - 1].values|
  }

  /** The slab of a cell no write has touched. */
  function ZeroSlab(n: nat): (z: seq<real>)
    ensures |z| == n && forall k :: 0 <= k < n ==> z[k] == 0.0
  {
    seq(n, _ => 0.0)
  }

  /** The list of axis lengths, in axis order. */
  function ShapeOf(coords: seq<Coord>): (shape: seq<nat>)
    ensures |shape| == |coords| && forall k :: 0 <= k < |coords| ==> shape[k] == |coords[k].values|
  {
    seq(|coords|, k requires 0 <= k < |coords| => |coords[k].values|)
  }

  function CoordNames(coords: seq<Coord>): (names: seq<string>)
    ensures |names| == |coords| && forall k :: 0 <= k < |coords| ==> names[k] == coords[k].name
  {
    seq(|coords|, k requires 0 <= k < |coords| => coords[k].name)
  }

  /** A position on the four field axes: temperature, gcm, scenario, time. */
  datatype Address = Address(t: nat, g: nat, s: nat, y: nat)

  /** One `da.loc[...] = ...` assignment: the cell it addresses and the slab it stores. */
  datatype Write = Write(at: Address, slab: seq<real>)

  /** The slab a cell holds after the writes: the last write to it, or `blank` when none addresses it. */
  function Painted(writes: seq<Write>, at: Address, blank: seq<real>): seq<real>
  {
    if writes == [] then blank
    else if writes[|writes| - 1].at == at then writes[|writes| - 1].slab
    else Painted(writes[..|writes| - 1], at, blank)
  }

  /** A cell holds the slab of the last write that addresses it. */
  lemma {:induction false} PaintedByLastWriter(writes: seq<Write>, k: nat, blank: seq<real>)
    requires k < |writes|
    requires forall j :: k < j < |writes| ==> writes[j].at != writes[k].at
    ensures Painted(writes, writes[k].at, blank) == writes[k].slab
  {
    if k < |writes| - 1 {
      PaintedByLastWriter(writes[..|writes| - 1], k, blank);
    }
  }

  /** A cell no write addresses keeps `blank`. */
  lemma {:induction false} PaintedUntouched(writes: seq<Write>, at: Address, blank: seq<real>)
    requires forall j :: 0 <= j < |writes| ==> writes[j].at != at
    ensures Painted(writes, at, blank) == blank
  {
    if writes != [] {
      PaintedUntouched(writes[..|writes| - 1], at, blank);
    }
  }

  /**
   * `attrs = sample.attrs.copy(); attrs.update(entry)`: every key of either
   * map, with the registry's value winning.
   */
  predicate UpdatedAttrs(merged: Attrs, base: Attrs, update: Attrs)
  {
    && merged.Keys == base.Keys + update.Keys
    && (forall key :: key in update ==> merged[key] == update[key])
    && (forall key :: key in base && key !in update ==> merged[key] == base[key])
  }

  /** The attributes a coordinate ends with: the registry's wholesale, else the sample's, else none. */
  function CoordAttrsFor(name: string, sampleCoordAttrs: map<string, Attrs>, entry: map<string, Attrs>): Attrs
  {
    if name in entry then entry[name]
    else if name in sampleCoordAttrs then sampleCoordAttrs[name]
    else map[]
  }

  /** The values of a cube by field position, `values[t][g][s][y]`, each a slab over the remaining axes. */
  type Grid = seq<seq<seq<seq<seq<real>>>>>

  /** `da.to_dataset()`: what is written to a store, as a value. */
  datatype Dataset = Dataset(name: string, coords: seq<Coord>, attrs: Attrs, coordAttrs: map<string, Attrs>, values: Grid)

  /** The address lies on the four field axes. */
  predicate OnGrid(at: Address, coords: seq<Coord>)
    requires |coords| >= 4
  {
    at.t < |coords[0].values| && at.g < |coords[1].values| && at.s < |coords[2].values| && at.y < |coords[3].values|
  }

  /** The grid has one position per combination of labels on the four field axes. */
  ghost predicate GridShaped(values: Grid, coords: seq<Coord>)
    requires |coords| >= 4
  {
    && |values| == |coords[0].values|
    && (forall t :: 0 <= t < |values| ==> |values[t]| == |coords[1].values|)
    && (forall t, g :: 0 <= t < |values| && 0 <= g < |values[t]| ==> |values[t][g]| == |coords[2].values|)
    && (forall t, g, s :: 0 <= t < |values| && 0 <= g < |values[t]| && 0 <= s < |values[t][g]| ==>
          |values[t][g][s]| == |coords[3].values|)
  }

  function ValueAt(values: Grid, at: Address): seq<real>
    requires at.t < |values| && at.g < |values[at.t]| && at.s < |values[at.t][at.g]| && at.y < |values[at.t][at.g][at.s]|
  {
    values[at.t][at.g][at.s][at.y]
  }

  /** The `xr.DataArray` being built: its name, axes, attributes and values. */
  class DataCube {
    const name: string
    const coords: seq<Coord>
    var attrs: Attrs
    var coordAttrs: map<string, Attrs>
    /** One cell per position on the four field axes; each holds a slab over the remaining axes. */
    const cells: array4<seq<real>>
    const slabSize: nat

    /** The array's dimensions match the four field axes, and every cell holds a slab over the other axes. */
    ghost predicate WellShaped()
      reads cells
    {
      && |coords| >= 4
      && cells.Length0 == |coords[0].values| && cells.Length1 == |coords[1].values|
      && cells.Length2 == |coords[2].values| && cells.Length3 == |coords[3].values|
      && slabSize == GridSize(coords[4..])
      && (forall i, j, k, l :: 0 <= i < cells.Length0 && 0 <= j < cells.Length1 && 0 <= k < cells.Length2 && 0 <= l < cells.Length3
            ==> |cells[i, j, k, l]| == slabSize)
    }

    ghost predicate Valid()
      reads this, cells
    {
      WellShaped() && coordAttrs.Keys == set n | n in CoordNames(coords)
    }

    /** The shape of the array: the length of every axis, the slab's axes included. */
    function Shape(): (shape: seq<nat>)
      reads this, cells
      requires Valid()
      ensures shape == ShapeOf(coords)
      ensures shape[..4] == [cells.Length0, cells.Length1, cells.Length2, cells.Length3]
    {
      ShapeOf(coords)
    }

    predicate InBounds(at: Address)
    {
      at.t < cells.Length0 && at.g < cells.Length1 && at.s < cells.Length2 && at.y < cells.Length3
    }

    function Cell(at: Address): seq<real>
      reads cells
      requires InBounds(at)
    {
      cells[at.t, at.g, at.s, at.y]
    }

    /** `da.to_dataset()`: a snapshot of the array's name, axes, attributes and values. */
    function ToDataset(): (ds: Dataset)
      reads this, cells
      requires Valid()
      ensures ds.name == name && ds.coords == coords && ds.attrs == attrs && ds.coordAttrs == coordAttrs
      ensures GridShaped(ds.values, coords)
      ensures forall at :: OnGrid(at, coords) ==> InBounds(at) && ValueAt(ds.values, at) == Cell(at)
    {
      Dataset(name, coords, attrs, coordAttrs,
        seq(cells.Length0, t requires 0 <= t < cells.Length0 reads cells =>
          seq(cells.Length1, g requires 0 <= g < cells.Length1 reads cells =>
            seq(cells.Length2, s requires 0 <= s < cells.Length2 reads cells =>
              seq(cells.Length3, y requires 0 <= y < cells.Length3 reads cells => cells[t, g, s, y])))))
    }

    /** `xr.DataArray(np.zeros(shape), coords=coords, attrs=attrs, name=name)`: every cell zero, no coordinate attributes. */
    constructor (name: string, coords: seq<Coord>, attrs: Attrs)
      requires |coords| >= 4
      ensures Valid() && fresh(cells)
      ensures this.name == name && this.coords == coords && this.attrs == attrs
      ensures forall n :: n in coordAttrs ==> coordAttrs[n] == map[]
      ensures forall at :: InBounds(at) ==> Cell(at) == ZeroSlab(slabSize)
    {
      this.name := name;
      this.coords := coords;
      this.attrs := attrs;
      var names := CoordNames(coords);
      this.coordAttrs := map n | n in names :: map[];
      var size := GridSize(coords[4..]);
      this.slabSize := size;
      this.cells := new seq<real>[|coords[0].values|, |coords[1].values|, |coords[2].values|, |coords[3].values|]
        ((i, j, k, l) => ZeroSlab(size));
    }

    /** `da[name].attrs = a`: replaces one coordinate's attributes. */
    method SetCoordAttrs(n: string, a: Attrs)
      requires Valid() && n in coordAttrs
      modifies this
      ensures Valid()
      ensures coordAttrs == old(coordAttrs)[n := a] && attrs == old(attrs)
    {
      coordAttrs := coordAttrs[n := a];
    }

    /** `da.loc[index] = source`: the addressed cell takes the slab, and no other cell changes. */
    method SetLoc(at: Address, slab: seq<real>)
      requires Valid() && InBounds(at) && |slab| == slabSize
      modifies cells
      ensures Valid()
      ensures Cell(at) == slab
      ensures forall other :: InBounds(other) && other != at ==> Cell(other) == old(Cell(other))
    {
      cells[at.t, at.g, at.s, at.y] := slab;
    }
  }

  /**
   * `_create_empty_array`: a zero-filled cube named after the indicator over
   * `coords`, whose attributes are the sample's updated by the registry's
   * entry for the indicator, and whose coordinates carry the registry's
   * attributes where it has them and the sample coordinate's otherwise.
   */
  method CreateEmptyArray(coords: seq<Coord>, sampleAttrs: Attrs, sampleCoordAttrs: map<string, Attrs>,
                          indicator: string, registry: Registry) returns (da: DataCube)
    requires |coords| >= 4
    requires indicator in registry && indicator in registry[indicator]
    ensures fresh(da) && fresh(da.cells) && da.Valid()
    ensures da.name == indicator && da.coords == coords
    ensures UpdatedAttrs(da.attrs, sampleAttrs, registry[indicator][indicator])
    ensures forall n :: n in da.coordAttrs ==> da.coordAttrs[n] == CoordAttrsFor(n, sampleCoordAttrs, registry[indicator])
    ensures forall at :: da.InBounds(at) ==> da.Cell(at) == ZeroSlab(da.slabSize)
  {
    var entry := registry[indicator];
    var attrs := sampleAttrs + entry[indicator];
    da := new DataCube(indicator, coords, attrs);
    SetAllCoordAttrs(da, sampleCoordAttrs, entry);
  }

  /**
   * `for name in da.coords: ...`: every coordinate of the cube takes the
   * attributes the registry entry or the sample gives it.
   */
  method SetAllCoordAttrs(da: DataCube, sampleCoordAttrs: map<string, Attrs>, entry: map<string, Attrs>)
    requires da.Valid()
    requires forall n :: n in da.coordAttrs ==> da.coordAttrs[n] == map[]
    modifies da
    ensures da.Valid()
    ensures da.coordAttrs.Keys == old(da.coordAttrs.Keys) && da.attrs == old(da.attrs)
    ensures forall n :: n in da.coordAttrs ==> da.coordAttrs[n] == CoordAttrsFor(n, sampleCoordAttrs, entry)
  {
    ghost var names := CoordNames(da.coords);
    for k := 0 to |da.coords|
      invariant da.Valid()
      invariant da.coordAttrs.Keys == old(da.coordAttrs.Keys) && da.attrs == old(da.attrs)
      invariant AttrsSettled(da.coordAttrs, names[..k], sampleCoordAttrs, entry)
    {
      var n := da.coords[k].name;
      SettleOne(da.coordAttrs, names[..k], n, sampleCoordAttrs, entry);
      CopyCoordAttrs(da, n, sampleCoordAttrs, entry);
      assert names[..k + 1] == names[..k] + [n];
    }
    assert names[..|da.coords|] == names;
  }

  /** The coordinates named in `done` have their final attributes; the others have none yet. */
  ghost predicate AttrsSettled(ca: map<string, Attrs>, done: seq<string>, sampleCoordAttrs: map<string, Attrs>, entry: map<string, Attrs>)
  {
    forall n :: n in ca ==> ca[n] == (if n in done then CoordAttrsFor(n, sampleCoordAttrs, entry) else map[])
  }

  /** Settling one more coordinate keeps the others as they were. */
  lemma SettleOne(ca: map<string, Attrs>, done: seq<string>, n: string, sampleCoordAttrs: map<string, Attrs>, entry: map<string, Attrs>)
    requires n in ca && AttrsSettled(ca, done, sampleCoordAttrs, entry)
    ensures ca[n] == map[] || ca[n] == CoordAttrsFor(n, sampleCoordAttrs, entry)
    ensures AttrsSettled(ca[n := CoordAttrsFor(n, sampleCoordAttrs, entry)], done + [n], sampleCoordAttrs, entry)
  {
  }

  /**
   * The body of the coordinate loop for one name: the sample coordinate's
   * attributes when the sample has that coordinate, then the registry's when
   * it has an entry, the later assignment winning.
   */
  method CopyCoordAttrs(da: DataCube, n: string, sampleCoordAttrs: map<string, Attrs>, entry: map<string, Attrs>)
    requires da.Valid() && n in da.coordAttrs
    requires da.coordAttrs[n] == map[] || da.coordAttrs[n] == CoordAttrsFor(n, sampleCoordAttrs, entry)
    modifies da
    ensures da.Valid()
    ensures da.coordAttrs == old(da.coordAttrs)[n := CoordAttrsFor(n, sampleCoordAttrs, entry)]
    ensures da.attrs == old(da.attrs)
  {
    if n in sampleCoordAttrs {
      da.SetCoordAttrs(n, sampleCoordAttrs[n]);
    }
    if n in entry {
      da.SetCoordAttrs(n, entry[n]);
    }
  }
}
