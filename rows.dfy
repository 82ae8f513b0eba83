/** Values shared by every stage of the ABYO (Algal Bloom Yearly Occurrences) pipeline:
    the raw per-pixel samples returned by the imagery service, the rows of the
    per-pixel, per-year table, and the class-level constants of `Abyo`. */
module Rows {

  datatype Option<+T> = None | Some(value: T)

  /** The reserved "no data" marker of the imagery bands (`dummy`). */
  const Dummy: int := -99999

  /** `abs(dummy)`: the value the masked bands hold where there is no data. */
  const Sentinel: real := (-Dummy) as real

  /** A geometry whose estimated pixel count exceeds this is split into tiles (`max_tile_pixels`). */
  const MaxTilePixels: nat := 10000000

  /** The version tag that starts every cache key (`hash_string`). */
  const HashString: string := "abyo-20200629"

  /** The attributes extracted per pixel, in band order (`attributes`). */
  datatype Attribute = Cloud | Occurrence

  const Attributes: seq<Attribute> := [Cloud, Occurrence]

  /** The column names of a table (`df_columns`): pixel, index, year, lat, lon, then the attributes. */
  const DfColumns: seq<string> := ["pixel", "index", "year", "lat", "lon", "cloud", "occurrence"]

  /** One row of the array that pixel extraction returns: two coordinate columns followed by
      one column per attribute. The columns are named by position, as the table does. */
  datatype Sample = Sample(lat: real, lon: real, cloud: real, occurrence: real)

  /** One row of a table, with the columns of `DfColumns` in that order. */
  datatype Row = Row(pixel: int, index: int, year: int, lat: real, lon: real, cloud: real, occurrence: real)

  /** A row as the table stores it: one floating value per column of `DfColumns`, in that order. */
  function Columns(r: Row): (v: seq<real>)
    ensures |v| == |DfColumns|
    ensures v[2] == r.year as real && v[5] == r.cloud && v[6] == r.occurrence
  {
    [r.pixel as real, r.index as real, r.year as real, r.lat, r.lon, r.cloud, r.occurrence]
  }

  /** Selecting the `DfColumns` columns loses nothing: two rows with the same stored values are
      the same row. */
  lemma ColumnsLossless(r: Row, q: Row)
    ensures Columns(r) == Columns(q) <==> r == q
  {
    if Columns(r) == Columns(q) {
      assert Columns(r)[0] == Columns(q)[0] && Columns(r)[1] == Columns(q)[1];
      assert Columns(r)[3] == Columns(q)[3] && Columns(r)[4] == Columns(q)[4];
    }
  }

  /** The value of one attribute column of a row. */
  function AttributeOf(r: Row, a: Attribute): (v: real)
    ensures a == Cloud ==> v == r.cloud
    ensures a == Occurrence ==> v == r.occurrence
  {
    match a
    case Cloud => r.cloud
    case Occurrence => r.occurrence
  }

  /** The sample columns of a row (everything but pixel, index and year). */
  function ToSample(r: Row): Sample
  {
    Sample(r.lat, r.lon, r.cloud, r.occurrence)
  }

  function Samples(t: seq<Row>): (s: seq<Sample>)
    ensures |s| == |t|
    ensures forall i :: 0 <= i < |t| ==> s[i] == ToSample(t[i])
  {
    seq(|t|, i requires 0 <= i < |t| => ToSample(t[i]))
  }

  /** The concatenation of a list of tables, in list order (`pd.concat`). */
  function Flatten<T>(ts: seq<seq<T>>): (r: seq<T>)
  {
    if |ts| == 0 then [] else Flatten(ts[..|ts| - 1]) + ts[|ts| - 1]
  }

  /** The total length of a list of sequences. */
  function SumLengths<T>(ts: seq<seq<T>>): nat
  {
    if |ts| == 0 then 0 else SumLengths(ts[..|ts| - 1]) + |ts[|ts| - 1]|
  }

  lemma {:induction false} FlattenLength<T>(ts: seq<seq<T>>)
    ensures |Flatten(ts)| == SumLengths(ts)
  {
    if |ts| > 0 {
      FlattenLength(ts[..|ts| - 1]);
    }
  }

  /** Flattening a list whose first element is t. */
  lemma {:induction false} FlattenCons<T>(t: seq<T>, ts: seq<seq<T>>)
    ensures Flatten([t] + ts) == t + Flatten(ts)
    decreases |ts|
  {
    if |ts| == 0 {
      assert ([t] + ts)[..0] == [];
    } else {
      var last := |ts| - 1;
      assert ([t] + ts)[..|ts|] == [t] + ts[..last];
      FlattenCons(t, ts[..last]);
    }
  }
}
