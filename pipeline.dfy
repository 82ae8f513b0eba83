/** The specification of the two stateful operations of `Abyo`: the per-year extraction
    (`extract_image_pixels`) and the series driver (`process_timeseries_data`), as functions from
    the run configuration and the cache directory before the call to the result and the cache
    directory after it. The methods of class `Abyo` are proved equal to these functions. */
module Pipeline {
  import opened Rows
  import opened Tiling
  import opened CacheKeys
  import opened Tables

  /** What a cache file holds, as `joblib.load` would return it: `None`, a raw pixel array, a
      table, or bytes that cannot be read back. */
  datatype Blob = NoneValue | PixelArray(samples: seq<Sample>) | Frame(rows: seq<Row>) | Unreadable

  /** The cache directory: file path to content. */
  type Files = map<string, Blob>

  /** `joblib.load`: `None` stands for the exception raised on a missing or unreadable file. */
  function Load(files: Files, path: string): (b: Option<Blob>)
    ensures b.Some? <==> path in files && files[path] != Unreadable
    ensures b.Some? ==> b.value == files[path]
  {
    if path in files && files[path] != Unreadable then Some(files[path]) else None
  }

  /** `len()` of what was loaded. */
  function BlobRows(b: Blob): nat
  {
    match b
    case PixelArray(s) => |s|
    case Frame(t) => |t|
    case _ => 0
  }

  /** The run configuration: the constructor's arguments and what it derived from the imagery
      service. The remote collaborators are functions: the yearly-composite lookup
      (`extract_image_from_collection_yearly`: `None` when it raises, otherwise whether a
      composite exists for the year) and the per-tile pixel extraction (`None` when it raises). */
  datatype Config = Config(
    latLon: string,
    sensor: string,
    cachePath: string,
    forceCache: bool,
    morphOp: Option<string>,
    morphOpIters: int,
    yearsList: seq<int>,
    splittedGeometry: seq<Geometry>,
    hash: string -> string,
    yearlyImage: int -> Option<bool>,
    extractTile: (int, Geometry) -> Option<seq<Sample>>)

  function Params(cfg: Config): KeyParams
  {
    KeyParams(cfg.latLon, cfg.sensor, cfg.morphOp, cfg.morphOpIters)
  }

  function CacheFilesOf(cfg: Config, year: int): CacheFiles
    requires |cfg.yearsList| > 0
  {
    GetCacheFiles(cfg.cachePath, cfg.hash, Params(cfg), cfg.yearsList, year)
  }

  /** `cache_files[0]`: the per-year image file. */
  function ImageFile(cfg: Config, year: int): string
    requires |cfg.yearsList| > 0
  {
    CacheFilesOf(cfg, year).image
  }

  /** `cache_files[1]`: the whole-run series file. */
  function SeriesFile(cfg: Config, year: int): string
    requires |cfg.yearsList| > 0
  {
    CacheFilesOf(cfg, year).series
  }

  /** The per-tile loop: the tiles' arrays concatenated in tile order, or `None` as soon as one
      tile fails. */
  function ExtractTiles(extractTile: (int, Geometry) -> Option<seq<Sample>>, year: int, tiles: seq<Geometry>): (r: Option<seq<Sample>>)
    ensures r.Some? ==> forall i :: 0 <= i < |tiles| ==> extractTile(year, tiles[i]).Some?
  {
    if |tiles| == 0 then Some([])
    else
      match ExtractTiles(extractTile, year, tiles[..|tiles| - 1])
      case None => None
      case Some(acc) =>
        match extractTile(year, tiles[|tiles| - 1])
        case None => None
        case Some(part) =>
          assert forall i :: 0 <= i < |tiles| - 1 ==> tiles[..|tiles| - 1][i] == tiles[i];
          Some(acc + part)
  }

  /** A fresh extraction: it fails when the yearly-composite lookup raises or finds no composite
      (clipping `None` raises), or when a tile fails. */
  function Extract(cfg: Config, year: int): (r: Option<seq<Sample>>)
    ensures r.Some? ==> cfg.yearlyImage(year) == Some(true)
    ensures r.Some? ==> forall i :: 0 <= i < |cfg.splittedGeometry| ==> cfg.extractTile(year, cfg.splittedGeometry[i]).Some?
  {
    if cfg.yearlyImage(year) == Some(true) then ExtractTiles(cfg.extractTile, year, cfg.splittedGeometry) else None
  }

  /** Building the table from what was loaded or extracted. It raises (`None`) unless it got a
      non-empty pixel array: on an empty array the year column is one-dimensional and cannot be
      joined to the (0, 4) array, and a table has the wrong number of columns. */
  function Build(b: Blob, year: int): (r: Option<seq<Row>>)
    ensures r.Some? <==> b.PixelArray? && |b.samples| > 0
    ensures r.Some? ==> |r.value| == |b.samples| && forall i :: 0 <= i < |r.value| ==> r.value[i].year == year
  {
    match b
    case PixelArray(s) =>
      if |s| > 0 then
        YearTableSpec(s, year);
        Some(YearTable(s, year))
      else None
    case _ => None
  }

  datatype YearResult = YearResult(table: seq<Row>, files: Files)

  /** `extract_image_pixels(year)`: check the image file unless `force_cache` is set; an empty
      cached array (or table) is "no data"; a cached `None` or a failed load is a miss; on a miss
      extract tile by tile and store the array; build the table; if anything failed, remove the
      image file and return an empty table. No file but the image file is touched. */
  function YearStep(cfg: Config, files: Files, year: int): (r: YearResult)
    requires |cfg.yearsList| > 0
    ensures forall i :: 0 <= i < |r.table| ==> r.table[i].year == year
    ensures |r.table| > 0 ==>
      ImageFile(cfg, year) in r.files && r.files[ImageFile(cfg, year)].PixelArray? &&
      r.table == YearTable(r.files[ImageFile(cfg, year)].samples, year)
  {
    var key := ImageFile(cfg, year);
    var cached := if cfg.forceCache then None else Load(files, key);
    if cached.Some? && cached.value != NoneValue && BlobRows(cached.value) == 0 then
      YearResult([], files)
    else
      var (attributes, files1) :=
        if cached.Some? && cached.value != NoneValue then (Some(cached.value), files)
        else
          match Extract(cfg, year)
          case None => (None, files)
          case Some(s) => (Some(PixelArray(s)), files[key := PixelArray(s)]);
      var built := if attributes.Some? then Build(attributes.value, year) else None;
      if built.Some? then YearResult(built.value, files1) else YearResult([], files1 - {key})
  }

  /** The year loop of `process_timeseries_data`: merge each non-empty yearly table into the
      accumulated series, in `years_list` order. */
  function YearLoop(cfg: Config, files: Files, years: seq<int>, acc: seq<Row>): (r: (seq<Row>, Files))
    requires |cfg.yearsList| > 0
    ensures |years| == 0 ==> r == (acc, files)
    ensures |r.0| >= |acc|
    decreases |years|
  {
    if |years| == 0 then (acc, files)
    else
      var s := YearStep(cfg, files, years[0]);
      var acc' := if |s.table| > 0 then Merge([acc, s.table]) else acc;
      MergeSpec([acc, s.table]);
      FlattenLength([acc, s.table]);
      assert [acc, s.table][..1] == [acc];
      assert [acc][..0] == [];
      YearLoop(cfg, s.files, years[1..], acc')
  }

  /** The position of the first year whose composite lookup raises, `|years|` when none does. */
  function FirstLookupFailure(cfg: Config, years: seq<int>): (k: nat)
    ensures k <= |years|
    ensures forall i :: 0 <= i < k ==> cfg.yearlyImage(years[i]).Some?
    ensures k < |years| ==> cfg.yearlyImage(years[k]).None?
    decreases |years|
  {
    if |years| == 0 || cfg.yearlyImage(years[0]).None? then 0 else 1 + FirstLookupFailure(cfg, years[1..])
  }

  /** How `process_timeseries_data` ends: with the scrubbed series stored in the object, or with
      an exception (the scrub cannot index a loaded `None` or a raw array). */
  datatype Outcome = Done(series: seq<Row>) | Raised

  datatype SeriesResult = SeriesResult(outcome: Outcome, files: Files)

  /** `process_timeseries_data(force_cache)`: on a series-cache hit (neither flag set) the cached
      table is scrubbed and nothing else happens; otherwise the years are processed, `index` is
      renumbered, the series stored (when a cache path is set) and then scrubbed. The yearly
      composite is looked up before each year, and no `try` guards that lookup: if it raises, the run
      ends there, with the earlier years' image files written and no series stored. `nowYear` is the
      current year the source passes to `get_cache_files`; only the series file is used. */
  function ProcessSpec(cfg: Config, files: Files, forceArg: bool, nowYear: int): (r: SeriesResult)
    requires |cfg.yearsList| > 0
    ensures (cfg.forceCache || forceArg) ==>
      (r.outcome.Done? <==> FirstLookupFailure(cfg, cfg.yearsList) == |cfg.yearsList|)
  {
    var seriesKey := SeriesFile(cfg, nowYear);
    var cached := if cfg.forceCache || forceArg then None else Load(files, seriesKey);
    if cached.Some? then
      match cached.value
      case Frame(t) => SeriesResult(Done(Scrub(t)), files)
      case _ => SeriesResult(Raised, files)
    else
      var k := FirstLookupFailure(cfg, cfg.yearsList);
      if k < |cfg.yearsList| then
        SeriesResult(Raised, YearLoop(cfg, files, cfg.yearsList[..k], []).1)
      else
        var (merged, files1) := YearLoop(cfg, files, cfg.yearsList, []);
        var stored := SetIndex(merged);
        var files2 := if cfg.cachePath != "" then files1[seriesKey := Frame(stored)] else files1;
        SeriesResult(Done(Scrub(stored)), files2)
  }
}
