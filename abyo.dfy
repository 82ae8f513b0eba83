/** The `Abyo` object of modules/abyo.py: its configuration, set once by the constructor, the
    cache directory it reads and writes, and the `df_timeseries` field that
    `process_timeseries_data` sets. Each method is proved equal to its specification in module
    Pipeline. */
module Abyo {
  import opened Rows
  import opened Tiling
  import opened CacheKeys
  import opened Tables
  import opened Pipeline

  /** The cache directory on disk, as `joblib.load`, `joblib.dump`, `os.path.exists` and
      `os.remove` see it. */
  class Disk {
    var files: Files

    constructor (initial: Files)
      ensures files == initial
    {
      files := initial;
    }

    /** `joblib.load(path)`; `None` when it raises. */
    method LoadFile(path: string) returns (b: Option<Blob>)
      ensures b == Load(files, path)
    {
      b := Load(files, path);
    }

    /** `joblib.dump(b, path)`: the file is replaced wholesale. */
    method Dump(path: string, b: Blob)
      modifies this
      ensures files == old(files)[path := b]
    {
      files := files[path := b];
    }

    /** `if os.path.exists(path): os.remove(path)`. */
    method RemoveIfExists(path: string)
      modifies this
      ensures files == old(files) - {path}
    {
      if path in files {
        files := files - {path};
      }
    }
  }

  /** `ee.List.sequence(first, last)`: the years from the first image's to the last image's. */
  function YearsBetween(first: int, last: int): (ys: seq<int>)
    requires first <= last
    ensures |ys| == last - first + 1
    ensures forall i :: 0 <= i < |ys| ==> ys[i] == first + i
    ensures ys[0] == first && ys[|ys| - 1] == last
    ensures forall i, j :: 0 <= i < j < |ys| ==> ys[i] < ys[j]
  {
    seq(last - first + 1, i requires 0 <= i <= last - first => first + i)
  }

  class Abyo {
    const cfg: Config
    const disk: Disk
    var dfTimeseries: Option<seq<Row>>

    /** The configuration every method relies on: `years_list` is never empty. */
    predicate Valid()
    {
      |cfg.yearsList| > 0
    }

    /** `__init__` after the imagery service has answered: the first and last year with images,
        the sampled pixel count and corners, and the two collaborators. The geometry is split
        here. */
    constructor (latLon: string, sensor: string, cachePath: string, forceCache: bool,
                 morphOp: Option<string>, morphOpIters: int,
                 firstYear: int, lastYear: int, sampleTotalPixel: nat, sampleLonLat: Corners,
                 hash: string -> string, yearlyImage: int -> Option<bool>,
                 extractTile: (int, Geometry) -> Option<seq<Sample>>, disk: Disk)
      requires firstYear <= lastYear
      ensures Valid() && this.disk == disk && dfTimeseries == None
      ensures cfg.latLon == latLon && cfg.sensor == sensor && cfg.cachePath == cachePath
      ensures cfg.forceCache == forceCache && cfg.morphOp == morphOp && cfg.morphOpIters == morphOpIters
      ensures cfg.yearsList == YearsBetween(firstYear, lastYear)
      ensures cfg.splittedGeometry == Split(sampleTotalPixel, sampleLonLat, latLon)
      ensures cfg.hash == hash && cfg.yearlyImage == yearlyImage && cfg.extractTile == extractTile
    {
      var geometries := SplitGeometry(sampleTotalPixel, sampleLonLat, latLon);
      cfg := Config(latLon, sensor, cachePath, forceCache, morphOp, morphOpIters,
                    YearsBetween(firstYear, lastYear), geometries, hash, yearlyImage, extractTile);
      this.disk := disk;
      dfTimeseries := None;
    }

    /** `extract_image_pixels(image, year)`. The `image` argument is not used by the source (it
        fetches the yearly image again), so it is not a parameter here. */
    method ExtractImagePixels(year: int) returns (table: seq<Row>)
      requires Valid()
      modifies disk
      ensures YearResult(table, disk.files) == YearStep(cfg, old(disk.files), year)
    {
      var key := ImageFile(cfg, year);
      var lonsLatsAttributes: Option<Blob> := None;

      // the cache, unless forced
      var fromCache := false;
      if !cfg.forceCache {
        var loaded := disk.LoadFile(key);
        if loaded.Some? && loaded.value != NoneValue {
          if BlobRows(loaded.value) == 0 {
            return [];
          }
          lonsLatsAttributes := loaded;
          fromCache := true;
        }
      }

      // a miss: extract tile by tile, then store
      if !fromCache && cfg.yearlyImage(year) == Some(true) {
        var extracted := ExtractTilesLoop(year);
        if extracted.Some? {
          disk.Dump(key, PixelArray(extracted.value));
          lonsLatsAttributes := Some(PixelArray(extracted.value));
        }
      }

      // build the table, or clean up
      var built := if lonsLatsAttributes.Some? then Build(lonsLatsAttributes.value, year) else None;
      if built.Some? {
        table := built.value;
      } else {
        disk.RemoveIfExists(key);
        table := [];
      }
    }

    /** The tile loop of `extract_image_pixels`: each tile's array is appended in tile order; the
        first tile that raises ends the extraction. */
    method ExtractTilesLoop(year: int) returns (extracted: Option<seq<Sample>>)
      ensures extracted == ExtractTiles(cfg.extractTile, year, cfg.splittedGeometry)
    {
      var tiles := cfg.splittedGeometry;
      var acc: seq<Sample> := [];
      var i := 0;
      while i < |tiles|
        invariant 0 <= i <= |tiles|
        invariant ExtractTiles(cfg.extractTile, year, tiles[..i]) == Some(acc)
      {
        var part := cfg.extractTile(year, tiles[i]);
        assert tiles[..i + 1][..i] == tiles[..i];
        if part.None? {
          FailurePersists(cfg, year, tiles, i + 1);
          return None;
        }
        acc := acc + part.value;
        i := i + 1;
      }
      assert tiles[..i] == tiles;
      return Some(acc);
    }

    /** `process_timeseries_data(force_cache)`; `raised` tells that it ended with an exception.
        `nowYear` is the current year, read from the clock by the source. */
    method ProcessTimeseriesData(forceCacheArg: bool, nowYear: int) returns (raised: bool)
      requires Valid()
      modifies this, disk
      ensures var r := ProcessSpec(cfg, old(disk.files), forceCacheArg, nowYear);
        disk.files == r.files && raised == r.outcome.Raised? &&
        dfTimeseries == (if r.outcome.Done? then Some(r.outcome.series) else old(dfTimeseries))
    {
      var dfTimeseries': seq<Row> := [];
      var seriesKey := SeriesFile(cfg, nowYear);

      var loaded: Option<Blob> := None;
      if !(cfg.forceCache || forceCacheArg) {
        loaded := disk.LoadFile(seriesKey);
      }

      if loaded.Some? {
        if !loaded.value.Frame? {
          return true;
        }
        dfTimeseries' := loaded.value.rows;
      } else {
        var aborted;
        dfTimeseries', aborted := ProcessYears();
        if aborted {
          return true;
        }
        dfTimeseries' := SetIndex(dfTimeseries');
        if cfg.cachePath != "" {
          disk.Dump(seriesKey, Frame(dfTimeseries'));
        }
      }

      dfTimeseries' := Scrub(dfTimeseries');
      dfTimeseries := Some(dfTimeseries');
      raised := false;
    }
    /** The year loop of `process_timeseries_data`: each year's composite is looked up (an
        exception there ends the loop, reported by `aborted`), then each year's table is merged
        into the series when it is not empty. */
    method ProcessYears() returns (merged: seq<Row>, aborted: bool)
      requires Valid()
      modifies disk
      ensures var k := FirstLookupFailure(cfg, cfg.yearsList);
        aborted == (k < |cfg.yearsList|) &&
        (aborted ==> disk.files == YearLoop(cfg, old(disk.files), cfg.yearsList[..k], []).1) &&
        (!aborted ==> (merged, disk.files) == YearLoop(cfg, old(disk.files), cfg.yearsList, []))
    {
      merged, aborted := [], false;
      ghost var start := disk.files;
      var years := cfg.yearsList;
      var i := 0;
      while i < |years|
        invariant 0 <= i <= |years|
        invariant i <= FirstLookupFailure(cfg, years)
        invariant (merged, disk.files) == YearLoop(cfg, start, years[..i], [])
      {
        if cfg.yearlyImage(years[i]).None? {
          LookupFailureAt(cfg, years, i);
          aborted := true;
          return;
        }
        FirstLookupFailurePast(cfg, years, i);
        ghost var before := disk.files;
        var yearly := ExtractImagePixels(years[i]);
        YearLoopStep(cfg, start, years, i, merged, before, yearly, disk.files);
        if |yearly| > 0 {
          merged := Merge([merged, yearly]);
        }
        i := i + 1;
      }
      assert years[..i] == years;
    }
  }

  /** The year loop over one more year is the loop followed by that year's step. */
  lemma {:induction false} YearLoopSnoc(cfg: Config, files: Files, years: seq<int>, y: int, acc: seq<Row>)
    requires |cfg.yearsList| > 0
    ensures var p := YearLoop(cfg, files, years, acc);
      var r := YearStep(cfg, p.1, y);
      YearLoop(cfg, files, years + [y], acc) == (if |r.table| > 0 then Merge([p.0, r.table]) else p.0, r.files)
    decreases |years|
  {
    if |years| > 0 {
      var s := YearStep(cfg, files, years[0]);
      var acc' := if |s.table| > 0 then Merge([acc, s.table]) else acc;
      assert (years + [y])[0] == years[0];
      assert (years + [y])[1..] == years[1..] + [y];
      YearLoopSnoc(cfg, s.files, years[1..], y, acc');
    }
  }

  /** One more turn of the year loop extends the loop over the years before i by year i. */
  lemma YearLoopStep(cfg: Config, start: Files, years: seq<int>, i: nat,
                     merged: seq<Row>, files: Files, yearly: seq<Row>, files': Files)
    requires |cfg.yearsList| > 0 && i < |years|
    requires (merged, files) == YearLoop(cfg, start, years[..i], [])
    requires YearResult(yearly, files') == YearStep(cfg, files, years[i])
    ensures (if |yearly| > 0 then Merge([merged, yearly]) else merged, files') == YearLoop(cfg, start, years[..i + 1], [])
  {
    PrefixSnoc(years, i);
    YearLoopSnoc(cfg, start, years[..i], years[i], []);
  }

  /** The prefix up to i + 1 is the prefix up to i followed by element i. */
  lemma PrefixSnoc(years: seq<int>, i: nat)
    requires i < |years|
    ensures years[..i + 1] == years[..i] + [years[i]]
  {
  }

  /** The first failing lookup is at i when the years before i succeed and year i fails. */
  lemma {:induction false} LookupFailureAt(cfg: Config, years: seq<int>, i: nat)
    requires i < |years| && i <= FirstLookupFailure(cfg, years) && cfg.yearlyImage(years[i]).None?
    ensures FirstLookupFailure(cfg, years) == i
  {
  }

  /** A year whose lookup succeeds is not the first failure. */
  lemma FirstLookupFailurePast(cfg: Config, years: seq<int>, i: nat)
    requires i < |years| && i <= FirstLookupFailure(cfg, years) && cfg.yearlyImage(years[i]).Some?
    ensures i + 1 <= FirstLookupFailure(cfg, years)
  {
  }

  /** Once a prefix of the tiles fails, the whole extraction fails. */
  lemma {:induction false} FailurePersists(cfg: Config, year: int, tiles: seq<Geometry>, i: nat)
    requires i <= |tiles|
    requires ExtractTiles(cfg.extractTile, year, tiles[..i]) == None
    ensures ExtractTiles(cfg.extractTile, year, tiles) == None
    decreases |tiles| - i
  {
    if i < |tiles| {
      assert tiles[..i + 1][..i] == tiles[..i];
      FailurePersists(cfg, year, tiles, i + 1);
    } else {
      assert tiles[..i] == tiles;
    }
  }
}
