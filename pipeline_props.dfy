/** Properties of the per-year extraction and of the series driver: what a cache hit, a miss and
    a failure each produce, the shape of every yearly table, what the cache directory looks like
    afterwards, and that the series is the ordered concatenation of the yearly tables. */
module PipelineProperties {
  import opened Rows
  import opened Tiling
  import opened CacheKeys
  import opened Tables
  import opened Pipeline

  /** Every tile of the list extracts without error. */
  predicate AllTilesExtract(cfg: Config, year: int, tiles: seq<Geometry>)
  {
    forall i :: 0 <= i < |tiles| ==> cfg.extractTile(year, tiles[i]).Some?
  }

  /** The arrays the tiles return, in tile order. */
  function TileArrays(cfg: Config, year: int, tiles: seq<Geometry>): (parts: seq<seq<Sample>>)
    requires AllTilesExtract(cfg, year, tiles)
    ensures |parts| == |tiles|
  {
    seq(|tiles|, i requires 0 <= i < |tiles| && cfg.extractTile(year, tiles[i]).Some? =>
      cfg.extractTile(year, tiles[i]).value)
  }

  /** The tile loop succeeds exactly when every tile does, and then returns the tiles' arrays
      concatenated in tile order, as many rows as the tiles hold together. */
  lemma {:induction false} ExtractTilesSpec(cfg: Config, year: int, tiles: seq<Geometry>)
    ensures ExtractTiles(cfg.extractTile, year, tiles).Some? <==> AllTilesExtract(cfg, year, tiles)
    ensures AllTilesExtract(cfg, year, tiles) ==>
      ExtractTiles(cfg.extractTile, year, tiles).value == Flatten(TileArrays(cfg, year, tiles)) &&
      |ExtractTiles(cfg.extractTile, year, tiles).value| == SumLengths(TileArrays(cfg, year, tiles))
  {
    if |tiles| > 0 {
      var n := |tiles| - 1;
      var init := tiles[..n];
      ExtractTilesSpec(cfg, year, init);
      assert forall i :: 0 <= i < n ==> init[i] == tiles[i];
      if AllTilesExtract(cfg, year, tiles) {
        assert AllTilesExtract(cfg, year, init);
        assert TileArrays(cfg, year, tiles)[..n] == TileArrays(cfg, year, init);
        FlattenLength(TileArrays(cfg, year, tiles));
      } else if AllTilesExtract(cfg, year, init) {
        assert cfg.extractTile(year, tiles[n]).None?;
      }
    }
  }

  /** A cache hit on a pixel array: the table is built from it (empty when the array is), the
      cache directory is left alone, and the imagery service is not consulted. */
  lemma YearCacheHit(cfg: Config, files: Files, year: int, s: seq<Sample>,
                     extractTile: (int, Geometry) -> Option<seq<Sample>>, yearlyImage: int -> Option<bool>)
    requires |cfg.yearsList| > 0
    requires !cfg.forceCache && Load(files, ImageFile(cfg, year)) == Some(PixelArray(s))
    ensures YearStep(cfg, files, year) == YearResult(if |s| == 0 then [] else YearTable(s, year), files)
    ensures YearStep(cfg.(extractTile := extractTile, yearlyImage := yearlyImage), files, year)
      == YearStep(cfg, files, year)
  {
    var other := cfg.(extractTile := extractTile, yearlyImage := yearlyImage);
    assert ImageFile(other, year) == ImageFile(cfg, year);
  }

  /** A table found in an image file: an empty one counts as "no data" and is kept; a non-empty
      one cannot be built from and the file is removed. */
  lemma YearCacheHoldsTable(cfg: Config, files: Files, year: int, t: seq<Row>)
    requires |cfg.yearsList| > 0
    requires !cfg.forceCache && Load(files, ImageFile(cfg, year)) == Some(Frame(t))
    ensures YearStep(cfg, files, year) ==
      YearResult([], if |t| == 0 then files else files - {ImageFile(cfg, year)})
  {
  }

  /** A miss: nothing usable in the image file, or `force_cache` set. A failed extraction
      (including a year without a composite) removes the image file and gives an empty table; a
      successful non-empty one is stored and built; an empty one is stored, cannot be built, and
      is removed again. */
  lemma YearMiss(cfg: Config, files: Files, year: int)
    requires |cfg.yearsList| > 0
    requires cfg.forceCache || Load(files, ImageFile(cfg, year)) in {None, Some(NoneValue)}
    ensures Extract(cfg, year).None? ==>
      YearStep(cfg, files, year) == YearResult([], files - {ImageFile(cfg, year)})
    ensures cfg.yearlyImage(year) != Some(true) ==>
      YearStep(cfg, files, year) == YearResult([], files - {ImageFile(cfg, year)})
    ensures Extract(cfg, year).Some? && |Extract(cfg, year).value| > 0 ==>
      YearStep(cfg, files, year) ==
        YearResult(YearTable(Extract(cfg, year).value, year),
                   files[ImageFile(cfg, year) := PixelArray(Extract(cfg, year).value)])
    ensures Extract(cfg, year) == Some([]) ==>
      YearStep(cfg, files, year) == YearResult([], files - {ImageFile(cfg, year)})
  {
    var key := ImageFile(cfg, year);
    if Extract(cfg, year) == Some([]) {
      assert files[key := PixelArray([])] - {key} == files - {key};
    }
  }

  /** A forced step depends on the directory only through the files other than the image file:
      whatever the image file holds, or if it is missing, the step is the same. */
  lemma MissIgnoresImageFile(cfg: Config, files: Files, year: int, b: Option<Blob>)
    requires |cfg.yearsList| > 0
    ensures var key := ImageFile(cfg, year);
      var f := if b.Some? then files[key := b.value] else files - {key};
      YearStep(cfg.(forceCache := true), f, year) == YearStep(cfg.(forceCache := true), files - {key}, year)
  {
    var key := ImageFile(cfg, year);
    var f := if b.Some? then files[key := b.value] else files - {key};
    var gone := files - {key};
    assert f - {key} == gone;
    if Extract(cfg, year).Some? {
      var s := Extract(cfg, year).value;
      assert f[key := PixelArray(s)] == gone[key := PixelArray(s)];
    }
  }

  /** A stored `None`, an unreadable file and a missing file behave alike, and `force_cache`
      behaves as if the image file were missing. */
  lemma YearMissesAgree(cfg: Config, files: Files, year: int)
    requires |cfg.yearsList| > 0
    ensures YearStep(cfg, files[ImageFile(cfg, year) := NoneValue], year)
      == YearStep(cfg, files - {ImageFile(cfg, year)}, year)
    ensures YearStep(cfg, files[ImageFile(cfg, year) := Unreadable], year)
      == YearStep(cfg, files - {ImageFile(cfg, year)}, year)
    ensures cfg.forceCache ==>
      YearStep(cfg, files, year) == YearStep(cfg, files - {ImageFile(cfg, year)}, year)
  {
    var forced := cfg.(forceCache := true);
    var key := ImageFile(cfg, year);
    assert ImageFile(forced, year) == key;
    MissIgnoresImageFile(cfg, files, year, Some(NoneValue));
    MissIgnoresImageFile(cfg, files, year, Some(Unreadable));
    MissIgnoresImageFile(cfg, files, year, None);
    ForcedIsMiss(cfg, files[key := NoneValue], year);
    ForcedIsMiss(cfg, files[key := Unreadable], year);
    ForcedIsMiss(cfg, files - {key}, year);
    if cfg.forceCache {
      assert forced == cfg;
      assert (files - {key}) - {key} == files - {key};
      MissIgnoresImageFile(cfg, files - {key}, year, None);
      ForcedSameAsGone(cfg, files, year);
    }
  }

  /** When the image file yields nothing usable, the step is the forced one. */
  lemma ForcedIsMiss(cfg: Config, files: Files, year: int)
    requires |cfg.yearsList| > 0
    requires Load(files, ImageFile(cfg, year)) in {None, Some(NoneValue)}
    ensures YearStep(cfg, files, year) == YearStep(cfg.(forceCache := true), files, year)
  {
    var forced := cfg.(forceCache := true);
    var key := ImageFile(cfg, year);
    assert ImageFile(forced, year) == key;
    assert Extract(forced, year) == Extract(cfg, year);
    match Extract(cfg, year)
    case None =>
    case Some(s) =>
      assert Build(PixelArray(s), year) == (if |s| > 0 then Some(YearTable(s, year)) else None);
  }

  /** A forced step ignores what the image file holds. */
  lemma ForcedSameAsGone(cfg: Config, files: Files, year: int)
    requires |cfg.yearsList| > 0 && cfg.forceCache
    ensures YearStep(cfg, files, year) == YearStep(cfg, files - {ImageFile(cfg, year)}, year)
  {
    var key := ImageFile(cfg, year);
    var gone := files - {key};
    assert gone - {key} == files - {key};
    if Extract(cfg, year).Some? {
      var s := Extract(cfg, year).value;
      assert files[key := PixelArray(s)] == gone[key := PixelArray(s)];
    }
  }

  /** Every yearly table is stamped with its year and index 0, numbered by `pixel` in (lat, lon)
      order, and is therefore also in (year, pixel) order. */
  lemma YearStepShape(cfg: Config, files: Files, year: int)
    requires |cfg.yearsList| > 0
    ensures var t := YearStep(cfg, files, year).table;
      (forall i :: 0 <= i < |t| ==> t[i].pixel == i && t[i].year == year && t[i].index == 0) &&
      Sorted(ByLatLon, t) && Sorted(ByYearPixel, t)
  {
    var key := ImageFile(cfg, year);
    var cached := if cfg.forceCache then None else Load(files, key);
    var t := YearStep(cfg, files, year).table;
    if t != [] {
      var b: Blob;
      if cached.Some? && cached.value != NoneValue {
        b := cached.value;
      } else {
        b := PixelArray(Extract(cfg, year).value);
      }
      assert Build(b, year) == Some(t);
      YearTableSpec(b.samples, year);
      YearTableByYearPixel(b.samples, year);
    }
  }

  /** The per-year step touches no file but its own image file. */
  lemma YearStepFrame(cfg: Config, files: Files, year: int)
    requires |cfg.yearsList| > 0
    ensures YearStep(cfg, files, year).files - {ImageFile(cfg, year)} == files - {ImageFile(cfg, year)}
  {
    var key := ImageFile(cfg, year);
    assert forall s :: files[key := PixelArray(s)] - {key} == files - {key};
    assert forall m: Files :: m - {key} - {key} == m - {key};
  }

  /** The image file holds a non-empty table, which the step discards. */
  predicate HoldsStaleTable(cfg: Config, files: Files, year: int)
    requires |cfg.yearsList| > 0
  {
    !cfg.forceCache && Load(files, ImageFile(cfg, year)).Some? &&
    Load(files, ImageFile(cfg, year)).value.Frame? && |Load(files, ImageFile(cfg, year)).value.rows| > 0
  }

  /** Running a year again on the directory the first run left gives the same table and directory
      (the second run is a cache hit or repeats the same failure), unless the image file held a
      stale table: then the first run removed it and the second is a plain miss. */
  lemma YearStepRepeat(cfg: Config, files: Files, year: int)
    requires |cfg.yearsList| > 0
    ensures !HoldsStaleTable(cfg, files, year) ==>
      YearStep(cfg, YearStep(cfg, files, year).files, year) == YearStep(cfg, files, year)
    ensures HoldsStaleTable(cfg, files, year) ==>
      YearStep(cfg, files, year) == YearResult([], files - {ImageFile(cfg, year)})
  {
    var key := ImageFile(cfg, year);
    var r := YearStep(cfg, files, year);
    if !HoldsStaleTable(cfg, files, year) && !cfg.forceCache {
      var cached := Load(files, key);
      if !(cached.Some? && cached.value != NoneValue) {
        YearMiss(cfg, files, year);
        if Extract(cfg, year).Some? && |Extract(cfg, year).value| > 0 {
          YearCacheHit(cfg, r.files, year, Extract(cfg, year).value, cfg.extractTile, cfg.yearlyImage);
        } else {
          assert key !in r.files;
          YearMiss(cfg, r.files, year);
          assert r.files - {key} == r.files;
        }
      }
    } else if cfg.forceCache {
      YearMissesAgree(cfg, files, year);
      YearMissesAgree(cfg, r.files, year);
      YearStepFrame(cfg, files, year);
    }
  }

  /** The yearly tables of a run, in year order, each computed on the directory the previous
      year left. */
  function YearTables(cfg: Config, files: Files, years: seq<int>): (ts: seq<seq<Row>>)
    requires |cfg.yearsList| > 0
    ensures |ts| == |years|
    decreases |years|
  {
    if |years| == 0 then []
    else
      var r := YearStep(cfg, files, years[0]);
      [r.table] + YearTables(cfg, r.files, years[1..])
  }

  /** The tables of a list that are not empty, in list order. */
  function NonEmpty(ts: seq<seq<Row>>): (r: seq<seq<Row>>)
    ensures forall i :: 0 <= i < |r| ==> |r[i]| > 0
    ensures |r| <= |ts|
  {
    if |ts| == 0 then []
    else (if |ts[0]| > 0 then [ts[0]] else []) + NonEmpty(ts[1..])
  }

  predicate Increasing(years: seq<int>)
  {
    forall i, j :: 0 <= i < j < |years| ==> years[i] < years[j]
  }

  /** Every row of t is from a year before y. */
  predicate YearsBelow(t: seq<Row>, y: int)
  {
    forall i :: 0 <= i < |t| ==> t[i].year < y
  }

  /** Renumbering twice is renumbering once. */
  lemma SetIndexAppend(a: seq<Row>, b: seq<Row>)
    ensures SetIndex(SetIndex(a) + b) == SetIndex(a + b)
  {
    var l, r := SetIndex(SetIndex(a) + b), SetIndex(a + b);
    forall i | 0 <= i < |r| ensures l[i] == r[i] {
      if i < |a| {
        assert (SetIndex(a) + b)[i] == a[i].(index := i);
      } else {
        assert (SetIndex(a) + b)[i] == b[i - |a|] == (a + b)[i];
      }
    }
  }

  /** Two tables in (year, pixel) order, the second from a later year than all of the first,
      concatenate into a table in that order. */
  lemma SortedConcat(a: seq<Row>, b: seq<Row>, y: int)
    requires Sorted(ByYearPixel, a) && Sorted(ByYearPixel, b) && YearsBelow(a, y)
    requires forall i :: 0 <= i < |b| ==> b[i].year == y
    ensures Sorted(ByYearPixel, a + b)
  {
    var c := a + b;
    forall i, j | 0 <= i < j < |c| ensures Le(ByYearPixel, c[i], c[j]) {
      if j < |a| {
        assert Le(ByYearPixel, a[i], a[j]);
      } else if i >= |a| {
        assert Le(ByYearPixel, b[i - |a|], b[j - |a|]);
      } else {
        assert c[i].year < y == c[j].year;
      }
    }
  }

  /** Merging a non-empty yearly table of year y into a numbered, ordered series of earlier
      years appends it and renumbers; the result is again numbered, ordered and earlier than
      any later year. */
  lemma MergeAppends(acc: seq<Row>, t: seq<Row>, y: int)
    requires Sorted(ByYearPixel, acc) && SetIndex(acc) == acc && YearsBelow(acc, y)
    requires Sorted(ByYearPixel, t) && forall i :: 0 <= i < |t| ==> t[i].year == y
    ensures Merge([acc, t]) == SetIndex(acc + t)
    ensures Sorted(ByYearPixel, SetIndex(acc + t)) && SetIndex(SetIndex(acc + t)) == SetIndex(acc + t)
    ensures forall z :: y < z ==> YearsBelow(SetIndex(acc + t), z)
  {
    SortedConcat(acc, t, y);
    assert Flatten([acc, t]) == acc + t by {
      FlattenCons(acc, [t]);
      FlattenCons(t, []);
    }
    MergeOfOrdered([acc, t]);
    SetIndexSorted(ByYearPixel, acc + t);
    SetIndexAppend(acc + t, []);
    assert acc + t + [] == acc + t;
    assert SetIndex(acc + t) + [] == SetIndex(acc + t);
  }

  /** Appending a non-empty table and then the rest is appending the non-empty tables of the
      whole list. */
  lemma AppendStep(acc: seq<Row>, t: seq<Row>, rest: seq<seq<Row>>)
    ensures |t| > 0 ==>
      SetIndex(SetIndex(acc + t) + Flatten(NonEmpty(rest))) == SetIndex(acc + Flatten(NonEmpty([t] + rest)))
    ensures |t| == 0 ==> NonEmpty([t] + rest) == NonEmpty(rest)
  {
    assert ([t] + rest)[1..] == rest;
    if |t| > 0 {
      var tail := Flatten(NonEmpty(rest));
      SetIndexAppend(acc + t, tail);
      assert NonEmpty([t] + rest) == [t] + NonEmpty(rest);
      FlattenCons(t, NonEmpty(rest));
      assert acc + t + tail == acc + (t + tail);
    }
  }

  /** The year loop started on an accumulated series that is numbered, ordered and from earlier
      years than the ones still to come ends with that series followed by the non-empty yearly
      tables, in year order, renumbered. */
  lemma {:induction false} YearLoopConcatenates(cfg: Config, files: Files, years: seq<int>, acc: seq<Row>)
    requires |cfg.yearsList| > 0
    requires Increasing(years)
    requires Sorted(ByYearPixel, acc) && SetIndex(acc) == acc
    requires |years| > 0 ==> YearsBelow(acc, years[0])
    ensures YearLoop(cfg, files, years, acc).0 == SetIndex(acc + Flatten(NonEmpty(YearTables(cfg, files, years))))
    decreases |years|
  {
    if |years| == 0 {
      assert acc + Flatten(NonEmpty([])) == acc;
    } else {
      var r := YearStep(cfg, files, years[0]);
      var t := r.table;
      var rest := YearTables(cfg, r.files, years[1..]);
      assert YearTables(cfg, files, years) == [t] + rest;
      assert Increasing(years[1..]);
      assert |years| > 1 ==> years[0] < years[1];
      AppendStep(acc, t, rest);
      if |t| > 0 {
        YearStepShape(cfg, files, years[0]);
        MergeAppends(acc, t, years[0]);
        YearLoopConcatenates(cfg, r.files, years[1..], SetIndex(acc + t));
      } else {
        YearLoopConcatenates(cfg, r.files, years[1..], acc);
      }
    }
  }

  /** The series: the non-empty yearly tables, one after the other in year order, with `index`
      numbering the rows of the whole series. */
  function Series(cfg: Config, files: Files): seq<Row>
    requires |cfg.yearsList| > 0
  {
    SetIndex(Flatten(NonEmpty(YearTables(cfg, files, cfg.yearsList))))
  }

  /** Every year's composite lookup answers without raising. */
  predicate LookupsSucceed(cfg: Config)
  {
    forall i :: 0 <= i < |cfg.yearsList| ==> cfg.yearlyImage(cfg.yearsList[i]).Some?
  }

  /** With the years in increasing order (as `ee.List.sequence` gives them) and every lookup
      answering, merging year by year is plain concatenation: the series stored is `Series`, and
      the outcome is its scrub. */
  lemma SeriesIsOrderedConcatenation(cfg: Config, files: Files, forceArg: bool, nowYear: int)
    requires |cfg.yearsList| > 0 && Increasing(cfg.yearsList)
    requires cfg.forceCache || forceArg || Load(files, SeriesFile(cfg, nowYear)).None?
    ensures LookupsSucceed(cfg) ==>
      ProcessSpec(cfg, files, forceArg, nowYear).outcome == Done(Scrub(Series(cfg, files)))
    ensures LookupsSucceed(cfg) && cfg.cachePath != "" ==>
      ProcessSpec(cfg, files, forceArg, nowYear).files[SeriesFile(cfg, nowYear)] == Frame(Series(cfg, files))
  {
    if LookupsSucceed(cfg) {
      SeriesMiss(cfg, files, forceArg, nowYear);
      var flat := Flatten(NonEmpty(YearTables(cfg, files, cfg.yearsList)));
      YearLoopConcatenates(cfg, files, cfg.yearsList, []);
      assert [] + flat == flat;
      SetIndexAppend(flat, []);
      assert flat + [] == flat;
      assert SetIndex(YearLoop(cfg, files, cfg.yearsList, []).0) == Series(cfg, files);
    }
  }

  /** A series-cache hit (neither flag set, the series file holds a table): the outcome is that
      table scrubbed, the directory is unchanged and the imagery service is not consulted. */
  lemma SeriesCacheHit(cfg: Config, files: Files, forceArg: bool, nowYear: int, t: seq<Row>,
                       extractTile: (int, Geometry) -> Option<seq<Sample>>, yearlyImage: int -> Option<bool>)
    requires |cfg.yearsList| > 0
    requires !cfg.forceCache && !forceArg && Load(files, SeriesFile(cfg, nowYear)) == Some(Frame(t))
    ensures ProcessSpec(cfg, files, forceArg, nowYear) == SeriesResult(Done(Scrub(t)), files)
    ensures ProcessSpec(cfg.(extractTile := extractTile, yearlyImage := yearlyImage), files, forceArg, nowYear)
      == ProcessSpec(cfg, files, forceArg, nowYear)
  {
    var other := cfg.(extractTile := extractTile, yearlyImage := yearlyImage);
    assert SeriesFile(other, nowYear) == SeriesFile(cfg, nowYear);
  }

  /** A series file that loads but holds no table (a stored `None` or a raw array) makes the scrub
      raise; nothing has been written. */
  lemma SeriesCacheRaises(cfg: Config, files: Files, forceArg: bool, nowYear: int)
    requires |cfg.yearsList| > 0
    requires !cfg.forceCache && !forceArg
    requires Load(files, SeriesFile(cfg, nowYear)).Some? && !Load(files, SeriesFile(cfg, nowYear)).value.Frame?
    ensures ProcessSpec(cfg, files, forceArg, nowYear) == SeriesResult(Raised, files)
  {
  }

  /** A run that does not hit the series cache processes the years in order. If some year's
      composite lookup raises, the run ends there: the earlier years' image files are written, no
      series is stored and nothing is set on the object. Otherwise the run ends normally: it
      stores the merged series with `index` renumbered 0..n-1 (when a cache path is set) and its
      outcome is that series scrubbed. */
  lemma SeriesMiss(cfg: Config, files: Files, forceArg: bool, nowYear: int)
    requires |cfg.yearsList| > 0
    requires cfg.forceCache || forceArg || Load(files, SeriesFile(cfg, nowYear)).None?
    ensures var k := FirstLookupFailure(cfg, cfg.yearsList);
      k < |cfg.yearsList| ==>
        ProcessSpec(cfg, files, forceArg, nowYear) == SeriesResult(Raised, YearLoop(cfg, files, cfg.yearsList[..k], []).1)
    ensures LookupsSucceed(cfg) <==> FirstLookupFailure(cfg, cfg.yearsList) == |cfg.yearsList|
    ensures LookupsSucceed(cfg) ==>
      var loop := YearLoop(cfg, files, cfg.yearsList, []);
      var stored := SetIndex(loop.0);
      var r := ProcessSpec(cfg, files, forceArg, nowYear);
      (forall i :: 0 <= i < |stored| ==> stored[i].index == i) &&
      r.outcome == Done(Scrub(stored)) &&
      r.files == (if cfg.cachePath != "" then loop.1[SeriesFile(cfg, nowYear) := Frame(stored)] else loop.1)
  {
    var k := FirstLookupFailure(cfg, cfg.yearsList);
    var cached := if cfg.forceCache || forceArg then None else Load(files, SeriesFile(cfg, nowYear));
    assert cached.None?;
    if k == |cfg.yearsList| {
      var loop := YearLoop(cfg, files, cfg.yearsList, []);
      assert ProcessSpec(cfg, files, forceArg, nowYear).outcome == Done(Scrub(SetIndex(loop.0)));
    }
  }

  /** Whatever the path, a series that `process_timeseries_data` stores in the object holds no
      sentinel in either attribute, so scrubbing it again changes nothing. */
  lemma SeriesClean(cfg: Config, files: Files, forceArg: bool, nowYear: int)
    requires |cfg.yearsList| > 0
    ensures var o := ProcessSpec(cfg, files, forceArg, nowYear).outcome;
      o.Done? ==> NoSentinel(o.series) && Scrub(o.series) == o.series
  {
    var o := ProcessSpec(cfg, files, forceArg, nowYear).outcome;
    if o.Done? {
      var raw :| o.series == Scrub(raw);
      ScrubClean(raw);
      ScrubIdempotent(raw);
    }
  }

  /** The `force_cache` argument only skips the series lookup: when there is no series file to
      load, the run is the same with and without it (the per-year caches are still used). */
  lemma ForceArgSkipsOnlySeriesLookup(cfg: Config, files: Files, nowYear: int)
    requires |cfg.yearsList| > 0
    requires Load(files, SeriesFile(cfg, nowYear)).None?
    ensures ProcessSpec(cfg, files, true, nowYear) == ProcessSpec(cfg, files, false, nowYear)
  {
  }

  /** The year loop leaves every file but the years' image files as it found it. */
  lemma {:induction false} YearLoopFrame(cfg: Config, files: Files, years: seq<int>, acc: seq<Row>, k: string)
    requires |cfg.yearsList| > 0
    requires forall i :: 0 <= i < |years| ==> ImageFile(cfg, years[i]) != k
    ensures var f := YearLoop(cfg, files, years, acc).1;
      (k in f <==> k in files) && (k in files ==> f[k] == files[k])
    decreases |years|
  {
    if |years| > 0 {
      var r := YearStep(cfg, files, years[0]);
      var key := ImageFile(cfg, years[0]);
      YearStepFrame(cfg, files, years[0]);
      assert k != key;
      assert k in r.files <==> k in r.files - {key};
      assert k in files <==> k in files - {key};
      assert k in files ==> r.files[k] == (r.files - {key})[k] == (files - {key})[k] == files[k];
      assert forall i :: 0 <= i < |years[1..]| ==> years[1..][i] == years[i + 1];
      YearLoopFrame(cfg, r.files, years[1..], if |r.table| > 0 then Merge([acc, r.table]) else acc, k);
    }
  }

  /** `process_timeseries_data` changes no file but the run's image files and its series file. */
  lemma SeriesFrame(cfg: Config, files: Files, forceArg: bool, nowYear: int, k: string)
    requires |cfg.yearsList| > 0
    requires k != SeriesFile(cfg, nowYear)
    requires forall i :: 0 <= i < |cfg.yearsList| ==> ImageFile(cfg, cfg.yearsList[i]) != k
    ensures var f := ProcessSpec(cfg, files, forceArg, nowYear).files;
      (k in f <==> k in files) && (k in files ==> f[k] == files[k])
  {
    var years := cfg.yearsList;
    var n := FirstLookupFailure(cfg, years);
    if !cfg.forceCache && !forceArg && Load(files, SeriesFile(cfg, nowYear)).Some? {
    } else {
      SeriesMiss(cfg, files, forceArg, nowYear);
      if n < |years| {
        assert forall i :: 0 <= i < n ==> years[..n][i] == years[i];
        YearLoopFrame(cfg, files, years[..n], [], k);
      } else {
        YearLoopFrame(cfg, files, years, [], k);
      }
    }
  }
}
