# ABYO time-series extraction, modelled in Dafny

ABYO (Algal Bloom Yearly Occurrences) builds a per-pixel, per-year table of water attributes
(`cloud`, `occurrence`) for a region, from satellite imagery served by a remote service. This
project models the core of the `Abyo` class in `modules/abyo.py`:

- **Tiling** (`split_geometry`): a region whose sampled pixel count exceeds `max_tile_pixels` is
  split into an n×n grid of rectangles, n = ⌈pixels / max_tile_pixels⌉, with break points spread
  evenly between the sampled corner coordinates; otherwise the region is one tile.
- **Cache keys** (`get_cache_files`): the per-year image file and the whole-run series file are
  the cache directory, a slash and the md5 digest of `hash_string`, `lat_lon`, `sensor`,
  `str(morph_op)` and `str(morph_op_iters)`, followed by the year and "original" for the image
  file, or by the first and last year for the series file. The date range the run was created
  with is part of neither key, although it chooses the images of every yearly composite: two runs
  whose ranges start and end in the same years share both files, so the second reuses the first
  run's cached arrays and series (`SeriesFileDependsOnEndsOnly`, `SeriesCacheHit`, `YearCacheHit`).
- **Per-year extraction** (`extract_image_pixels`): look for the year's pixel array in the cache
  (unless `force_cache`), otherwise extract it tile by tile from the remote service and store
  it; build the year's table sorted by (lat, lon) with `pixel` numbered in that order; on any
  failure remove the image file and return an empty table.
- **Merging** (`merge_timeseries`): concatenate tables, number `index` by position, sort by
  (year, pixel).
- **Series driver** (`process_timeseries_data`): use the cached series unless a force flag is
  set; otherwise run every year, merge the non-empty yearly tables, renumber `index`, store the
  series; in both cases drop rows whose `occurrence` holds the no-data sentinel and set a
  sentinel `cloud` to 0. The yearly composite is looked up for each year before its extraction,
  and no `try` guards that lookup: a lookup that raises ends the run with that exception, after the image
  files of the earlier years were written, and `df_timeseries` is not set.

Modules, one file each:

- `rows.dfy` (`Rows`): the class constants (`dummy`, `max_tile_pixels`, `attributes`,
  `df_columns`, `hash_string`), samples and table rows.
- `tiling.dfy` (`Tiling`): `split_geometry` as a method with nested loops, proved equal to the
  function `Split`, with the grid shape, coverage and non-overlap proved of `Split`.
- `cache_keys.dfy` (`CacheKeys`): `get_cache_files`, Python's `str` of integers and the key
  properties.
- `tables.dfy` (`Tables`): the stable sort, the yearly table, `merge_timeseries` and the
  sentinel scrub.
- `pipeline.dfy` (`Pipeline`): the cache directory as a map from path to content, and the two
  stateful operations as functions from (configuration, directory) to (result, directory).
- `abyo.dfy` (`Abyo`): class `Disk` (the cache directory) and class `Abyo`. The methods
  `ExtractImagePixels` and `ProcessTimeseriesData` have the source's loops and are proved equal
  to the functions of `Pipeline`.
- `pipeline_props.dfy` (`PipelineProperties`): what every cache-hit, miss and failure path
  yields, and the shape of the yearly tables. It also proves that only the run's own files
  change and that the series is the ordered concatenation of the yearly tables.

The remote service is a pair of function-valued configuration fields:

- `yearlyImage`: `None` when looking up the year's composite raises, otherwise whether a
  composite exists for the year;
- `extractTile`: the per-tile pixel arrays, or `None` when the call raises.

The md5 digest is a function field `hash`. A failed `joblib.load` is `None`. A file holds
`None`, a pixel array, a table, or bytes that cannot be read.

Facts about `modules/abyo.py` that the model keeps:

- The budget test at line 230 compares the raw pixel count with `max_tile_pixels`.
- On a cache miss or under `force_cache`, a year without imagery, or whose lookup fails inside
  `extract_image_pixels` (line 374, guarded by the `try` of line 371), gives an empty table after
  its image file is removed. A non-empty cached array is used without asking the remote service.
- The lookup of line 301 runs in the `except:` clause of line 291 but is not guarded by any
  `try`, so its failure ends the whole run.

## Model

| member | source | states |
|---|---|---|
| Rows.FlattenLength | modules/abyo.py:334 | the concatenation of a list of tables has as many rows as the tables together |
| Rows.Columns | modules/abyo.py:86 | a row is stored as one value per `df_columns` entry, year, cloud and occurrence in their places |
| Rows.ColumnsLossless | modules/abyo.py:322 | selecting the `df_columns` columns loses no field: equal stored values mean equal rows |
| Rows.FlattenCons | modules/abyo.py:334 | concatenating a list whose first table is t is t followed by the concatenation of the rest |
| Tiling.Linspace | modules/abyo.py:236-237 | `np.linspace` with n+1 points: starts at a, ends at b, equal steps |
| Tiling.TilesPerAxis | modules/abyo.py:230-233 | one tile per axis within the budget; otherwise at least two, and the least n with n·max_tile_pixels ≥ pixels |
| Tiling.GridLength | modules/abyo.py:240-246 | the first k grid rows hold k·n tiles |
| Tiling.GridAt | modules/abyo.py:240-246 | tile i·n+j of the grid is the rectangle between break points i, i+1 and j, j+1 |
| Tiling.GridComplete | modules/abyo.py:240-246 | the whole grid is the n×n tiles in row-major order |
| Tiling.SplitShape | modules/abyo.py:227-254 | within the budget the region itself is the single tile; above it, n ≥ 2 and n² rectangles in row-major order |
| Tiling.Split | modules/abyo.py:227-254 | within the budget the single tile is the region; above it, n² tiles for n tiles per axis |
| Tiling.SplitGeometry | modules/abyo.py:227-254 | the nested loops build exactly `Split` |
| Tiling.LinspaceMonotone | modules/abyo.py:236-237 | break points between ordered corners are ordered |
| Tiling.Bracket | modules/abyo.py:236-246 | a coordinate between the corners lies between two consecutive break points |
| Tiling.TilesCover | modules/abyo.py:236-246 | every point of the sampled bounding box lies in some tile |
| Tiling.TilesDisjoint | modules/abyo.py:236-246 | distinct tiles do not share interior points, so no pixel is extracted twice from overlapping interiors |
| CacheKeys.DigitChar | modules/abyo.py:259 | a digit value prints as a decimal digit |
| CacheKeys.NatToString | modules/abyo.py:259-261 | `str` of a non-negative integer is a non-empty string of digits |
| CacheKeys.IntToString | modules/abyo.py:259-261 | `str` of an integer is non-empty and ends in a digit |
| CacheKeys.NatToStringValue | modules/abyo.py:259-261 | reading the printed digits back gives the number |
| CacheKeys.IntToStringSign | modules/abyo.py:259-261 | a printed integer starts with '-' exactly when it is negative |
| CacheKeys.IntToStringInjective | modules/abyo.py:259-261 | distinct integers print differently |
| CacheKeys.GetCacheFiles | modules/abyo.py:258-262 | both paths are the cache directory followed by '/' and a digest |
| CacheKeys.Prefix | modules/abyo.py:259 | the common prefix starts with `hash_string` and is longer than it |
| CacheKeys.ImagePreimage | modules/abyo.py:260 | the image string is the prefix followed by a year and "original" |
| CacheKeys.SeriesPreimage | modules/abyo.py:261 | the series string is the prefix followed by text ending in a digit (the last year) |
| CacheKeys.PreimagesStartWithVersionTag | modules/abyo.py:259-261 | every hashed string starts with `hash_string` |
| CacheKeys.SeriesFileIgnoresYear | modules/abyo.py:261-262 | the series path does not depend on the year argument |
| CacheKeys.SeriesFileDependsOnEndsOnly | modules/abyo.py:261 | runs with the same first and last year share the series path |
| CacheKeys.ImagePreimagesDistinct | modules/abyo.py:260 | different years hash different strings for the image file |
| CacheKeys.ImageAndSeriesPreimagesDiffer | modules/abyo.py:260-261 | the image and series strings of a run always differ |
| CacheKeys.PrefixAmbiguous | modules/abyo.py:259 | the separator-free prefix makes ("closing", 11) and ("closing1", 1) collide |
| Tables.LeTotal | modules/abyo.py:337 | any two rows are ordered one way or the other |
| Tables.InsertPermutes | modules/abyo.py:337 | inserting a row adds exactly that row |
| Tables.InsertSorted | modules/abyo.py:337 | inserting into a sorted table keeps it sorted |
| Tables.Sort | modules/abyo.py:337 | sorting keeps the number of rows; `SortSpec` and `SortOfSorted` state the rest |
| Tables.SortSpec | modules/abyo.py:337 | `sort_values`: same length, sorted by the key, a permutation of the rows and of their samples |
| Tables.SortOfSorted | modules/abyo.py:337 | sorting an already sorted table changes nothing (stability) |
| Tables.SetPixels | modules/abyo.py:405 | `pixel` is renumbered by position, nothing else changes |
| Tables.SetIndex | modules/abyo.py:308 | `index` is renumbered by position, nothing else changes |
| Tables.YearTableSpec | modules/abyo.py:403-405 | the yearly table has one row per sample, year stamped, index 0, sorted by (lat, lon), pixel = position, and its samples are exactly the extracted ones |
| Tables.YearTable | modules/abyo.py:403-405 | one row per extracted sample; `YearTableSpec` states the rest |
| Tables.YearTableColumns | modules/abyo.py:403-405 | each stored row is its position, 0 and the year, followed by its sample's lat, lon, cloud and occurrence |
| Tables.YearTableByYearPixel | modules/abyo.py:403-405 | a yearly table is in (year, pixel) order |
| Tables.MergeSpec | modules/abyo.py:333-337 | the merge holds all rows of the inputs, `index` = position in the concatenation, sorted by (year, pixel) |
| Tables.Merge | modules/abyo.py:333-337 | the merge has as many rows as its inputs together; `MergeSpec` states the rest |
| Tables.SetIndexSorted | modules/abyo.py:335-337 | renumbering `index` does not affect either sort order |
| Tables.MergeOfOrdered | modules/abyo.py:333-337 | inputs already in (year, pixel) order merge into their renumbered concatenation |
| Tables.ScrubFiltersOccurrence | modules/abyo.py:315-319 | the scrub drops rows with a sentinel `occurrence`, then zeroes a sentinel `cloud` |
| Tables.Scrub | modules/abyo.py:315-319 | the scrub never adds rows; `ScrubFiltersOccurrence`, `ScrubClean` and `ScrubIdempotent` state the rest |
| Tables.DropSentinel | modules/abyo.py:316 | no kept row holds the sentinel in the attribute, and no row is added |
| Tables.DropSentinelMembers | modules/abyo.py:316 | a row is kept exactly when it is in the table and its attribute does not hold the sentinel |
| Tables.ZeroCloud | modules/abyo.py:319 | every row keeps all columns but `cloud`, and no `cloud` holds the sentinel afterwards |
| Tables.DropSentinelAppend | modules/abyo.py:316 | the row filter distributes over concatenation |
| Tables.ZeroCloudAppend | modules/abyo.py:319 | zeroing the cloud sentinel works row by row |
| Tables.ScrubAppend | modules/abyo.py:315-319 | the scrub works row by row |
| Tables.ScrubRow | modules/abyo.py:315-319 | one row is dropped, kept or has its cloud zeroed |
| Tables.ScrubClean | modules/abyo.py:315-319 | no row of the scrubbed table holds the sentinel in either attribute |
| Tables.ScrubFixpoint | modules/abyo.py:315-319 | the scrub changes a table exactly when some row holds the sentinel |
| Tables.ScrubIdempotent | modules/abyo.py:315-319 | scrubbing twice is scrubbing once |
| Pipeline.Load | modules/abyo.py:359 | `joblib.load` succeeds exactly on a present, readable file and returns its content |
| Pipeline.ExtractTiles | modules/abyo.py:377-381 | an extraction that succeeds had every tile succeed; `ExtractTilesSpec` states the converse and the contents |
| Pipeline.Extract | modules/abyo.py:374-384 | an extraction succeeds only when the year's composite exists and every tile succeeds |
| Pipeline.Build | modules/abyo.py:396-412 | a table is built exactly from a non-empty pixel array, one year-stamped row per sample |
| Pipeline.YearStep | modules/abyo.py:341-430 | every row is stamped with the year, and a non-empty table is the yearly table of the pixel array the image file then holds; `YearStepShape`, `YearStepFrame`, `YearCacheHit` and `YearMiss` state the rest |
| Pipeline.YearLoop | modules/abyo.py:297-303 | the loop over no years changes nothing and the series never shrinks; `YearLoopConcatenates` states the rest |
| Pipeline.FirstLookupFailure | modules/abyo.py:299-301 | the position of the first year whose lookup raises, or the number of years when none does |
| Pipeline.ProcessSpec | modules/abyo.py:266-322 | a forced run ends normally exactly when every year's composite lookup succeeds; `SeriesCacheHit`, `SeriesMiss`, `SeriesClean` and `SeriesFrame` state the rest |
| Abyo.Disk.LoadFile | modules/abyo.py:359 | reads the directory without changing it |
| Abyo.Disk.Dump | modules/abyo.py:384 | `joblib.dump` replaces one file |
| Abyo.Disk.RemoveIfExists | modules/abyo.py:422-423 | removes the image file when present, nothing else |
| Abyo.YearsBetween | modules/abyo.py:137-139 | `ee.List.sequence`: element i is first + i, from first to last, strictly increasing |
| Abyo.Abyo.constructor | modules/abyo.py:93-151 | stores the run parameters, the years list and the split geometry |
| Abyo.Abyo.ExtractImagePixels | modules/abyo.py:341-430 | the returned table and the new directory are those of `YearStep` |
| Abyo.Abyo.ProcessYears | modules/abyo.py:298-303 | the year loop stops at the first lookup that raises, having run `YearLoop` over the years before it; otherwise it computes `YearLoop` and its directory |
| Abyo.Abyo.ProcessTimeseriesData | modules/abyo.py:266-329 | the directory, the exception and `df_timeseries` are those of `ProcessSpec` |
| Abyo.Abyo.ExtractTilesLoop | modules/abyo.py:377-381 | the tile loop returns exactly `ExtractTiles` |
| Abyo.YearLoopSnoc | modules/abyo.py:298-303 | the loop over one more year is the loop followed by that year's step |
| Abyo.YearLoopStep | modules/abyo.py:298-303 | one turn of the source loop extends the loop over the earlier years by one year |
| Abyo.FailurePersists | modules/abyo.py:378-381 | once a tile fails, the extraction fails |
| PipelineProperties.TileArrays | modules/abyo.py:379-381 | one array per tile, in tile order |
| PipelineProperties.ExtractTilesSpec | modules/abyo.py:377-381 | the tile loop succeeds exactly when every tile does, and then returns the tiles' arrays concatenated in tile order |
| PipelineProperties.YearCacheHit | modules/abyo.py:352-412 | a cached array gives its table (empty if the array is), leaves the directory alone, and does not depend on the remote service |
| PipelineProperties.YearCacheHoldsTable | modules/abyo.py:359-430 | a table in an image file gives an empty result; a non-empty one cannot be built and its file is removed |
| PipelineProperties.YearMiss | modules/abyo.py:369-430 | on a miss: a failed extraction removes the file; a non-empty one is stored and built; an empty one is stored, fails to build and is removed |
| PipelineProperties.MissIgnoresImageFile | modules/abyo.py:355-361 | a forced step gives the same result whatever the image file holds, or when it is missing |
| PipelineProperties.YearMissesAgree | modules/abyo.py:355-361 | a stored `None`, an unreadable file and a missing file behave alike; `force_cache` acts as a missing file |
| PipelineProperties.ForcedIsMiss | modules/abyo.py:355-361 | a missing or `None` image file behaves as `force_cache` |
| PipelineProperties.ForcedSameAsGone | modules/abyo.py:355-356 | a forced step ignores the image file's content |
| PipelineProperties.YearStepShape | modules/abyo.py:403-405 | every yearly result is year-stamped, index 0, pixel = position, in (lat, lon) and (year, pixel) order |
| PipelineProperties.YearStepFrame | modules/abyo.py:341-430 | the per-year step changes no file but its own image file |
| PipelineProperties.YearStepRepeat | modules/abyo.py:341-430 | running a year again on the directory it left gives the same result, unless it had to discard a stale table |
| PipelineProperties.SetIndexAppend | modules/abyo.py:335 | renumbering a prefix and then the whole is renumbering the whole |
| PipelineProperties.SortedConcat | modules/abyo.py:337 | a table of earlier years followed by a table of a later year is in (year, pixel) order |
| PipelineProperties.MergeAppends | modules/abyo.py:302-303 | merging a later year's table into the series appends it and renumbers |
| PipelineProperties.AppendStep | modules/abyo.py:302-303 | empty yearly tables are skipped and non-empty ones appended in order |
| PipelineProperties.YearLoopConcatenates | modules/abyo.py:298-303 | the year loop yields the ordered series followed by the non-empty yearly tables |
| PipelineProperties.SeriesIsOrderedConcatenation | modules/abyo.py:266-322 | on a miss where every lookup succeeds, the stored series is the non-empty yearly tables concatenated in year order and renumbered, and the outcome is its scrub |
| PipelineProperties.SeriesCacheHit | modules/abyo.py:276-322 | a cached series is scrubbed and returned, nothing is written, the remote service is not used |
| PipelineProperties.SeriesCacheRaises | modules/abyo.py:288-316 | a series file holding no table makes the scrub raise, with nothing written |
| PipelineProperties.SeriesMiss | modules/abyo.py:290-319 | on a miss, a lookup that raises ends the run with the image files of the earlier years written; the run ends normally exactly when every lookup succeeds, and then stores the renumbered series when a cache path is set and returns its scrub |
| PipelineProperties.SeriesClean | modules/abyo.py:315-322 | the stored `df_timeseries` holds no sentinel and is a fixpoint of the scrub |
| PipelineProperties.ForceArgSkipsOnlySeriesLookup | modules/abyo.py:283-288 | with no loadable series file, the `force_cache` argument changes nothing |
| PipelineProperties.YearLoopFrame | modules/abyo.py:298-303 | the year loop changes no file but the years' image files |
| PipelineProperties.SeriesFrame | modules/abyo.py:266-313 | a run, ended normally or by a lookup that raises, changes no file but its image files and its series file |

## Left out

- The remote imagery service is out of scope: the collections, water mask, clipping and the
  pixel counts and corners the constructor computes. The constructor takes their results as
  arguments, and the "no images found" branch of `__init__` is not modelled.
- The md5 digest is an abstract function. No collision freedom is assumed, so distinct
  preimages are proved, not distinct file names.
- `np.linspace` is computed in exact reals. Floating-point rounding of break points and
  coordinates, and the float conversion of the pixel, index and year columns, are not modelled.
- Printing, `gc.collect`, `del`, and the plots, GeoJSON, TIFF, PNG and dataset writers are out
  of scope. So are the other methods of the class and `script.py`.
- A `joblib.dump` that fails is not modelled. Writes always succeed.
- `cache_path = None` is not modelled: `get_cache_files` would raise where no `try` guards it. An
  empty cache path disables only the series dump, as in the source.
- `process_timeseries_data` reads the current year from the clock; here it is the parameter
  `nowYear`. Only the series file is used, and it does not depend on the year.
- The `image` argument of `extract_image_pixels` is unused by the source and is not a parameter.
- Tables.SortSpec: the relative order of rows with equal sort keys is that of a stable
  insertion sort. Whether pandas keeps ties in this order is not modelled.
- PipelineProperties.YearStepRepeat: the remote service is a fixed function of (year, tile), so
  transient remote failures that a retry would clear are not modelled.
- Concurrency and other processes writing the cache directory are out of scope.
