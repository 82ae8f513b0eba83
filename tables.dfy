/** Table operations of the pipeline: building a yearly table from extracted samples
    (`extract_image_pixels`, table part), merging tables (`merge_timeseries`) and removing the
    no-data sentinel (the end of `process_timeseries_data`). A table is a sequence of rows;
    pandas' multi-column `sort_values` is a stable sort, modelled by a stable insertion sort. */
module Tables {
  import opened Rows

  /** The two orders the source sorts by: (lat, lon) and (year, pixel). */
  datatype SortKey = ByLatLon | ByYearPixel

  /** Row a sorts no later than row b under key k (lexicographic, ascending). */
  predicate Le(k: SortKey, a: Row, b: Row)
  {
    match k
    case ByLatLon => a.lat < b.lat || (a.lat == b.lat && a.lon <= b.lon)
    case ByYearPixel => a.year < b.year || (a.year == b.year && a.pixel <= b.pixel)
  }

  predicate Sorted(k: SortKey, t: seq<Row>)
  {
    forall i, j :: 0 <= i < j < |t| ==> Le(k, t[i], t[j])
  }

  /** Inserts x before the first row it does not sort after, so x stays ahead of rows with an
      equal key: the sort built on it is stable. */
  function Insert(k: SortKey, x: Row, t: seq<Row>): (r: seq<Row>)
    ensures |r| == |t| + 1
  {
    if |t| == 0 then [x]
    else if Le(k, x, t[0]) then [x] + t
    else [t[0]] + Insert(k, x, t[1..])
  }

  /** `sort_values(by = ...)`. */
  function Sort(k: SortKey, t: seq<Row>): (r: seq<Row>)
    ensures |r| == |t|
  {
    if |t| == 0 then [] else Insert(k, t[0], Sort(k, t[1..]))
  }

  /** Le is total: of two rows, one sorts no later than the other. */
  lemma LeTotal(k: SortKey, a: Row, b: Row)
    ensures Le(k, a, b) || Le(k, b, a)
  {
  }

  /** The head of a sorted table sorts no later than any row after it. */
  lemma SortedHead(k: SortKey, t: seq<Row>, y: Row)
    requires Sorted(k, t) && |t| > 0 && y in t[1..]
    ensures Le(k, t[0], y)
  {
    var p :| 0 <= p < |t[1..]| && t[1..][p] == y;
    assert t[p + 1] == y;
  }

  lemma {:induction false} InsertPermutes(k: SortKey, x: Row, t: seq<Row>)
    ensures multiset(Insert(k, x, t)) == multiset(t) + multiset{x}
  {
    if |t| > 0 && !Le(k, x, t[0]) {
      InsertPermutes(k, x, t[1..]);
      assert t == [t[0]] + t[1..];
    }
  }

  lemma {:induction false} InsertSorted(k: SortKey, x: Row, t: seq<Row>)
    requires Sorted(k, t)
    ensures Sorted(k, Insert(k, x, t))
  {
    if |t| > 0 && !Le(k, x, t[0]) {
      var rest := Insert(k, x, t[1..]);
      InsertSorted(k, x, t[1..]);
      InsertPermutes(k, x, t[1..]);
      LeTotal(k, x, t[0]);
      forall y | y in rest ensures Le(k, t[0], y) {
        assert y in multiset(rest);
        if y != x {
          SortedHead(k, t, y);
        }
      }
      SortedCons(k, t[0], rest);
    }
  }

  /** A row that sorts no later than every row of a sorted table can lead it. */
  lemma SortedCons(k: SortKey, x: Row, t: seq<Row>)
    requires Sorted(k, t)
    requires forall y :: y in t ==> Le(k, x, y)
    ensures Sorted(k, [x] + t)
  {
    var r := [x] + t;
    forall i, j | 0 <= i < j < |r| ensures Le(k, r[i], r[j]) {
      if i > 0 {
        assert r[i] == t[i - 1] && r[j] == t[j - 1];
      } else {
        assert r[j] == t[j - 1];
        assert r[j] in t;
      }
    }
  }

  lemma SamplesCons(x: Row, t: seq<Row>)
    ensures Samples([x] + t) == [ToSample(x)] + Samples(t)
  {
  }

  lemma {:induction false} InsertSamples(k: SortKey, x: Row, t: seq<Row>)
    ensures multiset(Samples(Insert(k, x, t))) == multiset(Samples(t)) + multiset{ToSample(x)}
  {
    if |t| == 0 {
      SamplesCons(x, t);
    } else if Le(k, x, t[0]) {
      SamplesCons(x, t);
    } else {
      InsertSamples(k, x, t[1..]);
      assert t == [t[0]] + t[1..];
      SamplesCons(t[0], t[1..]);
      SamplesCons(t[0], Insert(k, x, t[1..]));
    }
  }

  lemma {:induction false} SortPermutes(k: SortKey, t: seq<Row>)
    ensures multiset(Sort(k, t)) == multiset(t)
  {
    if |t| > 0 {
      SortPermutes(k, t[1..]);
      InsertPermutes(k, t[0], Sort(k, t[1..]));
      assert t == [t[0]] + t[1..];
    }
  }

  lemma {:induction false} SortSorted(k: SortKey, t: seq<Row>)
    ensures Sorted(k, Sort(k, t))
  {
    if |t| > 0 {
      SortSorted(k, t[1..]);
      InsertSorted(k, t[0], Sort(k, t[1..]));
    }
  }

  lemma {:induction false} SortSamples(k: SortKey, t: seq<Row>)
    ensures multiset(Samples(Sort(k, t))) == multiset(Samples(t))
  {
    if |t| > 0 {
      SortSamples(k, t[1..]);
      InsertSamples(k, t[0], Sort(k, t[1..]));
      assert t == [t[0]] + t[1..];
      SamplesCons(t[0], t[1..]);
    }
  }

  /** The sort returns its input in order, as a permutation; the sample columns are likewise only
      rearranged. */
  lemma SortSpec(k: SortKey, t: seq<Row>)
    ensures |Sort(k, t)| == |t|
    ensures Sorted(k, Sort(k, t))
    ensures multiset(Sort(k, t)) == multiset(t)
    ensures multiset(Samples(Sort(k, t))) == multiset(Samples(t))
  {
    SortPermutes(k, t);
    SortSorted(k, t);
    SortSamples(k, t);
    assert |multiset(Sort(k, t))| == |Sort(k, t)|;
  }

  /** A table already in order is left as it is (the sort is stable). */
  lemma {:induction false} SortOfSorted(k: SortKey, t: seq<Row>)
    requires Sorted(k, t)
    ensures Sort(k, t) == t
  {
    if |t| > 0 {
      SortOfSorted(k, t[1..]);
      assert t == [t[0]] + t[1..];
    }
  }

  /** `df['pixel'] = range(0, len(df))`. */
  function SetPixels(t: seq<Row>): (r: seq<Row>)
    ensures |r| == |t|
    ensures forall i :: 0 <= i < |t| ==> r[i].pixel == i
    ensures forall i :: 0 <= i < |t| ==>
      r[i].index == t[i].index && r[i].year == t[i].year && ToSample(r[i]) == ToSample(t[i])
  {
    seq(|t|, i requires 0 <= i < |t| => t[i].(pixel := i))
  }

  /** `df['index'] = range(0, len(df))`. */
  function SetIndex(t: seq<Row>): (r: seq<Row>)
    ensures |r| == |t|
    ensures forall i :: 0 <= i < |t| ==> r[i].index == i
    ensures forall i :: 0 <= i < |t| ==>
      r[i].pixel == t[i].pixel && r[i].year == t[i].year && ToSample(r[i]) == ToSample(t[i])
  {
    seq(|t|, i requires 0 <= i < |t| => t[i].(index := i))
  }

  /** The rows of a freshly built table: `pixel` and `index` 0, `year` the requested year, then the
      columns of the sample. */
  function Stamp(s: seq<Sample>, year: int): (t: seq<Row>)
    ensures |t| == |s|
  {
    seq(|s|, i requires 0 <= i < |s| => Row(0, 0, year, s[i].lat, s[i].lon, s[i].cloud, s[i].occurrence))
  }

  /** The table `extract_image_pixels` builds from an array of samples. */
  function YearTable(s: seq<Sample>, year: int): (t: seq<Row>)
    ensures |t| == |s|
  {
    SetPixels(Sort(ByLatLon, Stamp(s, year)))
  }

  /** The yearly table has one row per sample, each stamped with the year and index 0, ordered by
      (lat, lon), with `pixel` numbered 0..n-1 in that order; its sample columns are exactly the
      extracted samples, rearranged. */
  lemma YearTableSpec(s: seq<Sample>, year: int)
    ensures |YearTable(s, year)| == |s|
    ensures forall i :: 0 <= i < |s| ==>
      YearTable(s, year)[i].pixel == i && YearTable(s, year)[i].year == year && YearTable(s, year)[i].index == 0
    ensures Sorted(ByLatLon, YearTable(s, year))
    ensures multiset(Samples(YearTable(s, year))) == multiset(s)
  {
    var stamped := Stamp(s, year);
    var sorted := Sort(ByLatLon, stamped);
    SortSpec(ByLatLon, stamped);
    forall i | 0 <= i < |sorted| ensures sorted[i].year == year && sorted[i].index == 0 {
      assert sorted[i] in multiset(stamped);
    }
    assert Samples(stamped) == s;
    var r := SetPixels(sorted);
    assert Samples(r) == Samples(sorted);
    forall i, j | 0 <= i < j < |r| ensures Le(ByLatLon, r[i], r[j]) {
      assert Le(ByLatLon, sorted[i], sorted[j]);
    }
  }

  /** The stored columns of a yearly table: `pixel` is the position, `index` 0 and `year` the
      year, followed by the sample's four values. */
  lemma YearTableColumns(s: seq<Sample>, year: int)
    ensures var t := YearTable(s, year);
      forall i :: 0 <= i < |t| ==>
        Columns(t[i]) == [i as real, 0.0, year as real, t[i].lat, t[i].lon, t[i].cloud, t[i].occurrence]
  {
    YearTableSpec(s, year);
  }

  /** A yearly table is also in (year, pixel) order. */
  lemma YearTableByYearPixel(s: seq<Sample>, year: int)
    ensures Sorted(ByYearPixel, YearTable(s, year))
  {
    YearTableSpec(s, year);
  }

  /** `merge_timeseries`: concatenate, number `index` by concatenation position, then sort by
      (year, pixel). */
  function Merge(dfList: seq<seq<Row>>): (r: seq<Row>)
    ensures |r| == |Flatten(dfList)|
  {
    Sort(ByYearPixel, SetIndex(Flatten(dfList)))
  }

  /** The merged table holds the concatenated rows, each with `index` equal to its position in the
      concatenation, rearranged into (year, pixel) order. */
  lemma MergeSpec(dfList: seq<seq<Row>>)
    ensures |Merge(dfList)| == SumLengths(dfList)
    ensures Sorted(ByYearPixel, Merge(dfList))
    ensures multiset(Merge(dfList)) == multiset(SetIndex(Flatten(dfList)))
  {
    FlattenLength(dfList);
    SortSpec(ByYearPixel, SetIndex(Flatten(dfList)));
  }

  /** Renumbering `index` does not disturb either order, since neither key reads it. */
  lemma SetIndexSorted(k: SortKey, t: seq<Row>)
    ensures Sorted(k, SetIndex(t)) == Sorted(k, t)
  {
    var r := SetIndex(t);
    assert forall i :: 0 <= i < |t| ==> Le(k, r[i], t[i]) && Le(k, t[i], r[i]);
    if Sorted(k, t) {
      forall i, j | 0 <= i < j < |r| ensures Le(k, r[i], r[j]) {
        assert Le(k, t[i], t[j]);
      }
    }
    if Sorted(k, r) {
      forall i, j | 0 <= i < j < |t| ensures Le(k, t[i], t[j]) {
        assert Le(k, r[i], r[j]);
      }
    }
  }

  /** Tables whose concatenation is already in (year, pixel) order merge into that concatenation,
      renumbered: the sort moves nothing. */
  lemma MergeOfOrdered(dfList: seq<seq<Row>>)
    requires Sorted(ByYearPixel, Flatten(dfList))
    ensures Merge(dfList) == SetIndex(Flatten(dfList))
  {
    SetIndexSorted(ByYearPixel, Flatten(dfList));
    SortOfSorted(ByYearPixel, SetIndex(Flatten(dfList)));
  }

  /** The rows of t whose attribute a does not hold the sentinel. */
  function DropSentinel(t: seq<Row>, a: Attribute): (r: seq<Row>)
    ensures |r| <= |t|
    ensures forall i :: 0 <= i < |r| ==> AttributeOf(r[i], a) != Sentinel
  {
    if |t| == 0 then []
    else (if AttributeOf(t[0], a) == Sentinel then [] else [t[0]]) + DropSentinel(t[1..], a)
  }

  /** The filter keeps exactly the rows whose attribute does not hold the sentinel. */
  lemma {:induction false} DropSentinelMembers(t: seq<Row>, a: Attribute, x: Row)
    ensures x in DropSentinel(t, a) <==> x in t && AttributeOf(x, a) != Sentinel
    decreases |t|
  {
    if |t| > 0 {
      DropSentinelMembers(t[1..], a, x);
      assert t == [t[0]] + t[1..];
    }
  }

  /** `[a for a in attributes if a != 'cloud']`. */
  function NonCloud(attrs: seq<Attribute>): seq<Attribute>
  {
    if |attrs| == 0 then []
    else (if attrs[0] == Cloud then [] else [attrs[0]]) + NonCloud(attrs[1..])
  }

  /** One filtering pass per non-cloud attribute, in attribute order. */
  function DropAll(t: seq<Row>, attrs: seq<Attribute>): (r: seq<Row>)
    ensures |r| <= |t|
    ensures forall x :: x in r ==> x in t
    decreases |attrs|
  {
    if |attrs| == 0 then t
    else
      var d := DropSentinel(t, attrs[0]);
      assert forall x :: x in d ==> x in t by {
        forall x | x in d
          ensures x in t
        {
          DropSentinelMembers(t, attrs[0], x);
        }
      }
      DropAll(d, attrs[1..])
  }

  /** `df.loc[df['cloud'] == abs(dummy), 'cloud'] = 0.0`. */
  function ZeroCloud(t: seq<Row>): (r: seq<Row>)
    ensures |r| == |t|
    ensures forall i :: 0 <= i < |t| ==> r[i].cloud != Sentinel
    ensures forall i :: 0 <= i < |t| ==> r[i].(cloud := t[i].cloud) == t[i]
  {
    seq(|t|, i requires 0 <= i < |t| => if t[i].cloud == Sentinel then t[i].(cloud := 0.0) else t[i])
  }

  /** The sentinel scrub at the end of `process_timeseries_data`. */
  function Scrub(t: seq<Row>): (r: seq<Row>)
    ensures |r| <= |t|
  {
    ZeroCloud(DropAll(t, NonCloud(Attributes)))
  }

  /** The scrub filters on `occurrence` alone. */
  lemma ScrubFiltersOccurrence(t: seq<Row>)
    ensures Scrub(t) == ZeroCloud(DropSentinel(t, Occurrence))
  {
    assert NonCloud(Attributes) == [Occurrence] by {
      assert Attributes[1..] == [Occurrence];
      assert NonCloud([Occurrence]) == [Occurrence] + NonCloud([]);
    }
    assert [Occurrence][1..] == [];
    assert DropAll(t, [Occurrence]) == DropAll(DropSentinel(t, Occurrence), []);
  }

  lemma {:induction false} DropSentinelAppend(a: seq<Row>, b: seq<Row>, attr: Attribute)
    ensures DropSentinel(a + b, attr) == DropSentinel(a, attr) + DropSentinel(b, attr)
  {
    if |a| > 0 {
      DropSentinelAppend(a[1..], b, attr);
      assert (a + b)[1..] == a[1..] + b;
    } else {
      assert a + b == b;
    }
  }

  /** Zeroing the cloud sentinel works row by row. */
  lemma ZeroCloudAppend(a: seq<Row>, b: seq<Row>)
    ensures ZeroCloud(a + b) == ZeroCloud(a) + ZeroCloud(b)
  {
    var l, r := ZeroCloud(a + b), ZeroCloud(a) + ZeroCloud(b);
    assert |l| == |r|;
    forall i | 0 <= i < |l|
      ensures l[i] == r[i]
    {
      if i < |a| {
        assert (a + b)[i] == a[i];
      } else {
        assert (a + b)[i] == b[i - |a|];
      }
    }
  }

  /** The scrub works row by row: on a concatenation it is the concatenation of the scrubs. */
  lemma ScrubAppend(a: seq<Row>, b: seq<Row>)
    ensures Scrub(a + b) == Scrub(a) + Scrub(b)
  {
    ScrubFiltersOccurrence(a + b);
    ScrubFiltersOccurrence(a);
    ScrubFiltersOccurrence(b);
    DropSentinelAppend(a, b, Occurrence);
    ZeroCloudAppend(DropSentinel(a, Occurrence), DropSentinel(b, Occurrence));
  }

  /** On one row: a row whose occurrence holds the sentinel is dropped; any other row is kept with
      a sentinel cloud value set to 0 and every other field unchanged. */
  lemma ScrubRow(x: Row)
    ensures x.occurrence == Sentinel ==> Scrub([x]) == []
    ensures x.occurrence != Sentinel ==>
      Scrub([x]) == [Row(x.pixel, x.index, x.year, x.lat, x.lon, if x.cloud == Sentinel then 0.0 else x.cloud, x.occurrence)]
  {
    ScrubFiltersOccurrence([x]);
    assert DropSentinel([x], Occurrence) == (if x.occurrence == Sentinel then [] else [x]) + DropSentinel([], Occurrence);
  }

  /** No sentinel survives the scrub, in `occurrence` or in `cloud`. */
  lemma {:induction false} ScrubClean(t: seq<Row>)
    ensures forall r :: r in Scrub(t) ==> r.occurrence != Sentinel && r.cloud != Sentinel
  {
    if |t| > 0 {
      assert t == [t[0]] + t[1..];
      ScrubAppend([t[0]], t[1..]);
      ScrubRow(t[0]);
      ScrubClean(t[1..]);
    } else {
      ScrubFiltersOccurrence(t);
    }
  }

  predicate NoSentinel(t: seq<Row>)
  {
    forall r :: r in t ==> r.occurrence != Sentinel && r.cloud != Sentinel
  }

  /** The scrub changes a table exactly when some row holds the sentinel. */
  lemma {:induction false} ScrubFixpoint(t: seq<Row>)
    ensures Scrub(t) == t <==> NoSentinel(t)
  {
    if |t| == 0 {
      ScrubFiltersOccurrence(t);
    } else {
      assert t == [t[0]] + t[1..];
      ScrubAppend([t[0]], t[1..]);
      ScrubRow(t[0]);
      ScrubFixpoint(t[1..]);
      ScrubClean(t);
      if NoSentinel(t) {
        assert NoSentinel(t[1..]);
      }
    }
  }

  /** Scrubbing a scrubbed table changes nothing. */
  lemma ScrubIdempotent(t: seq<Row>)
    ensures Scrub(Scrub(t)) == Scrub(t)
  {
    ScrubClean(t);
    ScrubFixpoint(Scrub(t));
  }
}
