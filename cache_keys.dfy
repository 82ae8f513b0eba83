/** `get_cache_files` of class `Abyo`. Both cache paths are the cache directory, a slash and the
    hex digest of `hash_string`, `lat_lon`, `sensor`, `str(morph_op)` and `str(morph_op_iters)`,
    followed by the year and "original" (image file) or the first and last year (series file).
    The start and end dates of the run are hashed by neither key. The digest (md5 over the
    UTF-8 bytes) is a parameter `hash`; since UTF-8 encoding maps a concatenation of strings to the
    concatenation of their encodings, hashing the concatenated string is the same thing. */
module CacheKeys {
  import opened Rows

  predicate IsDigit(c: char)
  {
    '0' <= c <= '9'
  }

  function DigitChar(d: nat): (c: char)
    requires d < 10
    ensures IsDigit(c)
  {
    "0123456789"[d]
  }

  function DigitValue(c: char): nat
    requires IsDigit(c)
  {
    (c - '0') as nat
  }

  /** Python's `str` of a non-negative integer: its decimal digits, most significant first. */
  function NatToString(n: nat): (s: string)
    ensures |s| >= 1
    ensures forall k :: 0 <= k < |s| ==> IsDigit(s[k])
  {
    if n < 10 then [DigitChar(n)] else NatToString(n / 10) + [DigitChar(n % 10)]
  }

  /** Python's `str` of an integer. */
  function IntToString(i: int): (s: string)
    ensures |s| >= 1 && IsDigit(s[|s| - 1])
  {
    if i < 0 then "-" + NatToString(-i) else NatToString(i)
  }

  /** The number a string of decimal digits denotes. */
  function DigitsValue(s: string): nat
    requires forall k :: 0 <= k < |s| ==> IsDigit(s[k])
  {
    if |s| == 0 then 0 else DigitsValue(s[..|s| - 1]) * 10 + DigitValue(s[|s| - 1])
  }

  /** Reading the decimal digits back gives the number. */
  lemma {:induction false} NatToStringValue(n: nat)
    ensures DigitsValue(NatToString(n)) == n
  {
    var s := NatToString(n);
    if n < 10 {
      assert DigitValue(DigitChar(n)) == n;
    } else {
      NatToStringValue(n / 10);
      assert s[..|s| - 1] == NatToString(n / 10);
      assert DigitValue(DigitChar(n % 10)) == n % 10;
    }
  }

  /** A string starts with '-' exactly when it prints a negative number. */
  lemma IntToStringSign(i: int)
    ensures (IntToString(i)[0] == '-') == (i < 0)
  {
    if i >= 0 {
      var s := NatToString(i);
      assert IsDigit(s[0]);
    }
  }

  /** Distinct integers print differently. */
  lemma IntToStringInjective(a: int, b: int)
    requires IntToString(a) == IntToString(b)
    ensures a == b
  {
    IntToStringSign(a);
    IntToStringSign(b);
    var s := IntToString(a);
    if a < 0 {
      assert b < 0;
      var na, nb: nat := -a, -b;
      assert NatToString(na) == s[1..] == NatToString(nb);
      NatToStringValue(na);
      NatToStringValue(nb);
    } else {
      assert b >= 0;
      assert NatToString(a) == s == NatToString(b);
      NatToStringValue(a);
      NatToStringValue(b);
    }
  }

  /** Python's `str` of `morph_op`, which may be `None`. */
  function OptionToString(o: Option<string>): string
  {
    match o
    case None => "None"
    case Some(s) => s
  }

  /** The run parameters that enter the cache keys. */
  datatype KeyParams = KeyParams(latLon: string, sensor: string, morphOp: Option<string>, morphOpIters: int)

  /** The common prefix: version tag, region, sensor, morphological operation and its iterations,
      concatenated in that order with no separator. */
  function Prefix(p: KeyParams): (s: string)
    ensures |s| > |HashString| && s[..|HashString|] == HashString
  {
    HashString + p.latLon + p.sensor + OptionToString(p.morphOp) + IntToString(p.morphOpIters)
  }

  /** What is hashed for the per-year image cache file. */
  function ImagePreimage(p: KeyParams, year: int): (s: string)
    ensures |s| > |Prefix(p)| + 8 && s[..|Prefix(p)|] == Prefix(p) && s[|s| - 8..] == "original"
  {
    Prefix(p) + (IntToString(year) + "original")
  }

  /** What is hashed for the whole-run series cache file: the first and last year of the run. */
  function SeriesPreimage(p: KeyParams, years: seq<int>): (s: string)
    requires |years| > 0
    ensures |s| > |Prefix(p)| + 1 && s[..|Prefix(p)|] == Prefix(p) && IsDigit(s[|s| - 1])
  {
    Prefix(p) + (IntToString(years[0]) + IntToString(years[|years| - 1]))
  }

  /** The two paths `get_cache_files` returns: [image file, series file]. */
  datatype CacheFiles = CacheFiles(image: string, series: string)

  function GetCacheFiles(cachePath: string, hash: string -> string, p: KeyParams, years: seq<int>, year: int): (f: CacheFiles)
    requires |years| > 0
    ensures |f.image| > |cachePath| && f.image[..|cachePath| + 1] == cachePath + "/"
    ensures |f.series| > |cachePath| && f.series[..|cachePath| + 1] == cachePath + "/"
  {
    CacheFiles(cachePath + "/" + hash(ImagePreimage(p, year)), cachePath + "/" + hash(SeriesPreimage(p, years)))
  }

  /** Every key starts with the version tag, so changing the tag moves every cache entry. */
  lemma PreimagesStartWithVersionTag(p: KeyParams, years: seq<int>, year: int)
    requires |years| > 0
    ensures ImagePreimage(p, year)[..|HashString|] == HashString
    ensures SeriesPreimage(p, years)[..|HashString|] == HashString
  {
  }

  /** The series path does not depend on the year argument, only on the first and last year. */
  lemma SeriesFileIgnoresYear(cachePath: string, hash: string -> string, p: KeyParams, years: seq<int>, y1: int, y2: int)
    requires |years| > 0
    ensures GetCacheFiles(cachePath, hash, p, years, y1).series == GetCacheFiles(cachePath, hash, p, years, y2).series
  {
  }

  /** Two runs whose years start and end alike share the series file, whatever lies between. */
  lemma SeriesFileDependsOnEndsOnly(cachePath: string, hash: string -> string, p: KeyParams, ys1: seq<int>, ys2: seq<int>, year: int)
    requires |ys1| > 0 && |ys2| > 0
    requires ys1[0] == ys2[0] && ys1[|ys1| - 1] == ys2[|ys2| - 1]
    ensures GetCacheFiles(cachePath, hash, p, ys1, year).series == GetCacheFiles(cachePath, hash, p, ys2, year).series
  {
  }

  /** Different years hash different strings for the image file (whether the digests differ is
      up to the hash). */
  lemma ImagePreimagesDistinct(p: KeyParams, y1: int, y2: int)
    requires y1 != y2
    ensures ImagePreimage(p, y1) != ImagePreimage(p, y2)
  {
    var pre := Prefix(p);
    var s1, s2 := IntToString(y1) + "original", IntToString(y2) + "original";
    if ImagePreimage(p, y1) == ImagePreimage(p, y2) {
      assert s1 == ImagePreimage(p, y1)[|pre|..] == ImagePreimage(p, y2)[|pre|..] == s2;
      assert IntToString(y1) == s1[..|s1| - 8] == s2[..|s2| - 8] == IntToString(y2);
      IntToStringInjective(y1, y2);
    }
  }

  /** The image string ends in the letter 'l' of "original", the series string in a digit: the two
      files of one run never hash the same string. */
  lemma ImageAndSeriesPreimagesDiffer(p: KeyParams, years: seq<int>, year: int)
    requires |years| > 0
    ensures ImagePreimage(p, year) != SeriesPreimage(p, years)
  {
    var img, ser := ImagePreimage(p, year), SeriesPreimage(p, years);
    assert img[|img| - 1] == 'l';
    var last := IntToString(years[|years| - 1]);
    assert ser[|ser| - 1] == last[|last| - 1];
  }

  /** Without separators the prefix is ambiguous: a "closing" operation with 11 iterations and an
      operation named "closing1" with 1 iteration give the same keys. */
  lemma PrefixAmbiguous(latLon: string, sensor: string)
    ensures Prefix(KeyParams(latLon, sensor, Some("closing"), 11)) == Prefix(KeyParams(latLon, sensor, Some("closing1"), 1))
  {
    assert IntToString(11) == "11";
    assert IntToString(1) == "1";
  }
}
