/** The header-only reader (`_exifread_extract` and `_ratios_to_decimal` in
    src/exif_loader.py). `exifread.process_file` itself is not modelled: its result,
    the tag dictionary, is the input, and None stands for the exception it raised. */
module ExifHeader {
  import opened Options
  import opened PyText
  import opened PyFloat
  import opened PyValues
  import opened GeoUtils
  import opened Types

  /** One exifread tag as the reader sees it: `str(tag)`, and `str()` of every element
      of `tag.values`. A tag object defines no truth test, so a present tag is truthy. */
  datatype ExifTag = ExifTag(text: string, values: seq<string>)

  type Tags = map<string, ExifTag>

  const LatKey := "GPS GPSLatitude"
  const LatRefKey := "GPS GPSLatitudeRef"
  const LonKey := "GPS GPSLongitude"
  const LonRefKey := "GPS GPSLongitudeRef"
  const OriginalKey := "EXIF DateTimeOriginal"
  const DateTimeKey := "Image DateTime"
  const MakeKey := "Image Make"
  const ModelKey := "Image Model"

  /** A hemisphere reference as the Python value `ref in ("S", "W")` tests. */
  function RefValue(ref: Option<string>): (v: PyVal)
    ensures ref.None? ==> v == PNone
    ensures ref.Some? ==> v == PStr(ref.value)
  {
    match ref
    case None => PNone
    case Some(s) => PStr(s)
  }

  /** `to_float(x)` on `s == str(x)`: a ratio `"num/den"` is divided, anything without a
      `/` goes to `float`. None stands for the exception that ends the conversion. */
  function PartToFloat(s: string): Option<real> {
    if '/' in s then
      var pieces := Split(s, '/');
      if |pieces| != 2 then None else Divide(pieces[0], pieces[1])
    else ParseFloat(s)
  }

  /** A part without a `/` is read by `float` alone. */
  lemma WithoutSlash(s: string)
    requires '/' !in s
    ensures PartToFloat(s) == ParseFloat(s)
  {
  }

  /** A part with two or more `/` splits into three or more pieces and fails to unpack. */
  lemma TooManySlashes(s: string)
    requires Count(s, '/') >= 2
    ensures PartToFloat(s).None?
  {
  }

  /** `float(num) / float(den)`. */
  function Divide(num: string, den: string): (r: Option<real>)
    ensures ParseFloat(den) == Some(0.0) ==> r.None?
  {
    match (ParseFloat(num), ParseFloat(den))
    case (Some(n), Some(d)) => if d == 0.0 then None else Some(n / d)
    case _ => None
  }

  /** A string with exactly one `/` is divided at it. */
  lemma PartAtSlash(num: string, den: string)
    requires '/' !in num && '/' !in den
    ensures PartToFloat(num + "/" + den) == Divide(num, den)
  {
    SplitOnce(num, den, '/');
    PartOfTwoPieces(num + "/" + den, num, den);
  }

  lemma PartOfTwoPieces(s: string, num: string, den: string)
    requires '/' in s && Split(s, '/') == [num, den]
    ensures PartToFloat(s) == Divide(num, den)
  {
  }

  /** `_ratios_to_decimal(parts, ref)`: exactly three convertible parts give
      `deg + min/60 + sec/3600`, negated for "S" and "W"; anything else gives None. */
  function RatiosToDecimal(parts: seq<string>, ref: Option<string>): (r: Option<real>)
    ensures r.Some? <==>
      && |parts| == 3
      && PartToFloat(parts[0]).Some? && PartToFloat(parts[1]).Some? && PartToFloat(parts[2]).Some?
    ensures r.Some? ==>
      r.value == Degrees(PartToFloat(parts[0]).value, PartToFloat(parts[1]).value,
                         PartToFloat(parts[2]).value, Negates(RefValue(ref)))
  {
    if |parts| != 3 then None
    else
      var d, m, s := PartToFloat(parts[0]), PartToFloat(parts[1]), PartToFloat(parts[2]);
      if d.Some? && m.Some? && s.Some? then Some(Degrees(d.value, m.value, s.value, Negates(RefValue(ref))))
      else None
  }

  /** `str()` of an exifread ratio `n/d`: the numerator alone when `d` is 1. */
  function RatioText(n: int, d: nat): string {
    if d == 1 then IntText(n) else IntText(n) + "/" + NatText(d)
  }

  /** A ratio rendered by exifread converts back to its exact quotient. */
  lemma RatioTextParses(n: int, d: nat)
    requires d > 0
    ensures PartToFloat(RatioText(n, d)) == Some((n as real) / (d as real))
  {
    if d == 1 {
      WholeRatioTextParses(n);
      OverOneReal(n as real);
    } else {
      FractionParses(n, d);
    }
  }

  lemma WholeRatioTextParses(n: int)
    ensures PartToFloat(RatioText(n, 1)) == Some(n as real)
  {
    assert RatioText(n, 1) == IntText(n);
    IntTextPartParses(n);
  }

  lemma OverOneReal(x: real)
    ensures x / (1 as real) == x
  {
  }

  lemma IntTextPartParses(n: int)
    ensures PartToFloat(IntText(n)) == Some(n as real)
  {
    NoSlashPart(n);
    IntTextParses(n);
  }

  lemma NoSlashPart(n: int)
    ensures PartToFloat(IntText(n)) == ParseFloat(IntText(n))
  {
    IntTextHasNoSlash(n);
    WithoutSlash(IntText(n));
  }

  lemma FractionParses(n: int, d: nat)
    requires d > 1
    ensures PartToFloat(RatioText(n, d)) == Some((n as real) / (d as real))
  {
    assert RatioText(n, d) == IntText(n) + "/" + NatText(d);
    IntTextHasNoSlash(n);
    IntTextHasNoSlash(d);
    assert IntText(d) == NatText(d);
    PartAtSlash(IntText(n), NatText(d));
    IntTextParses(n);
    IntTextParses(d);
    DivideValues(IntText(n), NatText(d), n as real, d as real);
  }

  lemma DivideValues(num: string, den: string, n: real, d: real)
    requires ParseFloat(num) == Some(n) && ParseFloat(den) == Some(d) && d != 0.0
    ensures Divide(num, den) == Some(n / d)
  {
  }

  /** A ratio with a zero denominator converts to None instead of raising. */
  lemma ZeroDenominator(num: string, den: string)
    requires '/' !in num && '/' !in den
    requires ParseFloat(den) == Some(0.0)
    ensures PartToFloat(num + "/" + den).None?
  {
    PartAtSlash(num, den);
  }

  /** Round trip: three ratios as exifread prints them convert to their exact decimal
      degrees, with the sign of the hemisphere. */
  lemma RatiosRoundTrip(dn: int, dd: nat, mn: int, md: nat, sn: int, sd: nat, ref: Option<string>)
    requires dd > 0 && md > 0 && sd > 0
    ensures RatiosToDecimal([RatioText(dn, dd), RatioText(mn, md), RatioText(sn, sd)], ref)
         == Some(Degrees((dn as real) / (dd as real), (mn as real) / (md as real),
                         (sn as real) / (sd as real), ref == Some("S") || ref == Some("W")))
  {
    RatioTextParses(dn, dd);
    RatioTextParses(mn, md);
    RatioTextParses(sn, sd);
  }

  /** The same for whole numbers, as exifread prints them (`"34"` for 34/1). */
  lemma WholeRatiosRoundTrip(d: int, m: int, s: int, ref: Option<string>)
    ensures RatiosToDecimal([RatioText(d, 1), RatioText(m, 1), RatioText(s, 1)], ref)
         == Some(Degrees(d as real, m as real, s as real, ref == Some("S") || ref == Some("W")))
  {
    RatiosRoundTrip(d, 1, m, 1, s, 1, ref);
    OverOne(d, m, s, ref == Some("S") || ref == Some("W"));
  }

  lemma OverOne(d: int, m: int, s: int, negate: bool)
    ensures Degrees((d as real) / (1 as real), (m as real) / (1 as real), (s as real) / (1 as real), negate)
         == Degrees(d as real, m as real, s as real, negate)
  {
  }

  /** A GPS reference letter: the text of the tag with surrounding whitespace removed,
      absent when the tag is missing or nothing but whitespace. */
  function TagRef(tags: Tags, key: string): (r: Option<string>)
    ensures r.None? <==> key !in tags || Strip(tags[key].text) == []
    ensures r.Some? ==> r.value == Strip(tags[key].text)
  {
    var t := if key in tags then Strip(tags[key].text) else Strip("");
    if t == [] then None else Some(t)
  }

  /** The text of a tag as it stands; a missing tag and an empty text both count as absent. */
  function TagText(tags: Tags, key: string): (r: Option<string>)
    ensures r.None? <==> key !in tags || tags[key].text == []
    ensures r.Some? ==> r.value == tags[key].text
  {
    var t := if key in tags then tags[key].text else "";
    if t == [] then None else Some(t)
  }

  /** The date lookup over candidate tag names: the text of the first name present in
      the header, even an empty one; absent only when no name is present. */
  function FirstTagText(tags: Tags, keys: seq<string>): (r: Option<string>)
    ensures r.None? <==> forall i :: 0 <= i < |keys| ==> keys[i] !in tags
    ensures |keys| > 0 && keys[0] in tags ==> r == Some(tags[keys[0]].text)
    ensures |keys| > 0 && keys[0] !in tags ==> r == FirstTagText(tags, keys[1..])
  {
    if keys == [] then None
    else if keys[0] in tags then Some(tags[keys[0]].text)
    else
      var r := FirstTagText(tags, keys[1..]);
      assert forall i :: 1 <= i < |keys| ==> keys[i] == keys[1..][i - 1];
      r
  }

  /** The capture datetime: the original-capture tag, else the general datetime tag. */
  function HeaderDateTime(tags: Tags): (r: Option<string>)
    ensures OriginalKey in tags ==> r == Some(tags[OriginalKey].text)
    ensures OriginalKey !in tags && DateTimeKey in tags ==> r == Some(tags[DateTimeKey].text)
    ensures OriginalKey !in tags && DateTimeKey !in tags ==> r.None?
  {
    FirstTagText(tags, [OriginalKey, DateTimeKey])
  }

  /** The coordinates: converted only when both GPS position tags are present, and then
      each on its own, so one may convert while the other does not. */
  function HeaderCoords(tags: Tags): (r: (Option<real>, Option<real>))
    ensures !(LatKey in tags && LonKey in tags) ==> r == (None, None)
    ensures LatKey in tags && LonKey in tags ==>
      r.0 == RatiosToDecimal(tags[LatKey].values, TagRef(tags, LatRefKey)) &&
      r.1 == RatiosToDecimal(tags[LonKey].values, TagRef(tags, LonRefKey))
  {
    if LatKey in tags && LonKey in tags then
      (RatiosToDecimal(tags[LatKey].values, TagRef(tags, LatRefKey)),
       RatiosToDecimal(tags[LonKey].values, TagRef(tags, LonRefKey)))
    else (None, None)
  }

  /** `_exifread_extract(path)`: None exactly when the tag dictionary could not be read;
      otherwise a record with no `extra` whose fields come from the tags alone. */
  function ExifreadExtract(path: FilePath, tags: Option<Tags>): (r: Option<PhotoMeta>)
    ensures r.None? <==> tags.None?
    ensures r.Some? ==> r.value.path == path && r.value.extra == map[]
    ensures r.Some? ==> (r.value.lat, r.value.lon) == HeaderCoords(tags.value)
    ensures r.Some? ==> r.value.datetime == HeaderDateTime(tags.value)
    ensures r.Some? ==> r.value.make == TagText(tags.value, MakeKey)
    ensures r.Some? ==> r.value.model == TagText(tags.value, ModelKey)
  {
    match tags
    case None => None
    case Some(t) =>
      var (lat, lon) := HeaderCoords(t);
      Some(PhotoMeta(path, lat, lon, HeaderDateTime(t), TagText(t, MakeKey), TagText(t, ModelKey), map[]))
  }

  /** The header reader keeps no both-or-neither rule: a readable latitude next to a
      longitude tag that does not hold three parts yields a half pair. */
  lemma HeaderHalfPair(path: FilePath, latText: string, dn: int, dd: nat, mn: int, md: nat, sn: int, sd: nat,
                       lon: ExifTag)
    requires dd > 0 && md > 0 && sd > 0 && |lon.values| != 3
    ensures var tags := map[LatKey := ExifTag(latText, [RatioText(dn, dd), RatioText(mn, md), RatioText(sn, sd)]),
                            LonKey := lon];
      var r := ExifreadExtract(path, Some(tags));
      && r.Some?
      && r.value.lat == Some(Degrees((dn as real) / (dd as real), (mn as real) / (md as real),
                                     (sn as real) / (sd as real), false))
      && r.value.lon.None?
  {
    var tags := map[LatKey := ExifTag(latText, [RatioText(dn, dd), RatioText(mn, md), RatioText(sn, sd)]),
                    LonKey := lon];
    assert TagRef(tags, LatRefKey).None?;
    RatiosRoundTrip(dn, dd, mn, md, sn, sd, TagRef(tags, LatRefKey));
  }
}
