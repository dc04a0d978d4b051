/** The full-decode reader (`_pillow_extract` in src/exif_loader.py). Opening and
    decoding the image is not modelled: the input is the tag dictionary `data` after
    the tag ids were translated to names, and None stands for an exception raised
    while opening or decoding. */
module PillowFallback {
  import opened Options
  import opened PyValues
  import opened GeoUtils
  import opened Types

  type Pair = (Option<real>, Option<real>)

  /** `data.get("GPSInfo", {})`. */
  function GpsInfo(data: map<string, PyVal>): PyVal {
    GetOr(data, "GPSInfo", PDict(map[]))
  }

  /** `gps_data`: the GPS dictionary, empty when the GPSInfo value is falsy. A truthy
      value that is not a dictionary has no `keys()`, and the AttributeError ends the
      whole read, which None stands for here. */
  function GpsData(data: map<string, PyVal>): (r: Option<map<string, PyVal>>)
    ensures r.None? <==> Truthy(GpsInfo(data)) && !GpsInfo(data).PDict?
    ensures r.Some? && r.value != map[] ==> "GPSInfo" in data && data["GPSInfo"] == PDict(r.value)
    ensures "GPSInfo" !in data ==> r == Some(map[])
  {
    var raw := GpsInfo(data);
    if !Truthy(raw) then Some(map[])
    else match raw
      case PDict(m) => Some(m)
      case _ => None
  }

  /** The coordinates: computed only from a non-empty GPS dictionary, each through
      `dms_to_decimal` on its own. */
  function DecodedCoords(gps: map<string, PyVal>): (r: Pair)
    ensures gps == map[] ==> r == (None, None)
    ensures gps != map[] ==>
      r.0 == DmsToDecimal(GetOr(gps, "GPSLatitude", PSeq([])), Get(gps, "GPSLatitudeRef")) &&
      r.1 == DmsToDecimal(GetOr(gps, "GPSLongitude", PSeq([])), Get(gps, "GPSLongitudeRef"))
    ensures "GPSLatitude" !in gps ==> r.0.None?
    ensures "GPSLongitude" !in gps ==> r.1.None?
  {
    if gps == map[] then (None, None)
    else (DmsToDecimal(GetOr(gps, "GPSLatitude", PSeq([])), Get(gps, "GPSLatitudeRef")),
          DmsToDecimal(GetOr(gps, "GPSLongitude", PSeq([])), Get(gps, "GPSLongitudeRef")))
  }

  /** The datetime: the original-capture value when truthy, else the general datetime
      when truthy, else None. */
  function DecodedDateTime(data: map<string, PyVal>, render: PyVal -> string): (r: Option<string>)
    ensures Truthy(Get(data, "DateTimeOriginal")) ==> r == Some(Str(Get(data, "DateTimeOriginal"), render))
    ensures !Truthy(Get(data, "DateTimeOriginal")) && Truthy(Get(data, "DateTime")) ==>
      r == Some(Str(Get(data, "DateTime"), render))
    ensures !Truthy(Get(data, "DateTimeOriginal")) && !Truthy(Get(data, "DateTime")) ==> r.None?
  {
    var v := Or(Get(data, "DateTimeOriginal"), Get(data, "DateTime"));
    if Truthy(v) then Some(Str(v, render)) else None
  }

  /** The text of a decoded value, kept only when the value is present and truthy. */
  function TruthyText(data: map<string, PyVal>, key: string, render: PyVal -> string): (r: Option<string>)
    ensures r.Some? <==> key in data && Truthy(data[key])
    ensures r.Some? ==> r.value == Str(data[key], render)
  {
    var v := Get(data, key);
    if Truthy(v) then Some(Str(v, render)) else None
  }

  /** `extra`: holds "altitude_m" exactly when GPSAltitude is present and unpacks into
      a pair that divides; every failure on the way is swallowed. */
  function Altitude(gps: map<string, PyVal>, render: PyVal -> string): (r: map<string, string>)
    ensures r.Keys <= {"altitude_m"}
    ensures "altitude_m" in r <==> Get(gps, "GPSAltitude") != PNone && Quotient(Get(gps, "GPSAltitude")).Some?
    ensures "altitude_m" in r ==> r["altitude_m"] == Str(PNum(Quotient(Get(gps, "GPSAltitude")).value), render)
  {
    var alt := Get(gps, "GPSAltitude");
    if alt == PNone then map[]
    else match Quotient(alt)
      case Some(q) => map["altitude_m" := Str(PNum(q), render)]
      case None => map[]
  }

  /** `_pillow_extract(path)`: None exactly when decoding failed or GPSInfo is a truthy
      non-dictionary; otherwise the fields each come from their own tags. */
  function PillowExtract(path: FilePath, decoded: Option<map<string, PyVal>>, render: PyVal -> string)
    : (r: Option<PhotoMeta>)
    ensures r.None? <==> decoded.None? || GpsData(decoded.value).None?
    ensures r.Some? ==>
      var data, gps := decoded.value, GpsData(decoded.value).value;
      && r.value.path == path
      && (r.value.lat, r.value.lon) == DecodedCoords(gps)
      && r.value.datetime == DecodedDateTime(data, render)
      && r.value.make == TruthyText(data, "Make", render)
      && r.value.model == TruthyText(data, "Model", render)
      && r.value.extra == Altitude(gps, render)
  {
    match decoded
    case None => None
    case Some(data) =>
      match GpsData(data)
      case None => None
      case Some(gps) =>
        var (lat, lon) := DecodedCoords(gps);
        Some(PhotoMeta(path, lat, lon, DecodedDateTime(data, render),
                       TruthyText(data, "Make", render), TruthyText(data, "Model", render),
                       Altitude(gps, render)))
  }

  /** An image without GPS information still yields a record, with no coordinates and
      no `extra`. */
  lemma NoGpsInfo(path: FilePath, data: map<string, PyVal>, render: PyVal -> string)
    requires "GPSInfo" !in data
    ensures var r := PillowExtract(path, Some(data), render);
      r.Some? && r.value.lat.None? && r.value.lon.None? && r.value.extra == map[]
  {
  }

  /** A GPSInfo tag that holds an IFD offset (a number) rather than a dictionary loses
      the whole record, make, model and datetime included. */
  lemma GpsInfoOffsetLosesRecord(path: FilePath, data: map<string, PyVal>, offset: real, render: PyVal -> string)
    requires offset != 0.0
    ensures PillowExtract(path, Some(data["GPSInfo" := PNum(offset)]), render).None?
  {
    assert GpsInfo(data["GPSInfo" := PNum(offset)]) == PNum(offset);
  }

  /** An altitude of (123, 2) is recorded as the text of 61.5; a single number (an
      unpackable rational) leaves `extra` empty. */
  lemma AltitudeExamples(gps: map<string, PyVal>, x: real, render: PyVal -> string)
    ensures Altitude(gps["GPSAltitude" := PSeq([PNum(123.0), PNum(2.0)])], render) == map["altitude_m" := render(PNum(61.5))]
    ensures Altitude(gps["GPSAltitude" := PNum(x)], render) == map[]
    ensures Altitude(gps["GPSAltitude" := PSeq([PNum(1.0), PNum(0.0)])], render) == map[]
  {
    var g := gps["GPSAltitude" := PSeq([PNum(123.0), PNum(2.0)])];
    assert Get(g, "GPSAltitude") == PSeq([PNum(123.0), PNum(2.0)]);
    assert Quotient(Get(g, "GPSAltitude")) == Some(61.5);
    var z := gps["GPSAltitude" := PSeq([PNum(1.0), PNum(0.0)])];
    assert Get(z, "GPSAltitude") == PSeq([PNum(1.0), PNum(0.0)]);
  }

  /** Like the header reader, the decoder keeps no both-or-neither rule: a GPS
      dictionary with a latitude and no longitude gives a half pair. */
  lemma DecodedHalfPair(gps: map<string, PyVal>)
    requires "GPSLongitude" !in gps
    requires "GPSLatitude" in gps && DmsToDecimal(gps["GPSLatitude"], Get(gps, "GPSLatitudeRef")).Some?
    ensures DecodedCoords(gps).0.Some? && DecodedCoords(gps).1.None?
  {
  }
}
