/** The per-photo resolver (`read_photo_meta` and `_drop_if_zero_coord` in
    src/exif_loader.py): the header reader first, then the sidecar to fill gaps, then
    the full decode only when the header read failed and a coordinate is still
    missing, and finally the (0, 0) filter. */
module Resolver {
  import opened Options
  import opened PyValues
  import opened Types
  import opened ExifHeader
  import opened Sidecar
  import opened PillowFallback

  /** The tolerance of the (0, 0) filter, 1e-9. */
  const Epsilon: real := 0.000000001

  function Abs(x: real): (r: real)
    ensures r >= 0.0 && (r == x || r == -x)
  {
    if x < 0.0 then -x else x
  }

  /** Both coordinates present and within `Epsilon` of zero: the "no fix" value some
      cameras write. */
  predicate IsSentinel(lat: Option<real>, lon: Option<real>) {
    lat.Some? && lon.Some? && Abs(lat.value) < Epsilon && Abs(lon.value) < Epsilon
  }

  /** `_drop_if_zero_coord(lat, lon)`: the pair is kept unless it is the sentinel,
      which becomes `(None, None)`. */
  function DropIfZeroCoord(lat: Option<real>, lon: Option<real>): (r: (Option<real>, Option<real>))
    ensures r == (lat, lon) || r == (None, None)
    ensures r != (lat, lon) <==> IsSentinel(lat, lon)
    ensures !IsSentinel(r.0, r.1)
  {
    if lat.None? || lon.None? then (lat, lon)
    else if Abs(lat.value) < Epsilon && Abs(lon.value) < Epsilon then (None, None)
    else (lat, lon)
  }

  /** Applying the filter twice changes nothing more. */
  lemma DropIdempotent(lat: Option<real>, lon: Option<real>)
    ensures var (a, b) := DropIfZeroCoord(lat, lon); DropIfZeroCoord(a, b) == (a, b)
  {
  }

  /** (0, 0) and a pair within 1e-9 of it are dropped; (0, 5) and half pairs stay. */
  lemma SentinelExamples(x: real)
    ensures DropIfZeroCoord(Some(0.0), Some(0.0)) == (None, None)
    ensures DropIfZeroCoord(Some(0.0000000001), Some(-0.0000000001)) == (None, None)
    ensures DropIfZeroCoord(Some(0.0), Some(5.0)) == (Some(0.0), Some(5.0))
    ensures DropIfZeroCoord(Some(0.0), None) == (Some(0.0), None)
    ensures DropIfZeroCoord(None, Some(x)) == (None, Some(x))
  {
  }

  /** The record the header reader leaves: its fields, or nothing at all when the
      read failed; `extra` always starts empty. */
  function HeaderStage(path: FilePath, m: Option<PhotoMeta>): (d: PhotoMeta)
    ensures d.path == path && d.extra == map[]
    ensures m.None? ==> d.lat.None? && d.lon.None? && d.datetime.None? && d.make.None? && d.model.None?
    ensures m.Some? ==> d.lat == m.value.lat && d.lon == m.value.lon && d.datetime == m.value.datetime
                        && d.make == m.value.make && d.model == m.value.model
  {
    match m
    case None => PhotoMeta(path, None, None, None, None, None, map[])
    case Some(h) => PhotoMeta(path, h.lat, h.lon, h.datetime, h.make, h.model, map[])
  }

  /** The sidecar fills lat, lon and datetime, each only where it is still None. */
  function SidecarStage(d: PhotoMeta, s: Reading): (e: PhotoMeta)
    ensures e.path == d.path && e.make == d.make && e.model == d.model && e.extra == d.extra
    ensures d.lat.Some? ==> e.lat == d.lat
    ensures d.lon.Some? ==> e.lon == d.lon
    ensures d.datetime.Some? ==> e.datetime == d.datetime
    ensures d.lat.None? ==> e.lat == s.lat
    ensures d.lon.None? ==> e.lon == s.lon
    ensures d.datetime.None? ==> e.datetime == s.datetime
  {
    d.(lat := OrElse(d.lat, s.lat), lon := OrElse(d.lon, s.lon), datetime := OrElse(d.datetime, s.datetime))
  }

  /** The exact condition for the decode fallback: the header read failed and a
      coordinate is still missing. */
  predicate NeedsDecode(m: Option<PhotoMeta>, d: PhotoMeta) {
    m.None? && (d.lat.None? || d.lon.None?)
  }

  /** The decoded record fills every field that is still None, and its `extra` is
      merged into the (empty) `extra`. */
  function DecodeStage(d: PhotoMeta, pm: PhotoMeta): (e: PhotoMeta)
    ensures e.path == d.path
    ensures d.lat.Some? ==> e.lat == d.lat
    ensures d.lon.Some? ==> e.lon == d.lon
    ensures d.datetime.Some? ==> e.datetime == d.datetime
    ensures d.make.Some? ==> e.make == d.make
    ensures d.model.Some? ==> e.model == d.model
    ensures d.lat.None? ==> e.lat == pm.lat
    ensures d.lon.None? ==> e.lon == pm.lon
    ensures d.datetime.None? ==> e.datetime == pm.datetime
    ensures d.make.None? ==> e.make == pm.make
    ensures d.model.None? ==> e.model == pm.model
    ensures d.extra == map[] ==> e.extra == pm.extra
  {
    d.(lat := OrElse(d.lat, pm.lat), lon := OrElse(d.lon, pm.lon), datetime := OrElse(d.datetime, pm.datetime),
       make := OrElse(d.make, pm.make), model := OrElse(d.model, pm.model), extra := d.extra + pm.extra)
  }

  /** The record before the (0, 0) filter. */
  function Merged(path: FilePath, header: Option<Tags>, sidecarAt: FilePath -> Candidate,
                  decoded: Option<map<string, PyVal>>, render: PyVal -> string): (e: PhotoMeta)
    requires path.name != ""
    ensures e.path == path
    ensures var m, s := ExifreadExtract(path, header), ReadTakeoutSidecar(path, sidecarAt, render);
      m.Some? ==>
        && e.lat == OrElse(m.value.lat, s.lat) && e.lon == OrElse(m.value.lon, s.lon)
        && e.datetime == OrElse(m.value.datetime, s.datetime)
        && e.make == m.value.make && e.model == m.value.model && e.extra == map[]
    ensures var m, s := ExifreadExtract(path, header), ReadTakeoutSidecar(path, sidecarAt, render);
      var pm := PillowExtract(path, decoded, render);
      m.None? && (Complete((s.lat, s.lon)) || pm.None?) ==>
        e == PhotoMeta(path, s.lat, s.lon, s.datetime, None, None, map[])
    ensures var m, s := ExifreadExtract(path, header), ReadTakeoutSidecar(path, sidecarAt, render);
      var pm := PillowExtract(path, decoded, render);
      m.None? && !Complete((s.lat, s.lon)) && pm.Some? ==>
        && e.lat == OrElse(s.lat, pm.value.lat) && e.lon == OrElse(s.lon, pm.value.lon)
        && e.datetime == OrElse(s.datetime, pm.value.datetime)
        && e.make == pm.value.make && e.model == pm.value.model && e.extra == pm.value.extra
  {
    var m := ExifreadExtract(path, header);
    var d := SidecarStage(HeaderStage(path, m), ReadTakeoutSidecar(path, sidecarAt, render));
    if NeedsDecode(m, d) then
      match PillowExtract(path, decoded, render)
      case Some(pm) => DecodeStage(d, pm)
      case None => d
    else d
  }

  /** `read_photo_meta(path)`. The three readers' inputs stand for the file: the
      header tags, what each sidecar path holds, and the decoded tag dictionary. */
  function ReadPhotoMeta(path: FilePath, header: Option<Tags>, sidecarAt: FilePath -> Candidate,
                         decoded: Option<map<string, PyVal>>, render: PyVal -> string): (r: PhotoMeta)
    requires path.name != ""
    ensures r.path == path
    ensures !IsSentinel(r.lat, r.lon)
    ensures var m := ExifreadExtract(path, header);
      m.Some? ==> r.make == m.value.make && r.model == m.value.model && r.extra == map[]
    ensures var m := ExifreadExtract(path, header);
      m.Some? && m.value.datetime.Some? ==> r.datetime == m.value.datetime
    ensures var m := ExifreadExtract(path, header);
      m.Some? && HasCoords(m.value) && !IsSentinel(m.value.lat, m.value.lon) ==>
      r.lat == m.value.lat && r.lon == m.value.lon
    ensures var m := ExifreadExtract(path, header);
      m.Some? && m.value.lat.Some? ==> r.lat == m.value.lat || (r.lat.None? && r.lon.None?)
    ensures var m := ExifreadExtract(path, header);
      m.Some? && m.value.lon.Some? ==> r.lon == m.value.lon || (r.lat.None? && r.lon.None?)
    ensures var s := ReadTakeoutSidecar(path, sidecarAt, render);
      r.extra != map[] ==> header.None? && (s.lat.None? || s.lon.None?) && PillowExtract(path, decoded, render).Some?
  {
    var e := Merged(path, header, sidecarAt, decoded, render);
    var (lat, lon) := DropIfZeroCoord(e.lat, e.lon);
    e.(lat := lat, lon := lon)
  }

  /** A header read that gives both coordinates (not the sentinel) and a datetime
      decides those fields, make and model: neither the sidecar nor the decoder can
      change the record. */
  lemma HeaderCompleteIgnoresOthers(path: FilePath, header: Option<Tags>,
                                    sidecarAt: FilePath -> Candidate, otherSidecarAt: FilePath -> Candidate,
                                    decoded: Option<map<string, PyVal>>, otherDecoded: Option<map<string, PyVal>>,
                                    render: PyVal -> string)
    requires path.name != ""
    requires var m := ExifreadExtract(path, header); m.Some? && HasCoords(m.value) && m.value.datetime.Some?
    ensures ReadPhotoMeta(path, header, sidecarAt, decoded, render)
         == ReadPhotoMeta(path, header, otherSidecarAt, otherDecoded, render)
  {
  }

  /** Once the header read succeeds the decoded image is never consulted, even when the
      coordinates are still missing: a file with readable make and model but no GPS
      does not reach the fallback. */
  lemma DecodeOnlyOnHeaderFailure(path: FilePath, header: Option<Tags>, sidecarAt: FilePath -> Candidate,
                                  decoded: Option<map<string, PyVal>>, otherDecoded: Option<map<string, PyVal>>,
                                  render: PyVal -> string)
    requires path.name != "" && header.Some?
    ensures ReadPhotoMeta(path, header, sidecarAt, decoded, render)
         == ReadPhotoMeta(path, header, sidecarAt, otherDecoded, render)
  {
  }

  /** A complete pair from the sidecar also keeps the decoder away. */
  lemma SidecarPairSkipsDecode(path: FilePath, header: Option<Tags>, sidecarAt: FilePath -> Candidate,
                               decoded: Option<map<string, PyVal>>, otherDecoded: Option<map<string, PyVal>>,
                               render: PyVal -> string)
    requires path.name != ""
    requires var s := ReadTakeoutSidecar(path, sidecarAt, render); s.lat.Some? && s.lon.Some?
    ensures ReadPhotoMeta(path, header, sidecarAt, decoded, render)
         == ReadPhotoMeta(path, header, sidecarAt, otherDecoded, render)
  {
    var m := ExifreadExtract(path, header);
    var d := SidecarStage(HeaderStage(path, m), ReadTakeoutSidecar(path, sidecarAt, render));
    assert !NeedsDecode(m, d);
  }

  /** When the header read fails and the sidecar leaves a coordinate missing, a
      successful decode fills the gaps and supplies `extra`, make and model. */
  lemma DecodeFillsGaps(path: FilePath, sidecarAt: FilePath -> Candidate,
                        decoded: Option<map<string, PyVal>>, render: PyVal -> string)
    requires path.name != ""
    requires var s := ReadTakeoutSidecar(path, sidecarAt, render); s.lat.None? || s.lon.None?
    requires PillowExtract(path, decoded, render).Some?
    ensures var s, pm := ReadTakeoutSidecar(path, sidecarAt, render), PillowExtract(path, decoded, render).value;
      var e := Merged(path, None, sidecarAt, decoded, render);
      && e.lat == OrElse(s.lat, pm.lat) && e.lon == OrElse(s.lon, pm.lon)
      && e.datetime == OrElse(s.datetime, pm.datetime)
      && e.make == pm.make && e.model == pm.model && e.extra == pm.extra
  {
  }

  /** A sidecar that does not decode as JSON is treated exactly like a missing one. */
  lemma MalformedSidecarIgnored(path: FilePath, header: Option<Tags>,
                                sidecarAt: FilePath -> Candidate, cleaned: FilePath -> Candidate,
                                decoded: Option<map<string, PyVal>>, render: PyVal -> string)
    requires path.name != ""
    requires forall q :: cleaned(q) == (if sidecarAt(q) == Unparseable then Missing else sidecarAt(q))
    ensures ReadPhotoMeta(path, header, sidecarAt, decoded, render)
         == ReadPhotoMeta(path, header, cleaned, decoded, render)
  {
    var paths := SidecarPaths(path);
    assert Hit(sidecarAt(paths[0]), render) == Hit(cleaned(paths[0]), render);
    assert Hit(sidecarAt(paths[1]), render) == Hit(cleaned(paths[1]), render);
  }

  /** The sidecar fills a coordinate the header reader could not convert, while the
      header's other coordinate stays: lat and lon are filled independently, from
      different sources. */
  lemma MixedSources(path: FilePath, header: Option<Tags>, sidecarAt: FilePath -> Candidate,
                     decoded: Option<map<string, PyVal>>, render: PyVal -> string)
    requires path.name != ""
    requires var m := ExifreadExtract(path, header);
      m.Some? && m.value.lat.Some? && m.value.lon.None?
    requires var s := ReadTakeoutSidecar(path, sidecarAt, render); s.lat.Some? && s.lon.Some?
    ensures var e := Merged(path, header, sidecarAt, decoded, render);
      e.lat == ExifreadExtract(path, header).value.lat && e.lon == ReadTakeoutSidecar(path, sidecarAt, render).lon
  {
  }

  /** Nothing readable anywhere: a record with the path and nothing else. */
  lemma NothingReadable(path: FilePath, render: PyVal -> string)
    requires path.name != ""
    ensures ReadPhotoMeta(path, None, q => Missing, None, render)
         == PhotoMeta(path, None, None, None, None, None, map[])
  {
    var paths := SidecarPaths(path);
    assert Hit((q => Missing)(paths[0]), render).None?;
  }
}
