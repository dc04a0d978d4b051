/** The record repository (src/data_store.py): an append-only store of resolved
    records and skipped paths, and the pure construction of GeoJSON features and CSV
    rows that happens before serialisation. Writing files, `json.dumps` and the pandas
    frame are not modelled. */
module DataStore {
  import opened Options
  import opened PyText
  import opened Types

  /** `_safe_rel` after `os.path.relpath`: the relative path (None when relpath raised)
      with every backslash turned into a forward slash. */
  function SafeRel(rel: Option<string>): (r: Option<string>)
    ensures r.None? <==> rel.None?
    ensures r.Some? ==> '\\' !in r.value && |r.value| == |rel.value|
    ensures r.Some? ==> forall i :: 0 <= i < |r.value| ==>
      r.value[i] == (if rel.value[i] == '\\' then '/' else rel.value[i])
  {
    match rel
    case None => None
    case Some(s) => Some(Replace(s, '\\', '/'))
  }

  /** Normalising twice is normalising once, and a path without backslashes is kept. */
  lemma SafeRelIdempotent(rel: Option<string>)
    ensures SafeRel(SafeRel(rel)) == SafeRel(rel)
    ensures rel.Some? && '\\' !in rel.value ==> SafeRel(rel) == rel
  {
    if rel.Some? {
      var s := SafeRel(rel).value;
      assert SafeRel(Some(s)).value == s;
      if '\\' !in rel.value {
        assert s == rel.value;
      }
    }
  }

  function Coord(m: PhotoMeta): (real, real)
    requires HasCoords(m)
  {
    (m.lat.value, m.lon.value)
  }

  /** `points()`: `(lat, lon)` of the records holding both coordinates, in insertion
      order. */
  function Points(items: seq<PhotoMeta>): (r: seq<(real, real)>)
    ensures |r| <= |items|
    ensures forall p :: p in r ==> exists i :: 0 <= i < |items| && HasCoords(items[i]) && Coord(items[i]) == p
  {
    if items == [] then []
    else
      var front, m := items[..|items| - 1], items[|items| - 1];
      var rest := Points(front);
      assert forall i :: 0 <= i < |front| ==> front[i] == items[i];
      if HasCoords(m) then rest + [Coord(m)] else rest
  }

  /** The points of one record: its pair when it has both coordinates, none otherwise. */
  lemma PointsOfOne(m: PhotoMeta)
    ensures Points([m]) == if HasCoords(m) then [Coord(m)] else []
  {
    assert [m][..0] == [];
  }

  /** The filter distributes over concatenation, which with `PointsOfOne` pins down
      the order of the result. */
  lemma {:induction false} PointsAppend(xs: seq<PhotoMeta>, ys: seq<PhotoMeta>)
    ensures Points(xs + ys) == Points(xs) + Points(ys)
  {
    if ys != [] {
      var front := ys[..|ys| - 1];
      assert (xs + ys)[..|xs + ys| - 1] == xs + front;
      assert (xs + ys)[|xs + ys| - 1] == ys[|ys| - 1];
      PointsAppend(xs, front);
    } else {
      assert xs + ys == xs;
    }
  }

  /** Every record holding both coordinates contributes its pair. */
  lemma {:induction false} PointsComplete(items: seq<PhotoMeta>, i: nat)
    requires i < |items| && HasCoords(items[i])
    ensures Coord(items[i]) in Points(items)
  {
    var xs, ys := items[..i], items[i..];
    assert items == xs + ([items[i]] + ys[1..]);
    PointsAppend(xs, [items[i]] + ys[1..]);
    PointsAppend([items[i]], ys[1..]);
    PointsOfOne(items[i]);
  }

  /** The thumbnail of a record: looked up by its path when a thumbnail map was given. */
  function Thumb(thumbs: Option<map<FilePath, string>>, p: FilePath): (r: Option<string>)
    ensures r.Some? <==> thumbs.Some? && p in thumbs.value
    ensures r.Some? ==> r.value == thumbs.value[p]
  {
    match thumbs
    case Some(t) => if p in t then Some(t[p]) else None
    case None => None
  }

  /** The `extra` entries as property values. */
  function ExtraProps(extra: map<string, string>): (r: map<string, Option<string>>)
    ensures r.Keys == extra.Keys
    ensures forall k :: k in extra ==> r[k] == Some(extra[k])
  {
    map k | k in extra :: Some(extra[k])
  }

  /** The properties of a feature, built as `{path, datetime, make, model, **extra,
      thumb, img_rel}`: later keys win. */
  function Properties(m: PhotoMeta, thumb: Option<string>, imgRel: Option<string>): map<string, Option<string>> {
    map["path" := Some(m.path.name), "datetime" := m.datetime, "make" := m.make, "model" := m.model]
      + ExtraProps(m.extra) + map["thumb" := thumb, "img_rel" := imgRel]
  }

  /** The keys of the properties and which source wins for each: "thumb" and
      "img_rel" always, then `extra`, then the record's own fields. */
  lemma PropertyValues(m: PhotoMeta, thumb: Option<string>, imgRel: Option<string>)
    ensures var r := Properties(m, thumb, imgRel);
      && r.Keys == {"path", "datetime", "make", "model", "thumb", "img_rel"} + m.extra.Keys
      && r["thumb"] == thumb && r["img_rel"] == imgRel
      && (forall k :: k in m.extra && k != "thumb" && k != "img_rel" ==> r[k] == Some(m.extra[k]))
      && ("path" !in m.extra ==> r["path"] == Some(m.path.name))
      && ("datetime" !in m.extra ==> r["datetime"] == m.datetime)
      && ("make" !in m.extra ==> r["make"] == m.make)
      && ("model" !in m.extra ==> r["model"] == m.model)
  {
  }

  /** A GeoJSON point feature: its `[lon, lat]` coordinates and its properties. */
  datatype Feature = Feature(coordinates: seq<real>, properties: map<string, Option<string>>)

  /** The feature of one record; `rel` stands for `os.path.relpath` from the HTML
      directory, None when it raised. */
  function FeatureOf(m: PhotoMeta, thumbs: Option<map<FilePath, string>>, rel: FilePath -> Option<string>): (f: Feature)
    requires HasCoords(m)
    ensures f.coordinates == [m.lon.value, m.lat.value]
    ensures f.properties == Properties(m, Thumb(thumbs, m.path), SafeRel(rel(m.path)))
  {
    Feature([m.lon.value, m.lat.value], Properties(m, Thumb(thumbs, m.path), SafeRel(rel(m.path))))
  }

  /** The loop of `to_geojson`: one feature per record with both coordinates. */
  function Features(items: seq<PhotoMeta>, thumbs: Option<map<FilePath, string>>, rel: FilePath -> Option<string>)
    : (r: seq<Feature>)
    ensures |r| == |Points(items)|
    ensures forall i :: 0 <= i < |r| ==> r[i].coordinates == [Points(items)[i].1, Points(items)[i].0]
  {
    if items == [] then []
    else
      var front, m := items[..|items| - 1], items[|items| - 1];
      var rest := Features(front, thumbs, rel);
      if HasCoords(m) then rest + [FeatureOf(m, thumbs, rel)] else rest
  }

  /** A CSV cell: empty, a number, or text. */
  datatype Cell = Blank | Number(value: real) | Text(text: string)

  function OptText(v: Option<string>): Cell {
    match v
    case None => Blank
    case Some(s) => Text(s)
  }

  function OptNumber(v: Option<real>): Cell {
    match v
    case None => Blank
    case Some(x) => Number(x)
  }

  /** One CSV row, built as `{path, lat, lon, datetime, make, model, **extra}`: an
      `extra` key overrides a fixed column of the same name. */
  function Row(m: PhotoMeta): map<string, Cell> {
    map["path" := Text(PathText(m.path)), "lat" := OptNumber(m.lat), "lon" := OptNumber(m.lon),
        "datetime" := OptText(m.datetime), "make" := OptText(m.make), "model" := OptText(m.model)]
      + map k | k in m.extra :: Text(m.extra[k])
  }

  /** The columns of a row and the value of every cell: an `extra` entry as text,
      otherwise the record's field, blank when it is None. */
  lemma RowCells(m: PhotoMeta)
    ensures var r := Row(m);
      && r.Keys == {"path", "lat", "lon", "datetime", "make", "model"} + m.extra.Keys
      && (forall k :: k in m.extra ==> r[k] == Text(m.extra[k]))
      && ("path" !in m.extra ==> r["path"] == Text(PathText(m.path)))
      && ("lat" !in m.extra ==> r["lat"] == if m.lat.Some? then Number(m.lat.value) else Blank)
      && ("lon" !in m.extra ==> r["lon"] == if m.lon.Some? then Number(m.lon.value) else Blank)
      && ("datetime" !in m.extra ==> r["datetime"] == if m.datetime.Some? then Text(m.datetime.value) else Blank)
      && ("make" !in m.extra ==> r["make"] == if m.make.Some? then Text(m.make.value) else Blank)
      && ("model" !in m.extra ==> r["model"] == if m.model.Some? then Text(m.model.value) else Blank)
  {
  }

  /** The loop of `to_csv`: one row per record, in insertion order. */
  function Rows(items: seq<PhotoMeta>): (r: seq<map<string, Cell>>)
    ensures |r| == |items|
    ensures forall i :: 0 <= i < |items| ==> r[i] == Row(items[i])
  {
    if items == [] then []
    else
      var front := items[..|items| - 1];
      assert forall i :: 0 <= i < |front| ==> front[i] == items[i];
      Rows(front) + [Row(items[|items| - 1])]
  }

  /** `PhotoRepository`: `items` and `skipped` only ever grow at the end. */
  class PhotoRepository {
    var items: seq<PhotoMeta>
    var skipped: seq<FilePath>

    constructor()
      ensures items == [] && skipped == []
    {
      items := [];
      skipped := [];
    }

    /** `add(meta)`. */
    method Add(m: PhotoMeta)
      modifies this
      ensures items == old(items) + [m] && skipped == old(skipped)
    {
      items := items + [m];
    }

    /** `skip(path)`. */
    method Skip(p: FilePath)
      modifies this
      ensures skipped == old(skipped) + [p] && items == old(items)
    {
      skipped := skipped + [p];
    }

    /** `items()`: every record added, in insertion order. */
    method Items() returns (r: seq<PhotoMeta>)
      ensures |r| == |items| && forall i :: 0 <= i < |r| ==> r[i] == items[i]
    {
      r := items;
    }

    /** `points()`. */
    method GpsPoints() returns (r: seq<(real, real)>)
      ensures r == Points(items)
      ensures forall i :: 0 <= i < |items| && HasCoords(items[i]) ==> Coord(items[i]) in r
    {
      r := [];
      var i := 0;
      while i < |items|
        invariant 0 <= i <= |items|
        invariant r == Points(items[..i])
      {
        assert items[..i + 1][..i] == items[..i];
        var m := items[i];
        if m.lat.Some? && m.lon.Some? {
          r := r + [(m.lat.value, m.lon.value)];
        }
        i := i + 1;
      }
      assert items[..i] == items;
      forall j | 0 <= j < |items| && HasCoords(items[j])
        ensures Coord(items[j]) in r
      {
        PointsComplete(items, j);
      }
    }

    /** The features `to_geojson` writes. */
    method GeoJsonFeatures(thumbs: Option<map<FilePath, string>>, rel: FilePath -> Option<string>)
      returns (fs: seq<Feature>)
      ensures fs == Features(items, thumbs, rel)
      ensures |fs| == |Points(items)|
    {
      fs := [];
      var i := 0;
      while i < |items|
        invariant 0 <= i <= |items|
        invariant fs == Features(items[..i], thumbs, rel)
      {
        assert items[..i + 1][..i] == items[..i];
        var m := items[i];
        if m.lat.Some? && m.lon.Some? {
          fs := fs + [FeatureOf(m, thumbs, rel)];
        }
        i := i + 1;
      }
      assert items[..i] == items;
    }

    /** The rows `to_csv` writes: one per record, with or without coordinates. */
    method CsvRows() returns (rows: seq<map<string, Cell>>)
      ensures rows == Rows(items)
      ensures |rows| == |items|
    {
      rows := [];
      var i := 0;
      while i < |items|
        invariant 0 <= i <= |items|
        invariant rows == Rows(items[..i])
      {
        assert items[..i + 1][..i] == items[..i];
        rows := rows + [Row(items[i])];
        i := i + 1;
      }
      assert items[..i] == items;
    }
  }
}
