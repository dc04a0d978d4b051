/** The resolution loop of src/main.py: every photo is resolved and stored, and the
    ones without both coordinates are also listed as skipped. */
module Pipeline {
  import opened Options
  import opened PyValues
  import opened Types
  import opened GeoUtils
  import opened ExifHeader
  import opened Sidecar
  import opened Resolver
  import opened DataStore

  /** The paths the loop passes to `skip`, in scan order. */
  function SkippedPaths(metas: seq<PhotoMeta>): (r: seq<FilePath>)
    ensures |r| + |Points(metas)| == |metas|
    ensures forall p :: p in r ==> exists i :: 0 <= i < |metas| && !HasCoords(metas[i]) && metas[i].path == p
  {
    if metas == [] then []
    else
      var front, m := metas[..|metas| - 1], metas[|metas| - 1];
      var rest := SkippedPaths(front);
      assert forall i :: 0 <= i < |front| ==> front[i] == metas[i];
      if HasCoords(m) then rest else rest + [m.path]
  }

  /** A sidecar holding just a `geoData` position. */
  function GeoSidecar(lat: real, lon: real): PyVal {
    PDict(map["geoData" := PDict(map["latitude" := PNum(lat), "longitude" := PNum(lon)])])
  }

  /** Header tags holding a whole-number position, north and east. */
  function PositionTags(lat: (int, int, int), lon: (int, int, int)): Tags {
    map[LatKey := ExifTag("", [RatioText(lat.0, 1), RatioText(lat.1, 1), RatioText(lat.2, 1)]),
        LonKey := ExifTag("", [RatioText(lon.0, 1), RatioText(lon.1, 1), RatioText(lon.2, 1)])]
  }

  lemma PositionHeader(path: FilePath, lat: (int, int, int), lon: (int, int, int))
    ensures var m := ExifreadExtract(path, Some(PositionTags(lat, lon)));
      m.Some? && m.value.lat == Some(Degrees(lat.0 as real, lat.1 as real, lat.2 as real, false))
      && m.value.lon == Some(Degrees(lon.0 as real, lon.1 as real, lon.2 as real, false))
  {
    var tags := PositionTags(lat, lon);
    assert TagRef(tags, LatRefKey).None? && TagRef(tags, LonRefKey).None?;
    WholeRatiosRoundTrip(lat.0, lat.1, lat.2, None);
    WholeRatiosRoundTrip(lon.0, lon.1, lon.2, None);
  }

  /** The photo with a header position keeps it. */
  lemma HeaderPhoto(a: FilePath, lat: (int, int, int), lon: (int, int, int), render: PyVal -> string)
    requires a.name != ""
    requires lat.0 >= 1 && lat.1 >= 0 && lat.2 >= 0 && lon.0 >= 0 && lon.1 >= 0 && lon.2 >= 0
    ensures HasCoords(ReadPhotoMeta(a, Some(PositionTags(lat, lon)), q => Missing, None, render))
  {
    PositionHeader(a, lat, lon);
  }

  /** The photo with an unreadable header takes its position from the sidecar. */
  lemma SidecarPhoto(b: FilePath, sidecarAt: FilePath -> Candidate, render: PyVal -> string)
    requires b.name != ""
    requires sidecarAt(FilePath(b.dir, b.name + ".json")) == Parsed(GeoSidecar(48.85, 2.35))
    ensures var m := ReadPhotoMeta(b, None, sidecarAt, None, render);
      m.lat == Some(48.85) && m.lon == Some(2.35)
  {
    var doc := GeoSidecar(48.85, 2.35).entries;
    var picks := Picks(doc);
    assert picks[0].None?;
    assert picks[1] == Some((Some(48.85), Some(2.35)));
    SearchFirstComplete(picks, (None, None), 1);
  }

  /** Two records with coordinates and one without: two points, one skipped path, and
      three rows. */
  lemma Classify(ma: PhotoMeta, mb: PhotoMeta, mc: PhotoMeta)
    requires HasCoords(ma) && HasCoords(mb) && !HasCoords(mc)
    ensures |Points([ma, mb, mc])| == 2
    ensures SkippedPaths([ma, mb, mc]) == [mc.path]
    ensures |Rows([ma, mb, mc])| == 3
  {
    var metas := [ma, mb, mc];
    assert metas[..2] == [ma, mb] && metas[..2][..1] == [ma] && metas[..2][..1][..0] == [];
    assert metas == [ma] + [mb] + [mc];
    PointsAppend([ma] + [mb], [mc]);
    PointsAppend([ma], [mb]);
    PointsOfOne(ma);
    PointsOfOne(mb);
    PointsOfOne(mc);
  }

  /** Three photos: one with a full header position, one with an unreadable header but
      a sidecar position, one unreadable everywhere. Two records carry coordinates and
      one path is skipped, while all three are stored. The header position has at
      least one whole degree of latitude, so it is not the (0, 0) sentinel. */
  lemma ThreePhotos(a: FilePath, b: FilePath, c: FilePath, lat: (int, int, int), lon: (int, int, int),
                    sidecarAt: FilePath -> Candidate, render: PyVal -> string)
    requires a.name != "" && b.name != "" && c.name != ""
    requires lat.0 >= 1 && lat.1 >= 0 && lat.2 >= 0 && lon.0 >= 0 && lon.1 >= 0 && lon.2 >= 0
    requires sidecarAt(FilePath(b.dir, b.name + ".json")) == Parsed(GeoSidecar(48.85, 2.35))
    ensures var metas := [ReadPhotoMeta(a, Some(PositionTags(lat, lon)), q => Missing, None, render),
                          ReadPhotoMeta(b, None, sidecarAt, None, render),
                          ReadPhotoMeta(c, None, q => Missing, None, render)];
      |Points(metas)| == 2 && SkippedPaths(metas) == [c] && |Rows(metas)| == 3
  {
    HeaderPhoto(a, lat, lon, render);
    SidecarPhoto(b, sidecarAt, render);
    NothingReadable(c, render);
    Classify(ReadPhotoMeta(a, Some(PositionTags(lat, lon)), q => Missing, None, render),
             ReadPhotoMeta(b, None, sidecarAt, None, render),
             ReadPhotoMeta(c, None, q => Missing, None, render));
  }
}
