/** The Google Takeout sidecar reader (`_read_takeout_sidecar` in src/exif_loader.py).
    Reading the file is not modelled: each candidate path comes with what the reader
    found there, and `json.loads` is replaced by the decoded document. */
module Sidecar {
  import opened Options
  import opened PyValues
  import opened Types
  import opened PyPath

  /** What a candidate path holds: no file, a file that does not read or decode as
      JSON, or a decoded JSON document. */
  datatype Candidate = Missing | Unparseable | Parsed(doc: PyVal)

  /** The reader's triple `(lat, lon, datetime)`. */
  datatype Reading = Reading(lat: Option<real>, lon: Option<real>, datetime: Option<string>)

  const NoReading := Reading(None, None, None)

  type Pair = (Option<real>, Option<real>)

  predicate Complete(p: Pair) {
    p.0.Some? && p.1.Some?
  }

  /** The candidates in the order they are tried: `<name>.json`, then `<stem>.json`
      (the same path twice when the name has no suffix). */
  function SidecarPaths(p: FilePath): (r: seq<FilePath>)
    requires p.name != ""
    ensures |r| == 2
    ensures r[0] == FilePath(p.dir, p.name + ".json")
    ensures r[1] == FilePath(p.dir, Stem(p.name) + ".json")
    ensures !HasSuffix(p.name) ==> r[0] == r[1]
  {
    WithOwnSuffix(p, ".json");
    [WithSuffix(p, Suffix(p.name) + ".json"), WithSuffix(p, ".json")]
  }

  /** A value present but refused by `float`. */
  predicate Unconvertible(v: PyVal) {
    v != PNone && Float(v).None?
  }

  /** `float(v) if v is not None else None`; the outer None is the exception. */
  function Coerce(v: PyVal): (r: Option<Option<real>>)
    ensures r.None? <==> Unconvertible(v)
    ensures r.Some? ==> (r.value.None? <==> v == PNone)
    ensures r.Some? && r.value.Some? ==> Float(v) == r.value
  {
    if v == PNone then Some(None)
    else match Float(v)
      case Some(x) => Some(Some(x))
      case None => None
  }

  /** `pick_latlon(d)`: both fields converted by `float`; one value that does not
      convert nulls the pair. */
  function PickLatLon(d: map<string, PyVal>): (r: Pair)
    ensures Unconvertible(Get(d, "latitude")) || Unconvertible(Get(d, "longitude")) ==> r == (None, None)
    ensures r.0.Some? ==> Get(d, "latitude") != PNone && Float(Get(d, "latitude")) == r.0
    ensures r.1.Some? ==> Get(d, "longitude") != PNone && Float(Get(d, "longitude")) == r.1
    ensures !Unconvertible(Get(d, "latitude")) && !Unconvertible(Get(d, "longitude")) ==>
      (r.0.None? <==> Get(d, "latitude") == PNone) && (r.1.None? <==> Get(d, "longitude") == PNone)
  {
    match (Coerce(Get(d, "latitude")), Coerce(Get(d, "longitude")))
    case (Some(a), Some(b)) => (a, b)
    case _ => (None, None)
  }

  /** The keys searched for coordinates, in order. */
  const GeoKeys := ["geoDataExif", "geoData", "location"]

  /** The pair picked from the dictionary under `k`, or None when the value there is
      not a dictionary. */
  function PickAt(data: map<string, PyVal>, k: string): (r: Option<Pair>)
    ensures r.Some? <==> Get(data, k).PDict?
    ensures r.Some? ==> r.value == PickLatLon(Get(data, k).entries)
  {
    match Get(data, k)
    case PDict(gd) => Some(PickLatLon(gd))
    case _ => None
  }

  /** What each of the searched keys offers, in search order. */
  function Picks(data: map<string, PyVal>): (r: seq<Option<Pair>>)
    ensures |r| == |GeoKeys|
    ensures forall i :: 0 <= i < |GeoKeys| ==> r[i] == PickAt(data, GeoKeys[i])
  {
    [PickAt(data, GeoKeys[0]), PickAt(data, GeoKeys[1]), PickAt(data, GeoKeys[2])]
  }

  /** A key holding a dictionary that gives both coordinates. */
  predicate Found(pick: Option<Pair>) {
    pick.Some? && Complete(pick.value)
  }

  /** One turn of the search loop: a dictionary replaces the current pair, even with
      an incomplete one; anything else leaves it. */
  function Step(acc: Pair, pick: Option<Pair>): Pair {
    match pick
    case Some(p) => p
    case None => acc
  }

  /** The search loop over what the keys offer, starting from the pair `acc`: it stops
      at the first key that gives a complete pair. */
  function SearchCoords(picks: seq<Option<Pair>>, acc: Pair): (r: Pair)
    ensures r == acc || exists i :: 0 <= i < |picks| && picks[i] == Some(r)
    ensures Complete(r) ==> Complete(acc) || exists i :: 0 <= i < |picks| && Found(picks[i])
  {
    if picks == [] then acc
    else if Found(picks[0]) then picks[0].value
    else
      var r := SearchCoords(picks[1..], Step(acc, picks[0]));
      assert forall i :: 1 <= i < |picks| ==> picks[i] == picks[1..][i - 1];
      r
  }

  /** The first key giving a complete pair decides the coordinates. */
  lemma {:induction false} SearchFirstComplete(picks: seq<Option<Pair>>, acc: Pair, i: nat)
    requires i < |picks| && Found(picks[i])
    requires forall j :: 0 <= j < i ==> !Found(picks[j])
    ensures SearchCoords(picks, acc) == picks[i].value
  {
    if i > 0 {
      assert !Found(picks[0]);
      assert forall j :: 0 <= j < i - 1 ==> picks[1..][j] == picks[j + 1];
      SearchFirstComplete(picks[1..], Step(acc, picks[0]), i - 1);
    }
  }

  /** Reference definition for a search that never completes: the pair of the last
      key holding a dictionary, or `acc` when there is none. */
  function LastPick(picks: seq<Option<Pair>>, acc: Pair): Pair {
    if picks == [] then acc
    else match picks[|picks| - 1]
      case Some(p) => p
      case None => LastPick(picks[..|picks| - 1], acc)
  }

  lemma {:induction false} LastPickFront(first: Option<Pair>, rest: seq<Option<Pair>>, acc: Pair)
    ensures LastPick([first] + rest, acc) == LastPick(rest, Step(acc, first))
  {
    if rest != [] {
      var front := rest[..|rest| - 1];
      assert ([first] + rest)[..|rest|] == [first] + front;
      LastPickFront(first, front, acc);
    } else {
      assert ([first] + rest)[..0] == [];
    }
  }

  /** When no key gives a complete pair, the last dictionary seen wins, so an earlier
      half pair can be overwritten by a later empty one. */
  lemma {:induction false} SearchNoneComplete(picks: seq<Option<Pair>>, acc: Pair)
    requires forall j :: 0 <= j < |picks| ==> !Found(picks[j])
    ensures SearchCoords(picks, acc) == LastPick(picks, acc)
  {
    if picks != [] {
      assert forall j :: 0 <= j < |picks| - 1 ==> picks[1..][j] == picks[j + 1];
      SearchNoneComplete(picks[1..], Step(acc, picks[0]));
      assert picks == [picks[0]] + picks[1..];
      LastPickFront(picks[0], picks[1..], acc);
    }
  }

  /** The datetime value: `photoTakenTime.formatted or photoTakenTime.timestamp` when
      `photoTakenTime` is a dictionary, and only otherwise `creationTime or
      creationTimestamp`. */
  function SidecarDateTime(data: map<string, PyVal>): (r: PyVal)
    ensures Get(data, "photoTakenTime").PDict? ==>
      var t := Get(data, "photoTakenTime").entries;
      (Truthy(Get(t, "formatted")) ==> r == Get(t, "formatted")) &&
      (!Truthy(Get(t, "formatted")) ==> r == Get(t, "timestamp"))
    ensures !Get(data, "photoTakenTime").PDict? ==>
      (Truthy(Get(data, "creationTime")) ==> r == Get(data, "creationTime")) &&
      (!Truthy(Get(data, "creationTime")) ==> r == Get(data, "creationTimestamp"))
  {
    match Get(data, "photoTakenTime")
    case PDict(t) => Or(Get(t, "formatted"), Get(t, "timestamp"))
    case _ => Or(Get(data, "creationTime"), Get(data, "creationTimestamp"))
  }

  /** A photoTakenTime dictionary hides the creation keys entirely. */
  lemma TakenTimeHidesCreation(data: map<string, PyVal>, creation: PyVal)
    requires Get(data, "photoTakenTime").PDict?
    ensures SidecarDateTime(data["creationTime" := creation]) == SidecarDateTime(data)
    ensures SidecarDateTime(data["creationTimestamp" := creation]) == SidecarDateTime(data)
  {
    assert Get(data["creationTime" := creation], "photoTakenTime") == Get(data, "photoTakenTime");
    assert Get(data["creationTimestamp" := creation], "photoTakenTime") == Get(data, "photoTakenTime");
  }

  /** The reading a parsed dictionary gives, whether or not it ends the search. */
  function DocReading(data: map<string, PyVal>, render: PyVal -> string): (r: Reading)
    ensures (r.lat, r.lon) == SearchCoords(Picks(data), (None, None))
    ensures r.datetime.None? <==> SidecarDateTime(data) == PNone
    ensures SidecarDateTime(data).PStr? ==> r.datetime == Some(SidecarDateTime(data).s)
  {
    var (lat, lon) := SearchCoords(Picks(data), (None, None));
    var dt := SidecarDateTime(data);
    Reading(lat, lon, if dt == PNone then None else Some(Str(dt, render)))
  }

  /** What one candidate contributes, None meaning "try the next one": a missing or
      undecodable file, a document that is not a JSON object, and an object with
      neither a complete pair nor a datetime all fall through. */
  function Hit(c: Candidate, render: PyVal -> string): (r: Option<Reading>)
    ensures !c.Parsed? || !c.doc.PDict? ==> r.None?
    ensures r.Some? ==> Complete((r.value.lat, r.value.lon)) || r.value.datetime.Some?
    ensures c.Parsed? && c.doc.PDict? ==>
      var d := DocReading(c.doc.entries, render);
      (r.Some? <==> Complete((d.lat, d.lon)) || d.datetime.Some?) && (r.Some? ==> r.value == d)
  {
    match c
    case Parsed(PDict(data)) =>
      var d := DocReading(data, render);
      if (d.lat.Some? && d.lon.Some?) || d.datetime.Some? then Some(d) else None
    case _ => None
  }

  /** The candidate loop over what each candidate contributes: the first hit decides;
      none gives `(None, None, None)`. */
  function FirstHit(hits: seq<Option<Reading>>): (r: Reading)
    ensures r == NoReading || exists i :: 0 <= i < |hits| && hits[i] == Some(r)
    ensures (forall i :: 0 <= i < |hits| ==> hits[i].None?) ==> r == NoReading
  {
    if hits == [] then NoReading
    else match hits[0]
      case Some(x) => x
      case None =>
        var r := FirstHit(hits[1..]);
        assert forall i :: 1 <= i < |hits| ==> hits[i] == hits[1..][i - 1];
        r
  }

  /** The first hit is the answer; the misses before it are ignored. */
  lemma {:induction false} FirstHitWins(hits: seq<Option<Reading>>, i: nat)
    requires i < |hits| && hits[i].Some?
    requires forall j :: 0 <= j < i ==> hits[j].None?
    ensures FirstHit(hits) == hits[i].value
  {
    if i > 0 {
      assert forall j :: 0 <= j < i - 1 ==> hits[1..][j] == hits[j + 1];
      FirstHitWins(hits[1..], i - 1);
    }
  }

  /** The result of the loop is always one the reader can return: nothing, a complete
      pair, or a reading with a datetime. */
  lemma SidecarReturnsHit(cands: seq<Candidate>, render: PyVal -> string)
    ensures var r := FirstHit(seq(|cands|, i requires 0 <= i < |cands| => Hit(cands[i], render)));
      r == NoReading || Complete((r.lat, r.lon)) || r.datetime.Some?
  {
    var hits := seq(|cands|, i requires 0 <= i < |cands| => Hit(cands[i], render));
    var r := FirstHit(hits);
    if r != NoReading {
      var i :| 0 <= i < |hits| && hits[i] == Some(r);
      assert Hit(cands[i], render) == Some(r);
    }
  }

  /** `_read_takeout_sidecar(path)`, where `sidecarAt` tells what each path holds. */
  function ReadTakeoutSidecar(p: FilePath, sidecarAt: FilePath -> Candidate, render: PyVal -> string): (r: Reading)
    requires p.name != ""
    ensures var first := Hit(sidecarAt(FilePath(p.dir, p.name + ".json")), render);
      var second := Hit(sidecarAt(FilePath(p.dir, Stem(p.name) + ".json")), render);
      && (first.Some? ==> r == first.value)
      && (first.None? && second.Some? ==> r == second.value)
      && (first.None? && second.None? ==> r == NoReading)
  {
    var paths := SidecarPaths(p);
    var hits := [Hit(sidecarAt(paths[0]), render), Hit(sidecarAt(paths[1]), render)];
    if hits[0].Some? then
      FirstHitWins(hits, 0);
      FirstHit(hits)
    else if hits[1].Some? then
      FirstHitWins(hits, 1);
      FirstHit(hits)
    else
      assert forall i :: 0 <= i < |hits| ==> hits[i].None?;
      FirstHit(hits)
  }

  /** A document that is JSON but not an object is passed over like a missing file:
      the field lookups all sit under the `isinstance(data, dict)` test. */
  lemma NonObjectReadsAsMissing(p: FilePath, sidecarAt: FilePath -> Candidate, v: PyVal, render: PyVal -> string)
    requires p.name != ""
    requires sidecarAt(FilePath(p.dir, p.name + ".json")) == Parsed(v) && !v.PDict?
    ensures ReadTakeoutSidecar(p, sidecarAt, render)
         == ReadTakeoutSidecar(p, q => if q == FilePath(p.dir, p.name + ".json") then Missing else sidecarAt(q), render)
  {
  }
}
