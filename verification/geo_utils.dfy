/** Degrees-minutes-seconds conversion and bounding boxes (src/geo_utils.py). */
module GeoUtils {
  import opened Options
  import opened PyValues

  /** `ref in ("S", "W")`: the hemisphere references that make a coordinate negative. */
  predicate Negates(ref: PyVal) {
    ref == PStr("S") || ref == PStr("W")
  }

  /** Decimal degrees `deg + min/60 + sec/3600`, negated for the south and west. */
  function Degrees(deg: real, min: real, sec: real, negate: bool): real {
    var v := deg + min / 60.0 + sec / 3600.0;
    if negate then -v else v
  }

  /** `n / d` for one component unpacked as `n, d`; None stands for the unpacking
      error, the TypeError of a non-numeric operand, or the ZeroDivisionError. */
  function Quotient(pair: PyVal): (r: Option<real>)
    ensures r.Some? <==>
      pair.PSeq? && |pair.items| == 2 && IsNumber(pair.items[0]) && IsNumber(pair.items[1])
      && NumberOf(pair.items[1]) != 0.0
    ensures r.Some? ==> r.value * NumberOf(pair.items[1]) == NumberOf(pair.items[0])
  {
    match pair
    case PSeq(xs) =>
      if |xs| == 2 && IsNumber(xs[0]) && IsNumber(xs[1]) && NumberOf(xs[1]) != 0.0
      then Some(NumberOf(xs[0]) / NumberOf(xs[1]))
      else None
    case _ => None
  }

  /** The quotient of every component: all of them must divide, or the whole list fails. */
  function Quotients(xs: seq<PyVal>): (r: Option<seq<real>>)
    ensures r.Some? <==> forall i :: 0 <= i < |xs| ==> Quotient(xs[i]).Some?
    ensures r.Some? ==> |r.value| == |xs|
    ensures r.Some? ==> forall i :: 0 <= i < |xs| ==> r.value[i] == Quotient(xs[i]).value
  {
    if xs == [] then Some([])
    else
      match (Quotient(xs[0]), Quotients(xs[1..]))
      case (Some(q), Some(qs)) =>
        assert forall i :: 1 <= i < |xs| ==> xs[i] == xs[1..][i - 1];
        Some([q] + qs)
      case _ => None
  }

  /** `dms_to_decimal(dms, ref)`: only a list or tuple of at least three dividing
      components converts; components past the third are divided but not summed.
      Iterating any other value raises (or yields components that cannot be unpacked
      and divided), which the function turns into None. */
  function DmsToDecimal(dms: PyVal, ref: PyVal): (r: Option<real>)
    ensures r.Some? <==>
      dms.PSeq? && |dms.items| >= 3 && forall i :: 0 <= i < |dms.items| ==> Quotient(dms.items[i]).Some?
    ensures r.Some? ==>
      r.value == Degrees(Quotient(dms.items[0]).value, Quotient(dms.items[1]).value,
                         Quotient(dms.items[2]).value, Negates(ref))
  {
    match dms
    case PSeq(xs) =>
      (match Quotients(xs)
       case Some(d) => if |d| >= 3 then Some(Degrees(d[0], d[1], d[2], Negates(ref))) else None
       case None => None)
    case _ => None
  }

  /** "S" and "W" negate, and every other reference ("N", "E", None, anything) leaves
      the value as it is. */
  lemma DmsHemisphere(dms: PyVal, ref: PyVal)
    ensures Negates(ref) ==>
      DmsToDecimal(dms, ref).Some? && DmsToDecimal(dms, PStr("N")).Some? ==>
      DmsToDecimal(dms, ref).value == -DmsToDecimal(dms, PStr("N")).value
    ensures !Negates(ref) ==> DmsToDecimal(dms, ref) == DmsToDecimal(dms, PStr("N"))
    ensures DmsToDecimal(dms, PStr("S")).None? <==> DmsToDecimal(dms, PStr("N")).None?
    ensures DmsToDecimal(dms, PStr("E")) == DmsToDecimal(dms, PNone) == DmsToDecimal(dms, PStr("N"))
  {
  }

  /** Components after the third never change the value, but one that does not divide
      still makes the whole conversion fail. */
  lemma DmsExtraComponents(xs: seq<PyVal>, extra: seq<PyVal>, ref: PyVal)
    requires |xs| >= 3
    ensures (forall i :: 0 <= i < |extra| ==> Quotient(extra[i]).Some?) ==>
      DmsToDecimal(PSeq(xs + extra), ref) == DmsToDecimal(PSeq(xs), ref)
    ensures (exists i :: 0 <= i < |extra| && Quotient(extra[i]).None?) ==>
      DmsToDecimal(PSeq(xs + extra), ref).None?
  {
    var ys := xs + extra;
    assert forall i :: 0 <= i < |xs| ==> ys[i] == xs[i];
    assert forall i :: 0 <= i < |extra| ==> ys[|xs| + i] == extra[i];
    if exists i :: 0 <= i < |extra| && Quotient(extra[i]).None? {
      var i :| 0 <= i < |extra| && Quotient(extra[i]).None?;
      assert Quotient(ys[|xs| + i]).None?;
    }
  }

  /** A well-formed angle (non-negative degrees, at most 59 minutes, seconds below 60)
      keeps its whole degrees: `deg <= |value| < deg + 1`, so a latitude of at most 89
      degrees stays below 90 and a longitude of at most 179 below 180; the sign is the
      hemisphere's. */
  lemma DegreesRange(deg: real, min: real, sec: real, negate: bool)
    requires 0.0 <= deg && 0.0 <= min <= 59.0 && 0.0 <= sec < 60.0
    ensures var v := Degrees(deg, min, sec, negate);
      (if v < 0.0 then -v else v) >= deg && (if v < 0.0 then -v else v) < deg + 1.0
    ensures negate ==> Degrees(deg, min, sec, negate) <= 0.0
    ensures !negate ==> Degrees(deg, min, sec, negate) >= 0.0
  {
  }

  function Rational(n: real, d: real): PyVal {
    PSeq([PNum(n), PNum(d)])
  }

  /** 51 degrees 30 minutes 26 seconds north is London's 51.5072, to within 0.01. */
  lemma DmsLondon()
    ensures var r := DmsToDecimal(PSeq([Rational(51.0, 1.0), Rational(30.0, 1.0), Rational(26.0, 1.0)]), PStr("N"));
      r.Some? && -0.01 < r.value - 51.5072 < 0.01
  {
    var xs := [Rational(51.0, 1.0), Rational(30.0, 1.0), Rational(26.0, 1.0)];
    assert Quotient(xs[0]) == Some(51.0);
    assert Quotient(xs[1]) == Some(30.0);
    assert Quotient(xs[2]) == Some(26.0);
  }

  /** The box `(min lat, min lon, max lat, max lon)`. */
  datatype Bounds = Bounds(minLat: real, minLon: real, maxLat: real, maxLon: real)

  predicate Contains(b: Bounds, p: (real, real)) {
    b.minLat <= p.0 <= b.maxLat && b.minLon <= p.1 <= b.maxLon
  }

  /** `bounds_from_points(points)`: None for no points; otherwise the smallest box
      holding every point, each of its four sides touched by some point. */
  method BoundsFromPoints(points: seq<(real, real)>) returns (b: Option<Bounds>)
    ensures b.None? <==> |points| == 0
    ensures b.Some? ==> forall i :: 0 <= i < |points| ==> Contains(b.value, points[i])
    ensures b.Some? ==> exists i :: 0 <= i < |points| && points[i].0 == b.value.minLat
    ensures b.Some? ==> exists i :: 0 <= i < |points| && points[i].1 == b.value.minLon
    ensures b.Some? ==> exists i :: 0 <= i < |points| && points[i].0 == b.value.maxLat
    ensures b.Some? ==> exists i :: 0 <= i < |points| && points[i].1 == b.value.maxLon
    ensures b.Some? ==> b.value.minLat <= b.value.maxLat && b.value.minLon <= b.value.maxLon
  {
    if |points| == 0 {
      return None;
    }
    var box := Bounds(points[0].0, points[0].1, points[0].0, points[0].1);
    ghost var a, c, e, g := 0, 0, 0, 0;
    var k := 1;
    while k < |points|
      invariant 1 <= k <= |points|
      invariant forall i :: 0 <= i < k ==> Contains(box, points[i])
      invariant 0 <= a < k && points[a].0 == box.minLat
      invariant 0 <= c < k && points[c].1 == box.minLon
      invariant 0 <= e < k && points[e].0 == box.maxLat
      invariant 0 <= g < k && points[g].1 == box.maxLon
    {
      var p := points[k];
      if p.0 < box.minLat { box := box.(minLat := p.0); a := k; }
      if p.1 < box.minLon { box := box.(minLon := p.1); c := k; }
      if p.0 > box.maxLat { box := box.(maxLat := p.0); e := k; }
      if p.1 > box.maxLon { box := box.(maxLon := p.1); g := k; }
      k := k + 1;
    }
    assert Contains(box, points[0]);
    return Some(box);
  }
}
