/** The three views `updateNearby` derives from the aggregated points:
    those geographically near the map centre, those chronologically near
    the current time, and the most recently created one. */
module Nearby {
  import opened Wrappers
  import opened AtlasData
  import opened Seqs

  /** Radius of the geographic window, in kilometres. */
  const RadiusKm: real := 50.0

  /** Half-width of the chronological window: 30 days, in milliseconds. */
  const WindowMs: int := 30 * 24 * 60 * 60 * 1000

  function Abs(x: int): nat { if x < 0 then -x else x }

  predicate IsGeoNear(poi: Poi, center: LatLng, dist: Distance)
  {
    dist(center.lat, center.lng, poi.point.latitude, poi.point.longitude) < RadiusKm
  }

  predicate IsChronoNear(poi: Poi, now: int)
  {
    match poi.point.timestamp
    case None => false
    case Some(t) => Abs(now - t) < WindowMs
  }

  function GeoFilter(center: LatLng, dist: Distance): Poi -> bool
  {
    (poi: Poi) => IsGeoNear(poi, center, dist)
  }

  function ChronoFilter(now: int): Poi -> bool
  {
    (poi: Poi) => IsChronoNear(poi, now)
  }

  /** The points strictly within 50 km of the centre, in collection order,
      each with the multiplicity it has in the collection. */
  function GeoNearby(pois: seq<Poi>, center: LatLng, dist: Distance): (r: seq<Poi>)
    ensures forall x :: x in r <==> x in pois && IsGeoNear(x, center, dist)
    ensures IsSubsequence(r, pois)
    ensures forall x :: multiset(r)[x] == if IsGeoNear(x, center, dist) then multiset(pois)[x] else 0
  {
    FilterMembership(pois, GeoFilter(center, dist));
    FilterIsSubsequence(pois, GeoFilter(center, dist));
    forall x ensures multiset(Filter(pois, GeoFilter(center, dist)))[x] ==
                     if IsGeoNear(x, center, dist) then multiset(pois)[x] else 0 {
      FilterCount(pois, GeoFilter(center, dist), x);
    }
    Filter(pois, GeoFilter(center, dist))
  }

  /** The points with a timestamp strictly less than 30 days away from
      `now` (before or after), in collection order, each with the
      multiplicity it has in the collection. */
  function ChronoNearby(pois: seq<Poi>, now: int): (r: seq<Poi>)
    ensures forall x :: x in r <==> x in pois && IsChronoNear(x, now)
    ensures IsSubsequence(r, pois)
    ensures forall x :: multiset(r)[x] == if IsChronoNear(x, now) then multiset(pois)[x] else 0
  {
    FilterMembership(pois, ChronoFilter(now));
    FilterIsSubsequence(pois, ChronoFilter(now));
    forall x ensures multiset(Filter(pois, ChronoFilter(now)))[x] ==
                     if IsChronoNear(x, now) then multiset(pois)[x] else 0 {
      FilterCount(pois, ChronoFilter(now), x);
    }
    Filter(pois, ChronoFilter(now))
  }

  /** A point at the map centre is geographically near whenever the
      distance from a position to itself is zero, as the haversine's is. */
  lemma CentreIsNearby(pois: seq<Poi>, poi: Poi, dist: Distance)
    requires poi in pois
    requires dist(poi.point.latitude, poi.point.longitude, poi.point.latitude, poi.point.longitude) == 0.0
    ensures poi in GeoNearby(pois, LatLng(poi.point.latitude, poi.point.longitude), dist)
  {
  }

  /** The edges of the chronological window: no timestamp is never near;
      29 days away, before or after now, is near; exactly 30 days or 31
      days away, before or after, is not. */
  lemma ChronoWindowEdges(poi: Poi, now: int)
    ensures poi.point.timestamp.None? ==> !IsChronoNear(poi, now)
    ensures poi.point.timestamp == Some(now - 29 * 24 * 60 * 60 * 1000) ==> IsChronoNear(poi, now)
    ensures poi.point.timestamp == Some(now + 29 * 24 * 60 * 60 * 1000) ==> IsChronoNear(poi, now)
    ensures poi.point.timestamp == Some(now - 30 * 24 * 60 * 60 * 1000) ==> !IsChronoNear(poi, now)
    ensures poi.point.timestamp == Some(now - 31 * 24 * 60 * 60 * 1000) ==> !IsChronoNear(poi, now)
    ensures poi.point.timestamp == Some(now + 30 * 24 * 60 * 60 * 1000) ==> !IsChronoNear(poi, now)
    ensures poi.point.timestamp == Some(now + 31 * 24 * 60 * 60 * 1000) ==> !IsChronoNear(poi, now)
  {
  }

  /** The left fold behind the `reduce`: `best` is the accumulator, and a
      later point replaces it only when its creation time is strictly later. */
  function LatestFrom(best: Poi, rest: seq<Poi>): (r: Poi)
    ensures r == best || r in rest
    ensures best.point.creationTime <= r.point.creationTime
    ensures forall x :: x in rest ==> x.point.creationTime <= r.point.creationTime
    decreases |rest|
  {
    if rest == [] then best
    else
      var next := if rest[0].point.creationTime > best.point.creationTime then rest[0] else best;
      assert forall x :: x in rest ==> x == rest[0] || x in rest[1..];
      LatestFrom(next, rest[1..])
  }

  /** The most recently created point; `None` where the source's `reduce`
      without an initial value fails, on an empty collection. */
  function MostRecent(pois: seq<Poi>): (r: Option<Poi>)
    ensures r.None? <==> pois == []
    ensures r.Some? ==> r.value in pois &&
                        forall x :: x in pois ==> x.point.creationTime <= r.value.point.creationTime
  {
    if pois == [] then None
    else
      assert forall x :: x in pois ==> x == pois[0] || x in pois[1..];
      Some(LatestFrom(pois[0], pois[1..]))
  }

  /** The fold either keeps its starting accumulator, which nothing in
      `rest` exceeds, or ends on the first point of `rest` that attains the
      maximum, which is strictly later than the accumulator. */
  lemma {:induction false} LatestFromIsFirst(best: Poi, rest: seq<Poi>)
    ensures var r := LatestFrom(best, rest);
            (r == best && forall j :: 0 <= j < |rest| ==> rest[j].point.creationTime <= best.point.creationTime) ||
            (exists k :: 0 <= k < |rest| && rest[k] == r && best.point.creationTime < r.point.creationTime &&
                         forall j :: 0 <= j < k ==> rest[j].point.creationTime < r.point.creationTime)
    decreases |rest|
  {
    if rest != [] {
      var next := if rest[0].point.creationTime > best.point.creationTime then rest[0] else best;
      var tail := rest[1..];
      LatestFromIsFirst(next, tail);
      var r := LatestFrom(next, tail);
      assert r == LatestFrom(best, rest);
      if r == next && forall j :: 0 <= j < |tail| ==> tail[j].point.creationTime <= next.point.creationTime {
        if rest[0].point.creationTime > best.point.creationTime {
          assert rest[0] == r;
        } else {
          assert forall j :: 0 <= j < |rest| ==> rest[j].point.creationTime <= best.point.creationTime by {
            forall j | 0 <= j < |rest| ensures rest[j].point.creationTime <= best.point.creationTime {
              if j > 0 { assert rest[j] == tail[j - 1]; }
            }
          }
        }
      } else {
        var k :| 0 <= k < |tail| && tail[k] == r && next.point.creationTime < r.point.creationTime &&
                 forall j :: 0 <= j < k ==> tail[j].point.creationTime < r.point.creationTime;
        assert rest[k + 1] == r;
        forall j | 0 <= j < k + 1 ensures rest[j].point.creationTime < r.point.creationTime {
          if j > 0 { assert rest[j] == tail[j - 1]; }
        }
      }
    }
  }

  /** The most recent point is the FIRST point in collection order that
      attains the latest creation time: a tie keeps the earlier point. */
  lemma MostRecentIsFirstLatest(pois: seq<Poi>)
    requires pois != []
    ensures exists k :: 0 <= k < |pois| && Some(pois[k]) == MostRecent(pois) &&
                        forall j :: 0 <= j < k ==> pois[j].point.creationTime < pois[k].point.creationTime
  {
    var r := LatestFrom(pois[0], pois[1..]);
    LatestFromIsFirst(pois[0], pois[1..]);
    if r == pois[0] && forall j :: 0 <= j < |pois[1..]| ==> pois[1..][j].point.creationTime <= pois[0].point.creationTime {
      assert Some(pois[0]) == MostRecent(pois);
    } else {
      var k :| 0 <= k < |pois[1..]| && pois[1..][k] == r && pois[0].point.creationTime < r.point.creationTime &&
               forall j :: 0 <= j < k ==> pois[1..][j].point.creationTime < r.point.creationTime;
      assert pois[k + 1] == r;
      forall j | 0 <= j < k + 1 ensures pois[j].point.creationTime < r.point.creationTime {
        if j > 0 { assert pois[j] == pois[1..][j - 1]; }
      }
    }
  }

  /** The three views recomputed on every map move. */
  datatype NearbyView = NearbyView(geo: seq<Poi>, chrono: seq<Poi>, recent: Poi)

  /** `updateNearby` over the aggregated collection: `None` when the
      collection is empty, where the source's `reduce` throws. */
  function ComputeNearby(pois: seq<Poi>, center: LatLng, now: int, dist: Distance): (r: Option<NearbyView>)
    ensures r.None? <==> pois == []
  {
    match MostRecent(pois)
    case None => None
    case Some(recent) => Some(NearbyView(GeoNearby(pois, center, dist), ChronoNearby(pois, now), recent))
  }

  /** What the three views hold: exactly the near points, in collection
      order and with their multiplicities, and the first point attaining
      the latest creation time. */
  lemma ComputeNearbyViews(pois: seq<Poi>, center: LatLng, now: int, dist: Distance)
    requires pois != []
    ensures ComputeNearby(pois, center, now, dist).Some?
    ensures var v := ComputeNearby(pois, center, now, dist).value;
            && (forall x :: x in v.geo <==> x in pois && IsGeoNear(x, center, dist))
            && IsSubsequence(v.geo, pois)
            && (forall x :: multiset(v.geo)[x] == if IsGeoNear(x, center, dist) then multiset(pois)[x] else 0)
            && (forall x :: x in v.chrono <==> x in pois && IsChronoNear(x, now))
            && IsSubsequence(v.chrono, pois)
            && (forall x :: multiset(v.chrono)[x] == if IsChronoNear(x, now) then multiset(pois)[x] else 0)
            && (forall x :: x in pois ==> x.point.creationTime <= v.recent.point.creationTime)
            && exists k :: 0 <= k < |pois| && pois[k] == v.recent &&
                           forall j :: 0 <= j < k ==> pois[j].point.creationTime < v.recent.point.creationTime
  {
    MostRecentIsFirstLatest(pois);
    var v := ComputeNearby(pois, center, now, dist).value;
    assert v.geo == GeoNearby(pois, center, dist);
    assert v.chrono == ChronoNearby(pois, now);
    assert Some(v.recent) == MostRecent(pois);
  }
}
