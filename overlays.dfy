/** The overlay-state manager, as functions of the state: the set of active
    overlay indices, built from the configuration's flags, and the effect
    of toggling one index on that set and on the map's markers. */
module Overlays {
  import opened AtlasData
  import opened Seqs

  /** The positions of the `true` flags, in increasing order. */
  function FlagIndices(flags: seq<bool>): (r: seq<nat>)
    ensures forall i: int :: i in r <==> 0 <= i < |flags| && flags[i]
    ensures forall a, b :: 0 <= a < b < |r| ==> r[a] < r[b]
  {
    if flags == [] then []
    else
      var n := |flags| - 1;
      assert forall i :: 0 <= i < n ==> flags[..n][i] == flags[i];
      var prefix := FlagIndices(flags[..n]);
      assert forall a :: 0 <= a < |prefix| ==> prefix[a] in prefix;
      prefix + (if flags[n] then [n] else [])
  }

  function IsTagged(index: int): Marker -> bool
  {
    (m: Marker) => m.overlayIndex == index
  }

  function NotTagged(index: int): Marker -> bool
  {
    (m: Marker) => m.overlayIndex != index
  }

  /** The markers of one overlay, in map order. */
  function Tagged(markers: seq<Marker>, index: int): seq<Marker>
  {
    Filter(markers, IsTagged(index))
  }

  /** One marker per point, at the point's position, tagged with `index`. */
  function MarkersFor(points: seq<Point>, index: int): (r: seq<Marker>)
    ensures |r| == |points|
    ensures forall k :: 0 <= k < |r| ==>
              r[k].position == LatLng(points[k].latitude, points[k].longitude) && r[k].overlayIndex == index
  {
    seq(|points|, k requires 0 <= k < |points| => Marker(LatLng(points[k].latitude, points[k].longitude), index))
  }

  datatype ToggleResult = ToggleResult(active: set<int>, markers: seq<Marker>, ok: bool)

  /** The new state after `toggleOverlay(index)`. An index outside the
      loaded overlays is still added to the set before the lookup of its
      points fails: no marker is added and `ok` is false. */
  function Toggled(overlays: seq<Overlay>, active: set<int>, markers: seq<Marker>, index: int): (r: ToggleResult)
    ensures forall i :: i in r.active <==> (i in active) != (i == index)
    ensures r.ok <==> index in active || 0 <= index < |overlays|
    ensures !r.ok ==> r.markers == markers
  {
    if index in active then
      ToggleResult(active - {index}, Filter(markers, NotTagged(index)), true)
    else if 0 <= index < |overlays| then
      ToggleResult(active + {index}, markers + MarkersFor(overlays[index].points, index), true)
    else
      ToggleResult(active + {index}, markers, false)
  }

  /** The invariant of every state the page reaches: each marker on the
      map belongs to an overlay in the active set. */
  ghost predicate MarkersActive(active: set<int>, markers: seq<Marker>)
  {
    forall m :: m in markers ==> m.overlayIndex in active
  }

  /** Every toggle, whichever branch it takes, keeps the invariant. */
  lemma ToggledKeepsMarkersActive(overlays: seq<Overlay>, active: set<int>, markers: seq<Marker>, index: int)
    requires MarkersActive(active, markers)
    ensures var t := Toggled(overlays, active, markers, index);
            MarkersActive(t.active, t.markers)
  {
    if index in active {
      FilterMembership(markers, NotTagged(index));
    } else if 0 <= index < |overlays| {
      var added := MarkersFor(overlays[index].points, index);
      assert forall m :: m in added ==> m.overlayIndex == index;
    }
  }

  /** Under the invariant an inactive overlay has no markers, which is the
      starting point of `ToggleTwice`. */
  lemma InactiveHasNoMarkers(active: set<int>, markers: seq<Marker>, index: int)
    requires MarkersActive(active, markers)
    requires index !in active
    ensures Tagged(markers, index) == []
  {
    FilterNone(markers, IsTagged(index));
  }

  /** Toggling an active index deactivates it and removes every marker it
      owns; the markers of every other overlay stay, in the same order. */
  lemma ToggleOff(overlays: seq<Overlay>, active: set<int>, markers: seq<Marker>, index: int)
    requires index in active
    ensures var t := Toggled(overlays, active, markers, index);
            && t.ok
            && t.active == active - {index}
            && Tagged(t.markers, index) == []
            && (forall j :: j != index ==> Tagged(t.markers, j) == Tagged(markers, j))
            && IsSubsequence(t.markers, markers)
  {
    var kept := Filter(markers, NotTagged(index));
    FilterIsSubsequence(markers, NotTagged(index));
    FilterMembership(markers, NotTagged(index));
    FilterNone(kept, IsTagged(index));
    forall j | j != index ensures Tagged(kept, j) == Tagged(markers, j) {
      FilterFilter(markers, NotTagged(index), IsTagged(j));
    }
  }

  /** Toggling an inactive index activates it and, when it names a loaded
      overlay, appends one marker per point of that overlay, tagged with
      the index and placed at the point; existing markers stay in front. */
  lemma ToggleOn(overlays: seq<Overlay>, active: set<int>, markers: seq<Marker>, index: int)
    requires index !in active
    ensures var t := Toggled(overlays, active, markers, index);
            && t.active == active + {index}
            && (t.ok <==> 0 <= index < |overlays|)
            && t.markers[..|markers|] == markers
            && (forall j :: j != index ==> Tagged(t.markers, j) == Tagged(markers, j))
            && (t.ok ==>
                  && |t.markers| == |markers| + |overlays[index].points|
                  && |Tagged(t.markers, index)| == |Tagged(markers, index)| + |overlays[index].points|
                  && forall k :: 0 <= k < |overlays[index].points| ==>
                       t.markers[|markers| + k] ==
                       Marker(LatLng(overlays[index].points[k].latitude, overlays[index].points[k].longitude), index))
            && (!t.ok ==> t.markers == markers)
  {
    var t := Toggled(overlays, active, markers, index);
    if 0 <= index < |overlays| {
      var added := MarkersFor(overlays[index].points, index);
      assert t.markers == markers + added;
      assert t.markers[..|markers|] == markers;
      forall j | j != index ensures Tagged(t.markers, j) == Tagged(markers, j) {
        FilterAppend(markers, added, IsTagged(j));
        FilterNone(added, IsTagged(j));
      }
      FilterAppend(markers, added, IsTagged(index));
      FilterAll(added, IsTagged(index));
    } else {
      assert t.markers[..|markers|] == markers;
    }
  }

  /** Starting from an inactive index with no markers, toggling twice
      restores the set and the map exactly. */
  lemma ToggleTwice(overlays: seq<Overlay>, active: set<int>, markers: seq<Marker>, index: int)
    requires index !in active
    requires Tagged(markers, index) == []
    ensures var t1 := Toggled(overlays, active, markers, index);
            var t2 := Toggled(overlays, t1.active, t1.markers, index);
            t2.active == active && t2.markers == markers && Tagged(t2.markers, index) == []
  {
    var t1 := Toggled(overlays, active, markers, index);
    assert index in t1.active;
    FilterMembership(markers, IsTagged(index));
    assert forall m :: m in markers ==> m !in Tagged(markers, index);
    FilterAll(markers, NotTagged(index));
    if 0 <= index < |overlays| {
      var added := MarkersFor(overlays[index].points, index);
      FilterAppend(markers, added, NotTagged(index));
      FilterNone(added, NotTagged(index));
      assert markers + [] == markers;
    }
  }
}
