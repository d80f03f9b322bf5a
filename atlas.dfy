/** The page's mutable state: the loaded overlays, the aggregated points,
    the active-overlay set and the markers on the map, with the operations
    `init`, `loadOverlays` and `toggleOverlay` that change it in place. */
module App {
  import opened Wrappers
  import opened AtlasData
  import opened Seqs
  import opened Loader
  import opened Nearby
  import opened Overlays

  class Atlas {
    var overlays: seq<Overlay>
    var allPOIs: seq<Poi>
    var active: set<int>
    /** The marker layers of the map, in the order they were added. */
    var markers: seq<Marker>

    /** Every marker on the map belongs to an active overlay. */
    ghost predicate Valid()
      reads this
    {
      MarkersActive(active, markers)
    }

    /** The state `init` sets up before loading: nothing loaded, no markers,
        and the active set holding the positions of the `true` flags. */
    constructor (overlayActive: seq<bool>)
      ensures Valid()
      ensures overlays == [] && allPOIs == [] && markers == []
      ensures forall i :: i in active <==> 0 <= i < |overlayActive| && overlayActive[i]
    {
      overlays := [];
      allPOIs := [];
      markers := [];
      var indices := FlagIndices(overlayActive);
      active := set i: int | i in indices;
    }

    /** `loadOverlays`: walks the outcome of each overlay file in order,
        appending each loaded overlay and its tagged points, then computes
        the nearby views. Neither the active set nor the map changes. */
    method LoadOverlays(results: seq<Option<Overlay>>, center: LatLng, now: int, dist: Distance)
      returns (view: Option<NearbyView>)
      requires Valid()
      modifies this`overlays, this`allPOIs
      ensures Valid()
      ensures overlays == old(overlays) + Successes(results)
      ensures allPOIs == old(allPOIs) + Aggregate(Successes(results))
      ensures active == old(active) && markers == old(markers)
      ensures view == ComputeNearby(allPOIs, center, now, dist)
    {
      LoadFiles(results);
      view := UpdateNearby(center, now, dist);
    }

    /** The loop of `loadOverlays`: a failed file is skipped and the walk
        goes on with the next one. */
    method LoadFiles(results: seq<Option<Overlay>>)
      modifies this`overlays, this`allPOIs
      ensures overlays == old(overlays) + Successes(results)
      ensures allPOIs == old(allPOIs) + Aggregate(Successes(results))
    {
      ghost var overlays0, pois0 := overlays, allPOIs;
      for i := 0 to |results|
        invariant overlays == overlays0 + Successes(results[..i])
        invariant allPOIs == pois0 + Aggregate(Successes(results[..i]))
      {
        if results[i].Some? {
          PushOverlayStep(results, i, overlays0, overlays);
          PushPointsStep(results, i, pois0, allPOIs);
          LoadFile(results[i].value);
        } else {
          SkippedStep(results, i);
        }
      }
      assert results[..|results|] == results;
    }

    /** One file that loaded: its overlay is pushed, then its points,
        each tagged with the overlay's name. */
    method LoadFile(data: Overlay)
      modifies this`overlays, this`allPOIs
      ensures overlays == old(overlays) + [data]
      ensures allPOIs == old(allPOIs) + TagPoints(data.points, data.name)
    {
      overlays := overlays + [data];
      allPOIs := allPOIs + TagPoints(data.points, data.name);
    }

    /** `updateNearby`, run after loading and on every map move: the views
        over ALL loaded points, whichever overlays are active. */
    method UpdateNearby(center: LatLng, now: int, dist: Distance) returns (view: Option<NearbyView>)
      ensures view == ComputeNearby(allPOIs, center, now, dist)
      ensures view.None? <==> allPOIs == []
    {
      view := ComputeNearby(allPOIs, center, now, dist);
    }

    /** `toggleOverlay(index)`. Removal deletes the index's markers from the
        map one at a time while walking it; addition appends one marker per
        point. `ok` is false where the source throws: the index was not
        active and names no loaded overlay. */
    method Toggle(index: int) returns (ok: bool)
      requires Valid()
      modifies this`active, this`markers
      ensures Valid()
      ensures var t := Toggled(overlays, old(active), old(markers), index);
              active == t.active && markers == t.markers && ok == t.ok
      ensures overlays == old(overlays) && allPOIs == old(allPOIs)
    {
      ToggledKeepsMarkersActive(overlays, active, markers, index);
      if index in active {
        active := active - {index};
        RemoveMarkers(index);
        ok := true;
      } else {
        active := active + {index};
        if 0 <= index < |overlays| {
          AddMarkers(overlays[index].points, index);
          ok := true;
        } else {
          ok := false;
        }
      }
    }

    /** Removes every marker tagged with `index`, deleting each from the
        map as the walk over the map's layers reaches it. */
    method RemoveMarkers(index: int)
      modifies this`markers
      ensures markers == Filter(old(markers), NotTagged(index))
    {
      ghost var orig := markers;
      ghost var j := 0;
      var i := 0;
      while i < |markers|
        invariant 0 <= i <= |markers| && 0 <= j <= |orig|
        invariant |markers| - i == |orig| - j
        invariant markers[..i] == Filter(orig[..j], NotTagged(index))
        invariant markers[i..] == orig[j..]
        decreases |markers| - i
      {
        assert orig[j] == markers[i];
        assert orig[..j + 1] == orig[..j] + [orig[j]];
        FilterAppend(orig[..j], [orig[j]], NotTagged(index));
        if markers[i].overlayIndex == index {
          markers := markers[..i] + markers[i + 1..];
        } else {
          i := i + 1;
        }
        j := j + 1;
      }
      assert orig[..j] == orig;
    }

    /** Adds one marker per point, at the point's position, tagged with `index`. */
    method AddMarkers(points: seq<Point>, index: int)
      modifies this`markers
      ensures markers == old(markers) + MarkersFor(points, index)
    {
      for k := 0 to |points|
        invariant markers == old(markers) + MarkersFor(points[..k], index)
      {
        var marker := Marker(LatLng(points[k].latitude, points[k].longitude), index);
        assert MarkersFor(points[..k + 1], index) == MarkersFor(points[..k], index) + [marker];
        markers := markers + [marker];
      }
      assert points[..|points|] == points;
    }
  }

  /** The active set holds positions in the FILE list while toggling
      indexes the LOADED overlays. With files a, b, c, b failing and only c
      flagged active, the set holds 2 while c is loaded at 1. So c's
      checkbox starts unchecked, and its first toggle activates index 1
      and adds c's markers, leaving the stale 2 in the set. */
  lemma StaleActiveIndex(a: Overlay, c: Overlay, markers: seq<Marker>)
    ensures FlagIndices([false, false, true]) == [2]
    ensures Successes([Some(a), None, Some(c)]) == [a, c]
    ensures var t := Toggled([a, c], {2}, markers, 1);
            t.ok && t.active == {1, 2} && t.markers == markers + MarkersFor(c.points, 1)
  {
    FlaggedLastFile();
    MiddleFileFailed(a, c);
  }

  /** Only the third file flagged: the set holds file position 2. */
  lemma FlaggedLastFile()
    ensures FlagIndices([false, false, true]) == [2]
  {
    var flags := [false, false, true];
    assert flags[..2][..1][..0] == [];
    assert FlagIndices(flags[..2][..1]) == [];
    assert FlagIndices(flags[..2]) == [];
  }

  /** The second of three files failed: the third is loaded at position 1. */
  lemma MiddleFileFailed(a: Overlay, c: Overlay)
    ensures Successes([Some(a), None, Some(c)]) == [a, c]
  {
    var results := [Some(a), None, Some(c)];
    assert results[..2][..1][..0] == [];
    assert Successes(results[..2][..1]) == [a];
    assert Successes(results[..2]) == [a];
  }
}
