/** What `loadOverlays` builds from the outcome of each overlay file: the
    list of loaded overlays and the flat collection of tagged points.
    A file whose fetch or parse failed is `None` and contributes nothing. */
module Loader {
  import opened Wrappers
  import opened AtlasData
  import opened Seqs

  /** The successfully loaded overlays, in the order of the file list. */
  function Successes(results: seq<Option<Overlay>>): (r: seq<Overlay>)
    ensures |r| <= |results|
  {
    if results == [] then []
    else
      var init := results[..|results| - 1];
      Successes(init) + (match results[|results| - 1]
                         case Some(o) => [o]
                         case None => [])
  }

  /** The points of one overlay, each tagged with the overlay's name. */
  function TagPoints(points: seq<Point>, name: string): (r: seq<Poi>)
    ensures |r| == |points|
    ensures forall k :: 0 <= k < |r| ==> r[k].point == points[k] && r[k].overlay == name
  {
    seq(|points|, k requires 0 <= k < |points| => Poi(points[k], name))
  }

  /** The number of points the overlays hold together. */
  function PointCount(overlays: seq<Overlay>): nat
  {
    if overlays == [] then 0
    else PointCount(overlays[..|overlays| - 1]) + |overlays[|overlays| - 1].points|
  }

  /** The points of all overlays, tagged, concatenated in overlay order:
      one tagged point per point of each overlay. */
  function Aggregate(overlays: seq<Overlay>): (r: seq<Poi>)
    ensures |r| == PointCount(overlays)
  {
    if overlays == [] then []
    else
      var last := overlays[|overlays| - 1];
      Aggregate(overlays[..|overlays| - 1]) + TagPoints(last.points, last.name)
  }

  /** One more file: its overlay, if it loaded, comes after the others. */
  lemma SuccessesSnoc(results: seq<Option<Overlay>>, x: Option<Overlay>)
    ensures Successes(results + [x]) == Successes(results) + (if x.Some? then [x.value] else [])
  {
    assert (results + [x])[..|results|] == results;
  }

  /** The file at position `i` loaded: its overlay comes after those of
      the files before it. */
  lemma LoadedStep(results: seq<Option<Overlay>>, i: int)
    requires 0 <= i < |results| && results[i].Some?
    ensures Successes(results[..i + 1]) == Successes(results[..i]) + [results[i].value]
  {
    assert results[..i + 1] == results[..i] + [results[i]];
    SuccessesSnoc(results[..i], results[i]);
  }

  /** Pushing the overlay of the file at position `i` onto what the files
      before it loaded gives what the files up to it load. */
  lemma PushOverlayStep(results: seq<Option<Overlay>>, i: int, overlays0: seq<Overlay>, overlays: seq<Overlay>)
    requires 0 <= i < |results| && results[i].Some?
    requires overlays == overlays0 + Successes(results[..i])
    ensures overlays + [results[i].value] == overlays0 + Successes(results[..i + 1])
  {
    LoadedStep(results, i);
    assert overlays + [results[i].value] == overlays0 + (Successes(results[..i]) + [results[i].value]);
  }

  /** Pushing the tagged points of the file at position `i` onto those of
      the files before it gives the points of the files up to it. */
  lemma PushPointsStep(results: seq<Option<Overlay>>, i: int, pois0: seq<Poi>, pois: seq<Poi>)
    requires 0 <= i < |results| && results[i].Some?
    requires pois == pois0 + Aggregate(Successes(results[..i]))
    ensures pois + TagPoints(results[i].value.points, results[i].value.name)
            == pois0 + Aggregate(Successes(results[..i + 1]))
  {
    var loaded, data := Successes(results[..i]), results[i].value;
    var tagged := TagPoints(data.points, data.name);
    LoadedStep(results, i);
    AggregateSnoc(loaded, data);
    assert pois + tagged == pois0 + (Aggregate(loaded) + tagged);
  }

  /** The file at position `i` failed: the files up to it load what the
      files before it load. */
  lemma SkippedStep(results: seq<Option<Overlay>>, i: int)
    requires 0 <= i < |results| && results[i].None?
    ensures Successes(results[..i + 1]) == Successes(results[..i])
  {
    assert results[..i + 1] == results[..i] + [results[i]];
    SuccessesSnoc(results[..i], results[i]);
  }

  /** One more overlay: its tagged points come after the others. */
  lemma AggregateSnoc(overlays: seq<Overlay>, o: Overlay)
    ensures Aggregate(overlays + [o]) == Aggregate(overlays) + TagPoints(o.points, o.name)
  {
    assert (overlays + [o])[..|overlays|] == overlays;
  }

  /** An overlay is loaded exactly when some file produced it. */
  lemma {:induction false} SuccessesMembership(results: seq<Option<Overlay>>)
    ensures forall o :: o in Successes(results) <==> Some(o) in results
  {
    if results != [] {
      var init := results[..|results| - 1];
      SuccessesMembership(init);
      assert forall x :: x in results <==> x in init || x == results[|results| - 1];
    }
  }

  lemma {:induction false} SuccessesAppend(a: seq<Option<Overlay>>, b: seq<Option<Overlay>>)
    ensures Successes(a + b) == Successes(a) + Successes(b)
  {
    if b == [] {
      assert a + b == a;
    } else {
      var b' := b[..|b| - 1];
      assert (a + b)[..|a + b| - 1] == a + b';
      SuccessesAppend(a, b');
    }
  }

  /** A failed file in the middle of the list changes nothing about the
      overlays loaded from the files around it. */
  lemma SuccessesSkipFailure(a: seq<Option<Overlay>>, b: seq<Option<Overlay>>)
    ensures Successes(a + [None] + b) == Successes(a + b)
  {
    var none: seq<Option<Overlay>> := [None];
    assert none[..0] == [];
    assert Successes(none) == [];
    SuccessesAppend(a + none, b);
    SuccessesAppend(a, none);
    SuccessesAppend(a, b);
  }

  lemma {:induction false} AggregateAppend(a: seq<Overlay>, b: seq<Overlay>)
    ensures Aggregate(a + b) == Aggregate(a) + Aggregate(b)
  {
    if b == [] {
      assert a + b == a;
    } else {
      var b', last := b[..|b| - 1], b[|b| - 1];
      SplitLast(a, b);
      AggregateAppend(a, b');
      AggregateSnoc(a + b', last);
      AggregateSnoc(b', last);
    }
  }

  /** A tagged point is in the aggregate exactly when some loaded overlay
      holds its point and carries its tag as name. */
  lemma {:induction false} AggregateMembership(overlays: seq<Overlay>, x: Poi)
    ensures x in Aggregate(overlays) <==>
            exists o :: o in overlays && x.overlay == o.name && x.point in o.points
  {
    if overlays != [] {
      var init := overlays[..|overlays| - 1];
      var last := overlays[|overlays| - 1];
      AggregateMembership(init, x);
      assert forall o :: o in overlays <==> o in init || o == last;
      var tagged := TagPoints(last.points, last.name);
      assert x in tagged <==> x.overlay == last.name && x.point in last.points by {
        if x in tagged {
          var k :| 0 <= k < |tagged| && tagged[k] == x;
          assert last.points[k] == x.point;
        }
        if x.overlay == last.name && x.point in last.points {
          var k :| 0 <= k < |last.points| && last.points[k] == x.point;
          assert tagged[k] == x;
        }
      }
    }
  }
}
