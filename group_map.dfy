/**
 * updateMarkers of the group map: a dictionary uid -> marker and the map's overlay list,
 * reconciled in place with the latest list of shared locations. Markers whose uid is not
 * in the list go first; then each entry removes (not sharing), creates or moves its marker.
 */
module GroupMap {
  import opened Wrappers
  import opened LocationRepository

  datatype GeoPoint = GeoPoint(lat: real, lng: real)

  /** What a marker shows. */
  datatype MarkerState = MarkerState(position: GeoPoint, title: string, subDescription: string)

  /** `name.ifEmpty { "User" }`. */
  function TitleFor(name: string): (r: string)
    ensures r != ""
    ensures name != "" ==> r == name
  {
    if name == "" then "User" else name
  }

  /** `updatedAt?.let { tsToString(it) } ?: ""`, with the clock formatter as a parameter. */
  function SubDescription(loc: SharedLocation, format: int -> string): string {
    match loc.updatedAt
    case Some(t) => format(t)
    case None => ""
  }

  function PositionOf(loc: SharedLocation): GeoPoint {
    GeoPoint(loc.lat, loc.lng)
  }

  function PresentUids(list: seq<SharedLocation>): set<string> {
    set k | 0 <= k < |list| :: list[k].uid
  }

  /** The first pass: drop the markers whose uid is not in the list. */
  function Prune(view: map<string, MarkerState>, present: set<string>): (r: map<string, MarkerState>)
    ensures r.Keys == view.Keys * present
    ensures forall u :: u in r ==> r[u] == view[u]
  {
    map u | u in view && u in present :: view[u]
  }

  /** One iteration of the second pass. */
  function Step(view: map<string, MarkerState>, loc: SharedLocation, format: int -> string): map<string, MarkerState> {
    if !loc.isSharing then view - {loc.uid}
    else if loc.uid !in view then
      view[loc.uid := MarkerState(PositionOf(loc), TitleFor(loc.name), SubDescription(loc, format))]
    else
      view[loc.uid := view[loc.uid].(position := PositionOf(loc), subDescription := SubDescription(loc, format))]
  }

  function Apply(view: map<string, MarkerState>, list: seq<SharedLocation>, format: int -> string): map<string, MarkerState> {
    if list == [] then view
    else Step(Apply(view, list[..|list| - 1], format), list[|list| - 1], format)
  }

  /** The markers, as what they show, after updateMarkers(list). */
  function Reconcile(view: map<string, MarkerState>, list: seq<SharedLocation>, format: int -> string): map<string, MarkerState> {
    Apply(Prune(view, PresentUids(list)), list, format)
  }

  ghost predicate DistinctUids(list: seq<SharedLocation>) {
    forall i, j :: 0 <= i < j < |list| ==> list[i].uid != list[j].uid
  }

  lemma PresentUidsSnoc(list: seq<SharedLocation>)
    requires list != []
    ensures PresentUids(list) == PresentUids(list[..|list| - 1]) + {list[|list| - 1].uid}
  {
    var init := list[..|list| - 1];
    forall u | u in PresentUids(list) ensures u in PresentUids(init) + {list[|list| - 1].uid} {
      var k :| 0 <= k < |list| && list[k].uid == u;
      if k < |init| { assert init[k] == list[k]; }
    }
    forall u | u in PresentUids(init) ensures u in PresentUids(list) {
      var k :| 0 <= k < |init| && init[k].uid == u;
      assert list[k] == init[k];
    }
  }

  /** Entries for other uids leave a marker alone. */
  lemma {:induction false} ApplyUntouched(view: map<string, MarkerState>, list: seq<SharedLocation>,
                                          format: int -> string, u: string)
    requires u !in PresentUids(list)
    ensures u in Apply(view, list, format) <==> u in view
    ensures u in view ==> Apply(view, list, format)[u] == view[u]
  {
    if list != [] {
      PresentUidsSnoc(list);
      ApplyUntouched(view, list[..|list| - 1], format, u);
    }
  }

  /** With distinct uids, the one entry for `u` decides its marker. */
  lemma {:induction false} ApplyEntry(view: map<string, MarkerState>, list: seq<SharedLocation>,
                                      format: int -> string, i: int)
    requires DistinctUids(list) && 0 <= i < |list|
    ensures var loc := list[i];
            var r := Apply(view, list, format);
            && (loc.uid in r <==> loc.isSharing)
            && (loc.isSharing && loc.uid in view ==>
                  r[loc.uid] == view[loc.uid].(position := PositionOf(loc), subDescription := SubDescription(loc, format)))
            && (loc.isSharing && loc.uid !in view ==>
                  r[loc.uid] == MarkerState(PositionOf(loc), TitleFor(loc.name), SubDescription(loc, format)))
  {
    var n := |list| - 1;
    var init := list[..n];
    assert forall k :: 0 <= k < n ==> init[k] == list[k];
    if i == n {
      assert list[i].uid !in PresentUids(init);
      ApplyUntouched(view, init, format, list[i].uid);
    } else {
      ApplyEntry(view, init, format, i);
    }
  }

  /** Every marker whose uid is not in the list is gone afterwards. */
  lemma ReconcileDropsAbsent(view: map<string, MarkerState>, list: seq<SharedLocation>, format: int -> string, u: string)
    requires u !in PresentUids(list)
    ensures u !in Reconcile(view, list, format)
  {
    ApplyUntouched(Prune(view, PresentUids(list)), list, format, u);
  }

  /** With distinct uids, the markers are exactly those of the sharing entries. */
  lemma ReconcileKeys(view: map<string, MarkerState>, list: seq<SharedLocation>, format: int -> string)
    requires DistinctUids(list)
    ensures Reconcile(view, list, format).Keys == set k | 0 <= k < |list| && list[k].isSharing :: list[k].uid
  {
    var pruned := Prune(view, PresentUids(list));
    var r := Reconcile(view, list, format);
    forall u | u in r ensures exists k :: 0 <= k < |list| && list[k].isSharing && list[k].uid == u {
      if u !in PresentUids(list) {
        ReconcileDropsAbsent(view, list, format, u);
      }
      var k :| 0 <= k < |list| && list[k].uid == u;
      ApplyEntry(pruned, list, format, k);
    }
    forall k | 0 <= k < |list| && list[k].isSharing ensures list[k].uid in r {
      ApplyEntry(pruned, list, format, k);
    }
  }

  /**
   * With distinct uids, a sharing entry moves an existing marker (title kept) or gets a new
   * one titled with its name or "User"; a non-sharing entry has no marker.
   */
  lemma ReconcileEntry(view: map<string, MarkerState>, list: seq<SharedLocation>, format: int -> string, i: int)
    requires DistinctUids(list) && 0 <= i < |list|
    ensures var loc := list[i];
            var r := Reconcile(view, list, format);
            && (loc.uid in r <==> loc.isSharing)
            && (loc.isSharing && loc.uid in view ==>
                  r[loc.uid] == MarkerState(PositionOf(loc), view[loc.uid].title, SubDescription(loc, format)))
            && (loc.isSharing && loc.uid !in view ==>
                  r[loc.uid] == MarkerState(PositionOf(loc), TitleFor(loc.name), SubDescription(loc, format)))
  {
    assert list[i].uid in PresentUids(list);
    ApplyEntry(Prune(view, PresentUids(list)), list, format, i);
  }
}

/**
 * The markers of the group map in place: one `Marker` object per uid in a dictionary, and
 * the same objects in the map view's overlay list.
 */
module GroupMapLayer {
  import opened LocationRepository
  import opened GroupMap


  class Marker {
    var position: GeoPoint
    var title: string
    var subDescription: string

    constructor (position: GeoPoint, title: string, subDescription: string)
      ensures this.position == position && this.title == title && this.subDescription == subDescription
    {
      this.position := position;
      this.title := title;
      this.subDescription := subDescription;
    }

    function State(): MarkerState
      reads this
    {
      MarkerState(position, title, subDescription)
    }
  }

  predicate NoDuplicateMarkers(s: seq<Marker>) {
    forall i, j :: 0 <= i < j < |s| ==> s[i] != s[j]
  }

  /** ArrayList.remove(element): the first occurrence goes. */
  function RemoveFirst(s: seq<Marker>, m: Marker): (r: seq<Marker>)
    ensures m !in s ==> r == s
    ensures forall k :: 0 <= k < |r| ==> r[k] in s
    ensures NoDuplicateMarkers(s) ==> NoDuplicateMarkers(r) && m !in r
    ensures forall k :: 0 <= k < |s| && s[k] != m ==> s[k] in r
  {
    if s == [] then []
    else if s[0] == m then
      assert forall k :: 0 < k < |s| ==> s[k] in s[1..];
      s[1..]
    else
      var rest := RemoveFirst(s[1..], m);
      assert forall k :: 0 < k < |s| ==> s[k] == s[1..][k - 1];
      [s[0]] + rest
  }

  /** One marker object per uid, and the overlays hold exactly the markers, once each. */
  ghost predicate LayerOk(markers: map<string, Marker>, overlays: seq<Marker>) {
    && (forall u, v :: u in markers && v in markers && u != v ==> markers[u] != markers[v])
    && (set x | x in overlays) == markers.Values
    && NoDuplicateMarkers(overlays)
  }

  lemma LayerOkAdd(markers: map<string, Marker>, overlays: seq<Marker>, uid: string, m: Marker)
    requires LayerOk(markers, overlays) && uid !in markers
    requires forall u :: u in markers ==> markers[u] != m
    ensures LayerOk(markers[uid := m], overlays + [m])
  {
    var ms, ov := markers[uid := m], overlays + [m];
    assert forall x :: x in overlays <==> x in markers.Values by {
      forall x ensures x in overlays <==> x in (set y | y in overlays) { }
    }
    forall x ensures x in ov <==> x in ms.Values {
      if x == m {
        assert ms[uid] == m;
      } else if x in overlays {
        var v :| v in markers && markers[v] == x;
        assert ms[v] == x;
      }
    }
    assert (set x | x in ov) == ms.Values;
    forall k | 0 <= k < |overlays| ensures overlays[k] != m {
      assert overlays[k] in markers.Values;
    }
  }

  lemma LayerOkRemove(markers: map<string, Marker>, overlays: seq<Marker>, uid: string)
    requires LayerOk(markers, overlays) && uid in markers
    ensures LayerOk(markers - {uid}, RemoveFirst(overlays, markers[uid]))
  {
    var m := markers[uid];
    var ms, ov := markers - {uid}, RemoveFirst(overlays, m);
    assert forall x :: x in overlays <==> x in markers.Values by {
      forall x ensures x in overlays <==> x in (set y | y in overlays) { }
    }
    forall x | x in ov ensures x in ms.Values {
      assert x in overlays && x != m;
      var v :| v in markers && markers[v] == x;
      assert v != uid && ms[v] == x;
    }
    forall x | x in ms.Values ensures x in ov {
      var v :| v in ms && ms[v] == x;
      assert markers[v] == x && x != m && x in overlays;
      var k :| 0 <= k < |overlays| && overlays[k] == x;
    }
    assert (set x | x in ov) == ms.Values;
  }

  /** Removing one more key after a batch is removing the batch with that key. */
  lemma MinusStep<V>(m: map<string, V>, gone: set<string>, x: string)
    ensures (m - gone) - {x} == m - (gone + {x})
  {
  }

  /** Moving one key from the batch still to remove to the removed ones keeps their union. */
  lemma MoveToGone(stale: set<string>, gone: set<string>, x: string)
    requires x in stale && stale !! gone
    ensures (stale - {x}) !! (gone + {x}) && (stale - {x}) + (gone + {x}) == stale + gone
  {
  }

  /** Removing the keys outside `present` is Prune. */
  lemma PruneIsMinus(m: map<string, MarkerState>, present: set<string>, stale: set<string>)
    requires forall u :: u in stale <==> u in m && u !in present
    ensures Prune(m, present) == m - stale
  {
  }

  /**
   * The activity's `markers` dictionary and the marker overlays of its map view. `shown`
   * is what each uid's marker displays; `Repr` holds every marker object made so far.
   */
  class MarkerLayer {
    var markers: map<string, Marker>
    var overlays: seq<Marker>
    ghost var shown: map<string, MarkerState>
    ghost var Repr: set<Marker>

    ghost predicate Valid()
      reads this, Repr
    {
      && LayerOk(markers, overlays)
      && (forall u :: u in markers ==> markers[u] in Repr)
      && markers.Keys == shown.Keys
      && forall u :: u in markers ==> markers[u].State() == shown[u]
    }

    constructor ()
      ensures Valid() && markers == map[] && overlays == [] && shown == map[]
    {
      markers := map[];
      overlays := [];
      shown := map[];
      Repr := {};
    }

    /** `markers[uid]?.let { overlays.remove(it) }; markers.remove(uid)`. */
    method RemoveMarker(uid: string)
      requires Valid()
      modifies this
      ensures Valid()
      ensures markers == old(markers) - {uid}
      ensures shown == old(shown) - {uid}
      ensures Repr == old(Repr)
    {
      if uid in markers {
        Detach(uid);
      } else {
        assert markers - {uid} == markers;
        assert shown - {uid} == shown;
      }
    }

    /** Takes the marker of `uid` off the map and out of the dictionary. */
    method Detach(uid: string)
      requires Valid() && uid in markers
      modifies this
      ensures Valid()
      ensures markers == old(markers) - {uid}
      ensures shown == old(shown) - {uid}
      ensures Repr == old(Repr)
    {
      LayerOkRemove(markers, overlays, uid);
      overlays := RemoveFirst(overlays, markers[uid]);
      markers := markers - {uid};
      shown := shown - {uid};
    }

    /** A new marker for a uid without one, added to the overlays. */
    method AddMarker(uid: string, state: MarkerState)
      requires Valid() && uid !in markers
      modifies this
      ensures Valid()
      ensures markers.Keys == old(markers).Keys + {uid} && fresh(markers[uid])
      ensures forall u :: u in old(markers) ==> markers[u] == old(markers)[u]
      ensures shown == old(shown)[uid := state]
      ensures Repr == old(Repr) + {markers[uid]}
    {
      var m := new Marker(state.position, state.title, state.subDescription);
      Insert(uid, m);
    }

    /** `map.overlays.add(m); markers[uid] = m` for a marker not yet on the map. */
    method Insert(uid: string, m: Marker)
      requires Valid() && uid !in markers && m !in Repr
      modifies this
      ensures Valid()
      ensures markers == old(markers)[uid := m]
      ensures shown == old(shown)[uid := m.State()]
      ensures Repr == old(Repr) + {m}
    {
      LayerOkAdd(markers, overlays, uid, m);
      overlays := overlays + [m];
      markers := markers[uid := m];
      shown := shown[uid := m.State()];
      Repr := Repr + {m};
    }

    /** `marker.position = pos; marker.subDescription = ...`: the title stays. */
    method MoveMarker(uid: string, position: GeoPoint, subDescription: string)
      requires Valid() && uid in markers
      modifies this, markers[uid]
      ensures Valid() && markers == old(markers) && overlays == old(overlays) && Repr == old(Repr)
      ensures shown == old(shown)[uid := old(shown)[uid].(position := position, subDescription := subDescription)]
    {
      var m := markers[uid];
      m.position := position;
      m.subDescription := subDescription;
      shown := shown[uid := m.State()];
      forall u | u in markers && u != uid ensures markers[u].State() == shown[u] {
        assert markers[u] != m;
      }
    }

    /** The first pass of updateMarkers: every marker whose uid is not in `present` goes. */
    method PruneMarkers(present: set<string>)
      requires Valid()
      modifies this
      ensures Valid()
      ensures markers == old(markers) - (old(markers).Keys - present)
      ensures shown == Prune(old(shown), present)
      ensures Repr == old(Repr)
    {
      var stale0 := set u | u in markers && u !in present;
      RemoveAll(stale0);
      assert stale0 == old(markers).Keys - present;
      PruneIsMinus(old(shown), present, stale0);
    }

    /** The `forEach` of the first pass: every uid of `stale` loses its marker. */
    method RemoveAll(stale0: set<string>)
      requires Valid()
      modifies this
      ensures Valid()
      ensures markers == old(markers) - stale0 && shown == old(shown) - stale0
      ensures Repr == old(Repr)
    {
      var stale := stale0;
      ghost var gone: set<string> := {};
      assert old(markers) - gone == old(markers) && old(shown) - gone == old(shown);
      while stale != {}
        invariant Valid()
        invariant stale !! gone && stale + gone == stale0
        invariant markers == old(markers) - gone
        invariant shown == old(shown) - gone
        invariant Repr == old(Repr)
        decreases stale
      {
        var uid :| uid in stale;
        RemoveStale(uid, old(markers), old(shown), gone);
        MoveToGone(stale, gone, uid);
        gone := gone + {uid};
        stale := stale - {uid};
      }
      assert gone == stale0;
    }

    /** One step of the first pass: one more stale uid loses its marker. */
    method RemoveStale(uid: string, ghost m0: map<string, Marker>, ghost s0: map<string, MarkerState>,
                       ghost gone: set<string>)
      requires Valid() && markers == m0 - gone && shown == s0 - gone
      modifies this
      ensures Valid()
      ensures markers == m0 - (gone + {uid}) && shown == s0 - (gone + {uid})
      ensures Repr == old(Repr)
    {
      RemoveMarker(uid);
      MinusStep(m0, gone, uid);
      MinusStep(s0, gone, uid);
    }

    /** The second pass of updateMarkers: each entry in order removes, creates or moves its marker. */
    method ApplyEntries(list: seq<SharedLocation>, format: int -> string)
      requires Valid()
      modifies this, Repr
      ensures Valid()
      ensures shown == Apply(old(shown), list, format)
      ensures forall u :: u in markers ==> (u in old(markers) && markers[u] == old(markers)[u]) || fresh(markers[u])
      ensures DistinctUids(list) ==> forall u :: u in markers && u in old(markers) ==> markers[u] == old(markers)[u]
      ensures old(Repr) <= Repr && fresh(Repr - old(Repr))
    {
      ghost var seen: set<string> := {};
      for i := 0 to |list|
        invariant Valid()
        invariant shown == Apply(old(shown), list[..i], format)
        invariant forall u :: u in markers ==> (u in old(markers) && markers[u] == old(markers)[u]) || fresh(markers[u])
        invariant DistinctUids(list) ==> forall u :: u in markers && u in old(markers) ==> markers[u] == old(markers)[u]
        invariant DistinctUids(list) ==> forall k :: i <= k < |list| ==> list[k].uid !in seen
        invariant DistinctUids(list) ==>
                    forall u :: u in old(markers) && u !in seen ==> u in markers && markers[u] == old(markers)[u]
        invariant old(Repr) <= Repr && fresh(Repr - old(Repr))
      {
        var loc := list[i];
        assert list[..i + 1][..i] == list[..i];
        ApplyLocation(loc, format);
        seen := seen + {loc.uid};
      }
      assert list[..|list|] == list;
    }

    /** One entry of the second pass: remove (not sharing), create or move the uid's marker. */
    method ApplyLocation(loc: SharedLocation, format: int -> string)
      requires Valid()
      modifies this, Repr
      ensures Valid()
      ensures shown == Step(old(shown), loc, format)
      ensures forall u :: u in markers ==> (u in old(markers) && markers[u] == old(markers)[u]) || fresh(markers[u])
      ensures forall u :: u in old(markers) && u != loc.uid ==> u in markers && markers[u] == old(markers)[u]
      ensures loc.uid in markers && loc.uid in old(markers) ==> markers[loc.uid] == old(markers)[loc.uid]
      ensures old(Repr) <= Repr && fresh(Repr - old(Repr))
    {
      if !loc.isSharing {
        RemoveMarker(loc.uid);
      } else if loc.uid !in markers {
        AddMarker(loc.uid, MarkerState(PositionOf(loc), TitleFor(loc.name), SubDescription(loc, format)));
      } else {
        MoveMarker(loc.uid, PositionOf(loc), SubDescription(loc, format));
      }
    }

    /**
     * updateMarkers(list): the markers afterwards show Reconcile of what they showed. Every
     * marker is the uid's old object or a new one; when the uids of the list are distinct, a
     * uid that had a marker and still has one keeps the same object.
     */
    method UpdateMarkers(list: seq<SharedLocation>, format: int -> string)
      requires Valid()
      modifies this, Repr
      ensures Valid()
      ensures shown == Reconcile(old(shown), list, format)
      ensures forall u :: u in markers ==> (u in old(markers) && markers[u] == old(markers)[u]) || fresh(markers[u])
      ensures DistinctUids(list) ==> forall u :: u in markers && u in old(markers) ==> markers[u] == old(markers)[u]
      ensures old(Repr) <= Repr && fresh(Repr - old(Repr))
    {
      var present := PresentUids(list);
      PruneMarkers(present);
      ghost var pruned := markers;
      ApplyEntries(list, format);
      forall u | u in markers && u in old(markers) && DistinctUids(list)
        ensures markers[u] == old(markers)[u]
      {
        if u !in present {
          ReconcileDropsAbsent(old(shown), list, format, u);
        }
        assert u in pruned;
      }
    }
  }
}
