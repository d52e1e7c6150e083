/**
 * The per-group `locations` collection: one document per user, written whole when the
 * user shares a position and merged with `isSharing = false` when they stop; the
 * listener decodes every document with defaults, dropping the ones that do not decode.
 * Timestamps are milliseconds.
 */
module LocationRepository {
  import opened Wrappers

  /** A stored field value, by the type the document store keeps. */
  datatype FieldValue =
    | FString(s: string)
    | FDouble(d: real)
    | FLong(n: int)
    | FBool(b: bool)
    | FTimestamp(millis: int)
    | FNull
    | FOther

  datatype LocationDoc = LocationDoc(id: string, fields: map<string, FieldValue>)

  datatype SharedLocation = SharedLocation(
    uid: string,
    name: string,
    lat: real,
    lng: real,
    updatedAt: Option<int>,
    isSharing: bool)

  /** A typed read: absent or null gives Success(None); a value of another type fails. */
  function GetString(fields: map<string, FieldValue>, key: string): (r: Result<Option<string>>)
    ensures key in fields && fields[key].FString? ==> r == Success(Some(fields[key].s))
    ensures (key !in fields || fields[key].FNull?) ==> r == Success(None)
  {
    if key !in fields then Success(None)
    else match fields[key]
      case FString(s) => Success(Some(s))
      case FNull => Success(None)
      case _ => Failure("wrong type for " + key)
  }

  /** `getDouble` also accepts a whole number. */
  function GetDouble(fields: map<string, FieldValue>, key: string): (r: Result<Option<real>>)
    ensures key in fields && fields[key].FDouble? ==> r == Success(Some(fields[key].d))
    ensures key in fields && fields[key].FLong? ==> r == Success(Some(fields[key].n as real))
    ensures (key !in fields || fields[key].FNull?) ==> r == Success(None)
  {
    if key !in fields then Success(None)
    else match fields[key]
      case FDouble(d) => Success(Some(d))
      case FLong(n) => Success(Some(n as real))
      case FNull => Success(None)
      case _ => Failure("wrong type for " + key)
  }

  function GetBool(fields: map<string, FieldValue>, key: string): (r: Result<Option<bool>>)
    ensures key in fields && fields[key].FBool? ==> r == Success(Some(fields[key].b))
    ensures (key !in fields || fields[key].FNull?) ==> r == Success(None)
  {
    if key !in fields then Success(None)
    else match fields[key]
      case FBool(b) => Success(Some(b))
      case FNull => Success(None)
      case _ => Failure("wrong type for " + key)
  }

  function GetTimestamp(fields: map<string, FieldValue>, key: string): (r: Result<Option<int>>)
    ensures key in fields && fields[key].FTimestamp? ==> r == Success(Some(fields[key].millis))
    ensures (key !in fields || fields[key].FNull?) ==> r == Success(None)
  {
    if key !in fields then Success(None)
    else match fields[key]
      case FTimestamp(t) => Success(Some(t))
      case FNull => Success(None)
      case _ => Failure("wrong type for " + key)
  }

  /**
   * The body of the `mapNotNull` lambda: uid falls back to the document id, name to "",
   * lat/lng to 0.0, isSharing to false; any failing read makes the whole document None.
   */
  function Decode(doc: LocationDoc): (r: Option<SharedLocation>)
    ensures r.Some? ==> r.value.uid == (if "uid" in doc.fields && doc.fields["uid"].FString? then doc.fields["uid"].s else doc.id)
  {
    var f := doc.fields;
    var uid, name := GetString(f, "uid"), GetString(f, "name");
    var lat, lng := GetDouble(f, "lat"), GetDouble(f, "lng");
    var updatedAt, isSharing := GetTimestamp(f, "updatedAt"), GetBool(f, "isSharing");
    if uid.Success? && name.Success? && lat.Success? && lng.Success? && updatedAt.Success? && isSharing.Success? then
      Some(SharedLocation(uid.value.GetOr(doc.id), name.value.GetOr(""), lat.value.GetOr(0.0),
                          lng.value.GetOr(0.0), updatedAt.value, isSharing.value.GetOr(false)))
    else None
  }

  /** The six fields the listener reads. */
  const ExpectedFields: set<string> := {"uid", "name", "lat", "lng", "updatedAt", "isSharing"}

  /** A stored value the typed read of field `k` accepts: null, or the type that read asks for. */
  predicate Fits(k: string, v: FieldValue) {
    v.FNull?
    || (k in {"uid", "name"} && v.FString?)
    || (k in {"lat", "lng"} && (v.FDouble? || v.FLong?))
    || (k == "updatedAt" && v.FTimestamp?)
    || (k == "isSharing" && v.FBool?)
  }

  /**
   * Each field of a decoded document is the stored value when it has the expected type,
   * and its default when the field is missing or null, independently of the other fields.
   */
  lemma DecodeDefaults(doc: LocationDoc)
    requires Decode(doc).Some?
    ensures var f, r := doc.fields, Decode(doc).value;
            && r.name == (if "name" in f && f["name"].FString? then f["name"].s else "")
            && r.lat == (if "lat" in f && f["lat"].FDouble? then f["lat"].d
                         else if "lat" in f && f["lat"].FLong? then f["lat"].n as real else 0.0)
            && r.lng == (if "lng" in f && f["lng"].FDouble? then f["lng"].d
                         else if "lng" in f && f["lng"].FLong? then f["lng"].n as real else 0.0)
            && r.updatedAt == (if "updatedAt" in f && f["updatedAt"].FTimestamp? then Some(f["updatedAt"].millis) else None)
            && r.isSharing == (if "isSharing" in f && f["isSharing"].FBool? then f["isSharing"].b else false)
  {
  }

  /**
   * A document is dropped exactly when one of the six fields holds a value its typed read
   * rejects; fields the listener does not read never matter.
   */
  lemma DecodeFailsExactly(doc: LocationDoc)
    ensures Decode(doc).None? <==> exists k :: k in ExpectedFields && k in doc.fields && !Fits(k, doc.fields[k])
  {
    var f := doc.fields;
    if Decode(doc).None? {
      if GetString(f, "uid").Failure? { assert !Fits("uid", f["uid"]); }
      else if GetString(f, "name").Failure? { assert !Fits("name", f["name"]); }
      else if GetDouble(f, "lat").Failure? { assert !Fits("lat", f["lat"]); }
      else if GetDouble(f, "lng").Failure? { assert !Fits("lng", f["lng"]); }
      else if GetTimestamp(f, "updatedAt").Failure? { assert !Fits("updatedAt", f["updatedAt"]); }
      else { assert !Fits("isSharing", f["isSharing"]); }
    }
  }

  /** `mapNotNull { decode }` over the snapshot's documents. */
  function DecodeAll(docs: seq<LocationDoc>): (r: seq<SharedLocation>)
    ensures |r| <= |docs|
  {
    if docs == [] then []
    else
      var last := Decode(docs[|docs| - 1]);
      DecodeAll(docs[..|docs| - 1]) + (if last.Some? then [last.value] else [])
  }

  /** Dropping is local: the decoded list of a concatenation is the concatenation, so order is kept. */
  lemma {:induction false} DecodeAllAppend(a: seq<LocationDoc>, b: seq<LocationDoc>)
    ensures DecodeAll(a + b) == DecodeAll(a) + DecodeAll(b)
  {
    if b == [] {
      assert a + b == a;
    } else {
      assert (a + b)[..|a + b| - 1] == a + b[..|b| - 1];
      DecodeAllAppend(a, b[..|b| - 1]);
    }
  }

  lemma {:induction false} DecodeAllSound(docs: seq<LocationDoc>, l: SharedLocation)
    requires l in DecodeAll(docs)
    ensures exists k :: 0 <= k < |docs| && Decode(docs[k]) == Some(l)
  {
    var n := |docs| - 1;
    var init, last := docs[..n], Decode(docs[n]);
    assert DecodeAll(docs) == DecodeAll(init) + (if last.Some? then [last.value] else []);
    if l in DecodeAll(init) {
      DecodeAllSound(init, l);
      var k :| 0 <= k < |init| && Decode(init[k]) == Some(l);
      assert docs[k] == init[k];
    } else {
      assert last == Some(l);
    }
  }

  lemma {:induction false} DecodeAllComplete(docs: seq<LocationDoc>, k: int)
    requires 0 <= k < |docs| && Decode(docs[k]).Some?
    ensures Decode(docs[k]).value in DecodeAll(docs)
  {
    var n := |docs| - 1;
    var init, last := docs[..n], Decode(docs[n]);
    assert DecodeAll(docs) == DecodeAll(init) + (if last.Some? then [last.value] else []);
    if k < n {
      assert init[k] == docs[k];
      DecodeAllComplete(init, k);
    }
  }

  /** Every decoded entry comes from a document that decodes to it, and every decodable document contributes. */
  lemma DecodeAllMembers(docs: seq<LocationDoc>, l: SharedLocation)
    ensures l in DecodeAll(docs) <==> exists k :: 0 <= k < |docs| && Decode(docs[k]) == Some(l)
  {
    if l in DecodeAll(docs) {
      DecodeAllSound(docs, l);
    }
    if exists k :: 0 <= k < |docs| && Decode(docs[k]) == Some(l) {
      var k :| 0 <= k < |docs| && Decode(docs[k]) == Some(l);
      DecodeAllComplete(docs, k);
    }
  }

  /** What the snapshot listener receives: an error, or a snapshot (null or with documents). */
  datatype LocationsEvent = ListenerError | Snapshot(documents: Option<seq<LocationDoc>>)

  /** The list handed to the callback: empty on an error or a null snapshot. */
  function ObserveGroupLocations(event: LocationsEvent): (r: seq<SharedLocation>)
    ensures (event.ListenerError? || event == Snapshot(None)) ==> r == []
    ensures event.Snapshot? && event.documents.Some? ==> r == DecodeAll(event.documents.value)
  {
    match event
    case ListenerError => []
    case Snapshot(None) => []
    case Snapshot(Some(docs)) => DecodeAll(docs)
  }

  /** The full document setLocationForGroup writes. */
  function SharingPayload(uid: string, name: string, lat: real, lng: real, now: int): map<string, FieldValue> {
    map["uid" := FString(uid), "name" := FString(name), "lat" := FDouble(lat), "lng" := FDouble(lng),
        "updatedAt" := FTimestamp(now), "isSharing" := FBool(true)]
  }

  /** The merge of stopSharingForGroup into the existing fields (none for a missing document). */
  function StopSharingMerge(existing: map<string, FieldValue>, now: int): map<string, FieldValue> {
    existing["isSharing" := FBool(false)]["updatedAt" := FTimestamp(now)]
  }

  /** The shared location decodes back exactly, with isSharing true. */
  lemma SetThenDecode(uid: string, name: string, lat: real, lng: real, now: int)
    ensures Decode(LocationDoc(uid, SharingPayload(uid, name, lat, lng, now)))
            == Some(SharedLocation(uid, name, lat, lng, Some(now), true))
  {
  }

  /**
   * Stopping keeps the other fields: a document that decoded before still decodes, now not
   * sharing and with the new timestamp, its name and coordinates unchanged.
   */
  lemma StopThenDecode(doc: LocationDoc, now: int)
    requires Decode(doc).Some?
    ensures Decode(LocationDoc(doc.id, StopSharingMerge(doc.fields, now)))
            == Some(Decode(doc).value.(isSharing := false, updatedAt := Some(now)))
  {
    var f := doc.fields;
    var g := StopSharingMerge(f, now);
    assert forall k :: k != "isSharing" && k != "updatedAt" ==> (k in g <==> k in f) && (k in f ==> g[k] == f[k]);
    assert GetString(g, "uid") == GetString(f, "uid");
    assert GetString(g, "name") == GetString(f, "name");
    assert GetDouble(g, "lat") == GetDouble(f, "lat");
    assert GetDouble(g, "lng") == GetDouble(f, "lng");
  }

  /** The location documents of every group, keyed by (group id, uid). */
  class LocationStore {
    var docs: map<(string, string), map<string, FieldValue>>

    constructor ()
      ensures docs == map[]
    {
      docs := map[];
    }

    /** setLocationForGroup: overwrite the whole document. */
    method SetLocationForGroup(groupId: string, uid: string, name: string, lat: real, lng: real, now: int)
      modifies this
      ensures docs == old(docs)[(groupId, uid) := SharingPayload(uid, name, lat, lng, now)]
    {
      docs := docs[(groupId, uid) := SharingPayload(uid, name, lat, lng, now)];
    }

    /** stopSharingForGroup: a merge-set, which creates the document if it is missing. */
    method StopSharingForGroup(groupId: string, uid: string, now: int)
      modifies this
      ensures docs == old(docs)[(groupId, uid) :=
                StopSharingMerge(if (groupId, uid) in old(docs) then old(docs)[(groupId, uid)] else map[], now)]
    {
      var existing := if (groupId, uid) in docs then docs[(groupId, uid)] else map[];
      docs := docs[(groupId, uid) := StopSharingMerge(existing, now)];
    }
  }
}
