/**
 * Joining a group by its QR code: the payload a group shows, the parsing of a scanned
 * text, and the membership update the scan makes.
 */
module ScanQr {
  import opened Wrappers
  import opened Text
  import opened FieldOps
  import opened Models
  import opened GroupRepository

  const JoinPrefix: string := "JOIN_GROUP:"

  /** The text encoded in a group's QR code. */
  function JoinPayload(gid: string): (r: string)
    ensures StartsWith(r, JoinPrefix) && |r| == |JoinPrefix| + |gid|
  {
    JoinPrefix + gid
  }

  /** The group id of a scanned text, or None when the text is not a join code. */
  function ParseJoinCode(text: string): (r: Option<string>)
    ensures r.Some? <==> StartsWith(text, JoinPrefix)
    ensures r.Some? ==> JoinPrefix + r.value == text
  {
    if StartsWith(text, JoinPrefix) then Some(RemovePrefix(text, JoinPrefix)) else None
  }

  /** The parser inverts the payload, and every accepted text is a payload. */
  lemma ParseJoinPayload(gid: string, text: string)
    ensures ParseJoinCode(JoinPayload(gid)) == Some(gid)
    ensures ParseJoinCode(text) == Some(gid) <==> text == JoinPayload(gid)
  {
    var p := JoinPayload(gid);
    assert p[..|JoinPrefix|] == JoinPrefix;
    assert p[|JoinPrefix|..] == gid;
  }

  /** Nothing demands a non-empty id: the bare prefix names the group "". */
  lemma BarePrefixAccepted()
    ensures ParseJoinCode(JoinPrefix) == Some("")
  {
    assert JoinPrefix[..|JoinPrefix|] == JoinPrefix;
  }

  datatype JoinOutcome =
    | NotJoinCode
    | NotLoggedIn
    | JoinFailed(message: string)
    | Joined

  /**
   * handleScannedText with the signed-in uid `current`: a text that is not a join code and
   * a missing user change nothing; otherwise `members` of the named group gets the uid by
   * arrayUnion, and the update fails when that group does not exist.
   */
  function HandleScannedText(st: Store, text: string, current: Option<string>): (r: (Store, JoinOutcome))
    ensures r.1 == NotJoinCode <==> !StartsWith(text, JoinPrefix)
    ensures r.1 == NotLoggedIn <==> StartsWith(text, JoinPrefix) && current.None?
    ensures r.1.JoinFailed? <==>
              StartsWith(text, JoinPrefix) && current.Some? && ParseJoinCode(text).value !in st.groups
    ensures !r.1.Joined? ==> r.0 == st
    ensures r.1.Joined? ==>
              var gid := ParseJoinCode(text).value;
              gid in st.groups && r.0 == st.(groups := AddToMembers(st.groups, gid, current.value))
  {
    match ParseJoinCode(text)
    case None => (st, NotJoinCode)
    case Some(gid) =>
      match current
      case None => (st, NotLoggedIn)
      case Some(uid) =>
        if gid !in st.groups then (st, JoinFailed(NotFound))
        else (st.(groups := AddToMembers(st.groups, gid, uid)), Joined)
  }

  /** Scanning the same code twice leaves the store as one scan does. */
  lemma JoinIdempotent(st: Store, text: string, current: Option<string>)
    ensures var once := HandleScannedText(st, text, current).0;
            HandleScannedText(once, text, current).0 == once
  {
    var r := HandleScannedText(st, text, current);
    if r.1.Joined? {
      var gid, uid := ParseJoinCode(text).value, current.value;
      var ms := st.groups[gid].members;
      assert uid in ArrayUnion(ms, uid);
      assert ArrayUnion(ArrayUnion(ms, uid), uid) == ArrayUnion(ms, uid);
    }
  }

  /**
   * The scan writes only the group side of the relation: from a consistent store it stays
   * consistent exactly when the user document already lists the group, which is when the
   * join changed nothing.
   */
  lemma JoinConsistentIff(st: Store, gid: string, uid: string)
    requires Consistent(st) && gid in st.groups
    ensures var after := HandleScannedText(st, JoinPayload(gid), Some(uid)).0;
            Consistent(after) <==> uid in st.users && gid in st.users[uid].groups
  {
    ParseJoinPayload(gid, JoinPayload(gid));
    var after := HandleScannedText(st, JoinPayload(gid), Some(uid)).0;
    var ms := st.groups[gid].members;
    assert uid in ArrayUnion(ms, uid);
    if uid in st.users && gid in st.users[uid].groups {
      assert uid in ms;
      assert ArrayUnion(ms, uid) == ms;
      assert after.groups == st.groups;
    } else {
      assert uid in after.groups[gid].members;
    }
  }

  /** A join can leave a consistent store inconsistent: the member has no matching group entry. */
  lemma JoinCanBreakConsistency()
    ensures var st := Store(map["g" := Group("g", "trip", "", "a", [], 0)], map[]);
            Consistent(st) && !Consistent(HandleScannedText(st, JoinPayload("g"), Some("u")).0)
  {
    var st := Store(map["g" := Group("g", "trip", "", "a", [], 0)], map[]);
    JoinConsistentIff(st, "g", "u");
  }
}
