/**
 * The group membership relation as the repository maintains it: `groups/{gid}.members`
 * lists uids and `users/{uid}.groups` lists group ids. Writes are `set`, `delete` and
 * `update` with arrayUnion / arrayRemove; an `update` of a missing document fails.
 */
module GroupRepository {
  import opened Wrappers
  import opened FieldOps
  import opened Models

  /** The part of a user document the repository touches; a missing `groups` field is []. */
  datatype UserDoc = UserDoc(email: Option<string>, groups: seq<string>)

  datatype Store = Store(groups: map<string, Group>, users: map<string, UserDoc>)

  /** The error of an `update` on a document that does not exist. */
  const NotFound: string := "NOT_FOUND: No document to update"

  /** Every member of a group lists that group. */
  ghost predicate MembersListed(st: Store) {
    forall g, u :: g in st.groups && u in st.groups[g].members ==> u in st.users && g in st.users[u].groups
  }

  /** Every group a user lists has that user as a member. */
  ghost predicate GroupsListed(st: Store) {
    forall u, g :: u in st.users && g in st.users[u].groups ==> g in st.groups && u in st.groups[g].members
  }

  /** Both sides of the relation agree: uid is a member of gid iff gid is among uid's groups. */
  ghost predicate Consistent(st: Store) {
    MembersListed(st) && GroupsListed(st)
  }

  /** arrayUnion of `uid` into the members of an existing group. */
  function AddToMembers(groups: map<string, Group>, gid: string, uid: string): map<string, Group>
    requires gid in groups
  {
    groups[gid := groups[gid].(members := ArrayUnion(groups[gid].members, uid))]
  }

  function RemoveFromMembers(groups: map<string, Group>, gid: string, uid: string): map<string, Group>
    requires gid in groups
  {
    groups[gid := groups[gid].(members := ArrayRemove(groups[gid].members, uid))]
  }

  function AddToGroups(users: map<string, UserDoc>, uid: string, gid: string): map<string, UserDoc>
    requires uid in users
  {
    users[uid := users[uid].(groups := ArrayUnion(users[uid].groups, gid))]
  }

  function RemoveFromGroups(users: map<string, UserDoc>, uid: string, gid: string): map<string, UserDoc>
    requires uid in users
  {
    users[uid := users[uid].(groups := ArrayRemove(users[uid].groups, gid))]
  }

  // ---------------------------------------------------------------- createGroup

  /**
   * createGroup with the auto-generated id `newId` and the clock reading `now`: the group
   * document is written first; then the admin's `groups` gets the id. If the admin has no
   * user document the update fails, a merge-set creates `{groups: [newId]}`, and the call
   * still reports the failed update.
   */
  function CreateGroupSpec(st: Store, name: string, description: string, adminUid: string,
                           newId: string, now: int): (Store, Result<Group>)
  {
    var group := Group(newId, name, description, adminUid, [adminUid], now);
    var groups := st.groups[newId := group];
    if adminUid in st.users then (Store(groups, AddToGroups(st.users, adminUid, newId)), Success(group))
    else (Store(groups, st.users[adminUid := UserDoc(None, [newId])]), Failure(NotFound))
  }

  /** The new group has the creator as admin and sole member, and the creator lists it. */
  lemma CreateGroupShape(st: Store, name: string, description: string, adminUid: string, newId: string, now: int)
    ensures var (st', res) := CreateGroupSpec(st, name, description, adminUid, newId, now);
            && newId in st'.groups
            && st'.groups[newId] == Group(newId, name, description, adminUid, [adminUid], now)
            && adminUid in st'.users && newId in st'.users[adminUid].groups
            && (res.Success? <==> adminUid in st.users)
            && (res.Success? ==> res.value == st'.groups[newId])
            && (forall g :: g in st.groups && g != newId ==> g in st'.groups && st'.groups[g] == st.groups[g])
  {
  }

  lemma CreateGroupConsistent(st: Store, name: string, description: string, adminUid: string, newId: string, now: int)
    requires Consistent(st) && newId !in st.groups
    ensures Consistent(CreateGroupSpec(st, name, description, adminUid, newId, now).0)
  {
    var st' := CreateGroupSpec(st, name, description, adminUid, newId, now).0;
    forall u, g | u in st'.users && g in st'.users[u].groups
      ensures g in st'.groups && u in st'.groups[g].members
    {
      if g != newId {
        assert u in st.users && g in st.users[u].groups;
      }
    }
  }

  // ---------------------------------------------------------- addMemberByEmail

  /** "The first document of the e-mail query", `first`, is a user with that e-mail, or None if there is none. */
  ghost predicate QueryResult(st: Store, email: string, first: Option<string>) {
    && (first.Some? ==> first.value in st.users && st.users[first.value].email == Some(email))
    && (first.None? ==> forall u :: u in st.users ==> st.users[u].email != Some(email))
  }

  const NoUserFound: string := "No user found with that email"

  /** addMemberByEmail given the query's first hit. */
  function AddMemberSpec(st: Store, gid: string, first: Option<string>): (Store, Result<()>)
  {
    if first.None? then (st, Failure(NoUserFound))
    else if gid !in st.groups then (st, Failure(NotFound))
    else
      var groups := AddToMembers(st.groups, gid, first.value);
      if first.value !in st.users then (Store(groups, st.users), Failure(NotFound))
      else (Store(groups, AddToGroups(st.users, first.value, gid)), Success(()))
  }

  /** No user with that e-mail: the call fails with the fixed message and nothing changes. */
  lemma AddMemberNoMatch(st: Store, gid: string, email: string, first: Option<string>)
    requires QueryResult(st, email, first) && forall u :: u in st.users ==> st.users[u].email != Some(email)
    ensures AddMemberSpec(st, gid, first) == (st, Failure(NoUserFound))
  {
  }

  /** The found user becomes a member and lists the group; nobody else changes. */
  lemma AddMemberEffect(st: Store, gid: string, email: string, first: Option<string>)
    requires QueryResult(st, email, first) && first.Some? && gid in st.groups
    ensures var (st', res) := AddMemberSpec(st, gid, first);
            && res.Success?
            && st'.groups.Keys == st.groups.Keys && st'.users.Keys == st.users.Keys
            && st'.groups[gid].members == ArrayUnion(st.groups[gid].members, first.value)
            && st'.users[first.value].groups == ArrayUnion(st.users[first.value].groups, gid)
            && (forall g :: g in st.groups && g != gid ==> st'.groups[g] == st.groups[g])
            && (forall u :: u in st.users && u != first.value ==> st'.users[u] == st.users[u])
  {
  }

  /** Adding someone who is already a member changes nothing. */
  lemma AddExistingMemberNoChange(st: Store, gid: string, email: string, first: Option<string>)
    requires Consistent(st) && QueryResult(st, email, first) && first.Some?
    requires gid in st.groups && first.value in st.groups[gid].members
    ensures AddMemberSpec(st, gid, first).0 == st
  {
    var uid := first.value;
    assert gid in st.users[uid].groups;
    assert st.groups[gid].(members := st.groups[gid].members) == st.groups[gid];
    assert st.users[uid].(groups := st.users[uid].groups) == st.users[uid];
  }

  lemma AddMemberConsistent(st: Store, gid: string, email: string, first: Option<string>)
    requires Consistent(st) && QueryResult(st, email, first)
    ensures Consistent(AddMemberSpec(st, gid, first).0)
  {
  }

  // ------------------------------------------------------ leaveGroup / removeMember

  /** leaveGroup and removeMember: drop `uid` from the members, then `gid` from uid's groups. */
  function LeaveSpec(st: Store, gid: string, uid: string): (Store, Result<()>)
  {
    if gid !in st.groups then (st, Failure(NotFound))
    else
      var groups := RemoveFromMembers(st.groups, gid, uid);
      if uid !in st.users then (Store(groups, st.users), Failure(NotFound))
      else (Store(groups, RemoveFromGroups(st.users, uid, gid)), Success(()))
  }

  /** Leaving removes exactly the one membership, on both sides, and nothing else. */
  lemma LeaveEffect(st: Store, gid: string, uid: string)
    requires gid in st.groups && uid in st.users
    ensures var (st', res) := LeaveSpec(st, gid, uid);
            && res.Success?
            && st'.groups.Keys == st.groups.Keys && st'.users.Keys == st.users.Keys
            && uid !in st'.groups[gid].members && gid !in st'.users[uid].groups
            && (forall v :: v != uid ==> (v in st'.groups[gid].members <==> v in st.groups[gid].members))
            && (forall h :: h != gid ==> (h in st'.users[uid].groups <==> h in st.users[uid].groups))
            && st'.groups[gid].adminUid == st.groups[gid].adminUid
            && (forall g :: g in st.groups && g != gid ==> st'.groups[g] == st.groups[g])
            && (forall u :: u in st.users && u != uid ==> st'.users[u] == st.users[u])
  {
  }

  lemma LeaveConsistent(st: Store, gid: string, uid: string)
    requires Consistent(st)
    ensures Consistent(LeaveSpec(st, gid, uid).0)
  {
    var st' := LeaveSpec(st, gid, uid).0;
    if gid in st.groups && uid !in st.users {
      assert uid !in st.groups[gid].members;
      assert st'.groups[gid] == st.groups[gid];
      assert st' == st;
    }
  }

  /**
   * removeMember has no admin check: removing the admin succeeds and leaves a group whose
   * admin is no longer a member.
   */
  lemma RemovingAdminIsPossible(st: Store, gid: string)
    requires gid in st.groups && st.groups[gid].adminUid in st.users
    ensures var (st', res) := LeaveSpec(st, gid, st.groups[gid].adminUid);
            res.Success? && st'.groups[gid].adminUid !in st'.groups[gid].members
  {
  }

  // ---------------------------------------------------------------- deleteGroup

  const GroupNotFound: string := "Group not found"

  /**
   * The member loop of deleteGroup: arrayRemove of `gid` from each listed member's groups,
   * in list order; a member without a user document makes its update, and the loop, fail.
   */
  function UnlinkMembers(users: map<string, UserDoc>, members: seq<string>, gid: string): (map<string, UserDoc>, bool)
  {
    if members == [] then (users, true)
    else
      var (before, ok) := UnlinkMembers(users, members[..|members| - 1], gid);
      var m := members[|members| - 1];
      if !ok then (before, false)
      else if m !in before then (before, false)
      else (RemoveFromGroups(before, m, gid), true)
  }

  /** deleteGroup: "Group not found" for a missing group, else unlink every member and delete. */
  function DeleteGroupSpec(st: Store, gid: string): (Store, Result<()>)
  {
    if gid !in st.groups then (st, Failure(GroupNotFound))
    else
      var (users, ok) := UnlinkMembers(st.users, st.groups[gid].members, gid);
      if !ok then (Store(st.groups, users), Failure(NotFound))
      else (Store(st.groups - {gid}, users), Success(()))
  }

  /** Each listed member (once, however often listed) loses `gid`; everybody else is untouched. */
  lemma {:induction false} UnlinkMembersEffect(users: map<string, UserDoc>, members: seq<string>, gid: string)
    requires forall k :: 0 <= k < |members| ==> members[k] in users
    ensures var (users', ok) := UnlinkMembers(users, members, gid);
            && ok && users'.Keys == users.Keys
            && forall u :: u in users ==>
                 users'[u] == if u in members then users[u].(groups := ArrayRemove(users[u].groups, gid)) else users[u]
  {
    if members != [] {
      var init := members[..|members| - 1];
      var m := members[|members| - 1];
      assert forall k :: 0 <= k < |init| ==> init[k] == members[k];
      UnlinkMembersEffect(users, init, gid);
      assert forall u :: u in members <==> u in init || u == m;
      if m in init {
        var before := UnlinkMembers(users, init, gid).0;
        assert gid !in before[m].groups;
      }
    }
  }

  /** The members of a group of a consistent store all have user documents, so unlinking cannot fail. */
  lemma MembersHaveUsers(st: Store, gid: string)
    requires Consistent(st) && gid in st.groups
    ensures forall k :: 0 <= k < |st.groups[gid].members| ==> st.groups[gid].members[k] in st.users
  {
    var members := st.groups[gid].members;
    forall k | 0 <= k < |members| ensures members[k] in st.users {
      assert members[k] in st.groups[gid].members;
    }
  }

  /** Deleting a listed group succeeds, removes it, and no user refers to it any more. */
  lemma DeleteGroupEffect(st: Store, gid: string)
    requires Consistent(st) && gid in st.groups
    ensures var (st', res) := DeleteGroupSpec(st, gid);
            && res.Success? && st'.groups == st.groups - {gid} && st'.users.Keys == st.users.Keys
            && (forall u :: u in st'.users ==> gid !in st'.users[u].groups)
  {
    var members := st.groups[gid].members;
    MembersHaveUsers(st, gid);
    UnlinkMembersEffect(st.users, members, gid);
    var users := UnlinkMembers(st.users, members, gid).0;
    forall u | u in users
      ensures gid !in users[u].groups
    {
      if u !in members {
        assert users[u] == st.users[u];
      }
    }
  }

  /** `users` is `st.users` after gid was removed from the groups of exactly its members. */
  ghost predicate Unlinked(st: Store, gid: string, users: map<string, UserDoc>)
    requires gid in st.groups
  {
    && users.Keys == st.users.Keys
    && forall u :: u in st.users ==>
         users[u] == if u in st.groups[gid].members then st.users[u].(groups := ArrayRemove(st.users[u].groups, gid))
                     else st.users[u]
  }

  lemma UnlinkedForward(st: Store, gid: string, users: map<string, UserDoc>, g: string, u: string)
    requires Consistent(st) && gid in st.groups && Unlinked(st, gid, users)
    requires g in st.groups && g != gid && u in st.groups[g].members
    ensures u in users && g in users[u].groups
  {
    assert u in st.users && g in st.users[u].groups;
  }

  lemma UnlinkedBackward(st: Store, gid: string, users: map<string, UserDoc>, u: string, g: string)
    requires Consistent(st) && gid in st.groups && Unlinked(st, gid, users)
    requires u in users && g in users[u].groups
    ensures g != gid && g in st.groups && u in st.groups[g].members
  {
    assert g in st.users[u].groups;
  }

  lemma UnlinkedMembersListed(st: Store, gid: string, users: map<string, UserDoc>)
    requires Consistent(st) && gid in st.groups && Unlinked(st, gid, users)
    ensures MembersListed(Store(st.groups - {gid}, users))
  {
    var groups := st.groups - {gid};
    forall g, u | g in groups && u in groups[g].members
      ensures u in users && g in users[u].groups
    {
      UnlinkedForward(st, gid, users, g, u);
    }
  }

  lemma UnlinkedGroupsListed(st: Store, gid: string, users: map<string, UserDoc>)
    requires Consistent(st) && gid in st.groups && Unlinked(st, gid, users)
    ensures GroupsListed(Store(st.groups - {gid}, users))
  {
    var groups := st.groups - {gid};
    forall u, g | u in users && g in users[u].groups
      ensures g in groups && u in groups[g].members
    {
      UnlinkedBackward(st, gid, users, u, g);
    }
  }

  lemma UnlinkedConsistent(st: Store, gid: string, users: map<string, UserDoc>)
    requires Consistent(st) && gid in st.groups && Unlinked(st, gid, users)
    ensures Consistent(Store(st.groups - {gid}, users))
  {
    UnlinkedMembersListed(st, gid, users);
    UnlinkedGroupsListed(st, gid, users);
  }

  lemma DeleteGroupConsistent(st: Store, gid: string)
    requires Consistent(st)
    ensures Consistent(DeleteGroupSpec(st, gid).0)
  {
    if gid in st.groups {
      MembersHaveUsers(st, gid);
      UnlinkMembersEffect(st.users, st.groups[gid].members, gid);
      var users := UnlinkMembers(st.users, st.groups[gid].members, gid).0;
      assert Unlinked(st, gid, users);
      UnlinkedConsistent(st, gid, users);
    }
  }

  lemma DeleteMissingGroup(st: Store, gid: string)
    requires gid !in st.groups
    ensures DeleteGroupSpec(st, gid) == (st, Failure(GroupNotFound))
  {
  }

  /** Once an update of the member loop has failed, the rest of the loop does not run. */
  lemma {:induction false} UnlinkFailureStops(users: map<string, UserDoc>, members: seq<string>, k: nat, gid: string)
    requires k <= |members| && !UnlinkMembers(users, members[..k], gid).1
    ensures UnlinkMembers(users, members, gid) == UnlinkMembers(users, members[..k], gid)
    decreases |members| - k
  {
    if k < |members| {
      var next := members[..k + 1];
      assert next[..|next| - 1] == members[..k];
      UnlinkFailureStops(users, members, k + 1, gid);
    } else {
      assert members[..k] == members;
    }
  }

  // --------------------------------------------------------------- the store

  /** The two collections, as the repository's calls change them. */
  class GroupStore {
    var groups: map<string, Group>
    var users: map<string, UserDoc>

    function State(): Store
      reads this
    {
      Store(groups, users)
    }

    constructor (groups0: map<string, Group>, users0: map<string, UserDoc>)
      ensures groups == groups0 && users == users0
    {
      groups := groups0;
      users := users0;
    }

    method CreateGroup(name: string, description: string, adminUid: string, newId: string, now: int)
      returns (res: Result<Group>)
      modifies this
      ensures (State(), res) == CreateGroupSpec(old(State()), name, description, adminUid, newId, now)
    {
      var group := Group(newId, name, description, adminUid, [adminUid], now);
      groups := groups[newId := group];
      if adminUid in users {
        users := AddToGroups(users, adminUid, newId);
        res := Success(group);
      } else {
        users := users[adminUid := UserDoc(None, [newId])];
        res := Failure(NotFound);
      }
    }

    /** addMemberByEmail; `first` is the first document id of the e-mail query, if any. */
    method AddMemberByEmail(groupId: string, first: Option<string>) returns (res: Result<()>)
      modifies this
      ensures (State(), res) == AddMemberSpec(old(State()), groupId, first)
    {
      if first.None? {
        return Failure(NoUserFound);
      }
      var uid := first.value;
      if groupId !in groups {
        return Failure(NotFound);
      }
      groups := AddToMembers(groups, groupId, uid);
      if uid !in users {
        return Failure(NotFound);
      }
      users := AddToGroups(users, uid, groupId);
      res := Success(());
    }

    method LeaveGroup(groupId: string, userUid: string) returns (res: Result<()>)
      modifies this
      ensures (State(), res) == LeaveSpec(old(State()), groupId, userUid)
    {
      if groupId !in groups {
        return Failure(NotFound);
      }
      groups := RemoveFromMembers(groups, groupId, userUid);
      if userUid !in users {
        return Failure(NotFound);
      }
      users := RemoveFromGroups(users, userUid, groupId);
      res := Success(());
    }

    /** removeMember performs the same two writes as leaveGroup. */
    method RemoveMember(groupId: string, memberUid: string) returns (res: Result<()>)
      modifies this
      ensures (State(), res) == LeaveSpec(old(State()), groupId, memberUid)
    {
      if groupId !in groups {
        return Failure(NotFound);
      }
      groups := RemoveFromMembers(groups, groupId, memberUid);
      if memberUid !in users {
        return Failure(NotFound);
      }
      users := RemoveFromGroups(users, memberUid, groupId);
      res := Success(());
    }

    method DeleteGroup(groupId: string) returns (res: Result<()>)
      modifies this
      ensures (State(), res) == DeleteGroupSpec(old(State()), groupId)
    {
      if groupId !in groups {
        return Failure(GroupNotFound);
      }
      var members := groups[groupId].members;
      var i := 0;
      while i < |members|
        invariant 0 <= i <= |members|
        invariant groups == old(groups) && members == old(groups)[groupId].members
        invariant UnlinkMembers(old(users), members[..i], groupId) == (users, true)
      {
        var uid := members[i];
        assert members[..i + 1][..i] == members[..i];
        if uid !in users {
          UnlinkFailureStops(old(users), members, i + 1, groupId);
          return Failure(NotFound);
        }
        users := RemoveFromGroups(users, uid, groupId);
        i := i + 1;
      }
      assert members[..|members|] == members;
      groups := groups - {groupId};
      res := Success(());
    }
  }
}
