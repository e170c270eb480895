/** A connection knows its user by name. Each channel it opens reads the user's record anew, and a session
    on that channel keeps this record as long as it lives. What changing the user means for channels that
    are opened later and for sessions that live already, and what happens when the id of a deleted user is
    used again. */
module LiveSessions {
  import opened Wrappers
  import opened Text
  import opened Database
  import opened StoreSpec
  import opened StoreInvariants
  import opened Authorization
  import opened Deletions
  import KeyLogins

  // ---------- channels that are opened later ----------

  /** `stateFromContext`: the record of the enabled user of that name. */
  ghost function OpensAs(db: Db, username: string): (r: Option<User>) {
    var u := UserNamed(db, Lower(username));
    if u.None? || !db.users[u.value].enabled then None
    else Some(User(u.value, db.users[u.value].role, db.users[u.value].enabled))
  }

  /** A user who was disabled or deleted opens no channel any more, and one whose role was changed opens
      channels in the new role, under any spelling of the name. */
  lemma ChannelsSeeChanges(db: Db, name: string, role: string, spelling: string)
    requires UniqueUsernames(db.users) && Lower(spelling) == Lower(name)
    ensures var (next, r) := SetUserEnabled(db, name, false); r == DONE ==> OpensAs(next, spelling).None?
    ensures var (next, r) := DeleteUser(db, name); r == DONE ==> OpensAs(next, spelling).None?
    ensures var (next, r) := SetUserRole(db, name, role);
      r == DONE && OpensAs(db, spelling).Some? ==>
        OpensAs(next, spelling) == Some(OpensAs(db, spelling).value.(role := role))
  {
    DisabledOpensNone(db, name, spelling);
    DeletedOpensNone(db, name, spelling);
    RoleIsSeen(db, name, role, spelling);
    hide SetUserEnabled, DeleteUser, SetUserRole, OpensAs, Lower, UniqueUsernames;
  }

  lemma DisabledOpensNone(db: Db, name: string, spelling: string)
    requires UniqueUsernames(db.users) && Lower(spelling) == Lower(name)
    ensures var (next, r) := SetUserEnabled(db, name, false); r == DONE ==> OpensAs(next, spelling).None?
  {
    hide Lower, OtherUsableAdmin;
    var u, next := UserNamed(db, Lower(name)), SetUserEnabled(db, name, false).0;
    if SetUserEnabled(db, name, false).1 == DONE {
      assert next.users == db.users[u.value := db.users[u.value].(enabled := false)];
    }
  }

  lemma DeletedOpensNone(db: Db, name: string, spelling: string)
    requires UniqueUsernames(db.users) && Lower(spelling) == Lower(name)
    ensures var (next, r) := DeleteUser(db, name); r == DONE ==> OpensAs(next, spelling).None?
  {
    hide Lower, DeleteUser, UniqueUsernames;
    if DeleteUser(db, name).1 == DONE { KeyLogins.DeletedIsRefused(db, name, ""); }
  }

  lemma RoleIsSeen(db: Db, name: string, role: string, spelling: string)
    requires UniqueUsernames(db.users) && Lower(spelling) == Lower(name)
    ensures var (next, r) := SetUserRole(db, name, role);
      r == DONE && OpensAs(db, spelling).Some? ==>
        OpensAs(next, spelling) == Some(OpensAs(db, spelling).value.(role := role))
  {
    hide Lower, OtherUsableAdmin, ValidRole;
    var u, next := UserNamed(db, Lower(name)), SetUserRole(db, name, role).0;
    if SetUserRole(db, name, role).1 == DONE {
      assert next.users == db.users[u.value := db.users[u.value].(role := role)];
      var v := UserNamed(next, Lower(name));
      assert u.value in next.users && next.users[u.value].username == Lower(name);
      assert v.Some? && db.users[v.value].username == Lower(name);
    }
  }

  // ---------- sessions that live already ----------

  /** Adding, enabling, disabling and changing the role of users, and adding and removing their keys,
      change nothing for any live session: neither does a disabled user lose access nor a former
      administrator that of an administrator. */
  lemma UserCallsLeaveSessions(db: Db, call: UserCall, u: User, target: int, capability: string)
    requires !call.DoDeleteUser?
    ensures CanAccess(ApplyUser(db, call), u, target, capability) <==> CanAccess(db, u, target, capability)
  {
    assert ApplyUser(db, call) == db.(users := ApplyUser(db, call).users, keys := ApplyUser(db, call).keys);
    hide ApplyUser, Allows, IsCapability;
    SameByGroup(db, ApplyUser(db, call), u.id, target, capability);
    SameByGroup(ApplyUser(db, call), db, u.id, target, capability);
  }

  /** Deleting a user takes all access from that user's live sessions, unless the user was an
      administrator when the channel was opened; nobody else's sessions are affected. */
  lemma DeletingExactly(db: Db, deleted: int, u: User, target: int, capability: string)
    ensures CanAccess(DeleteUserRow(db, deleted), u, target, capability) <==>
      CanAccess(db, u, target, capability) && (u.id != deleted || u.role == ADMIN)
  {
    hide Allows, IsCapability, KeysWithoutUser, LinksWithoutUser, ForgetActors;
    var next := DeleteUserRow(db, deleted);
    if u.id != deleted {
      forall g
        ensures AllowedThrough(next, g, u.id, target, capability) <==> AllowedThrough(db, g, u.id, target, capability)
      {
      }
      SameByGroup(db, next, u.id, target, capability);
      SameByGroup(next, db, u.id, target, capability);
      assert (u.id, target) in db.userGrants <==> (u.id, target) in next.userGrants;
    } else {
      assert (u.id, target) !in next.userGrants && forall g :: (g, u.id) !in next.members;
    }
  }

  /** A live session of a deleted member stays without access over every run in which no call gives the
      capability to the id of that user. */
  lemma DeletedStaysOut(db: Db, calls: seq<Call>, u: User, target: int, capability: string)
    requires Consistent(db) && u.role != ADMIN
    requires NeverGives(DeleteUserRow(db, u.id), calls, u.id, target, capability)
    ensures !CanAccess(ApplyAll(DeleteUserRow(db, u.id), calls), u, target, capability)
  {
    DeleteUserKeeps(db, u.id);
    DeletingExactly(db, u.id, u, target, capability);
    hide Consistent, CanAccess, NeverGives, ApplyAll, DeleteUserRow;
    NothingGivenNothingGained(DeleteUserRow(db, u.id), calls, u, target, capability);
  }

  // ---------- ids that are used again ----------

  /** The next user gets the id of a deleted one exactly if that was the greatest id and no id is missing
      directly below it. */
  lemma IdReusedExactly(db: Db, deleted: int, username: string, role: string)
    requires deleted in db.users && AddUser(DeleteUserRow(db, deleted), username, role).1.Ok?
    ensures AddUser(DeleteUserRow(db, deleted), username, role).1 == Ok(deleted) <==>
      ((forall u :: u in db.users ==> u <= deleted)
       && (deleted - 1 in db.users || (deleted == 1 && forall u :: u in db.users ==> u == 1)))
  {
    hide ValidName, ValidRole, UserNamed, KeysWithoutUser, LinksWithoutUser, GrantsWithoutPrincipal, ForgetActors;
    var next := DeleteUserRow(db, deleted);
    var id := NextId(next.users.Keys);
    assert AddUser(next, username, role).1 == Ok(id);
    hide AddUser, DeleteUserRow;
    assert next.users.Keys == db.users.Keys - {deleted};
    NextIdIs(db.users.Keys - {deleted}, deleted);
    assert forall u :: u in db.users <==> u in db.users.Keys - {deleted} || u == deleted;
  }

  lemma NextIdIs(ids: set<int>, id: int)
    ensures NextId(ids) == id <==>
      ((forall x :: x in ids ==> x < id) && (id - 1 in ids || (id == 1 && forall x :: x !in ids)))
  {
    if x :| x in ids { assert Largest(ids) in ids; }
  }

  /** So a session that outlives its user may do what a later user of the same id is granted: the deleted
      user's sessions and the new user's are not told apart. */
  lemma ReusedIdInherits(
    db: Db, u: User, username: string, target: string, capabilities: Capabilities, capability: string)
    returns (deleted: Db, added: Db, granted: Db)
    requires UniqueTargets(db.targets) && u.id in db.users && u.role != ADMIN && u.enabled
    requires (forall x :: x in db.users ==> x <= u.id) && u.id - 1 in db.users
    requires AddUser(DeleteUserRow(db, u.id), username, MEMBER).1.Ok?
    requires TargetNamed(db, target).Some? && db.targets[TargetNamed(db, target).value].enabled
    requires IsCapability(capability) && Allows(capabilities, capability)
    ensures deleted == DeleteUserRow(db, u.id) && AddUser(deleted, username, MEMBER) == (added, Ok(u.id))
    ensures ValidName(username).Some?
    ensures SetGrantCapabilities(added, target, "user", ValidName(username).value, true, capabilities)
      == (granted, DONE)
    ensures var t := TargetNamed(db, target).value;
      !CanAccess(deleted, u, t, capability) && !CanAccess(added, u, t, capability)
      && CanAccess(granted, u, t, capability)
  {
    hide DeleteUserRow, AddUser, UniqueTargets, CanAccess, SetGrantCapabilities, ValidName, Allows, IsCapability,
      UserNamed, TargetNamed, Lower;
    deleted := DeleteUserRow(db, u.id);
    added := AddUser(deleted, username, MEMBER).0;
    DeletedThenAdded(db, u.id, username);
    granted := SetGrantCapabilities(added, target, "user", ValidName(username).value, true, capabilities).0;
    var t := TargetNamed(db, target).value;
    SameTarget(db, added, target);
    NotYetGranted(db, u, username, t, capability);
    GrantedBySession(added, u, target, ValidName(username).value, capabilities, capability);
  }

  lemma NotYetGranted(db: Db, u: User, username: string, t: int, capability: string)
    requires u.role != ADMIN
    ensures var deleted := DeleteUserRow(db, u.id);
      !CanAccess(deleted, u, t, capability) && !CanAccess(AddUser(deleted, username, MEMBER).0, u, t, capability)
  {
    DeletingExactly(db, u.id, u, t, capability);
    UserCallsLeaveSessions(DeleteUserRow(db, u.id), DoAddUser(username, MEMBER), u, t, capability);
    hide DeleteUserRow, AddUser, CanAccess;
  }

  lemma GrantedBySession(
    db: Db, u: User, target: string, name: string, capabilities: Capabilities, capability: string)
    requires UserNamed(db, Lower(name)) == Some(u.id) && u.role != ADMIN && u.enabled
    requires TargetNamed(db, target).Some? && db.targets[TargetNamed(db, target).value].enabled
    requires IsCapability(capability) && Allows(capabilities, capability)
    ensures var (granted, r) := SetGrantCapabilities(db, target, "user", name, true, capabilities);
      r == DONE && CanAccess(granted, u, TargetNamed(db, target).value, capability)
  {
    GrantToUser(db, u.id, target, name, capabilities);
    hide SetGrantCapabilities, UserNamed, TargetNamed, Lower, CanAccess, Allows, IsCapability, GrantSet, Listed,
      GrantedOtherwise, AllowedOtherwise;
    var granted := SetGrantCapabilities(db, target, "user", name, true, capabilities).0;
    var t := TargetNamed(db, target).value;
    GrantDecides(db, granted, UserPrincipal(u.id), t, Some(capabilities), u, capability);
  }

  lemma DeletedThenAdded(db: Db, id: int, username: string)
    requires id in db.users && (forall x :: x in db.users ==> x <= id) && id - 1 in db.users
    requires AddUser(DeleteUserRow(db, id), username, MEMBER).1.Ok?
    ensures var (added, r) := AddUser(DeleteUserRow(db, id), username, MEMBER);
      r == Ok(id) && added.targets == db.targets && ValidName(username).Some?
      && UserNamed(added, Lower(ValidName(username).value)) == Some(id)
  {
    IdReusedExactly(db, id, username, MEMBER);
    AddedUser(DeleteUserRow(db, id), username, MEMBER);
    ValidNameIsNormal(username);
    var deleted := DeleteUserRow(db, id);
    assert deleted.targets == db.targets by {
      hide KeysWithoutUser, LinksWithoutUser, GrantsWithoutPrincipal, ForgetActors;
    }
    hide DeleteUserRow, AddUser, ValidName, Lower, TrimSpace, UserNamed;
    OnlyUserNamesake(deleted, AddUser(deleted, username, MEMBER).0, id);
  }

  lemma SameTarget(db: Db, next: Db, name: string)
    requires UniqueTargets(db.targets) && next.targets == db.targets
    ensures TargetNamed(next, name) == TargetNamed(db, name)
  {
  }

  lemma GrantToUser(db: Db, user: int, target: string, name: string, capabilities: Capabilities)
    requires UserNamed(db, Lower(name)) == Some(user) && TargetNamed(db, target).Some?
    ensures var (next, r) := SetGrantCapabilities(db, target, "user", name, true, capabilities);
      r == DONE && GrantSet(db, next, UserPrincipal(user), TargetNamed(db, target).value, Some(capabilities))
  {
    hide Lower, UserNamed, TargetNamed;
  }
}
