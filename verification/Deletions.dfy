/** Deleting a user, group or target removes exactly its dependents: what is left is the greatest part
    of the database that does without it. And deleting what was just added restores the database. */
module Deletions {
  import opened Wrappers
  import opened Text
  import opened Database
  import opened StoreSpec

  ghost predicate Submap<K(!new), V>(part: map<K, V>, whole: map<K, V>) {
    forall k :: k in part ==> k in whole && part[k] == whole[k]
  }

  /** The row with some of its references nulled. */
  predicate Erased(row: AuditRow, whole: AuditRow) {
    row == whole.(actor := row.actor, targetId := row.targetId)
    && (row.actor.None? || row.actor == whole.actor) && (row.targetId.None? || row.targetId == whole.targetId)
  }

  ghost predicate Subaudit(part: map<int, AuditRow>, whole: map<int, AuditRow>) {
    forall a :: a in part ==> a in whole && Erased(part[a], whole[a])
  }

  /** A database with some rows fewer and some audit references nulled. */
  ghost predicate Within(part: Db, whole: Db) {
    && Submap(part.users, whole.users) && Submap(part.keys, whole.keys) && Submap(part.groups, whole.groups)
    && part.members <= whole.members && Submap(part.targets, whole.targets) && Submap(part.identities, whole.identities)
    && Submap(part.userGrants, whole.userGrants) && Submap(part.groupGrants, whole.groupGrants)
    && Submap(part.forwards, whole.forwards) && Submap(part.totp, whole.totp) && Submap(part.links, whole.links)
    && Subaudit(part.audit, whole.audit)
  }

  // ---------- one table ----------

  lemma SubmapSelf<K(!new), V>(m: map<K, V>)
    ensures Submap(m, m)
  {
  }

  lemma SubauditSelf(m: map<int, AuditRow>)
    ensures Subaudit(m, m)
  {
  }

  lemma WithoutId<V>(part: map<int, V>, whole: map<int, V>, id: int)
    ensures Submap(whole - {id}, whole)
    ensures Submap(part, whole) && id !in part ==> Submap(part, whole - {id})
  {
  }

  lemma KeysGreatest(part: map<int, KeyRow>, whole: map<int, KeyRow>, user: int)
    ensures Submap(KeysWithoutUser(whole, user), whole)
    ensures Submap(part, whole) && (forall k :: k in part ==> part[k].userId != user) ==>
      Submap(part, KeysWithoutUser(whole, user))
  {
  }

  lemma LinksGreatest(part: map<int, LinkRow>, whole: map<int, LinkRow>, user: int)
    ensures Submap(LinksWithoutUser(whole, user), whole)
    ensures Submap(part, whole) && (forall l :: l in part ==> part[l].userId != user) ==>
      Submap(part, LinksWithoutUser(whole, user))
  {
  }

  lemma ForwardsGreatest(part: map<int, ForwardRow>, whole: map<int, ForwardRow>, target: int)
    ensures Submap(ForwardsWithoutTarget(whole, target), whole)
    ensures Submap(part, whole) && (forall f :: f in part ==> part[f].targetId != target) ==>
      Submap(part, ForwardsWithoutTarget(whole, target))
  {
  }

  lemma GrantsGreatest(part: map<(int, int), Capabilities>, whole: map<(int, int), Capabilities>, id: int)
    ensures Submap(GrantsWithoutPrincipal(whole, id), whole) && Submap(GrantsWithoutTarget(whole, id), whole)
    ensures Submap(part, whole) && (forall g :: g in part ==> g.0 != id) ==>
      Submap(part, GrantsWithoutPrincipal(whole, id))
    ensures Submap(part, whole) && (forall g :: g in part ==> g.1 != id) ==>
      Submap(part, GrantsWithoutTarget(whole, id))
  {
  }

  lemma AuditGreatest(part: map<int, AuditRow>, whole: map<int, AuditRow>, id: int)
    ensures Subaudit(ForgetActors(whole, id), whole) && Subaudit(ForgetTargets(whole, id), whole)
    ensures Subaudit(part, whole) && (forall a :: a in part ==> part[a].actor != Some(id)) ==>
      Subaudit(part, ForgetActors(whole, id))
    ensures Subaudit(part, whole) && (forall a :: a in part ==> part[a].targetId != Some(id)) ==>
      Subaudit(part, ForgetTargets(whole, id))
  {
  }

  lemma Both<K(!new), V>(one: map<K, V>, two: map<K, V>)
    requires Submap(one, two) && Submap(two, one)
    ensures one == two
  {
  }

  // ---------- deletion keeps as much as possible ----------

  /** Nothing refers to the user. */
  ghost predicate UserFree(db: Db, user: int) {
    && user !in db.users && user !in db.totp
    && (forall k :: k in db.keys ==> db.keys[k].userId != user)
    && (forall m :: m in db.members ==> m.1 != user)
    && (forall g :: g in db.userGrants ==> g.0 != user)
    && (forall l :: l in db.links ==> db.links[l].userId != user)
    && (forall a :: a in db.audit ==> db.audit[a].actor != Some(user))
  }

  ghost predicate TargetFree(db: Db, target: int) {
    && target !in db.targets
    && (forall g :: g in db.userGrants ==> g.1 != target)
    && (forall g :: g in db.groupGrants ==> g.1 != target)
    && (forall f :: f in db.forwards ==> db.forwards[f].targetId != target)
    && (forall a :: a in db.audit ==> db.audit[a].targetId != Some(target))
  }

  ghost predicate GroupFree(db: Db, group: int) {
    && group !in db.groups
    && (forall m :: m in db.members ==> m.0 != group)
    && (forall g :: g in db.groupGrants ==> g.0 != group)
  }

  lemma AbsentUserIsFree(db: Db, user: int)
    requires ForeignKeys(db) && user !in db.users
    ensures UserFree(db, user)
  {
  }

  lemma AbsentTargetIsFree(db: Db, target: int)
    requires ForeignKeys(db) && target !in db.targets
    ensures TargetFree(db, target)
  {
  }

  lemma UserTables(db: Db, user: int, part: Db)
    ensures Within(DeleteUserRow(db, user), db)
    ensures Within(part, db) && UserFree(part, user) ==> Within(part, DeleteUserRow(db, user))
  {
    hide Submap, Subaudit, KeysWithoutUser, LinksWithoutUser, GrantsWithoutPrincipal, ForgetActors;
    WithoutId(part.users, db.users, user);
    WithoutId(part.totp, db.totp, user);
    KeysGreatest(part.keys, db.keys, user);
    LinksGreatest(part.links, db.links, user);
    GrantsGreatest(part.userGrants, db.userGrants, user);
    AuditGreatest(part.audit, db.audit, user);
    SubmapSelf(db.groups);
    SubmapSelf(db.targets);
    SubmapSelf(db.identities);
    SubmapSelf(db.groupGrants);
    SubmapSelf(db.forwards);
  }

  /** No other database without the user, and with all references intact, keeps more. */
  lemma DeleteUserIsGreatest(db: Db, user: int, part: Db)
    requires ForeignKeys(db)
    ensures var next := DeleteUserRow(db, user); Within(next, db) && ForeignKeys(next) && user !in next.users
    ensures Within(part, db) && ForeignKeys(part) && user !in part.users ==> Within(part, DeleteUserRow(db, user))
  {
    hide Within, UserFree;
    UserTables(db, user, part);
    if ForeignKeys(part) && user !in part.users { AbsentUserIsFree(part, user); }
  }

  lemma TargetTables(db: Db, target: int, part: Db)
    ensures Within(DeleteTargetRow(db, target), db)
    ensures Within(part, db) && TargetFree(part, target) ==> Within(part, DeleteTargetRow(db, target))
  {
    hide Submap, Subaudit, GrantsWithoutTarget, ForwardsWithoutTarget, ForgetTargets;
    WithoutId(part.targets, db.targets, target);
    GrantsGreatest(part.userGrants, db.userGrants, target);
    GrantsGreatest(part.groupGrants, db.groupGrants, target);
    ForwardsGreatest(part.forwards, db.forwards, target);
    AuditGreatest(part.audit, db.audit, target);
    SubmapSelf(db.users);
    SubmapSelf(db.keys);
    SubmapSelf(db.groups);
    SubmapSelf(db.identities);
    SubmapSelf(db.totp);
    SubmapSelf(db.links);
  }

  lemma DeleteTargetIsGreatest(db: Db, target: int, part: Db)
    requires ForeignKeys(db)
    ensures var next := DeleteTargetRow(db, target); Within(next, db) && ForeignKeys(next) && target !in next.targets
    ensures Within(part, db) && ForeignKeys(part) && target !in part.targets ==>
      Within(part, DeleteTargetRow(db, target))
  {
    hide Within, TargetFree;
    TargetTables(db, target, part);
    if ForeignKeys(part) && target !in part.targets { AbsentTargetIsFree(part, target); }
  }

  lemma GroupTables(db: Db, group: int, part: Db)
    ensures Within(DeleteGroupRow(db, group), db)
    ensures Within(part, db) && GroupFree(part, group) ==> Within(part, DeleteGroupRow(db, group))
  {
    hide Submap, Subaudit, GrantsWithoutPrincipal;
    WithoutId(part.groups, db.groups, group);
    GrantsGreatest(part.groupGrants, db.groupGrants, group);
    SubmapSelf(db.users);
    SubmapSelf(db.keys);
    SubmapSelf(db.targets);
    SubmapSelf(db.identities);
    SubmapSelf(db.userGrants);
    SubmapSelf(db.forwards);
    SubmapSelf(db.totp);
    SubmapSelf(db.links);
    SubauditSelf(db.audit);
  }

  lemma DeleteGroupIsGreatest(db: Db, group: int, part: Db)
    requires ForeignKeys(db)
    ensures var next := DeleteGroupRow(db, group); Within(next, db) && ForeignKeys(next) && group !in next.groups
    ensures Within(part, db) && ForeignKeys(part) && group !in part.groups ==> Within(part, DeleteGroupRow(db, group))
  {
    hide Within;
    GroupTables(db, group, part);
  }

  // ---------- deleting undoes adding ----------

  lemma RemoveFresh<V>(m: map<int, V>, id: int, row: V)
    requires id !in m
    ensures m[id := row] - {id} == m
  {
  }

  lemma AuditUntouched(audit: map<int, AuditRow>, id: int)
    ensures (forall a :: a in audit ==> audit[a].actor != Some(id)) ==> ForgetActors(audit, id) == audit
    ensures (forall a :: a in audit ==> audit[a].targetId != Some(id)) ==> ForgetTargets(audit, id) == audit
  {
    if forall a :: a in audit ==> audit[a].actor != Some(id) {
      forall a | a in audit ensures ForgetActors(audit, id)[a] == audit[a] { assert audit[a].actor != Some(id); }
      assert ForgetActors(audit, id).Keys == audit.Keys;
    }
    if forall a :: a in audit ==> audit[a].targetId != Some(id) {
      forall a | a in audit ensures ForgetTargets(audit, id)[a] == audit[a] { assert audit[a].targetId != Some(id); }
      assert ForgetTargets(audit, id).Keys == audit.Keys;
    }
  }

  lemma DeletingFreshTarget(db: Db, id: int, row: TargetRow)
    requires TargetFree(db, id)
    ensures DeleteTargetRow(db.(targets := db.targets[id := row]), id) == db
  {
    hide Submap, GrantsWithoutTarget, ForwardsWithoutTarget, ForgetTargets;
    RemoveFresh(db.targets, id, row);
    SubmapSelf(db.userGrants);
    SubmapSelf(db.groupGrants);
    SubmapSelf(db.forwards);
    GrantsGreatest(db.userGrants, db.userGrants, id);
    GrantsGreatest(db.groupGrants, db.groupGrants, id);
    ForwardsGreatest(db.forwards, db.forwards, id);
    Both(db.userGrants, GrantsWithoutTarget(db.userGrants, id));
    Both(db.groupGrants, GrantsWithoutTarget(db.groupGrants, id));
    Both(db.forwards, ForwardsWithoutTarget(db.forwards, id));
    AuditUntouched(db.audit, id);
  }

  lemma AddedTarget(db: Db, n: NewTarget)
    requires AddTarget(db, n).1.Ok?
    ensures var (next, r) := AddTarget(db, n);
      r.value in next.targets && next == db.(targets := db.targets[r.value := next.targets[r.value]])
      && next.targets[r.value].name == n.name && r.value !in db.targets && TargetNamed(db, n.name).None?
  {
    hide TrimSpace, ValidKind, ValidPort, NextId, TargetNamed;
  }

  /** Deleting a target that was just added restores the database, even if it got a reused id. */
  lemma DeleteUndoesAddTarget(db: Db, n: NewTarget)
    requires ForeignKeys(db) && AddTarget(db, n).1.Ok?
    ensures DeleteTarget(AddTarget(db, n).0, n.name) == (db, DONE)
  {
    AddedTarget(db, n);
    hide AddTarget, TargetNamed, DeleteTargetRow, ForeignKeys;
    var (next, r) := AddTarget(db, n);
    var id, row := r.value, next.targets[r.value];
    OnlyNamesake(db, next, id);
    AbsentTargetIsFree(db, id);
    hide TargetFree;
    DeletingFreshTarget(db, id, row);
  }

  lemma OnlyNamesake(db: Db, next: Db, id: int)
    requires id in next.targets && next.targets == db.targets[id := next.targets[id]]
    requires TargetNamed(db, next.targets[id].name).None?
    ensures TargetNamed(next, next.targets[id].name) == Some(id)
  {
  }

  lemma DeletingFreshUser(db: Db, id: int, row: UserRow)
    requires UserFree(db, id)
    ensures DeleteUserRow(db.(users := db.users[id := row]), id) == db
  {
    hide Submap, KeysWithoutUser, LinksWithoutUser, GrantsWithoutPrincipal, ForgetActors;
    RemoveFresh(db.users, id, row);
    WithoutId(db.totp, db.totp, id);
    SubmapSelf(db.totp);
    SubmapSelf(db.keys);
    SubmapSelf(db.userGrants);
    SubmapSelf(db.links);
    KeysGreatest(db.keys, db.keys, id);
    GrantsGreatest(db.userGrants, db.userGrants, id);
    LinksGreatest(db.links, db.links, id);
    Both(db.totp, db.totp - {id});
    Both(db.keys, KeysWithoutUser(db.keys, id));
    Both(db.userGrants, GrantsWithoutPrincipal(db.userGrants, id));
    Both(db.links, LinksWithoutUser(db.links, id));
    assert (set m | m in db.members && m.1 != id) == db.members;
    AuditUntouched(db.audit, id);
  }

  lemma AddedUser(db: Db, username: string, role: string)
    requires AddUser(db, username, role).1.Ok?
    ensures var (next, r) := AddUser(db, username, role);
      ValidName(username).Some? && r.value !in db.users && UserNamed(db, ValidName(username).value).None?
      && next == db.(users := db.users[r.value := UserRow(ValidName(username).value, role, true)])
  {
    hide ValidName, ValidRole, NextId, UserNamed;
    var id := NextId(db.users.Keys);
    assert AddUser(db, username, role).0
      == db.(users := db.users[id := UserRow(ValidName(username).value, role, true)]);
    assert AddUser(db, username, role).1 == Ok(id);
  }

  /** Likewise for a user under the name that was stored, unless it is an administrator and no other
      is usable: then it stays. */
  lemma DeleteUndoesAddUser(db: Db, username: string, role: string)
    requires ForeignKeys(db) && AddUser(db, username, role).1.Ok?
    ensures var (next, r) := AddUser(db, username, role);
      r.value in next.users
      && DeleteUser(next, next.users[r.value].username)
        == if role == ADMIN && !OtherUsableAdmin(db, r.value) then (next, Err(FinalAdmin)) else (db, DONE)
  {
    AddedUser(db, username, role);
    ValidNameIsNormal(username);
    hide AddUser, ValidName, Lower, TrimSpace, UserNamed, DeleteUserRow, ForeignKeys, OtherUsableAdmin;
    var (next, r) := AddUser(db, username, role);
    var id := r.value;
    OnlyUserNamesake(db, next, id);
    OthersUnchanged(db, next, id);
    AbsentUserIsFree(db, id);
    hide UserFree;
    DeletingFreshUser(db, id, next.users[id]);
  }

  lemma OnlyUserNamesake(db: Db, next: Db, id: int)
    requires id in next.users && next.users == db.users[id := next.users[id]]
    requires UserNamed(db, next.users[id].username).None?
    ensures UserNamed(next, next.users[id].username) == Some(id)
  {
  }

  lemma OthersUnchanged(db: Db, next: Db, id: int)
    requires id in next.users && next == db.(users := db.users[id := next.users[id]])
    ensures OtherUsableAdmin(next, id) <==> OtherUsableAdmin(db, id)
  {
    if u :| u != id && UsableAdmin(db, u) { assert UsableAdmin(next, u); }
    if u :| u != id && UsableAdmin(next, u) { assert UsableAdmin(db, u); }
  }
}
