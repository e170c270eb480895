/** Who may use which target: the list query with its outer joins, the check of one capability with
    its subqueries, and what changing a grant does to both. */
module Authorization {
  import opened Wrappers
  import opened Text
  import opened Database
  import opened StoreSpec
  import opened StoreInvariants

  /** The caller's user record, as it was read when the channel was opened. */
  datatype User = User(id: int, role: string, enabled: bool)

  // ---------- the list query ----------

  /** A row of the three outer joins; None stands for the columns that are NULL. */
  datatype Joined = Joined(
    target: int, userGrant: Option<(int, int)>, groupGrant: Option<(int, int)>, membership: Option<(int, int)>)

  /** A left join takes every matching row, or NULLs if there is none. */
  ghost predicate LeftJoin(picked: Option<(int, int)>, matching: set<(int, int)>) {
    if picked.Some? then picked.value in matching else forall r :: r !in matching
  }

  function UserGrantsOf(db: Db, user: int, target: int): (r: set<(int, int)>) {
    set g | g in db.userGrants && g.1 == target && g.0 == user
  }

  function GroupGrantsOf(db: Db, target: int): (r: set<(int, int)>) {
    set g | g in db.groupGrants && g.1 == target
  }

  /** Comparing a membership with a NULL group never holds. */
  function MembershipsOf(db: Db, user: int, groupGrant: Option<(int, int)>): (r: set<(int, int)>) {
    set m | m in db.members && groupGrant.Some? && m.0 == groupGrant.value.0 && m.1 == user
  }

  ghost predicate InJoin(db: Db, user: int, row: Joined) {
    && row.target in db.targets
    && LeftJoin(row.userGrant, UserGrantsOf(db, user, row.target))
    && LeftJoin(row.groupGrant, GroupGrantsOf(db, row.target))
    && LeftJoin(row.membership, MembershipsOf(db, user, row.groupGrant))
  }

  /** Some row of the join passes the WHERE clause with this target. */
  ghost predicate Selected(db: Db, user: int, target: int) {
    exists row :: InJoin(db, user, row) && row.target == target && db.targets[target].enabled
      && (row.userGrant.Some? || row.membership.Some?)
  }

  /** A grant row leads from the user to the target, directly or through a group. */
  ghost predicate Granted(db: Db, user: int, target: int) {
    (user, target) in db.userGrants || exists g :: (g, target) in db.groupGrants && (g, user) in db.members
  }

  predicate Enabled(db: Db, target: int) { target in db.targets && db.targets[target].enabled }

  /** The outer joins select exactly the enabled targets with a direct or a group-mediated grant. */
  lemma JoinSelectsExactly(db: Db, user: int, target: int)
    ensures Selected(db, user, target) <==> Enabled(db, target) && Granted(db, user, target)
  {
    if Enabled(db, target) && Granted(db, user, target) {
      var direct := if (user, target) in db.userGrants then Some((user, target)) else None;
      if g :| (g, target) in db.groupGrants && (g, user) in db.members {
        assert InJoin(db, user, Joined(target, direct, Some((g, target)), Some((g, user))));
      } else if g :| g in db.groupGrants && g.1 == target {
        var memberships := MembershipsOf(db, user, Some(g));
        assert g == (g.0, target) && forall m :: m !in memberships;
        assert InJoin(db, user, Joined(target, direct, Some(g), None));
      } else {
        assert InJoin(db, user, Joined(target, direct, None, None));
      }
    }
  }

  /** The targets that the user is shown. */
  ghost predicate Listed(db: Db, u: User, target: int) {
    if u.role == ADMIN then Enabled(db, target) else Selected(db, u.id, target)
  }

  predicate Ascending(db: Db, ids: seq<int>) {
    (forall i :: 0 <= i < |ids| ==> ids[i] in db.targets)
    && forall i, j :: 0 <= i < j < |ids| ==> Less(db.targets[ids[i]].name, db.targets[ids[j]].name)
  }

  /** The direct grant, or the first group grant with a membership. */
  method HasGrant(db: Db, user: int, target: int) returns (r: bool)
    ensures r == Granted(db, user, target)
  {
    if (user, target) in db.userGrants {
      return true;
    }
    var rest := GroupGrantsOf(db, target);
    while exists x :: x in rest
      invariant rest <= GroupGrantsOf(db, target)
      invariant forall g :: g in GroupGrantsOf(db, target) - rest ==> (g.0, user) !in db.members
      decreases |rest|
    {
      var g :| g in rest;
      if (g.0, user) in db.members {
        var group := g.0;
        assert g == (group, target) && g in db.groupGrants;
        assert (group, target) in db.groupGrants && (group, user) in db.members;
        return true;
      }
      rest := rest - {g};
    }
    assert forall g :: (g, target) in db.groupGrants ==> (g, target) in GroupGrantsOf(db, target);
    r := false;
  }

  /** The target with the least name. */
  method First(db: Db, ids: set<int>) returns (first: int)
    requires ids <= db.targets.Keys && (exists x :: x in ids) && UniqueTargets(db.targets)
    ensures first in ids && forall t :: t in ids && t != first ==> Less(db.targets[first].name, db.targets[t].name)
  {
    first :| first in ids;
    var rest := ids - {first};
    while exists x :: x in rest
      invariant rest <= ids && first in ids
      invariant forall t :: t in ids - rest && t != first ==> Less(db.targets[first].name, db.targets[t].name)
      decreases |rest|
    {
      var t :| t in rest;
      LessTotal(db.targets[first].name, db.targets[t].name);
      if Less(db.targets[t].name, db.targets[first].name) {
        forall s | s in ids - rest && s != first ensures Less(db.targets[t].name, db.targets[s].name) {
          LessTransitive(db.targets[t].name, db.targets[first].name, db.targets[s].name);
        }
        first := t;
      }
      rest := rest - {t};
    }
  }

  /** The targets in name order, each once, and no other than those the user is shown. */
  method ListAuthorizedTargets(db: Db, u: User) returns (out: seq<int>)
    requires UniqueTargets(db.targets)
    ensures Ascending(db, out) && forall t :: t in out <==> Listed(db, u, t)
  {
    hide Less, Granted, Selected;
    var found: set<int> := {};
    var left := db.targets.Keys;
    while exists x :: x in left
      invariant left <= db.targets.Keys
      invariant forall t :: t in found <==> t in db.targets && t !in left && Listed(db, u, t)
      decreases |left|
    {
      var t :| t in left;
      JoinSelectsExactly(db, u.id, t);
      var granted := u.role == ADMIN;
      if !granted { granted := HasGrant(db, u.id, t); }
      if db.targets[t].enabled && granted { found := found + {t}; }
      left := left - {t};
    }
    forall t | Listed(db, u, t) ensures t in found { JoinSelectsExactly(db, u.id, t); }
    assert forall t :: t in found ==> t in db.targets;
    out := [];
    while exists x :: x in found
      invariant found <= db.targets.Keys && Ascending(db, out)
      invariant forall i, t :: 0 <= i < |out| && t in found ==> Less(db.targets[out[i]].name, db.targets[t].name)
      invariant forall t :: t in found || t in out <==> Listed(db, u, t)
      decreases |found|
    {
      var t := First(db, found);
      out := out + [t];
      found := found - {t};
    }
  }

  // ---------- one capability ----------

  /** Whether a grant allows the capability of that name; there are four, and no other is allowed. */
  predicate Allows(c: Capabilities, capability: string) {
    match capability
    case "shell" => c.shell
    case "sftp" => c.sftp
    case "scp" => c.scp
    case "tcp_forward" => c.tcpForward
    case _ => false
  }

  predicate IsCapability(capability: string) {
    capability == "shell" || capability == "sftp" || capability == "scp" || capability == "tcp_forward"
  }

  ghost predicate AllowedDirectly(db: Db, user: int, target: int, capability: string) {
    (user, target) in db.userGrants && Allows(db.userGrants[(user, target)], capability)
  }

  predicate AllowedThrough(db: Db, group: int, user: int, target: int, capability: string) {
    (group, user) in db.members && (group, target) in db.groupGrants
      && Allows(db.groupGrants[(group, target)], capability)
  }

  ghost predicate AllowedByGroup(db: Db, user: int, target: int, capability: string) {
    exists g :: AllowedThrough(db, g, user, target, capability)
  }

  /** `CanAccessCapability`. */
  ghost predicate CanAccess(db: Db, u: User, target: int, capability: string) {
    u.enabled && IsCapability(capability) && Enabled(db, target)
    && (u.role == ADMIN || AllowedDirectly(db, u.id, target, capability)
      || AllowedByGroup(db, u.id, target, capability))
  }

  /** Whatever a user can do with a target, the user is shown that target. */
  lemma CapabilityImpliesListed(db: Db, u: User, target: int, capability: string)
    requires CanAccess(db, u, target, capability)
    ensures Listed(db, u, target)
  {
    hide Selected;
    JoinSelectsExactly(db, u.id, target);
  }

  lemma SameByGroup(db: Db, next: Db, user: int, target: int, capability: string)
    requires forall g :: AllowedThrough(db, g, user, target, capability) ==>
      AllowedThrough(next, g, user, target, capability)
    ensures AllowedByGroup(db, user, target, capability) ==> AllowedByGroup(next, user, target, capability)
  {
  }

  // ---------- changing a grant ----------

  predicate Covers(db: Db, p: Principal, user: int) {
    match p
    case UserPrincipal(u) => u == user
    case GroupPrincipal(g) => (g, user) in db.members
  }

  /** The rows that lead from the user to the target other than the principal's. */
  ghost predicate GrantedOtherwise(db: Db, p: Principal, user: int, target: int) {
    (p != UserPrincipal(user) && (user, target) in db.userGrants)
    || exists g :: p != GroupPrincipal(g) && (g, target) in db.groupGrants && (g, user) in db.members
  }

  ghost predicate AllowedOtherwise(db: Db, p: Principal, user: int, target: int, capability: string) {
    (p != UserPrincipal(user) && AllowedDirectly(db, user, target, capability))
    || exists g :: p != GroupPrincipal(g) && AllowedThrough(db, g, user, target, capability)
  }

  /** The row of the principal and the target becomes the given one, or none. */
  ghost predicate GrantSet(db: Db, next: Db, p: Principal, target: int, row: Option<Capabilities>) {
    match p
    case UserPrincipal(u) =>
      next == db.(userGrants := if row.Some? then db.userGrants[(u, target) := row.value]
        else db.userGrants - {(u, target)})
    case GroupPrincipal(g) =>
      next == db.(groupGrants := if row.Some? then db.groupGrants[(g, target) := row.value]
        else db.groupGrants - {(g, target)})
  }

  lemma SetGrantSets(db: Db, target: string, kind: string, principal: string, add: bool, capabilities: Capabilities)
    ensures var (next, r) := SetGrantCapabilities(db, target, kind, principal, add, capabilities);
      if r.Err? then next == db
      else
        var t, p := TargetNamed(db, target), ResolvePrincipal(db, kind, principal);
        t.Some? && p.Ok? && GrantSet(db, next, p.value, t.value, if add then Some(capabilities) else None)
  {
    hide ResolvePrincipal, TargetNamed;
  }

  /** Setting a grant changes decisions only for its target and the users its principal covers. */
  lemma GrantChangesOnlyItsOwn(
    db: Db, next: Db, p: Principal, target: int, row: Option<Capabilities>, u: User, other: int, capability: string)
    requires GrantSet(db, next, p, target, row) && (other != target || !Covers(db, p, u.id))
    ensures CanAccess(next, u, other, capability) <==> CanAccess(db, u, other, capability)
    ensures Listed(next, u, other) <==> Listed(db, u, other)
  {
    hide Selected, Allows, IsCapability;
    JoinSelectsExactly(db, u.id, other);
    JoinSelectsExactly(next, u.id, other);
    SameByGroup(db, next, u.id, other, capability);
    SameByGroup(next, db, u.id, other, capability);
    if g :| (g, u.id) in db.members && (g, other) in db.groupGrants {
      assert (g, other) in next.groupGrants;
    }
  }

  /** For a member it covers, it allows what it says, and takes away what no other grant allows. */
  lemma GrantDecides(
    db: Db, next: Db, p: Principal, target: int, row: Option<Capabilities>, u: User, capability: string)
    requires GrantSet(db, next, p, target, row) && Covers(db, p, u.id) && u.role != ADMIN && Enabled(db, target)
    ensures Listed(next, u, target) <==> row.Some? || GrantedOtherwise(db, p, u.id, target)
    ensures CanAccess(next, u, target, capability) <==>
      u.enabled && IsCapability(capability)
      && ((row.Some? && Allows(row.value, capability)) || AllowedOtherwise(db, p, u.id, target, capability))
  {
    hide Selected, Allows, IsCapability;
    JoinSelectsExactly(next, u.id, target);
    if p.GroupPrincipal? && row.Some? {
      assert (p.group, target) in next.groupGrants && (p.group, u.id) in next.members;
    }
    if g :| p != GroupPrincipal(g) && (g, target) in db.groupGrants && (g, u.id) in db.members {
      assert (g, target) in next.groupGrants;
    }
    forall g ensures AllowedThrough(next, g, u.id, target, capability) <==>
        if p == GroupPrincipal(g) then row.Some? && Allows(row.value, capability)
        else AllowedThrough(db, g, u.id, target, capability)
    {
    }
  }

  // ---------- where access comes from ----------

  /** The calls that can give a member a capability on a target: a grant that allows it and covers
      them, joining a group, and enabling the target. */
  ghost predicate Gives(db: Db, call: Call, user: int, target: int, capability: string) {
    match call
    case OnGrants(DoSetGrantCapabilities(name, kind, principal, add, capabilities)) =>
      add && Allows(capabilities, capability) && TargetNamed(db, name) == Some(target)
      && var p := ResolvePrincipal(db, kind, principal); p.Ok? && Covers(db, p.value, user)
    case OnGroups(DoSetGroupMember(_, username, add)) => add && UserNamed(db, Lower(username)) == Some(user)
    case OnTargets(DoSetTargetEnabled(name, enabled)) => enabled && TargetNamed(db, name) == Some(target)
    case _ => false
  }

  /** Rows that lead to access are only removed, and no target becomes enabled. */
  ghost predicate Narrows(db: Db, next: Db) {
    (forall t :: Enabled(next, t) ==> Enabled(db, t))
    && next.members <= db.members
    && (forall g :: g in next.userGrants ==> g in db.userGrants && next.userGrants[g] == db.userGrants[g])
    && (forall g :: g in next.groupGrants ==> g in db.groupGrants && next.groupGrants[g] == db.groupGrants[g])
  }

  lemma NarrowsGivesNothing(db: Db, next: Db, u: User, target: int, capability: string)
    requires Narrows(db, next) && CanAccess(next, u, target, capability)
    ensures CanAccess(db, u, target, capability)
  {
    hide Allows, IsCapability;
    if g :| AllowedThrough(next, g, u.id, target, capability) {
      assert AllowedThrough(db, g, u.id, target, capability);
    }
  }

  lemma OtherCallNarrows(db: Db, call: Call)
    requires call.OnLinks? || call.OnTotps? || call.OnIdentities? || call.OnAudits?
    ensures Narrows(db, Apply(db, call))
  {
    hide ApplyLink, ApplyTotp, ApplyIdentity, ApplyAudit;
  }

  lemma DeletingUserNarrows(db: Db, user: int)
    ensures Narrows(db, DeleteUserRow(db, user))
  {
  }

  lemma UserCallNarrows(db: Db, call: UserCall)
    ensures Narrows(db, ApplyUser(db, call))
  {
    if call.DoDeleteUser? {
      hide Narrows, Lower, UserNamed, OtherUsableAdmin, DeleteUserRow;
      assert Narrows(db, db) by { NarrowsSelf(db); }
      forall u ensures Narrows(db, DeleteUserRow(db, u)) { DeletingUserNarrows(db, u); }
    } else {
      hide ApplyUser;
    }
  }

  lemma NarrowsSelf(db: Db)
    ensures Narrows(db, db)
  {
  }

  lemma DeletingGroupNarrows(db: Db, group: int)
    ensures Narrows(db, DeleteGroupRow(db, group))
  {
  }

  lemma FewerMembers(db: Db, next: Db)
    requires next == db.(groups := next.groups, members := next.members) && next.members <= db.members
    ensures Narrows(db, next)
  {
  }

  lemma GroupCallNarrows(db: Db, call: GroupCall)
    requires call.DoSetGroupMember? ==> !call.add
    ensures Narrows(db, ApplyGroup(db, call))
  {
    hide AddGroup, Lower, UserNamed, GroupNamed, DeleteGroupRow, Narrows;
    if call.DoDeleteGroup? {
      NarrowsSelf(db);
      forall g ensures Narrows(db, DeleteGroupRow(db, g)) { DeletingGroupNarrows(db, g); }
    } else if call.DoSetGroupMember? {
      FewerMembers(db, ApplyGroup(db, call));
    } else {
      FewerMembers(db, ApplyGroup(db, call));
    }
  }

  lemma MemberCallGives(db: Db, call: GroupCall, u: User, target: int, capability: string)
    requires call.DoSetGroupMember? && call.add && u.role != ADMIN
    requires !CanAccess(db, u, target, capability) && CanAccess(ApplyGroup(db, call), u, target, capability)
    ensures UserNamed(db, Lower(call.username)) == Some(u.id)
  {
    hide Lower, Allows, IsCapability, UserNamed, GroupNamed;
    var next := ApplyGroup(db, call);
    if UserNamed(db, Lower(call.username)) != Some(u.id) {
      assert forall g :: (g, u.id) in next.members ==> (g, u.id) in db.members;
      SameByGroup(next, db, u.id, target, capability);
    }
  }

  /** A new target has no grants, not even when it takes the id of a deleted one. */
  lemma NewTargetGivesNothing(db: Db, n: NewTarget, u: User, target: int, capability: string)
    requires ForeignKeys(db) && u.role != ADMIN && CanAccess(AddTarget(db, n).0, u, target, capability)
    ensures CanAccess(db, u, target, capability)
  {
    hide TrimSpace, ValidKind, ValidPort, Allows, IsCapability;
    var next := AddTarget(db, n).0;
    if next != db {
      var id := AddTarget(db, n).1.value;
      assert next == db.(targets := next.targets) && next.targets == db.targets[id := next.targets[id]];
      hide AddTarget;
      assert id !in db.targets;
      SameByGroup(next, db, u.id, target, capability);
    }
  }

  lemma TargetCallNarrows(db: Db, call: TargetCall)
    requires !call.DoAddTarget? && (call.DoSetTargetEnabled? ==> !call.enabled)
    ensures Narrows(db, ApplyTarget(db, call))
  {
    hide ValidKind, ValidPort, TargetNamed;
  }

  lemma EnablingGives(db: Db, name: string, u: User, target: int, capability: string)
    requires !CanAccess(db, u, target, capability)
      && CanAccess(SetTargetEnabled(db, name, true).0, u, target, capability)
    ensures TargetNamed(db, name) == Some(target)
  {
    hide Allows, IsCapability;
    SameByGroup(SetTargetEnabled(db, name, true).0, db, u.id, target, capability);
  }

  lemma SetGrantGives(db: Db, call: GrantCall, u: User, target: int, capability: string)
    requires call.DoSetGrantCapabilities? && u.role != ADMIN
    requires !CanAccess(db, u, target, capability) && CanAccess(ApplyGrant(db, call), u, target, capability)
    ensures Gives(db, OnGrants(call), u.id, target, capability)
  {
    hide ResolvePrincipal, TargetNamed, CanAccess, Listed, SetGrantCapabilities, Covers, GrantSet, AllowedOtherwise,
      Allows, GrantedOtherwise;
    var next := ApplyGrant(db, call);
    SetGrantSets(db, call.target, call.kind, call.principal, call.add, call.capabilities);
    var p, t := ResolvePrincipal(db, call.kind, call.principal).value, TargetNamed(db, call.target).value;
    var row := if call.add then Some(call.capabilities) else None;
    if target != t || !Covers(db, p, u.id) {
      GrantChangesOnlyItsOwn(db, next, p, t, row, u, target, capability);
    } else {
      SameTargets(db, next, u, target, capability);
      GrantDecides(db, next, p, t, row, u, capability);
      OtherwiseIsAccess(db, p, u, target, capability);
    }
  }

  lemma GrantCallGives(db: Db, call: GrantCall, u: User, target: int, capability: string)
    requires u.role != ADMIN
    requires !CanAccess(db, u, target, capability) && CanAccess(ApplyGrant(db, call), u, target, capability)
    ensures Gives(db, OnGrants(call), u.id, target, capability)
  {
    hide CanAccess, SetGrantCapabilities, AddForwardRule;
    if call.DoSetGrantCapabilities? {
      SetGrantGives(db, call, u, target, capability);
    } else {
      var next := ApplyGrant(db, call);
      assert next == db.(forwards := next.forwards);
      NarrowsGivesNothing(db, next, u, target, capability);
    }
  }

  lemma SameTargets(db: Db, next: Db, u: User, target: int, capability: string)
    requires next.targets == db.targets && CanAccess(next, u, target, capability)
    ensures Enabled(db, target) && u.enabled && IsCapability(capability)
  {
  }

  lemma OtherwiseIsAccess(db: Db, p: Principal, u: User, target: int, capability: string)
    requires AllowedOtherwise(db, p, u.id, target, capability) ==>
      u.enabled && IsCapability(capability) && Enabled(db, target)
    ensures AllowedOtherwise(db, p, u.id, target, capability) ==> CanAccess(db, u, target, capability)
  {
    hide Allows, IsCapability;
  }

  /** No other call ever gives a member anything; in particular adding users, targets and groups,
      whose ids may have belonged to deleted rows, does not. */
  lemma AccessIsGiven(db: Db, call: Call, u: User, target: int, capability: string)
    requires ForeignKeys(db) && u.role != ADMIN
    requires !CanAccess(db, u, target, capability) && CanAccess(Apply(db, call), u, target, capability)
    ensures Gives(db, call, u.id, target, capability)
  {
    hide CanAccess, Narrows, ForeignKeys, ApplyUser, Covers, ResolvePrincipal;
    if Narrows(db, Apply(db, call)) { NarrowsGivesNothing(db, Apply(db, call), u, target, capability); }
    match call
    case OnUsers(c) => UserCallNarrows(db, c);
    case OnGroups(c) =>
      if c.DoSetGroupMember? && c.add {
        MemberCallGives(db, c, u, target, capability);
      } else {
        GroupCallNarrows(db, c);
      }
    case OnTargets(c) =>
      if c.DoAddTarget? {
        NewTargetGivesNothing(db, c.target, u, target, capability);
      } else if c.DoSetTargetEnabled? && c.enabled {
        EnablingGives(db, c.name, u, target, capability);
      } else {
        TargetCallNarrows(db, c);
      }
    case OnGrants(c) => GrantCallGives(db, c, u, target, capability);
    case OnLinks(_) => OtherCallNarrows(db, call);
    case OnTotps(_) => OtherCallNarrows(db, call);
    case OnIdentities(_) => OtherCallNarrows(db, call);
    case OnAudits(_) => OtherCallNarrows(db, call);
  }

  /** The rows of a user come and go with that user: a new user has access to nothing. */
  lemma NewUserHasNothing(db: Db, username: string, role: string, target: int, capability: string)
    requires ForeignKeys(db) && AddUser(db, username, role).1.Ok? && role != ADMIN
    ensures var (next, r) := AddUser(db, username, role);
      !CanAccess(next, User(r.value, role, true), target, capability)
  {
    hide ValidName, ValidRole, UserNamed, Allows, IsCapability;
  }

  ghost predicate NeverGives(db: Db, calls: seq<Call>, user: int, target: int, capability: string)
    decreases |calls|
  {
    calls == []
    || (!Gives(db, calls[0], user, target, capability)
      && NeverGives(Apply(db, calls[0]), calls[1..], user, target, capability))
  }

  /** Over a whole run: a member who is never given a capability on a target never has it. */
  lemma {:induction false} NothingGivenNothingGained(db: Db, calls: seq<Call>, u: User, target: int, capability: string)
    requires Consistent(db) && u.role != ADMIN && !CanAccess(db, u, target, capability)
    requires NeverGives(db, calls, u.id, target, capability)
    ensures !CanAccess(ApplyAll(db, calls), u, target, capability)
    decreases |calls|
  {
    if calls == [] {
    } else {
      ApplyKeeps(db, calls[0]);
      var next := Apply(db, calls[0]);
      hide Apply, CanAccess, Gives;
      if CanAccess(next, u, target, capability) { AccessIsGiven(db, calls[0], u, target, capability); }
      NothingGivenNothingGained(next, calls[1..], u, target, capability);
    }
  }
}
