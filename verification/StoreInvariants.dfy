/** The constraints of the database hold after every sequence of calls. */
module StoreInvariants {
  import opened Wrappers
  import opened Text
  import opened Secrets
  import opened Database
  import opened StoreSpec

  // ---------- operations that may run into a constraint ----------

  lemma AddUserKeeps(db: Db, username: string, role: string)
    requires Consistent(db)
    ensures Consistent(AddUser(db, username, role).0)
  {
    hide ValidName, ValidRole, Lower, TrimSpace, NextId, UserNamed, UniqueKeys, UniqueGroups, UniqueTargets,
      UniqueIdentities, UniqueForwards, UniqueLinks;
    if ValidName(username).None? || !ValidRole(role) || UserNamed(db, ValidName(username).value).Some? {
      assert AddUser(db, username, role).0 == db;
    } else {
      ValidNameIsNormal(username);
      assert AddUser(db, username, role).0 == db.(users := AddUser(db, username, role).0.users);
    }
  }

  lemma AddTargetKeeps(db: Db, n: NewTarget)
    requires Consistent(db)
    ensures Consistent(AddTarget(db, n).0)
  {
    hide TrimSpace, ValidKind, UniqueUsernames, LowerUsernames, UniqueKeys, UniqueGroups, UniqueIdentities,
      UniqueForwards, UniqueLinks;
  }

  lemma UpsertKeeps(db: Db, row: LinkRow)
    requires Consistent(db) && row.userId in db.users
    ensures Consistent(UpsertLink(db, row).0)
  {
    hide UniqueUsernames, LowerUsernames, UniqueKeys, UniqueGroups, UniqueTargets, UniqueIdentities, UniqueForwards;
  }

  lemma ClaimKeeps(db: Db, username: string, issuer: string, subject: string, provider: string)
    requires Consistent(db)
    ensures Consistent(AuthenticateOIDC(db, username, issuer, subject, provider).0)
  {
    hide Lower, TrimSpace, Normalized, UniqueUsernames, LowerUsernames, UniqueKeys, UniqueGroups, UniqueTargets,
      UniqueIdentities, UniqueForwards;
  }

  lemma LinkingKeeps(db: Db, user: int, issuer: string, subject: string, provider: string)
    requires Consistent(db)
    ensures Consistent(SetOIDCUsernameMapping(db, user, issuer, provider).0)
    ensures Consistent(LinkOIDCIdentity(db, user, issuer, subject, provider).0)
  {
    hide Consistent, UpsertLink, OidcValue, Lower;
    forall row: LinkRow | row.userId in db.users ensures Consistent(UpsertLink(db, row).0) { UpsertKeeps(db, row); }
  }

  lemma UserGrantKeeps(db: Db, g: (int, int), capabilities: Capabilities)
    requires Consistent(db) && g.0 in db.users && g.1 in db.targets
    ensures Consistent(db.(userGrants := db.userGrants[g := capabilities]))
    ensures Consistent(db.(userGrants := db.userGrants - {g}))
  {
    hide UniqueUsernames, LowerUsernames, UniqueKeys, UniqueGroups, UniqueTargets, UniqueIdentities, UniqueForwards,
      UniqueLinks;
  }

  lemma GroupGrantKeeps(db: Db, g: (int, int), capabilities: Capabilities)
    requires Consistent(db) && g.0 in db.groups && g.1 in db.targets
    ensures Consistent(db.(groupGrants := db.groupGrants[g := capabilities]))
    ensures Consistent(db.(groupGrants := db.groupGrants - {g}))
  {
    hide UniqueUsernames, LowerUsernames, UniqueKeys, UniqueGroups, UniqueTargets, UniqueIdentities, UniqueForwards,
      UniqueLinks;
  }

  lemma GrantKeeps(db: Db, target: string, kind: string, principal: string, add: bool, capabilities: Capabilities)
    requires Consistent(db)
    ensures Consistent(SetGrantCapabilities(db, target, kind, principal, add, capabilities).0)
  {
    hide ResolvePrincipal, TargetNamed, Consistent;
    PrincipalExists(db, kind, principal);
    var t, p := TargetNamed(db, target), ResolvePrincipal(db, kind, principal);
    if t.Some? && p.Ok? {
      match p.value
      case UserPrincipal(u) => UserGrantKeeps(db, (u, t.value), capabilities);
      case GroupPrincipal(g) => GroupGrantKeeps(db, (g, t.value), capabilities);
    }
  }

  lemma PrincipalExists(db: Db, kind: string, name: string)
    ensures match ResolvePrincipal(db, kind, name)
      case Ok(UserPrincipal(u)) => u in db.users
      case Ok(GroupPrincipal(g)) => g in db.groups
      case Err(_) => true
  {
  }

  lemma DeleteUserKeeps(db: Db, user: int)
    requires Consistent(db)
    ensures Consistent(DeleteUserRow(db, user))
  {
    hide Lower, TrimSpace, UniqueGroups, UniqueTargets, UniqueIdentities, UniqueForwards;
  }

  lemma DeleteTargetKeeps(db: Db, target: int)
    requires Consistent(db)
    ensures Consistent(DeleteTargetRow(db, target))
  {
    hide UniqueUsernames, LowerUsernames, UniqueKeys, UniqueGroups, UniqueIdentities, UniqueLinks;
  }

  // ---------- all operations ----------

  /** Changing the role or the enabled flag of a user. */
  lemma UserUpdated(db: Db, id: int, row: UserRow)
    requires Consistent(db) && id in db.users && row.username == db.users[id].username
    ensures Consistent(db.(users := db.users[id := row]))
  {
    hide Lower, TrimSpace, UniqueKeys, UniqueGroups, UniqueTargets, UniqueIdentities, UniqueForwards, UniqueLinks;
  }

  lemma AddKeyKeeps(db: Db, username: string, fingerprint: string, publicKey: string, note: string)
    requires Consistent(db)
    ensures Consistent(AddGatewayKey(db, username, fingerprint, publicKey, note).0)
  {
    hide Lower, NextId, UserNamed, UniqueUsernames, LowerUsernames, UniqueGroups, UniqueTargets, UniqueIdentities,
      UniqueForwards, UniqueLinks;
  }

  lemma RemoveKeyKeeps(db: Db, username: string, fingerprint: string)
    requires Consistent(db)
    ensures Consistent(RemoveGatewayKey(db, username, fingerprint).0)
  {
    hide Lower, OtherUsableAdmin, UserNamed, HasKey, UniqueUsernames, LowerUsernames, UniqueGroups, UniqueTargets,
      UniqueIdentities, UniqueForwards, UniqueLinks;
  }

  lemma UserCallKeeps(db: Db, call: UserCall)
    requires Consistent(db)
    ensures Consistent(ApplyUser(db, call))
  {
    hide ValidRole, OtherUsableAdmin, Lower, AddUser, AddGatewayKey, RemoveGatewayKey, DeleteUserRow, Consistent;
    match call
    case DoAddUser(username, role) => AddUserKeeps(db, username, role);
    case DoDeleteUser(username) => forall u { DeleteUserKeeps(db, u); }
    case DoAddGatewayKey(username, fingerprint, publicKey, note) =>
      AddKeyKeeps(db, username, fingerprint, publicKey, note);
    case DoRemoveGatewayKey(username, fingerprint) => RemoveKeyKeeps(db, username, fingerprint);
    case DoSetUserEnabled(username, enabled) =>
      var u := UserNamed(db, Lower(username));
      if u.Some? { UserUpdated(db, u.value, db.users[u.value].(enabled := enabled)); }
    case DoSetUserRole(username, role) =>
      var u := UserNamed(db, Lower(username));
      if u.Some? { UserUpdated(db, u.value, db.users[u.value].(role := role)); }
  }

  lemma RemoveLinkKeeps(db: Db, user: int, issuer: string)
    requires Consistent(db)
    ensures Consistent(RemoveOIDCIdentity(db, user, issuer).0)
  {
    hide LinkOf, UniqueUsernames, LowerUsernames, UniqueKeys, UniqueGroups, UniqueTargets, UniqueIdentities,
      UniqueForwards;
  }

  lemma LinkCallKeeps(db: Db, call: LinkCall)
    requires Consistent(db)
    ensures Consistent(ApplyLink(db, call))
  {
    hide SetOIDCUsernameMapping, LinkOIDCIdentity, AuthenticateOIDC, UniqueUsernames, LowerUsernames, UniqueKeys,
      UniqueGroups, UniqueTargets, UniqueIdentities, UniqueForwards;
    match call
    case DoSetOIDCUsernameMapping(user, issuer, provider) => LinkingKeeps(db, user, issuer, "", provider);
    case DoLinkOIDCIdentity(user, issuer, subject, provider) => LinkingKeeps(db, user, issuer, subject, provider);
    case DoAuthenticateOIDC(username, issuer, subject, provider) => ClaimKeeps(db, username, issuer, subject, provider);
    case DoRemoveOIDCIdentity(user, issuer) => RemoveLinkKeeps(db, user, issuer);
  }

  lemma TotpCallKeeps(db: Db, call: TotpCall)
    requires Consistent(db)
    ensures Consistent(ApplyTotp(db, call))
  {
    hide UniqueUsernames, LowerUsernames, UniqueKeys, UniqueGroups, UniqueTargets, UniqueIdentities, UniqueForwards,
      UniqueLinks;
  }

  lemma GroupCallKeeps(db: Db, call: GroupCall)
    requires Consistent(db)
    ensures Consistent(ApplyGroup(db, call))
  {
    hide ValidName, Lower, UniqueUsernames, LowerUsernames, UniqueKeys, UniqueTargets, UniqueIdentities,
      UniqueForwards, UniqueLinks;
  }

  lemma IdentityCallKeeps(db: Db, call: IdentityCall)
    requires Consistent(db)
    ensures Consistent(ApplyIdentity(db, call))
  {
    hide ValidName, TrimSpace, Lower, UniqueUsernames, LowerUsernames, UniqueKeys, UniqueGroups, UniqueTargets,
      UniqueForwards, UniqueLinks;
  }

  /** Changing anything but the name and the identity of a target. */
  lemma TargetUpdated(db: Db, id: int, row: TargetRow)
    requires Consistent(db) && id in db.targets && row.name == db.targets[id].name
    requires row.identityId.Some? ==> row.identityId.value in db.identities
    ensures Consistent(db.(targets := db.targets[id := row]))
  {
    hide UniqueUsernames, LowerUsernames, UniqueKeys, UniqueGroups, UniqueIdentities, UniqueForwards, UniqueLinks;
  }

  lemma TargetCallKeeps(db: Db, call: TargetCall)
    requires Consistent(db)
    ensures Consistent(ApplyTarget(db, call))
  {
    hide ValidKind, ValidPort, AddTarget, DeleteTargetRow, UniqueUsernames, LowerUsernames, UniqueKeys,
      UniqueGroups, UniqueTargets, UniqueIdentities, UniqueForwards, UniqueLinks;
    var next := ApplyTarget(db, call);
    if call.DoAddTarget? {
      AddTargetKeeps(db, call.target);
    } else if call.DoDeleteTarget? {
      forall t { DeleteTargetKeeps(db, t); }
    } else if next != db {
      var onId := call.DoSetTargetCredential? || call.DoSetTargetCredentialKind? || call.DoSetTargetIdentity?;
      var id := if onId then call.id else TargetNamed(db, call.name).value;
      TargetUpdated(db, id, next.targets[id]);
    }
  }

  lemma GrantCallKeeps(db: Db, call: GrantCall)
    requires Consistent(db)
    ensures Consistent(ApplyGrant(db, call))
  {
    hide TrimSpace, ValidPort, Lower, SetGrantCapabilities, UniqueUsernames, LowerUsernames, UniqueKeys,
      UniqueGroups, UniqueTargets, UniqueIdentities, UniqueLinks;
    if call.DoSetGrantCapabilities? {
      GrantKeeps(db, call.target, call.kind, call.principal, call.add, call.capabilities);
    }
  }

  lemma AuditCallKeeps(db: Db, call: AuditCall)
    requires Consistent(db)
    ensures Consistent(ApplyAudit(db, call))
  {
    hide Less, UniqueUsernames, LowerUsernames, UniqueKeys, UniqueGroups, UniqueTargets, UniqueIdentities,
      UniqueForwards, UniqueLinks;
  }

  /** Every call keeps every constraint, whether it succeeds or fails. */
  lemma ApplyKeeps(db: Db, call: Call)
    requires Consistent(db)
    ensures Consistent(Apply(db, call))
  {
    hide Consistent;
    match call
    case OnUsers(c) => UserCallKeeps(db, c);
    case OnLinks(c) => LinkCallKeeps(db, c);
    case OnTotps(c) => TotpCallKeeps(db, c);
    case OnGroups(c) => GroupCallKeeps(db, c);
    case OnIdentities(c) => IdentityCallKeeps(db, c);
    case OnTargets(c) => TargetCallKeeps(db, c);
    case OnGrants(c) => GrantCallKeeps(db, c);
    case OnAudits(c) => AuditCallKeeps(db, c);
  }

  /** In every reachable database all references lead to rows and all uniqueness constraints hold. */
  lemma {:induction false} ReachableConsistent(db: Db, calls: seq<Call>)
    requires Consistent(db)
    ensures Consistent(ApplyAll(db, calls))
    decreases |calls|
  {
    if calls == [] {
    } else {
      ApplyKeeps(db, calls[0]);
      ReachableConsistent(Apply(db, calls[0]), calls[1..]);
    }
  }
}
