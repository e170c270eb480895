/** What each operation of the store does to the database: the new database and the result. */
module StoreSpec {
  import opened Wrappers
  import opened Text
  import opened Secrets
  import opened Database

  datatype Failure =
    | Invalid | NoRows | Constraint | FinalAdmin | Duplicate | InUse | MappedElsewhere | NotMapped | AlreadyUsed

  type Outcome = Result<(), Failure>

  const DONE: Outcome := Ok(())

  // ---------- validation ----------

  predicate NameStart(c: char) { 'a' <= c <= 'z' }

  predicate NameRest(c: char) { 'a' <= c <= 'z' || '0' <= c <= '9' || c == '_' || c == '-' }

  /** `validateName`. */
  function ValidName(v: string): (r: Option<string>) {
    var name := Lower(TrimSpace(v));
    if 1 <= |name| <= 32 && NameStart(name[0]) && forall i :: 1 <= i < |name| ==> NameRest(name[i])
    then Some(name) else None
  }

  /** A valid name is in lower case and has no space at either end. */
  lemma ValidNameIsNormal(v: string)
    requires ValidName(v).Some?
    ensures var name := ValidName(v).value; Lower(name) == name && TrimSpace(name) == name
  {
    hide TrimSpace;
    var name := ValidName(v).value;
    LowerIdempotent(TrimSpace(v));
    hide Lower;
    assert NameStart(name[0]) && (|name| > 1 ==> NameRest(name[|name| - 1]));
    TrimNothing(name);
  }

  predicate ValidRole(role: string) { role == ADMIN || role == MEMBER }

  predicate ValidKind(kind: string) {
    kind == PASSWORD || kind == PRIVATE_KEY || kind == FORWARDED_AGENT || kind == STORED_KEY
  }

  predicate ValidPort(port: int) { 1 <= port <= 65535 }

  /** `validateOIDCValue`. */
  function OidcValue(value: string, limit: nat): (r: Option<string>) {
    var v := TrimSpace(value);
    if v == "" || ByteLength(v) > limit || exists i :: 0 <= i < |v| && (v[i] as int < 0x20 || v[i] as int == 0x7F)
    then None else Some(v)
  }

  datatype Claim = Claim(issuer: string, subject: string, providerUsername: string)

  /** `normalizeOIDCValues`. */
  function Normalized(issuer: string, subject: string, providerUsername: string): (r: Option<Claim>) {
    var i, s, p := OidcValue(issuer, 2048), OidcValue(subject, 512), OidcValue(Lower(providerUsername), 255);
    if i.None? || s.None? || p.None? then None else Some(Claim(i.value, s.value, p.value))
  }

  // ---------- users and gateway keys ----------

  ghost function AddUser(db: Db, username: string, role: string): (r: (Db, Result<int, Failure>))
    ensures r.0 == db.(users := r.0.users)
  {
    var name := ValidName(username);
    if name.None? || !ValidRole(role) then (db, Err(Invalid))
    else if UserNamed(db, name.value).Some? then (db, Err(Constraint))
    else
      var id := NextId(db.users.Keys);
      (db.(users := db.users[id := UserRow(name.value, role, true)]), Ok(id))
  }

  /** `ensureOtherUsableAdmin`. */
  ghost predicate OtherUsableAdmin(db: Db, exclude: int) {
    exists u :: u != exclude && UsableAdmin(db, u)
  }

  ghost function SetUserEnabled(db: Db, name: string, enabled: bool): (r: (Db, Outcome))
    ensures r.0 == db.(users := r.0.users)
  {
    var u := UserNamed(db, Lower(name));
    if u.None? then (db, Err(NoRows))
    else if !enabled && db.users[u.value].role == ADMIN && !OtherUsableAdmin(db, u.value) then (db, Err(FinalAdmin))
    else (db.(users := db.users[u.value := db.users[u.value].(enabled := enabled)]), DONE)
  }

  ghost function SetUserRole(db: Db, name: string, role: string): (r: (Db, Outcome))
    ensures r.0 == db.(users := r.0.users)
  {
    if !ValidRole(role) then (db, Err(Invalid))
    else
      var u := UserNamed(db, Lower(name));
      if u.None? then (db, Err(NoRows))
      else if db.users[u.value].role == ADMIN && role != ADMIN && !OtherUsableAdmin(db, u.value)
      then (db, Err(FinalAdmin))
      else (db.(users := db.users[u.value := db.users[u.value].(role := role)]), DONE)
  }

  ghost function DeleteUser(db: Db, name: string): (r: (Db, Outcome)) {
    var u := UserNamed(db, Lower(name));
    if u.None? then (db, Err(NoRows))
    else if db.users[u.value].role == ADMIN && !OtherUsableAdmin(db, u.value) then (db, Err(FinalAdmin))
    else (DeleteUserRow(db, u.value), DONE)
  }

  ghost predicate HasKey(db: Db, user: int, fingerprint: string) {
    exists k :: k in db.keys && db.keys[k].userId == user && db.keys[k].fingerprint == fingerprint
  }

  ghost function AddGatewayKey(
    db: Db, username: string, fingerprint: string, publicKey: string, note: string): (r: (Db, Outcome))
    ensures r.0 == db.(keys := r.0.keys)
  {
    var u := UserNamed(db, Lower(username));
    if u.None? then (db, Err(NoRows))
    else if HasKey(db, u.value, fingerprint) then (db, Err(Duplicate))
    else (db.(keys := db.keys[NextId(db.keys.Keys) := KeyRow(u.value, fingerprint, publicKey, note)]), DONE)
  }

  function KeysWithout(keys: map<int, KeyRow>, user: int, fingerprint: string): (r: map<int, KeyRow>) {
    map k | k in keys && !(keys[k].userId == user && keys[k].fingerprint == fingerprint) :: keys[k]
  }

  /** The last key of the last usable administrator. */
  ghost predicate FinalKey(db: Db, user: int) {
    user in db.users && db.users[user].role == ADMIN && db.users[user].enabled && |KeysOf(db, user)| <= 1
    && !OtherUsableAdmin(db, user)
  }

  ghost function RemoveGatewayKey(db: Db, username: string, fingerprint: string): (r: (Db, Outcome))
    ensures r.0 == db.(keys := r.0.keys)
  {
    var u := UserNamed(db, Lower(username));
    if u.None? then (db, Err(NoRows))
    else
      if FinalKey(db, u.value) then (db, Err(FinalAdmin))
      else if !HasKey(db, u.value, fingerprint) then (db, Err(NoRows))
      else
        (db.(keys := KeysWithout(db.keys, u.value, fingerprint)), DONE)
  }

  /** `AuthenticateKey`. */
  ghost function AuthenticateKey(db: Db, username: string, fingerprint: string): (r: Option<int>) {
    var u := UserNamed(db, Lower(username));
    if u.Some? && db.users[u.value].enabled && HasKey(db, u.value, fingerprint) then u else None
  }

  // ---------- OIDC links ----------

  /** Another row of the issuer has the subject or the provider username. */
  ghost predicate Conflicts(links: map<int, LinkRow>, except: int, row: LinkRow) {
    exists l :: l in links && l != except && links[l].issuer == row.issuer
      && ((row.subject.Some? && links[l].subject == row.subject) || links[l].providerUsername == row.providerUsername)
  }

  /** Insert, or update the row of the same user and issuer. */
  ghost function UpsertLink(db: Db, row: LinkRow): (r: (Db, Outcome))
    ensures r.0 == db.(links := r.0.links)
  {
    var existing := LinkOf(db.links, row.userId, row.issuer);
    var id := if existing.Some? then existing.value else NextId(db.links.Keys);
    if Conflicts(db.links, id, row) then (db, Err(Constraint)) else (db.(links := db.links[id := row]), DONE)
  }

  ghost function SetOIDCUsernameMapping(db: Db, user: int, issuer: string, providerUsername: string): (r: (Db, Outcome))
    ensures r.0 == db.(links := r.0.links)
  {
    var i, p := OidcValue(issuer, 2048), OidcValue(Lower(providerUsername), 255);
    if i.None? || p.None? then (db, Err(Invalid))
    else if user !in db.users then (db, Err(NoRows))
    else UpsertLink(db, LinkRow(user, i.value, None, p.value))
  }

  /** Someone else has the subject or the provider username. */
  ghost predicate OwnedByOther(db: Db, user: int, claim: Claim) {
    exists l :: l in db.links && db.links[l].issuer == claim.issuer
      && (db.links[l].subject == Some(claim.subject) || db.links[l].providerUsername == claim.providerUsername)
      && db.links[l].userId != user
  }

  ghost function LinkOIDCIdentity(
    db: Db, user: int, issuer: string, subject: string, providerUsername: string): (r: (Db, Outcome))
    ensures r.0 == db.(links := r.0.links)
  {
    match Normalized(issuer, subject, providerUsername)
    case None => (db, Err(Invalid))
    case Some(claim) =>
      if user !in db.users then (db, Err(NoRows))
      else if OwnedByOther(db, user, claim) then (db, Err(MappedElsewhere))
      else UpsertLink(db, LinkRow(user, claim.issuer, Some(claim.subject), claim.providerUsername))
  }

  /** The link a login uses, and what becomes of it; None if there is none or a constraint stops the update. */
  ghost function ClaimedLink(db: Db, claim: Claim): (r: Option<(int, LinkRow)>) {
    var bound := BoundLink(db.links, claim.issuer, claim.subject);
    var link := if bound.Some? then bound else WaitingLink(db.links, claim.issuer, claim.providerUsername);
    if link.None? then None
    else
      var row := db.links[link.value].(subject := Some(claim.subject), providerUsername := claim.providerUsername);
      if Conflicts(db.links, link.value, row) then None else Some((link.value, row))
  }

  ghost function AuthenticateOIDC(
    db: Db, claimedUsername: string, issuer: string, subject: string, providerUsername: string)
    : (r: (Db, Result<int, Failure>))
    ensures r.0 == db.(links := r.0.links)
  {
    match Normalized(issuer, subject, providerUsername)
    case None => (db, Err(Invalid))
    case Some(claim) =>
      match ClaimedLink(db, claim)
      case None => (db, Err(NotMapped))
      case Some((link, row)) =>
        if row.userId !in db.users || !db.users[row.userId].enabled
          || db.users[row.userId].username != Lower(TrimSpace(claimedUsername))
        then (db, Err(NotMapped))
        else (db.(links := db.links[link := row]), Ok(row.userId))
  }

  function LinksWithout(links: map<int, LinkRow>, user: int, issuer: string): (r: map<int, LinkRow>) {
    map l | l in links && !(links[l].userId == user && links[l].issuer == issuer) :: links[l]
  }

  ghost function RemoveOIDCIdentity(db: Db, user: int, issuer: string): (r: (Db, Outcome))
    ensures r.0 == db.(links := r.0.links)
  {
    if LinkOf(db.links, user, issuer).None? then (db, Err(NoRows))
    else (db.(links := LinksWithout(db.links, user, issuer)), DONE)
  }

  // ---------- TOTP ----------

  ghost function SetUserTOTP(db: Db, user: int, secret: Sealed): (r: (Db, Outcome))
    ensures r.0 == db.(totp := r.0.totp)
  {
    if secret.nonce == [] || secret.box == Forged([]) then (db, Err(Invalid))
    else if user !in db.users then (db, Err(Constraint))
    else (db.(totp := db.totp[user := TotpRow(secret, -1)]), DONE)
  }

  ghost function RemoveUserTOTP(db: Db, user: int): (r: (Db, Outcome))
    ensures r.0 == db.(totp := r.0.totp)
  {
    if user !in db.totp then (db, Err(NoRows)) else (db.(totp := db.totp - {user}), DONE)
  }

  /** Only a counter above the last accepted one is consumed. */
  ghost function ConsumeTOTPCounter(db: Db, user: int, counter: int): (r: (Db, Outcome))
    ensures r.0 == db.(totp := r.0.totp)
  {
    if user in db.totp && db.totp[user].lastCounter < counter
    then (db.(totp := db.totp[user := db.totp[user].(lastCounter := counter)]), DONE)
    else (db, Err(AlreadyUsed))
  }

  // ---------- groups ----------

  ghost function AddGroup(db: Db, name: string): (r: (Db, Outcome))
    ensures r.0 == db.(groups := r.0.groups)
  {
    var valid := ValidName(name);
    if valid.None? then (db, Err(Invalid))
    else if GroupNamed(db, valid.value).Some? then (db, Err(Constraint))
    else (db.(groups := db.groups[NextId(db.groups.Keys) := valid.value]), DONE)
  }

  ghost function DeleteGroup(db: Db, name: string): (r: (Db, Outcome)) {
    var g := GroupNamed(db, Lower(name));
    if g.None? then (db, Err(NoRows)) else (DeleteGroupRow(db, g.value), DONE)
  }

  ghost function SetGroupMember(db: Db, group: string, username: string, add: bool): (r: (Db, Outcome))
    ensures r.0 == db.(members := r.0.members)
  {
    var u, g := UserNamed(db, Lower(username)), GroupNamed(db, Lower(group));
    if u.None? || g.None? then (db, Err(NoRows))
    else (db.(members := if add then db.members + {(g.value, u.value)} else db.members - {(g.value, u.value)}), DONE)
  }

  // ---------- SSH identities ----------

  ghost function AddSSHIdentity(
    db: Db, name: string, publicKey: string, fingerprint: string): (r: (Db, Result<int, Failure>))
    ensures r.0 == db.(identities := r.0.identities)
  {
    var valid := ValidName(name);
    if valid.None? || TrimSpace(publicKey) == "" || TrimSpace(fingerprint) == "" then (db, Err(Invalid))
    else if IdentityNamed(db, valid.value).Some?
      || exists i :: i in db.identities && db.identities[i].fingerprint == fingerprint
    then (db, Err(Constraint))
    else
      var id := NextId(db.identities.Keys);
      (db.(identities := db.identities[id := IdentityRow(valid.value, publicKey, fingerprint, None)]), Ok(id))
  }

  ghost function SetSSHIdentitySecret(db: Db, id: int, secret: Sealed): (r: (Db, Outcome))
    ensures r.0 == db.(identities := r.0.identities)
  {
    if id !in db.identities then (db, Err(NoRows))
    else (db.(identities := db.identities[id := db.identities[id].(secret := Some(secret))]), DONE)
  }

  ghost predicate IdentityUsed(db: Db, id: int) {
    exists t :: t in db.targets && db.targets[t].identityId == Some(id)
  }

  ghost function DeleteSSHIdentity(db: Db, name: string): (r: (Db, Outcome))
    ensures r.0 == db.(identities := r.0.identities)
  {
    var i := IdentityNamed(db, Lower(name));
    if i.None? then (db, Err(NoRows))
    else if IdentityUsed(db, i.value) then (db, Err(InUse))
    else (db.(identities := db.identities - {i.value}), DONE)
  }

  // ---------- targets ----------

  datatype NewTarget = NewTarget(
    name: string, host: string, port: int, remoteUser: string, kind: string, hostKeyAlgorithm: string, hostKey: string,
    identityId: Option<int>)

  ghost function AddTarget(db: Db, n: NewTarget): (r: (Db, Result<int, Failure>))
    ensures r.0 == db.(targets := r.0.targets)
  {
    if TrimSpace(n.name) == "" || TrimSpace(n.host) == "" || TrimSpace(n.remoteUser) == "" || !ValidPort(n.port)
      || !ValidKind(n.kind) || n.hostKeyAlgorithm == "" || n.hostKey == ""
      || (n.kind == STORED_KEY && n.identityId.None?)
    then (db, Err(Invalid))
    else if TargetNamed(db, n.name).Some? || (n.identityId.Some? && n.identityId.value !in db.identities)
    then (db, Err(Constraint))
    else
      var id := NextId(db.targets.Keys);
      var row := TargetRow(n.name, n.host, n.port, n.remoteUser, n.kind, n.hostKeyAlgorithm, n.hostKey, true, None,
        n.identityId);
      (db.(targets := db.targets[id := row]), Ok(id))
  }

  ghost function UpdateTarget(db: Db, name: string, host: string, port: int, remoteUser: string): (r: (Db, Outcome))
    ensures r.0 == db.(targets := r.0.targets)
  {
    var t := TargetNamed(db, name);
    if host == "" || remoteUser == "" || !ValidPort(port) then (db, Err(Invalid))
    else if t.None? then (db, Err(NoRows))
    else
      var row := db.targets[t.value].(host := host, port := port, remoteUser := remoteUser);
      (db.(targets := db.targets[t.value := row]), DONE)
  }

  ghost function SetTargetHostKey(db: Db, name: string, algorithm: string, hostKey: string): (r: (Db, Outcome))
    ensures r.0 == db.(targets := r.0.targets)
  {
    var t := TargetNamed(db, name);
    if t.None? then (db, Err(NoRows))
    else
      var row := db.targets[t.value].(hostKeyAlgorithm := algorithm, hostKey := hostKey);
      (db.(targets := db.targets[t.value := row]), DONE)
  }

  ghost function SetTargetEnabled(db: Db, name: string, enabled: bool): (r: (Db, Outcome))
    ensures r.0 == db.(targets := r.0.targets)
  {
    var t := TargetNamed(db, name);
    if t.None? then (db, Err(NoRows))
    else (db.(targets := db.targets[t.value := db.targets[t.value].(enabled := enabled)]), DONE)
  }

  ghost function DeleteTarget(db: Db, name: string): (r: (Db, Outcome)) {
    var t := TargetNamed(db, name);
    if t.None? then (db, Err(NoRows)) else (DeleteTargetRow(db, t.value), DONE)
  }

  ghost function SetTargetCredential(db: Db, id: int, secret: Sealed): (r: (Db, Outcome))
    ensures r.0 == db.(targets := r.0.targets)
  {
    if id !in db.targets then (db, Err(NoRows))
    else (db.(targets := db.targets[id := db.targets[id].(secret := Some(secret), identityId := None)]), DONE)
  }

  ghost function SetTargetCredentialKind(db: Db, id: int, kind: string, secret: Sealed): (r: (Db, Outcome))
    ensures r.0 == db.(targets := r.0.targets)
  {
    if !ValidKind(kind) || kind == STORED_KEY then (db, Err(Invalid))
    else if id !in db.targets then (db, Err(NoRows))
    else
      var row := db.targets[id].(kind := kind, secret := Some(secret), identityId := None);
      (db.(targets := db.targets[id := row]), DONE)
  }

  ghost function SetTargetIdentity(db: Db, id: int, identity: int): (r: (Db, Outcome))
    ensures r.0 == db.(targets := r.0.targets)
  {
    if id !in db.targets then (db, Err(NoRows))
    else if identity !in db.identities then (db, Err(Constraint))
    else
      var row := db.targets[id].(kind := STORED_KEY, secret := None, identityId := Some(identity));
      (db.(targets := db.targets[id := row]), DONE)
  }

  // ---------- grants and forwarding ----------

  datatype Principal = UserPrincipal(user: int) | GroupPrincipal(group: int)

  /** The principal of a grant by kind and name. */
  ghost function ResolvePrincipal(db: Db, kind: string, name: string): (r: Result<Principal, Failure>) {
    if kind == "user" then
      var u := UserNamed(db, Lower(name)); if u.None? then Err(NoRows) else Ok(UserPrincipal(u.value))
    else if kind == "group" then
      var g := GroupNamed(db, Lower(name)); if g.None? then Err(NoRows) else Ok(GroupPrincipal(g.value))
    else Err(Invalid)
  }

  ghost function SetGrantCapabilities(
    db: Db, target: string, kind: string, principal: string, add: bool, capabilities: Capabilities): (r: (Db, Outcome))
    ensures r.0 == db.(userGrants := r.0.userGrants, groupGrants := r.0.groupGrants)
  {
    var t := TargetNamed(db, target);
    if t.None? then (db, Err(NoRows))
    else
      match ResolvePrincipal(db, kind, principal)
      case Err(e) => (db, Err(e))
      case Ok(UserPrincipal(u)) =>
        (db.(userGrants := if add then db.userGrants[(u, t.value) := capabilities]
          else db.userGrants - {(u, t.value)}), DONE)
      case Ok(GroupPrincipal(g)) =>
        (db.(groupGrants := if add then db.groupGrants[(g, t.value) := capabilities]
          else db.groupGrants - {(g, t.value)}), DONE)
  }

  ghost function AddForwardRule(db: Db, target: string, host: string, port: int): (r: (Db, Outcome))
    ensures r.0 == db.(forwards := r.0.forwards)
  {
    var t := TargetNamed(db, target);
    if TrimSpace(host) == "" || !ValidPort(port) then (db, Err(Invalid))
    else if t.None? then (db, Err(NoRows))
    else
      var row := ForwardRow(t.value, Lower(TrimSpace(host)), port);
      if exists f :: f in db.forwards && db.forwards[f] == row then (db, DONE)
      else (db.(forwards := db.forwards[NextId(db.forwards.Keys) := row]), DONE)
  }

  ghost function DeleteForwardRule(db: Db, id: int): (r: (Db, Outcome))
    ensures r.0 == db.(forwards := r.0.forwards)
  {
    if id !in db.forwards then (db, Err(NoRows)) else (db.(forwards := db.forwards - {id}), DONE)
  }

  // ---------- audit ----------

  predicate ValidOutcome(outcome: string) { outcome == "success" || outcome == "failure" || outcome == "denied" }

  /** An event without outcome succeeded; one without details has none. */
  function Completed(event: AuditRow): (r: AuditRow) {
    event.(outcome := if event.outcome == "" then "success" else event.outcome,
           details := if event.details == "" then "{}" else event.details)
  }

  /** The details of an event must be JSON; whether they are is decided by the JSON library. */
  ghost function Audit(db: Db, event: AuditRow, detailsAreJson: bool): (r: (Db, Outcome))
    ensures r.0 == db.(audit := r.0.audit)
  {
    var row := Completed(event);
    if event.details != "" && !detailsAreJson then (db, Err(Invalid))
    else if (row.actor.Some? && row.actor.value !in db.users)
      || (row.targetId.Some? && row.targetId.value !in db.targets)
      || !ValidOutcome(row.outcome)
    then (db, Err(Constraint))
    else (db.(audit := db.audit[NextId(db.audit.Keys) := row]), DONE)
  }

  function Earlier(audit: map<int, AuditRow>, before: string): (r: set<int>) {
    set a | a in audit && Less(audit[a].at, before)
  }

  function NotBefore(audit: map<int, AuditRow>, before: string): (r: map<int, AuditRow>) {
    map a | a in audit && !Less(audit[a].at, before) :: audit[a]
  }

  /** Times are compared as text. */
  function PruneAudit(db: Db, before: string): (r: (Db, nat)) {
    (db.(audit := NotBefore(db.audit, before)), |Earlier(db.audit, before)|)
  }

  // ---------- all operations ----------

  datatype UserCall =
    | DoAddUser(username: string, role: string)
    | DoSetUserEnabled(username: string, enabled: bool)
    | DoSetUserRole(username: string, role: string)
    | DoDeleteUser(username: string)
    | DoAddGatewayKey(username: string, fingerprint: string, publicKey: string, note: string)
    | DoRemoveGatewayKey(username: string, fingerprint: string)

  ghost function ApplyUser(db: Db, call: UserCall): (next: Db)
    ensures !call.DoDeleteUser? ==> next == db.(users := next.users, keys := next.keys)
  {
    hide AddUser, SetUserEnabled, SetUserRole, DeleteUser, AddGatewayKey, RemoveGatewayKey;
    match call
    case DoAddUser(username, role) => AddUser(db, username, role).0
    case DoSetUserEnabled(username, enabled) => SetUserEnabled(db, username, enabled).0
    case DoSetUserRole(username, role) => SetUserRole(db, username, role).0
    case DoDeleteUser(username) => DeleteUser(db, username).0
    case DoAddGatewayKey(username, fingerprint, publicKey, note) =>
      AddGatewayKey(db, username, fingerprint, publicKey, note).0
    case DoRemoveGatewayKey(username, fingerprint) => RemoveGatewayKey(db, username, fingerprint).0
  }

  datatype LinkCall =
    | DoSetOIDCUsernameMapping(user: int, issuer: string, provider: string)
    | DoLinkOIDCIdentity(user: int, issuer: string, subject: string, provider: string)
    | DoAuthenticateOIDC(username: string, issuer: string, subject: string, provider: string)
    | DoRemoveOIDCIdentity(user: int, issuer: string)

  ghost function ApplyLink(db: Db, call: LinkCall): (next: Db)
    ensures next == db.(links := next.links)
  {
    hide SetOIDCUsernameMapping, LinkOIDCIdentity, AuthenticateOIDC;
    match call
    case DoSetOIDCUsernameMapping(user, issuer, provider) => SetOIDCUsernameMapping(db, user, issuer, provider).0
    case DoLinkOIDCIdentity(user, issuer, subject, provider) => LinkOIDCIdentity(db, user, issuer, subject, provider).0
    case DoAuthenticateOIDC(username, issuer, subject, provider) =>
      AuthenticateOIDC(db, username, issuer, subject, provider).0
    case DoRemoveOIDCIdentity(user, issuer) => RemoveOIDCIdentity(db, user, issuer).0
  }

  datatype TotpCall =
    | DoSetUserTOTP(user: int, secret: Sealed)
    | DoRemoveUserTOTP(user: int)
    | DoConsumeTOTPCounter(user: int, counter: int)

  ghost function ApplyTotp(db: Db, call: TotpCall): (next: Db)
    ensures next == db.(totp := next.totp)
  {
    match call
    case DoSetUserTOTP(user, secret) => SetUserTOTP(db, user, secret).0
    case DoRemoveUserTOTP(user) => RemoveUserTOTP(db, user).0
    case DoConsumeTOTPCounter(user, counter) => ConsumeTOTPCounter(db, user, counter).0
  }

  datatype GroupCall =
    | DoAddGroup(name: string)
    | DoDeleteGroup(name: string)
    | DoSetGroupMember(name: string, username: string, add: bool)

  ghost function ApplyGroup(db: Db, call: GroupCall): (next: Db)
    ensures next == db.(groups := next.groups, members := next.members, groupGrants := next.groupGrants)
    ensures !call.DoDeleteGroup? ==> next == db.(groups := next.groups, members := next.members)
  {
    hide AddGroup, SetGroupMember;
    match call
    case DoAddGroup(name) => AddGroup(db, name).0
    case DoDeleteGroup(name) => DeleteGroup(db, name).0
    case DoSetGroupMember(name, username, add) => SetGroupMember(db, name, username, add).0
  }

  datatype IdentityCall =
    | DoAddSSHIdentity(name: string, publicKey: string, fingerprint: string)
    | DoSetSSHIdentitySecret(id: int, secret: Sealed)
    | DoDeleteSSHIdentity(name: string)

  ghost function ApplyIdentity(db: Db, call: IdentityCall): (next: Db)
    ensures next == db.(identities := next.identities)
  {
    match call
    case DoAddSSHIdentity(name, publicKey, fingerprint) => AddSSHIdentity(db, name, publicKey, fingerprint).0
    case DoSetSSHIdentitySecret(id, secret) => SetSSHIdentitySecret(db, id, secret).0
    case DoDeleteSSHIdentity(name) => DeleteSSHIdentity(db, name).0
  }

  datatype TargetCall =
    | DoAddTarget(target: NewTarget)
    | DoUpdateTarget(name: string, host: string, port: int, remoteUser: string)
    | DoSetTargetHostKey(name: string, algorithm: string, hostKey: string)
    | DoSetTargetEnabled(name: string, enabled: bool)
    | DoDeleteTarget(name: string)
    | DoSetTargetCredential(id: int, secret: Sealed)
    | DoSetTargetCredentialKind(id: int, kind: string, secret: Sealed)
    | DoSetTargetIdentity(id: int, identity: int)

  ghost function ApplyTarget(db: Db, call: TargetCall): (next: Db)
    ensures next == db.(
      targets := next.targets, userGrants := next.userGrants, groupGrants := next.groupGrants,
      forwards := next.forwards, audit := next.audit)
    ensures !call.DoDeleteTarget? ==> next == db.(targets := next.targets)
  {
    hide AddTarget, UpdateTarget, SetTargetHostKey, SetTargetEnabled, SetTargetCredential, SetTargetCredentialKind,
      SetTargetIdentity;
    match call
    case DoAddTarget(target) => AddTarget(db, target).0
    case DoUpdateTarget(name, host, port, remoteUser) => UpdateTarget(db, name, host, port, remoteUser).0
    case DoSetTargetHostKey(name, algorithm, hostKey) => SetTargetHostKey(db, name, algorithm, hostKey).0
    case DoSetTargetEnabled(name, enabled) => SetTargetEnabled(db, name, enabled).0
    case DoDeleteTarget(name) => DeleteTarget(db, name).0
    case DoSetTargetCredential(id, secret) => SetTargetCredential(db, id, secret).0
    case DoSetTargetCredentialKind(id, kind, secret) => SetTargetCredentialKind(db, id, kind, secret).0
    case DoSetTargetIdentity(id, identity) => SetTargetIdentity(db, id, identity).0
  }

  datatype GrantCall =
    | DoSetGrantCapabilities(target: string, kind: string, principal: string, add: bool, capabilities: Capabilities)
    | DoAddForwardRule(target: string, host: string, port: int)
    | DoDeleteForwardRule(id: int)

  ghost function ApplyGrant(db: Db, call: GrantCall): (next: Db)
    ensures next == db.(userGrants := next.userGrants, groupGrants := next.groupGrants, forwards := next.forwards)
  {
    hide SetGrantCapabilities, AddForwardRule;
    match call
    case DoSetGrantCapabilities(target, kind, principal, add, capabilities) =>
      SetGrantCapabilities(db, target, kind, principal, add, capabilities).0
    case DoAddForwardRule(target, host, port) => AddForwardRule(db, target, host, port).0
    case DoDeleteForwardRule(id) => DeleteForwardRule(db, id).0
  }

  datatype AuditCall =
    | DoAudit(event: AuditRow, detailsAreJson: bool)
    | DoPruneAudit(before: string)

  ghost function ApplyAudit(db: Db, call: AuditCall): (next: Db)
    ensures next == db.(audit := next.audit)
  {
    match call
    case DoAudit(event, detailsAreJson) => Audit(db, event, detailsAreJson).0
    case DoPruneAudit(before) => PruneAudit(db, before).0
  }

  datatype Call =
    | OnUsers(callUser: UserCall)
    | OnLinks(callLink: LinkCall)
    | OnTotps(callTotp: TotpCall)
    | OnGroups(callGroup: GroupCall)
    | OnIdentities(callIdentity: IdentityCall)
    | OnTargets(callTarget: TargetCall)
    | OnGrants(callGrant: GrantCall)
    | OnAudits(callAudit: AuditCall)

  /** The database after one call. */
  ghost function Apply(db: Db, call: Call): (r: Db) {
    match call
    case OnUsers(c) => ApplyUser(db, c)
    case OnLinks(c) => ApplyLink(db, c)
    case OnTotps(c) => ApplyTotp(db, c)
    case OnGroups(c) => ApplyGroup(db, c)
    case OnIdentities(c) => ApplyIdentity(db, c)
    case OnTargets(c) => ApplyTarget(db, c)
    case OnGrants(c) => ApplyGrant(db, c)
    case OnAudits(c) => ApplyAudit(db, c)
  }

  /** The database after a sequence of calls. */
  ghost function ApplyAll(db: Db, calls: seq<Call>): (r: Db)
    decreases |calls|
  {
    if calls == [] then db else ApplyAll(Apply(db, calls[0]), calls[1..])
  }
}
