/** The tables of the gateway's database as relations, their constraints, and what deleting a row
    does to the rows that refer to it. Rows are keyed by their integer primary key. */
module Database {
  import opened Wrappers
  import opened Text
  import opened Secrets

  const ADMIN := "admin"
  const MEMBER := "member"
  const PASSWORD := "password"
  const PRIVATE_KEY := "private_key"
  const FORWARDED_AGENT := "forwarded_agent"
  const STORED_KEY := "stored_key"

  datatype UserRow = UserRow(username: string, role: string, enabled: bool)

  datatype KeyRow = KeyRow(userId: int, fingerprint: string, publicKey: string, note: string)

  datatype TargetRow = TargetRow(
    name: string, host: string, port: int, remoteUser: string, kind: string, hostKeyAlgorithm: string, hostKey: string,
    enabled: bool, secret: Option<Sealed>, identityId: Option<int>)

  datatype IdentityRow = IdentityRow(name: string, publicKey: string, fingerprint: string, secret: Option<Sealed>)

  datatype Capabilities = Capabilities(shell: bool, sftp: bool, scp: bool, tcpForward: bool)

  datatype ForwardRow = ForwardRow(targetId: int, host: string, port: int)

  datatype AuditRow = AuditRow(
    at: string, actor: Option<int>, claimedUsername: string, source: string, eventType: string, targetId: Option<int>,
    outcome: string, details: string)

  datatype TotpRow = TotpRow(secret: Sealed, lastCounter: int)

  datatype LinkRow = LinkRow(userId: int, issuer: string, subject: Option<string>, providerUsername: string)

  /** Grants are keyed by principal and target, memberships by group and user, TOTP rows by user. */
  datatype Db = Db(
    users: map<int, UserRow>, keys: map<int, KeyRow>,
    groups: map<int, string>, members: set<(int, int)>,
    targets: map<int, TargetRow>, identities: map<int, IdentityRow>,
    userGrants: map<(int, int), Capabilities>, groupGrants: map<(int, int), Capabilities>,
    forwards: map<int, ForwardRow>, audit: map<int, AuditRow>,
    totp: map<int, TotpRow>, links: map<int, LinkRow>)

  const EMPTY_DB := Db(map[], map[], map[], {}, map[], map[], map[], map[], map[], map[], map[], map[])

  // ---------- constraints ----------

  /** Every reference leads to a row. */
  predicate ForeignKeys(db: Db) {
    && (forall k :: k in db.keys ==> db.keys[k].userId in db.users)
    && (forall m :: m in db.members ==> m.0 in db.groups && m.1 in db.users)
    && (forall t :: t in db.targets && db.targets[t].identityId.Some? ==>
      db.targets[t].identityId.value in db.identities)
    && (forall g :: g in db.userGrants ==> g.0 in db.users && g.1 in db.targets)
    && (forall g :: g in db.groupGrants ==> g.0 in db.groups && g.1 in db.targets)
    && (forall f :: f in db.forwards ==> db.forwards[f].targetId in db.targets)
    && (forall a :: a in db.audit ==>
          (db.audit[a].actor.Some? ==> db.audit[a].actor.value in db.users)
          && (db.audit[a].targetId.Some? ==> db.audit[a].targetId.value in db.targets))
    && (forall u :: u in db.totp ==> u in db.users)
    && (forall l :: l in db.links ==> db.links[l].userId in db.users)
  }

  ghost predicate UniqueUsernames(users: map<int, UserRow>) {
    forall i, j :: i in users && j in users && users[i].username == users[j].username ==> i == j
  }

  /** Usernames are stored trimmed and in lower case, so that a lookup by any spelling finds them. */
  ghost predicate LowerUsernames(users: map<int, UserRow>) {
    forall u :: u in users ==>
      Lower(users[u].username) == users[u].username && TrimSpace(users[u].username) == users[u].username
  }

  /** A user has a key only once. */
  ghost predicate UniqueKeys(keys: map<int, KeyRow>) {
    forall i, j :: i in keys && j in keys && SameKey(keys[i], keys[j]) ==> i == j
  }

  predicate SameKey(one: KeyRow, two: KeyRow) { one.userId == two.userId && one.fingerprint == two.fingerprint }

  ghost predicate UniqueGroups(groups: map<int, string>) {
    forall i, j :: i in groups && j in groups && groups[i] == groups[j] ==> i == j
  }

  ghost predicate UniqueTargets(targets: map<int, TargetRow>) {
    forall i, j :: i in targets && j in targets && targets[i].name == targets[j].name ==> i == j
  }

  ghost predicate UniqueIdentities(identities: map<int, IdentityRow>) {
    forall i, j :: i in identities && j in identities && SameIdentity(identities[i], identities[j]) ==> i == j
  }

  predicate SameIdentity(one: IdentityRow, two: IdentityRow) {
    one.name == two.name || one.fingerprint == two.fingerprint
  }

  ghost predicate UniqueForwards(forwards: map<int, ForwardRow>) {
    forall i, j :: i in forwards && j in forwards && forwards[i] == forwards[j] ==> i == j
  }

  /** One link per user and issuer, per issuer and subject, and per issuer and provider username. */
  ghost predicate UniqueLinks(links: map<int, LinkRow>) {
    forall i, j :: i in links && j in links && Clash(links[i], links[j]) ==> i == j
  }

  predicate Clash(one: LinkRow, two: LinkRow) {
    one.issuer == two.issuer
    && (one.userId == two.userId || (one.subject.Some? && one.subject == two.subject)
        || one.providerUsername == two.providerUsername)
  }

  ghost predicate Consistent(db: Db) {
    && ForeignKeys(db)
    && UniqueUsernames(db.users) && LowerUsernames(db.users) && UniqueKeys(db.keys) && UniqueGroups(db.groups)
    && UniqueTargets(db.targets) && UniqueIdentities(db.identities) && UniqueForwards(db.forwards)
    && UniqueLinks(db.links)
  }

  // ---------- new rows ----------

  ghost function Largest(s: set<int>): (m: int)
    ensures forall x :: x in s ==> x <= m && m in s
  {
    if x :| x in s then
      var m := Largest(s - {x});
      assert s == (s - {x}) + {x};
      if m in s - {x} && x < m then m else x
    else 0
  }

  /** A new row gets the id after the largest one in use. */
  ghost function NextId(ids: set<int>): (id: int)
    ensures id !in ids && forall x :: x in ids ==> x < id
  {
    if exists x :: x in ids then Largest(ids) + 1 else 1
  }

  // ---------- lookups ----------

  ghost function UserNamed(db: Db, username: string): (r: Option<int>)
    ensures r.Some? ==> r.value in db.users && db.users[r.value].username == username
    ensures r.None? ==> forall u :: u in db.users ==> db.users[u].username != username
  {
    if u :| u in db.users && db.users[u].username == username then Some(u) else None
  }

  ghost function GroupNamed(db: Db, name: string): (r: Option<int>)
    ensures r.Some? ==> r.value in db.groups && db.groups[r.value] == name
    ensures r.None? ==> forall g :: g in db.groups ==> db.groups[g] != name
  {
    if g :| g in db.groups && db.groups[g] == name then Some(g) else None
  }

  ghost function TargetNamed(db: Db, name: string): (r: Option<int>)
    ensures r.Some? ==> r.value in db.targets && db.targets[r.value].name == name
    ensures r.None? ==> forall t :: t in db.targets ==> db.targets[t].name != name
  {
    if t :| t in db.targets && db.targets[t].name == name then Some(t) else None
  }

  ghost function IdentityNamed(db: Db, name: string): (r: Option<int>)
    ensures r.Some? ==> r.value in db.identities && db.identities[r.value].name == name
    ensures r.None? ==> forall i :: i in db.identities ==> db.identities[i].name != name
  {
    if i :| i in db.identities && db.identities[i].name == name then Some(i) else None
  }

  /** The link of a user for an issuer. */
  ghost function LinkOf(links: map<int, LinkRow>, user: int, issuer: string): (r: Option<int>)
    ensures r.Some? ==> r.value in links && links[r.value].userId == user && links[r.value].issuer == issuer
    ensures r.None? ==> forall l :: l in links ==> !(links[l].userId == user && links[l].issuer == issuer)
  {
    if l :| l in links && links[l].userId == user && links[l].issuer == issuer then Some(l) else None
  }

  /** The link that is bound to a subject. */
  ghost function BoundLink(links: map<int, LinkRow>, issuer: string, subject: string): (r: Option<int>)
    ensures r.Some? ==> r.value in links && links[r.value].issuer == issuer && links[r.value].subject == Some(subject)
    ensures r.None? ==> forall l :: l in links ==> !(links[l].issuer == issuer && links[l].subject == Some(subject))
  {
    if l :| l in links && links[l].issuer == issuer && links[l].subject == Some(subject) then Some(l) else None
  }

  /** The link that waits for the first login under a provider username. */
  ghost function WaitingLink(links: map<int, LinkRow>, issuer: string, providerUsername: string): (r: Option<int>)
    ensures r.Some? ==> (r.value in links && links[r.value].issuer == issuer
      && links[r.value].providerUsername == providerUsername && links[r.value].subject.None?)
    ensures r.None? ==> forall l :: l in links ==>
      !(links[l].issuer == issuer && links[l].providerUsername == providerUsername && links[l].subject.None?)
  {
    if l :| (l in links && links[l].issuer == issuer && links[l].providerUsername == providerUsername
             && links[l].subject.None?)
    then Some(l) else None
  }

  function KeysOf(db: Db, user: int): (r: set<int>) {
    set k | k in db.keys && db.keys[k].userId == user
  }

  /** An enabled administrator with at least one gateway key. */
  ghost predicate UsableAdmin(db: Db, user: int) {
    user in db.users && db.users[user].role == ADMIN && db.users[user].enabled
    && exists k :: k in db.keys && db.keys[k].userId == user
  }

  // ---------- deleting rows ----------

  function ForgetActor(row: AuditRow, user: int): (r: AuditRow) {
    if row.actor == Some(user) then row.(actor := None) else row
  }

  function ForgetTarget(row: AuditRow, target: int): (r: AuditRow) {
    if row.targetId == Some(target) then row.(targetId := None) else row
  }

  function KeysWithoutUser(keys: map<int, KeyRow>, user: int): (r: map<int, KeyRow>) {
    map k | k in keys && keys[k].userId != user :: keys[k]
  }

  function LinksWithoutUser(links: map<int, LinkRow>, user: int): (r: map<int, LinkRow>) {
    map l | l in links && links[l].userId != user :: links[l]
  }

  function ForwardsWithoutTarget(forwards: map<int, ForwardRow>, target: int): (r: map<int, ForwardRow>) {
    map f | f in forwards && forwards[f].targetId != target :: forwards[f]
  }

  function GrantsWithoutPrincipal(
    grants: map<(int, int), Capabilities>, principal: int): (r: map<(int, int), Capabilities>)
  {
    map g | g in grants && g.0 != principal :: grants[g]
  }

  function GrantsWithoutTarget(grants: map<(int, int), Capabilities>, target: int): (r: map<(int, int), Capabilities>) {
    map g | g in grants && g.1 != target :: grants[g]
  }

  function ForgetActors(audit: map<int, AuditRow>, user: int): (r: map<int, AuditRow>) {
    map a | a in audit :: ForgetActor(audit[a], user)
  }

  function ForgetTargets(audit: map<int, AuditRow>, target: int): (r: map<int, AuditRow>) {
    map a | a in audit :: ForgetTarget(audit[a], target)
  }

  /** Keys, memberships, grants, the TOTP row and OIDC links go with the user; audit rows stay. */
  function DeleteUserRow(db: Db, user: int): (r: Db) {
    db.(users := db.users - {user}, keys := KeysWithoutUser(db.keys, user),
        members := (set m | m in db.members && m.1 != user),
        userGrants := GrantsWithoutPrincipal(db.userGrants, user), totp := db.totp - {user},
        links := LinksWithoutUser(db.links, user), audit := ForgetActors(db.audit, user))
  }

  /** Grants and forwarding rules go with the target; audit rows stay. */
  function DeleteTargetRow(db: Db, target: int): (r: Db) {
    db.(targets := db.targets - {target}, userGrants := GrantsWithoutTarget(db.userGrants, target),
        groupGrants := GrantsWithoutTarget(db.groupGrants, target),
        forwards := ForwardsWithoutTarget(db.forwards, target), audit := ForgetTargets(db.audit, target))
  }

  /** Memberships and grants go with the group. */
  function DeleteGroupRow(db: Db, group: int): (r: Db) {
    db.(groups := db.groups - {group}, members := (set m | m in db.members && m.0 != group),
        groupGrants := GrantsWithoutPrincipal(db.groupGrants, group))
  }
}
