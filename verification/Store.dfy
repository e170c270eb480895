/** The store: every method is one atomic step on the database, written as the program writes it. It
    does exactly what the specification says, and its contract adds what a caller may rely on. */
module Store {
  import opened Wrappers
  import opened Text
  import opened Secrets
  import opened Database
  import Spec = StoreSpec
  import opened StoreInvariants
  import Administrators
  import Authorization
  import Deletions
  import KeyLogins
  import OidcLinks

  type Failure = Spec.Failure
  type Outcome = Spec.Outcome

  /** The id that the database gives to a new row. */
  method FreshId(ids: set<int>) returns (id: int)
    ensures id == NextId(ids)
  {
    if !exists x :: x in ids {
      return 1;
    }
    var largest :| largest in ids;
    var rest := ids - {largest};
    while exists x :: x in rest
      invariant rest <= ids && largest in ids && forall x :: x in ids ==> x in rest || x <= largest
      decreases |rest|
    {
      var x :| x in rest;
      if largest < x { largest := x; }
      rest := rest - {x};
    }
    assert forall x :: x in ids ==> x <= largest;
    assert Largest(ids) == largest;
    id := largest + 1;
  }

  // ---------- SQL statements on the OIDC links ----------

  /** The provider username of the user's link for the issuer. */
  function Renamed(links: map<int, LinkRow>, user: int, issuer: string, provider: string): (r: map<int, LinkRow>) {
    map l | l in links ::
      if links[l].userId == user && links[l].issuer == issuer then links[l].(providerUsername := provider) else links[l]
  }

  /** The subject of the user's link for the issuer, if it has none yet. */
  function Bound(links: map<int, LinkRow>, user: int, issuer: string, subject: string): (r: map<int, LinkRow>) {
    map l | l in links ::
      if links[l].userId == user && links[l].issuer == issuer && links[l].subject.None? then
        links[l].(subject := Some(subject))
      else links[l]
  }

  predicate Names(row: LinkRow, claim: Spec.Claim) {
    row.issuer == claim.issuer && (row.subject == Some(claim.subject) || row.providerUsername == claim.providerUsername)
  }

  predicate BoundBy(row: LinkRow, claim: Spec.Claim) {
    row.issuer == claim.issuer && row.subject == Some(claim.subject)
  }

  predicate WaitsFor(row: LinkRow, claim: Spec.Claim) {
    row.issuer == claim.issuer && row.providerUsername == claim.providerUsername && row.subject.None?
  }

  predicate OfUser(row: LinkRow, user: int, issuer: string) { row.userId == user && row.issuer == issuer }

  /** An update by user and issuer changes exactly one link. */
  lemma UpdateHitsOne(links: map<int, LinkRow>, l: int, issuer: string, subject: string, provider: string)
    requires UniqueLinks(links) && l in links && links[l].issuer == issuer
    ensures Renamed(links, links[l].userId, issuer, provider) == links[l := links[l].(providerUsername := provider)]
    ensures links[l].subject.None? ==>
      Bound(links, links[l].userId, issuer, subject) == links[l := links[l].(subject := Some(subject))]
  {
    forall k | k in links && links[k].userId == links[l].userId && links[k].issuer == issuer ensures k == l {
      assert Clash(links[k], links[l]);
    }
  }

  /** Writing the one row of its user and issuer breaks a uniqueness constraint exactly if it conflicts. */
  lemma ConflictBreaksUniqueness(links: map<int, LinkRow>, id: int, row: LinkRow)
    requires UniqueLinks(links)
    requires forall l :: l in links && links[l].userId == row.userId && links[l].issuer == row.issuer ==> l == id
    ensures UniqueLinks(links[id := row]) <==> !Spec.Conflicts(links, id, row)
  {
    var next := links[id := row];
    if Spec.Conflicts(links, id, row) {
      var l :| l in links && l != id && Clash(links[l], row);
      assert id in next && next[id] == row;
      assert l in next && next[l] == links[l];
      assert Clash(next[l], next[id]);
    } else {
      forall i, j | i in next && j in next && Clash(next[i], next[j]) ensures i == j {
        if i != id && j != id { assert Clash(links[i], links[j]); }
      }
    }
  }

  method LinksUnique(links: map<int, LinkRow>) returns (ok: bool)
    ensures ok == UniqueLinks(links)
  {
    ok := !exists i, j :: i in links && j in links && i != j && Clash(links[i], links[j]);
  }

  class Store {
    var db: Db

    ghost predicate Valid()
      reads this
    {
      Consistent(db)
    }

    constructor ()
      ensures Valid() && db == EMPTY_DB
    {
      db := EMPTY_DB;
    }

    // ---------- users ----------

    method UserByName(name: string) returns (u: Option<int>)
      requires UniqueUsernames(db.users)
      ensures u == UserNamed(db, Lower(name))
    {
      hide Lower;
      var username := Lower(name);
      if exists i :: i in db.users && db.users[i].username == username {
        var i :| i in db.users && db.users[i].username == username;
        return Some(i);
      }
      u := None;
    }

    method AddUser(name: string, role: string) returns (r: Result<int, Failure>)
      requires Valid()
      modifies this
      ensures Valid() && (db, r) == Spec.AddUser(old(db), name, role)
      ensures Administrators.SomeAdmin(old(db)) ==> Administrators.SomeAdmin(db)
      ensures r.Ok? && role != ADMIN ==> forall target, capability ::
        !Authorization.CanAccess(db, Authorization.User(r.value, role, true), target, capability)
    {
      hide Lower, TrimSpace, Consistent, Spec.ValidName, NextId, Administrators.SomeAdmin, Authorization.CanAccess;
      AddingIsSafe(db, name, role);
      var valid := Spec.ValidName(name);
      if valid.None? {
        return Err(Spec.Invalid);
      }
      if !Spec.ValidRole(role) {
        return Err(Spec.Invalid);
      }
      if exists u :: u in db.users && db.users[u].username == valid.value {
        return Err(Spec.Constraint);
      }
      var id := FreshId(db.users.Keys);
      db := db.(users := db.users[id := UserRow(valid.value, role, true)]);
      r := Ok(id);
    }

    method HasKey(user: int, fingerprint: string) returns (found: bool)
      ensures found == Spec.HasKey(db, user, fingerprint)
    {
      found := exists k :: k in db.keys && db.keys[k].userId == user && db.keys[k].fingerprint == fingerprint;
    }

    /** Counts the other enabled administrators that have a key. */
    method EnsureOtherUsableAdmin(exclude: int) returns (ok: bool)
      requires ForeignKeys(db)
      ensures ok == Spec.OtherUsableAdmin(db, exclude)
    {
      var others := set k | k in db.keys && db.keys[k].userId in db.users && db.users[db.keys[k].userId].role == ADMIN
        && db.users[db.keys[k].userId].enabled && db.keys[k].userId != exclude :: db.keys[k].userId;
      ok := exists u :: u in others;
      if ok {
        var u :| u in others;
        assert UsableAdmin(db, u);
      } else {
        forall u | UsableAdmin(db, u) ensures u == exclude {
          var k :| k in db.keys && db.keys[k].userId == u;
          assert u != exclude ==> u in others;
        }
      }
    }

    method SetUserEnabled(name: string, enabled: bool) returns (r: Outcome)
      requires Valid()
      modifies this
      ensures Valid() && (db, r) == Spec.SetUserEnabled(old(db), name, enabled)
      ensures Administrators.SomeAdmin(old(db)) ==> Administrators.SomeAdmin(db)
      ensures r == Spec.DONE && !enabled ==> forall key :: Spec.AuthenticateKey(db, name, key).None?
    {
      UserCallKeeps(db, Spec.DoSetUserEnabled(name, enabled));
      assert UniqueUsernames(db.users) && ForeignKeys(db);
      EnablingIsSafe(db, name, enabled);
      hide Administrators.SomeAdmin, Spec.AuthenticateKey;
      hide Lower, Consistent, UniqueUsernames, ForeignKeys, Spec.OtherUsableAdmin, UserNamed;
      var u := UserByName(name);
      if u.None? {
        return Err(Spec.NoRows);
      }
      if !enabled && db.users[u.value].role == ADMIN {
        var other := EnsureOtherUsableAdmin(u.value);
        if !other {
          return Err(Spec.FinalAdmin);
        }
      }
      db := db.(users := db.users[u.value := db.users[u.value].(enabled := enabled)]);
      r := Spec.DONE;
    }

    method SetUserRole(name: string, role: string) returns (r: Outcome)
      requires Valid()
      modifies this
      ensures Valid() && (db, r) == Spec.SetUserRole(old(db), name, role)
      ensures Administrators.SomeAdmin(old(db)) ==> Administrators.SomeAdmin(db)
    {
      UserCallKeeps(db, Spec.DoSetUserRole(name, role));
      assert UniqueUsernames(db.users) && ForeignKeys(db);
      if Administrators.SomeAdmin(db) { Administrators.ChangingRoleKeepsAdmin(db, name, role); }
      hide Administrators.SomeAdmin, Spec.SetUserRole;
      hide Lower, Consistent, UniqueUsernames, ForeignKeys, Spec.OtherUsableAdmin, UserNamed;
      if !Spec.ValidRole(role) {
        RoleStays(db, name, role);
        return Err(Spec.Invalid);
      }
      var u := UserByName(name);
      if u.None? {
        RoleStays(db, name, role);
        return Err(Spec.NoRows);
      }
      if db.users[u.value].role == ADMIN && role != ADMIN {
        var other := EnsureOtherUsableAdmin(u.value);
        if !other {
          RoleStays(db, name, role);
          return Err(Spec.FinalAdmin);
        }
      }
      RoleGoes(db, name, role);
      db := db.(users := db.users[u.value := db.users[u.value].(role := role)]);
      r := Spec.DONE;
    }

    method DeleteUser(name: string) returns (r: Outcome)
      requires Valid()
      modifies this
      ensures Valid() && (db, r) == Spec.DeleteUser(old(db), name)
      ensures Administrators.SomeAdmin(old(db)) ==> Administrators.SomeAdmin(db)
      ensures if r == Spec.DONE then Deletions.Within(db, old(db)) && UserNamed(db, Lower(name)).None?
        else db == old(db)
    {
      UserCallKeeps(db, Spec.DoDeleteUser(name));
      assert UniqueUsernames(db.users) && ForeignKeys(db);
      DeletingIsSafe(db, name);
      hide Administrators.SomeAdmin, Deletions.Within;
      hide Lower, Consistent, UniqueUsernames, ForeignKeys, Spec.OtherUsableAdmin, UserNamed, DeleteUserRow;
      var u := UserByName(name);
      if u.None? {
        return Err(Spec.NoRows);
      }
      if db.users[u.value].role == ADMIN {
        var other := EnsureOtherUsableAdmin(u.value);
        if !other {
          return Err(Spec.FinalAdmin);
        }
      }
      db := DeleteUserRow(db, u.value);
      r := Spec.DONE;
    }

    // ---------- gateway keys ----------

    method AddGatewayKey(username: string, fingerprint: string, publicKey: string, note: string) returns (r: Outcome)
      requires Valid()
      modifies this
      ensures Valid() && (db, r) == Spec.AddGatewayKey(old(db), username, fingerprint, publicKey, note)
      ensures Administrators.SomeAdmin(old(db)) ==> Administrators.SomeAdmin(db)
      ensures if r == Spec.DONE then
        var u := UserNamed(old(db), Lower(username));
        KeyLogins.OnlyAttempt(old(db), db, username, fingerprint) && u.Some?
        && Spec.AuthenticateKey(db, username, fingerprint) == if old(db).users[u.value].enabled then u else None
      else db == old(db)
    {
      UserCallKeeps(db, Spec.DoAddGatewayKey(username, fingerprint, publicKey, note));
      assert UniqueUsernames(db.users);
      AddingKeyIsSafe(db, username, fingerprint, publicKey, note);
      hide Administrators.SomeAdmin, Spec.AuthenticateKey, KeyLogins.OnlyAttempt;
      hide Lower, Consistent, UniqueUsernames, UserNamed, NextId;
      var u := UserByName(username);
      if u.None? {
        return Err(Spec.NoRows);
      }
      var known := HasKey(u.value, fingerprint);
      hide Spec.HasKey;
      if known {
        return Err(Spec.Duplicate);
      }
      var id := FreshId(db.keys.Keys);
      db := db.(keys := db.keys[id := KeyRow(u.value, fingerprint, publicKey, note)]);
      r := Spec.DONE;
    }

    method RemoveGatewayKey(username: string, fingerprint: string) returns (r: Outcome)
      requires Valid()
      modifies this
      ensures Valid() && (db, r) == Spec.RemoveGatewayKey(old(db), username, fingerprint)
      ensures Administrators.SomeAdmin(old(db)) ==> Administrators.SomeAdmin(db)
      ensures if r == Spec.DONE
        then Spec.AuthenticateKey(db, username, fingerprint).None?
             && KeyLogins.OnlyAttempt(old(db), db, username, fingerprint)
        else db == old(db)
    {
      RemovalKeeps(db, username, fingerprint);
      RemovingKeyIsSafe(db, username, fingerprint);
      hide Administrators.SomeAdmin, Spec.AuthenticateKey, KeyLogins.OnlyAttempt, Spec.RemoveGatewayKey;
      hide KeysOf, Spec.KeysWithout, Lower, Consistent, UniqueUsernames, ForeignKeys, Spec.OtherUsableAdmin, UserNamed;
      var u := UserByName(username);
      if u.None? {
        KeyStays(db, username, fingerprint);
        return Err(Spec.NoRows);
      }
      var count := |KeysOf(db, u.value)|;
      if db.users[u.value].role == ADMIN && db.users[u.value].enabled && count <= 1 {
        var other := EnsureOtherUsableAdmin(u.value);
        if !other {
          KeyStays(db, username, fingerprint);
          return Err(Spec.FinalAdmin);
        }
      }
      var found := HasKey(u.value, fingerprint);
      hide Spec.HasKey;
      if !found {
        KeyStays(db, username, fingerprint);
        return Err(Spec.NoRows);
      }
      KeyGoes(db, username, fingerprint);
      db := db.(keys := Spec.KeysWithout(db.keys, u.value, fingerprint));
      r := Spec.DONE;
    }

    /** Joins users and keys. */
    method AuthenticateKey(username: string, fingerprint: string) returns (r: Option<int>)
      requires UniqueUsernames(db.users) && ForeignKeys(db)
      ensures r == Spec.AuthenticateKey(db, username, fingerprint)
    {
      hide Lower;
      var name := Lower(username);
      var rows := set k | k in db.keys && db.keys[k].userId in db.users && db.users[db.keys[k].userId].username == name
        && db.users[db.keys[k].userId].enabled && db.keys[k].fingerprint == fingerprint;
      if exists k :: k in rows {
        var k :| k in rows;
        assert Spec.HasKey(db, db.keys[k].userId, fingerprint);
        return Some(db.keys[k].userId);
      }
      forall k | k in db.keys && db.keys[k].fingerprint == fingerprint && UserNamed(db, name) == Some(db.keys[k].userId)
        ensures !db.users[db.keys[k].userId].enabled
      {
        assert k !in rows;
      }
      r := None;
    }

    // ---------- OIDC links ----------

    method Upsert(row: LinkRow) returns (r: Outcome)
      requires UniqueLinks(db.links)
      modifies this
      ensures (db, r) == Spec.UpsertLink(old(db), row)
    {
      hide Spec.Conflicts, UniqueLinks, Clash, NextId;
      var id: int;
      if exists l :: l in db.links && OfUser(db.links[l], row.userId, row.issuer) {
        id :| id in db.links && OfUser(db.links[id], row.userId, row.issuer);
      } else {
        id := FreshId(db.links.Keys);
      }
      OneLinkEach(db.links, row.userId, row.issuer);
      ConflictBreaksUniqueness(db.links, id, row);
      var ok := LinksUnique(db.links[id := row]);
      if !ok {
        return Err(Spec.Constraint);
      }
      db := db.(links := db.links[id := row]);
      r := Spec.DONE;
    }

    method LinkOIDCIdentity(user: int, issuer: string, subject: string, provider: string) returns (r: Outcome)
      requires Valid()
      modifies this
      ensures Valid() && (db, r) == Spec.LinkOIDCIdentity(old(db), user, issuer, subject, provider)
      ensures r != Err(Spec.Constraint)
      ensures var claim := Spec.Normalized(issuer, subject, provider);
        r == Spec.DONE <==> claim.Some? && user in old(db).users && !Spec.OwnedByOther(old(db), user, claim.value)
      ensures r == Spec.DONE ==>
        var claim := Spec.Normalized(issuer, subject, provider).value;
        OidcLinks.BoundTo(db, claim.issuer, claim.subject, user)
    {
      LinkingKeeps(db, user, issuer, subject, provider);
      OidcLinks.LinkSucceedsExactly(db, user, issuer, subject, provider);
      OidcLinks.LinkingBinds(db, user, issuer, subject, provider);
      hide OidcLinks.BoundTo;
      assert UniqueLinks(db.links);
      hide Lower, Consistent, UniqueLinks, Spec.Normalized, Spec.UpsertLink;
      var claim := Spec.Normalized(issuer, subject, provider);
      if claim.None? {
        return Err(Spec.Invalid);
      }
      if user !in db.users {
        return Err(Spec.NoRows);
      }
      var elsewhere := OwnedElsewhere(user, claim.value);
      hide Spec.OwnedByOther;
      if elsewhere {
        return Err(Spec.MappedElsewhere);
      }
      r := Upsert(LinkRow(user, claim.value.issuer, Some(claim.value.subject), claim.value.providerUsername));
    }

    /** Goes through the distinct owners of links with the subject or the provider username. */
    method OwnedElsewhere(user: int, claim: Spec.Claim) returns (found: bool)
      ensures found == Spec.OwnedByOther(db, user, claim)
    {
      var rows := set l | l in db.links && Names(db.links[l], claim) :: db.links[l].userId;
      var rest := rows;
      while exists owner :: owner in rest
        invariant rest <= rows && forall owner :: owner in rows ==> owner in rest || owner == user
        decreases |rest|
      {
        var owner :| owner in rest;
        if owner != user {
          var l :| l in db.links && Names(db.links[l], claim) && db.links[l].userId == owner;
          assert Spec.OwnedByOther(db, user, claim);
          return true;
        }
        rest := rest - {owner};
      }
      assert forall owner :: owner in rows ==> owner == user;
      forall l | l in db.links && Names(db.links[l], claim) ensures db.links[l].userId == user {
        assert db.links[l].userId in rows;
      }
      found := false;
    }

    /** Works on the links as the transaction sees them and writes them back only at the end. */
    method AuthenticateOIDC(claimed: string, issuer: string, subject: string, provider: string)
      returns (r: Result<int, Failure>)
      requires Valid()
      modifies this
      ensures Valid() && (db, r) == Spec.AuthenticateOIDC(old(db), claimed, issuer, subject, provider)
      ensures if r.Err? then db == old(db)
        else
          var claim := Spec.Normalized(issuer, subject, provider);
          claim.Some? && OidcLinks.BoundTo(db, claim.value.issuer, claim.value.subject, r.value)
          && r.value in db.users && db.users[r.value].enabled && db.users[r.value].username == Lower(TrimSpace(claimed))
    {
      ClaimKeeps(db, claimed, issuer, subject, provider);
      OidcLinks.LoginOutcome(db, claimed, issuer, subject, provider);
      hide OidcLinks.BoundTo;
      assert UniqueLinks(db.links);
      hide Lower, TrimSpace, Consistent, UniqueLinks, Spec.Normalized, Spec.ClaimedLink;
      var claim := Spec.Normalized(issuer, subject, provider);
      if claim.None? {
        return Err(Spec.Invalid);
      }
      hide Spec.AuthenticateOIDC;
      var name := Lower(TrimSpace(claimed));
      var user, links := Claim(claim.value);
      if user.None? {
        LoginUnmapped(db, claimed, issuer, subject, provider, claim.value);
        return Err(Spec.NotMapped);
      }
      LoginMapped(db, claimed, issuer, subject, provider, claim.value);
      if user.value !in db.users || !db.users[user.value].enabled || db.users[user.value].username != name {
        return Err(Spec.NotMapped);
      }
      db := db.(links := links);
      r := Ok(user.value);
    }

    /** The bound link of the subject, with the reported username; otherwise the waiting link of that
        username, bound to the subject; unless there is none or the update breaks a constraint. */
    method Claim(claim: Spec.Claim) returns (user: Option<int>, links: map<int, LinkRow>)
      requires UniqueLinks(db.links)
      ensures var claimed := Spec.ClaimedLink(db, claim);
        if claimed.None? then user.None?
        else user == Some(claimed.value.1.userId) && links == db.links[claimed.value.0 := claimed.value.1]
    {
      links := db.links;
      if exists l :: l in links && BoundBy(links[l], claim) {
        var l :| l in links && BoundBy(links[l], claim);
        user := Some(links[l].userId);
        links := Renamed(links, links[l].userId, claim.issuer, claim.providerUsername);
        ClaimedByUpdate(db, claim, l);
      } else if exists l :: l in links && WaitsFor(links[l], claim) {
        var l :| l in links && WaitsFor(links[l], claim);
        user := Some(links[l].userId);
        links := Bound(links, links[l].userId, claim.issuer, claim.subject);
        ClaimedByUpdate(db, claim, l);
      } else {
        return None, links;
      }
      hide UniqueLinks, Clash, Renamed, Bound;
      var ok := LinksUnique(links);
      if !ok { user := None; }
    }

    // ---------- TOTP ----------

    /** One conditional update; no row changes unless the counter is above the last accepted one. */
    method ConsumeTOTPCounter(user: int, counter: int) returns (r: Outcome)
      requires Valid()
      modifies this
      ensures Valid() && (db, r) == Spec.ConsumeTOTPCounter(old(db), user, counter)
      ensures forall c :: c <= counter ==> Spec.ConsumeTOTPCounter(db, user, c) == (db, Err(Spec.AlreadyUsed))
      ensures forall c, u :: (c > counter || u != user) ==>
        Spec.ConsumeTOTPCounter(db, u, c).1 == Spec.ConsumeTOTPCounter(old(db), u, c).1
    {
      TotpCallKeeps(db, Spec.DoConsumeTOTPCounter(user, counter));
      hide Consistent;
      var rows := 0;
      if user in db.totp && db.totp[user].lastCounter < counter {
        db := db.(totp := db.totp[user := db.totp[user].(lastCounter := counter)]);
        rows := 1;
      }
      if rows != 1 {
        return Err(Spec.AlreadyUsed);
      }
      r := Spec.DONE;
    }

    // ---------- groups ----------

    method GroupByName(name: string) returns (g: Option<int>)
      requires UniqueGroups(db.groups)
      ensures g == GroupNamed(db, name)
    {
      if exists i :: i in db.groups && db.groups[i] == name {
        var i :| i in db.groups && db.groups[i] == name;
        return Some(i);
      }
      g := None;
    }

    // ---------- targets ----------

    method TargetByName(name: string) returns (t: Option<int>)
      requires UniqueTargets(db.targets)
      ensures t == TargetNamed(db, name)
    {
      if exists i :: i in db.targets && db.targets[i].name == name {
        var i :| i in db.targets && db.targets[i].name == name;
        return Some(i);
      }
      t := None;
    }

    method AddTarget(n: Spec.NewTarget) returns (r: Result<int, Failure>)
      requires Valid()
      modifies this
      ensures Valid() && (db, r) == Spec.AddTarget(old(db), n)
      ensures if r.Ok? then Spec.DeleteTarget(db, n.name) == (old(db), Spec.DONE) else db == old(db)
    {
      AddTargetKeeps(db, n);
      if Spec.AddTarget(db, n).1.Ok? { Deletions.DeleteUndoesAddTarget(db, n); }
      hide Spec.DeleteTarget;
      assert UniqueTargets(db.targets);
      hide Consistent, TrimSpace, UniqueTargets, TargetNamed, NextId;
      if TrimSpace(n.name) == "" || TrimSpace(n.host) == "" || TrimSpace(n.remoteUser) == "" {
        return Err(Spec.Invalid);
      }
      if !Spec.ValidPort(n.port) {
        return Err(Spec.Invalid);
      }
      if !Spec.ValidKind(n.kind) {
        return Err(Spec.Invalid);
      }
      if n.hostKeyAlgorithm == "" || n.hostKey == "" {
        return Err(Spec.Invalid);
      }
      if n.kind == STORED_KEY && n.identityId.None? {
        return Err(Spec.Invalid);
      }
      var namesake := TargetByName(n.name);
      if namesake.Some? || (n.identityId.Some? && n.identityId.value !in db.identities) {
        return Err(Spec.Constraint);
      }
      var id := FreshId(db.targets.Keys);
      var row := TargetRow(n.name, n.host, n.port, n.remoteUser, n.kind, n.hostKeyAlgorithm, n.hostKey, true, None,
        n.identityId);
      db := db.(targets := db.targets[id := row]);
      r := Ok(id);
    }

    method DeleteTarget(name: string) returns (r: Outcome)
      requires Valid()
      modifies this
      ensures Valid() && (db, r) == Spec.DeleteTarget(old(db), name)
      ensures if r == Spec.DONE then Deletions.Within(db, old(db)) && TargetNamed(db, name).None? else db == old(db)
    {
      TargetDeletionIsSafe(db, name);
      assert UniqueTargets(db.targets);
      hide Consistent, UniqueTargets, TargetNamed, DeleteTargetRow, Deletions.Within;
      var t := TargetByName(name);
      if t.None? {
        return Err(Spec.NoRows);
      }
      db := DeleteTargetRow(db, t.value);
      r := Spec.DONE;
    }

    method SetTargetCredential(id: int, secret: Sealed) returns (r: Outcome)
      requires Valid()
      modifies this
      ensures Valid() && (db, r) == Spec.SetTargetCredential(old(db), id, secret)
      ensures r == Spec.DONE ==>
        id in db.targets && db.targets[id].secret == Some(secret) && db.targets[id].identityId.None?
    {
      TargetCallKeeps(db, Spec.DoSetTargetCredential(id, secret));
      hide Consistent;
      if id !in db.targets {
        return Err(Spec.NoRows);
      }
      db := db.(targets := db.targets[id := db.targets[id].(secret := Some(secret), identityId := None)]);
      r := Spec.DONE;
    }

    // ---------- grants and forwarding ----------

    method PrincipalByName(kind: string, name: string) returns (p: Result<Spec.Principal, Failure>)
      requires UniqueUsernames(db.users) && UniqueGroups(db.groups)
      ensures p == Spec.ResolvePrincipal(db, kind, name)
    {
      hide Lower, UniqueUsernames, UniqueGroups, UserNamed, GroupNamed;
      if kind == "user" {
        var u := UserByName(name);
        return if u.None? then Err(Spec.NoRows) else Ok(Spec.UserPrincipal(u.value));
      }
      if kind == "group" {
        var g := GroupByName(Lower(name));
        return if g.None? then Err(Spec.NoRows) else Ok(Spec.GroupPrincipal(g.value));
      }
      p := Err(Spec.Invalid);
    }

    method SetGrantCapabilities(target: string, kind: string, principal: string, add: bool, capabilities: Capabilities)
      returns (r: Outcome)
      requires Valid()
      modifies this
      ensures Valid() && (db, r) == Spec.SetGrantCapabilities(old(db), target, kind, principal, add, capabilities)
      ensures if r == Spec.DONE then
        var t, p := TargetNamed(old(db), target), Spec.ResolvePrincipal(old(db), kind, principal);
        t.Some? && p.Ok?
        && Authorization.GrantSet(old(db), db, p.value, t.value, if add then Some(capabilities) else None)
      else db == old(db)
    {
      GrantKeeps(db, target, kind, principal, add, capabilities);
      Authorization.SetGrantSets(db, target, kind, principal, add, capabilities);
      hide Authorization.GrantSet;
      assert UniqueTargets(db.targets) && UniqueUsernames(db.users) && UniqueGroups(db.groups);
      hide Consistent, UniqueTargets, UniqueUsernames, UniqueGroups, TargetNamed, Spec.ResolvePrincipal;
      var t := TargetByName(target);
      if t.None? {
        return Err(Spec.NoRows);
      }
      var p := PrincipalByName(kind, principal);
      if p.Err? {
        return Err(p.error);
      }
      if p.value.UserPrincipal? {
        var g := (p.value.user, t.value);
        db := db.(userGrants := if add then db.userGrants[g := capabilities] else db.userGrants - {g});
      } else {
        var g := (p.value.group, t.value);
        db := db.(groupGrants := if add then db.groupGrants[g := capabilities] else db.groupGrants - {g});
      }
      r := Spec.DONE;
    }

    /** Counts the enabled target if one of the two subqueries has a row. */
    method CanAccessCapability(u: Authorization.User, target: int, capability: string) returns (r: bool)
      requires ForeignKeys(db)
      ensures r == Authorization.CanAccess(db, u, target, capability)
    {
      if !u.enabled {
        return false;
      }
      if !Authorization.IsCapability(capability) {
        return false;
      }
      hide Authorization.Allows, Authorization.IsCapability;
      var n := 0;
      if target in db.targets && db.targets[target].enabled {
        if u.role == ADMIN {
          n := 1;
        } else {
          var direct := exists g :: (g in db.userGrants && g == (u.id, target)
                                     && Authorization.Allows(db.userGrants[g], capability));
          var byGroup := exists m :: m in db.members && Authorization.AllowedThrough(db, m.0, u.id, target, capability);
          assert forall g :: Authorization.AllowedThrough(db, g, u.id, target, capability) ==> (g, u.id) in db.members;
          if direct || byGroup { n := 1; }
        }
      }
      r := n > 0;
    }

    // ---------- audit ----------

    /** Deletes the rows with an earlier time, one at a time, and counts them. */
    method PruneAudit(before: string) returns (n: nat)
      requires Valid()
      modifies this
      ensures Valid() && (db, n) == Spec.PruneAudit(old(db), before)
    {
      AuditCallKeeps(db, Spec.DoPruneAudit(before));
      hide Consistent, Less;
      var earlier := Spec.Earlier(db.audit, before);
      hide Spec.Earlier, Spec.NotBefore;
      ghost var was := db;
      var rest := earlier;
      n := 0;
      assert was.audit - {} == was.audit;
      while exists a :: a in rest
        invariant rest <= earlier && n == |earlier| - |rest|
        invariant db == was.(audit := was.audit - (earlier - rest))
        decreases |rest|
      {
        var a :| a in rest;
        RemoveOneMore(was.audit, earlier, rest, a);
        db := db.(audit := db.audit - {a});
        rest := rest - {a};
        n := n + 1;
      }
      assert rest == {} && earlier - rest == earlier && |rest| == 0;
      WithoutEarlier(was.audit, before);
    }
  }

  lemma RemoveOneMore(audit: map<int, AuditRow>, all: set<int>, rest: set<int>, a: int)
    requires a in rest && rest <= all
    ensures audit - (all - rest) - {a} == audit - (all - (rest - {a}))
  {
    assert all - (rest - {a}) == (all - rest) + {a};
  }

  lemma WithoutEarlier(audit: map<int, AuditRow>, before: string)
    ensures audit - Spec.Earlier(audit, before) == Spec.NotBefore(audit, before)
  {
    hide Less;
  }

  lemma OneLinkEach(links: map<int, LinkRow>, user: int, issuer: string)
    requires UniqueLinks(links)
    ensures forall i, j ::
      (i in links && OfUser(links[i], user, issuer) && j in links && OfUser(links[j], user, issuer)) ==> i == j
  {
    forall i, j | i in links && OfUser(links[i], user, issuer) && j in links && OfUser(links[j], user, issuer)
      ensures i == j
    {
      assert Clash(links[i], links[j]);
    }
  }

  // ---------- what a caller may rely on ----------

  lemma AddingIsSafe(db: Db, name: string, role: string)
    requires Consistent(db)
    ensures var (next, r) := Spec.AddUser(db, name, role);
      Consistent(next) && (Administrators.SomeAdmin(db) ==> Administrators.SomeAdmin(next))
      && (r.Ok? && role != ADMIN ==> forall target, capability ::
            !Authorization.CanAccess(next, Authorization.User(r.value, role, true), target, capability))
  {
    AddUserKeeps(db, name, role);
    assert ForeignKeys(db);
    hide Consistent, ForeignKeys, Spec.AddUser, Administrators.SomeAdmin, Administrators.Grows, Authorization.CanAccess;
    if Administrators.SomeAdmin(db) {
      Administrators.AddingUserGrows(db, name, role);
      Administrators.GrowingKeepsAdmin(db, Spec.AddUser(db, name, role).0);
    }
    var (next, r) := Spec.AddUser(db, name, role);
    if r.Ok? && role != ADMIN {
      forall target, capability
        ensures !Authorization.CanAccess(next, Authorization.User(r.value, role, true), target, capability)
      {
        Authorization.NewUserHasNothing(db, name, role, target, capability);
      }
    }
  }

  lemma EnablingIsSafe(db: Db, name: string, enabled: bool)
    requires Consistent(db)
    ensures var (next, r) := Spec.SetUserEnabled(db, name, enabled);
      (Administrators.SomeAdmin(db) ==> Administrators.SomeAdmin(next))
      && (r == Spec.DONE && !enabled ==> forall key :: Spec.AuthenticateKey(next, name, key).None?)
  {
    hide Spec.SetUserEnabled, Spec.AuthenticateKey, Administrators.SomeAdmin;
    if Administrators.SomeAdmin(db) { Administrators.EnablingKeepsAdmin(db, name, enabled); }
    if Spec.SetUserEnabled(db, name, enabled).1 == Spec.DONE && !enabled {
      forall key ensures Spec.AuthenticateKey(Spec.SetUserEnabled(db, name, enabled).0, name, key).None? {
        KeyLogins.DisabledIsRefused(db, name, key);
      }
    }
  }

  lemma DeletingIsSafe(db: Db, name: string)
    requires Consistent(db)
    ensures var (next, r) := Spec.DeleteUser(db, name);
      (Administrators.SomeAdmin(db) ==> Administrators.SomeAdmin(next))
      && if r == Spec.DONE then Deletions.Within(next, db) && UserNamed(next, Lower(name)).None? else next == db
  {
    var (next, r) := Spec.DeleteUser(db, name);
    assert r == Spec.DONE ==> next == DeleteUserRow(db, UserNamed(db, Lower(name)).value) by {
      hide Lower, UserNamed, DeleteUserRow;
    }
    hide Spec.DeleteUser, DeleteUserRow, Administrators.SomeAdmin, Lower, UserNamed, Deletions.Within;
    if Administrators.SomeAdmin(db) { Administrators.DeletingKeepsAdmin(db, name); }
    if r == Spec.DONE {
      KeyLogins.DeletedIsRefused(db, name, "");
      Deletions.DeleteUserIsGreatest(db, UserNamed(db, Lower(name)).value, db);
    } else {
      RefusedDeletion(db, name);
    }
  }

  lemma RefusedDeletion(db: Db, name: string)
    requires Spec.DeleteUser(db, name).1 != Spec.DONE
    ensures Spec.DeleteUser(db, name).0 == db
  {
    hide Lower, UserNamed, DeleteUserRow;
  }

  lemma AddingKeyIsSafe(db: Db, username: string, fingerprint: string, publicKey: string, note: string)
    requires Consistent(db)
    ensures var (next, r) := Spec.AddGatewayKey(db, username, fingerprint, publicKey, note);
      (Administrators.SomeAdmin(db) ==> Administrators.SomeAdmin(next))
      && if r == Spec.DONE then
        var u := UserNamed(db, Lower(username));
        KeyLogins.OnlyAttempt(db, next, username, fingerprint) && u.Some?
        && Spec.AuthenticateKey(next, username, fingerprint) == if db.users[u.value].enabled then u else None
      else next == db
  {
    var (next, r) := Spec.AddGatewayKey(db, username, fingerprint, publicKey, note);
    assert r != Spec.DONE ==> next == db by { hide Lower, UserNamed, Spec.HasKey, NextId; }
    hide Spec.AddGatewayKey, Spec.AuthenticateKey, Administrators.SomeAdmin, Lower, UserNamed, KeyLogins.OnlyAttempt,
      Administrators.Grows;
    if Administrators.SomeAdmin(db) {
      Administrators.AddingKeyGrows(db, username, fingerprint, publicKey, note);
      Administrators.GrowingKeepsAdmin(db, next);
    }
    if r == Spec.DONE { KeyLogins.AddedKeyLogsIn(db, username, fingerprint, publicKey, note); }
  }

  lemma RemovingKeyIsSafe(db: Db, username: string, fingerprint: string)
    requires Consistent(db)
    ensures var (next, r) := Spec.RemoveGatewayKey(db, username, fingerprint);
      (Administrators.SomeAdmin(db) ==> Administrators.SomeAdmin(next))
      && if r == Spec.DONE
        then Spec.AuthenticateKey(next, username, fingerprint).None?
             && KeyLogins.OnlyAttempt(db, next, username, fingerprint)
        else next == db
  {
    var (next, r) := Spec.RemoveGatewayKey(db, username, fingerprint);
    assert r != Spec.DONE ==> next == db by {
      hide Lower, UserNamed, Spec.HasKey, Spec.OtherUsableAdmin, KeysOf, Spec.KeysWithout;
    }
    hide Spec.RemoveGatewayKey, Spec.AuthenticateKey, Administrators.SomeAdmin, KeyLogins.OnlyAttempt;
    if Administrators.SomeAdmin(db) { Administrators.RemoveKeyKeepsAdmin(db, username, fingerprint); }
    if r == Spec.DONE { KeyLogins.RemovedKeyIsRefused(db, username, fingerprint); }
  }

  /** A change of role that is refused. */
  lemma RoleStays(db: Db, name: string, role: string)
    ensures !Spec.ValidRole(role) ==> Spec.SetUserRole(db, name, role) == (db, Err(Spec.Invalid))
    ensures Spec.ValidRole(role) && UserNamed(db, Lower(name)).None? ==>
      Spec.SetUserRole(db, name, role) == (db, Err(Spec.NoRows))
    ensures var u := UserNamed(db, Lower(name));
      (Spec.ValidRole(role) && u.Some? && db.users[u.value].role == ADMIN && role != ADMIN
       && !Spec.OtherUsableAdmin(db, u.value)) ==>
        Spec.SetUserRole(db, name, role) == (db, Err(Spec.FinalAdmin))
  {
    hide Lower, UserNamed, Spec.OtherUsableAdmin;
  }

  lemma RoleGoes(db: Db, name: string, role: string)
    requires var u := UserNamed(db, Lower(name));
      Spec.ValidRole(role) && u.Some?
      && (db.users[u.value].role == ADMIN && role != ADMIN ==> Spec.OtherUsableAdmin(db, u.value))
    ensures var u := UserNamed(db, Lower(name)).value;
      Spec.SetUserRole(db, name, role) == (db.(users := db.users[u := db.users[u].(role := role)]), Spec.DONE)
  {
    hide Lower, UserNamed, Spec.OtherUsableAdmin;
  }

  lemma RemovalKeeps(db: Db, username: string, fingerprint: string)
    requires Consistent(db)
    ensures UniqueUsernames(db.users) && ForeignKeys(db)
    ensures Consistent(Spec.RemoveGatewayKey(db, username, fingerprint).0)
  {
    RemoveKeyKeeps(db, username, fingerprint);
    hide Spec.RemoveGatewayKey;
  }

  lemma TargetDeletionIsSafe(db: Db, name: string)
    requires Consistent(db)
    ensures var (next, r) := Spec.DeleteTarget(db, name);
      Consistent(next)
      && if r == Spec.DONE then Deletions.Within(next, db) && TargetNamed(next, name).None? else next == db
  {
    var t := TargetNamed(db, name);
    if t.Some? {
      DeleteTargetKeeps(db, t.value);
      NoNamesake(db, name, t.value);
      hide TargetNamed, DeleteTargetRow, Consistent, Deletions.Within;
      Deletions.TargetTables(db, t.value, db);
    }
  }

  lemma NoNamesake(db: Db, name: string, target: int)
    requires UniqueTargets(db.targets) && TargetNamed(db, name) == Some(target)
    ensures TargetNamed(DeleteTargetRow(db, target), name).None?
  {
  }

  /** A removal that is refused: there is no such user, it is the final administrator's last key, or
      the user does not have that key. */
  lemma KeyStays(db: Db, username: string, fingerprint: string)
    ensures var u := UserNamed(db, Lower(username));
      u.None? ==> Spec.RemoveGatewayKey(db, username, fingerprint) == (db, Err(Spec.NoRows))
    ensures var u := UserNamed(db, Lower(username));
      u.Some? && Spec.FinalKey(db, u.value) ==>
        Spec.RemoveGatewayKey(db, username, fingerprint) == (db, Err(Spec.FinalAdmin))
    ensures var u := UserNamed(db, Lower(username));
      u.Some? && !Spec.FinalKey(db, u.value) && !Spec.HasKey(db, u.value, fingerprint) ==>
        Spec.RemoveGatewayKey(db, username, fingerprint) == (db, Err(Spec.NoRows))
  {
    hide Lower, UserNamed, Spec.HasKey, Spec.FinalKey, Spec.KeysWithout;
  }

  lemma KeyGoes(db: Db, username: string, fingerprint: string)
    requires var u := UserNamed(db, Lower(username));
      u.Some? && !Spec.FinalKey(db, u.value) && Spec.HasKey(db, u.value, fingerprint)
    ensures Spec.RemoveGatewayKey(db, username, fingerprint)
      == (db.(keys := Spec.KeysWithout(db.keys, UserNamed(db, Lower(username)).value, fingerprint)), Spec.DONE)
  {
    hide Lower, UserNamed, Spec.HasKey, Spec.FinalKey, Spec.KeysWithout;
  }

  lemma LoginUnmapped(db: Db, claimed: string, issuer: string, subject: string, provider: string, claim: Spec.Claim)
    requires Spec.Normalized(issuer, subject, provider) == Some(claim) && Spec.ClaimedLink(db, claim).None?
    ensures Spec.AuthenticateOIDC(db, claimed, issuer, subject, provider) == (db, Err(Spec.NotMapped))
  {
    hide Lower, TrimSpace, Spec.Normalized, Spec.ClaimedLink;
  }

  lemma LoginMapped(db: Db, claimed: string, issuer: string, subject: string, provider: string, claim: Spec.Claim)
    requires Spec.Normalized(issuer, subject, provider) == Some(claim) && Spec.ClaimedLink(db, claim).Some?
    ensures var (link, row) := Spec.ClaimedLink(db, claim).value;
      Spec.AuthenticateOIDC(db, claimed, issuer, subject, provider)
      == if row.userId in db.users && db.users[row.userId].enabled
           && db.users[row.userId].username == Lower(TrimSpace(claimed))
        then (db.(links := db.links[link := row]), Ok(row.userId))
        else (db, Err(Spec.NotMapped))
  {
    hide Lower, TrimSpace, Spec.Normalized, Spec.ClaimedLink;
  }

  /** The update of a login writes exactly the claimed link, and fails exactly if that conflicts. */
  lemma ClaimedByUpdate(db: Db, claim: Spec.Claim, l: int)
    requires UniqueLinks(db.links) && l in db.links && db.links[l].issuer == claim.issuer
    requires var bound := BoundLink(db.links, claim.issuer, claim.subject);
      if bound.Some? then db.links[l].subject == Some(claim.subject)
      else db.links[l].subject.None? && db.links[l].providerUsername == claim.providerUsername
    ensures var row := db.links[l].(subject := Some(claim.subject), providerUsername := claim.providerUsername);
      var links := if BoundLink(db.links, claim.issuer, claim.subject).Some?
        then Renamed(db.links, db.links[l].userId, claim.issuer, claim.providerUsername)
        else Bound(db.links, db.links[l].userId, claim.issuer, claim.subject);
      links == db.links[l := row] && Spec.ClaimedLink(db, claim) == if UniqueLinks(links) then Some((l, row)) else None
  {
    hide Renamed, Bound, Spec.Conflicts;
    UpdateHitsOne(db.links, l, claim.issuer, claim.subject, claim.providerUsername);
    OneLinkEach(db.links, db.links[l].userId, claim.issuer);
    var row := db.links[l].(subject := Some(claim.subject), providerUsername := claim.providerUsername);
    ConflictBreaksUniqueness(db.links, l, row);
    var bound := BoundLink(db.links, claim.issuer, claim.subject);
    if bound.Some? {
      assert Clash(db.links[l], db.links[bound.value]);
    } else {
      assert Clash(db.links[l], db.links[WaitingLink(db.links, claim.issuer, claim.providerUsername).value]);
    }
    hide UniqueLinks;
  }
}
