/** Once the gateway is initialized it always has an administrator who can log in. */
module Administrators {
  import opened Wrappers
  import opened Text
  import opened Database
  import opened StoreSpec
  import opened StoreInvariants

  ghost predicate SomeAdmin(db: Db) {
    exists u :: UsableAdmin(db, u)
  }

  /** `init` adds the first administrator and their key to an empty database. */
  lemma InitMakesAdmin(username: string, fingerprint: string, publicKey: string)
    requires ValidName(username).Some?
    ensures var (db, user) := AddUser(EMPTY_DB, username, ADMIN);
      user.Ok? && var (after, r) :=
        AddGatewayKey(db, db.users[user.value].username, fingerprint, publicKey, "bootstrap");
        r == DONE && Consistent(after) && UsableAdmin(after, user.value)
  {
    hide ValidName, Lower, TrimSpace, NextId, Consistent;
    assert Consistent(EMPTY_DB) by { EmptyConsistent(); }
    ValidNameIsNormal(username);
    ApplyKeeps(EMPTY_DB, OnUsers(DoAddUser(username, ADMIN)));
    var (db, user) := AddUser(EMPTY_DB, username, ADMIN);
    var name := db.users[user.value].username;
    ApplyKeeps(db, OnUsers(DoAddGatewayKey(name, fingerprint, publicKey, "bootstrap")));
    var after := AddGatewayKey(db, name, fingerprint, publicKey, "bootstrap").0;
    assert NextId(db.keys.Keys) in after.keys;
  }

  lemma EmptyConsistent()
    ensures Consistent(EMPTY_DB)
  {
  }

  // ---------- the final administrator survives every call ----------

  lemma Others(s: set<int>, r: int)
    requires |s| >= 2
    ensures exists x :: x in s && x != r
  {
    if forall x :: x in s ==> x == r {
      assert s <= {r};
      assert |s| <= |{r}| by { Subset(s, {r}); }
    }
  }

  lemma Subset(a: set<int>, b: set<int>)
    requires a <= b
    ensures |a| <= |b|
  {
    assert b == a + (b - a);
  }

  /** Removing one of several keys leaves one, because a user has each key only once. */
  lemma KeyRemains(db: Db, user: int, fingerprint: string)
    requires UniqueKeys(db.keys) && |KeysOf(db, user)| >= 2
    ensures exists k :: k in db.keys && db.keys[k].userId == user && db.keys[k].fingerprint != fingerprint
  {
    if k :| k in db.keys && db.keys[k].userId == user && db.keys[k].fingerprint == fingerprint {
      Others(KeysOf(db, user), k);
      var other :| other in KeysOf(db, user) && other != k;
      assert !SameKey(db.keys[other], db.keys[k]);
    } else {
      Others(KeysOf(db, user), 0);
    }
  }

  /** If only one user's rows change, and that user was usable only beside another or stays usable. */
  lemma OneUserChanged(db: Db, next: Db, user: int)
    requires SomeAdmin(db)
    requires forall u :: u in db.users && u != user ==> u in next.users && next.users[u] == db.users[u]
    requires forall k :: k in db.keys && db.keys[k].userId != user ==> k in next.keys && next.keys[k] == db.keys[k]
    requires UsableAdmin(db, user) && !OtherUsableAdmin(db, user) ==> UsableAdmin(next, user)
    ensures SomeAdmin(next)
  {
    var admin :| UsableAdmin(db, admin);
    var other := admin;
    if admin == user && OtherUsableAdmin(db, user) { other :| other != user && UsableAdmin(db, other); }
    if other != user {
      var k :| k in db.keys && db.keys[k].userId == other;
      assert k in next.keys && next.keys[k].userId == other;
      assert UsableAdmin(next, other);
    }
  }

  lemma RemoveKeyKeepsAdmin(db: Db, username: string, fingerprint: string)
    requires UniqueKeys(db.keys) && SomeAdmin(db)
    ensures SomeAdmin(RemoveGatewayKey(db, username, fingerprint).0)
  {
    hide Lower, UniqueKeys, HasKey, SomeAdmin, OtherUsableAdmin;
    var next := RemoveGatewayKey(db, username, fingerprint).0;
    if next != db {
      var user := UserNamed(db, Lower(username)).value;
      if UsableAdmin(db, user) && !OtherUsableAdmin(db, user) {
        KeyRemains(db, user, fingerprint);
        var k :| k in db.keys && db.keys[k].userId == user && db.keys[k].fingerprint != fingerprint;
        assert k in next.keys && next.keys[k].userId == user;
      }
      OneUserChanged(db, next, user);
    }
  }

  lemma EnablingKeepsAdmin(db: Db, name: string, enabled: bool)
    requires SomeAdmin(db)
    ensures SomeAdmin(SetUserEnabled(db, name, enabled).0)
  {
    hide Lower, SomeAdmin, OtherUsableAdmin;
    var next := SetUserEnabled(db, name, enabled).0;
    if next != db { OneUserChanged(db, next, UserNamed(db, Lower(name)).value); }
  }

  lemma ChangingRoleKeepsAdmin(db: Db, name: string, role: string)
    requires SomeAdmin(db)
    ensures SomeAdmin(SetUserRole(db, name, role).0)
  {
    hide Lower, SomeAdmin, OtherUsableAdmin, ValidRole;
    var next := SetUserRole(db, name, role).0;
    if next != db { OneUserChanged(db, next, UserNamed(db, Lower(name)).value); }
  }

  lemma DeletingKeepsAdmin(db: Db, name: string)
    requires SomeAdmin(db)
    ensures SomeAdmin(DeleteUser(db, name).0)
  {
    hide Lower, SomeAdmin, OtherUsableAdmin;
    var next := DeleteUser(db, name).0;
    if next != db { OneUserChanged(db, next, UserNamed(db, Lower(name)).value); }
  }

  ghost predicate Grows(db: Db, next: Db) {
    (forall u :: u in db.users ==> u in next.users && next.users[u] == db.users[u])
    && (forall k :: k in db.keys ==> k in next.keys && next.keys[k] == db.keys[k])
  }

  lemma GrowingKeepsAdmin(db: Db, next: Db)
    requires SomeAdmin(db) && Grows(db, next)
    ensures SomeAdmin(next)
  {
    var admin :| UsableAdmin(db, admin);
    var k :| k in db.keys && db.keys[k].userId == admin;
    assert k in next.keys && next.keys[k].userId == admin;
    assert UsableAdmin(next, admin);
  }

  lemma AddingUserGrows(db: Db, username: string, role: string)
    ensures Grows(db, AddUser(db, username, role).0)
  {
    hide ValidName, ValidRole, NextId, UserNamed;
    if ValidName(username).None? || !ValidRole(role) || UserNamed(db, ValidName(username).value).Some? {
      assert AddUser(db, username, role).0 == db;
    } else {
      assert AddUser(db, username, role).0.keys == db.keys;
    }
  }

  lemma AddingKeyGrows(db: Db, username: string, fingerprint: string, publicKey: string, note: string)
    ensures Grows(db, AddGatewayKey(db, username, fingerprint, publicKey, note).0)
  {
    hide Lower, HasKey, NextId, UserNamed;
    var u := UserNamed(db, Lower(username));
    if u.None? || HasKey(db, u.value, fingerprint) {
      assert AddGatewayKey(db, username, fingerprint, publicKey, note).0 == db;
    } else {
      assert AddGatewayKey(db, username, fingerprint, publicKey, note).0.users == db.users;
    }
  }

  lemma UserCallKeepsAdmin(db: Db, call: UserCall)
    requires UniqueKeys(db.keys) && SomeAdmin(db)
    ensures SomeAdmin(ApplyUser(db, call))
  {
    hide SomeAdmin, Grows, UniqueKeys, AddUser, AddGatewayKey, RemoveGatewayKey, DeleteUser, SetUserEnabled,
      SetUserRole;
    match call
    case DoRemoveGatewayKey(username, fingerprint) => RemoveKeyKeepsAdmin(db, username, fingerprint);
    case DoSetUserEnabled(username, enabled) => EnablingKeepsAdmin(db, username, enabled);
    case DoSetUserRole(username, role) => ChangingRoleKeepsAdmin(db, username, role);
    case DoDeleteUser(username) => DeletingKeepsAdmin(db, username);
    case DoAddUser(username, role) =>
      AddingUserGrows(db, username, role);
      GrowingKeepsAdmin(db, ApplyUser(db, call));
    case DoAddGatewayKey(username, fingerprint, publicKey, note) =>
      AddingKeyGrows(db, username, fingerprint, publicKey, note);
      GrowingKeepsAdmin(db, ApplyUser(db, call));
  }

  /** Calls on other tables change neither users nor keys. */
  lemma OtherCallsLeaveUsers(db: Db, call: Call)
    requires !call.OnUsers?
    ensures Apply(db, call).users == db.users && Apply(db, call).keys == db.keys
  {
    hide ApplyLink, ApplyTotp, ApplyGroup, ApplyIdentity, ApplyTarget, ApplyGrant, ApplyAudit;
  }

  lemma AdminKept(db: Db, call: Call)
    requires Consistent(db) && SomeAdmin(db)
    ensures SomeAdmin(Apply(db, call))
  {
    hide SomeAdmin;
    if call.OnUsers? {
      UserCallKeepsAdmin(db, call.callUser);
    } else {
      OtherCallsLeaveUsers(db, call);
      GrowingKeepsAdmin(db, Apply(db, call));
    }
  }

  /** No sequence of calls removes the final usable administrator. */
  lemma {:induction false} AdminAlways(db: Db, calls: seq<Call>)
    requires Consistent(db) && SomeAdmin(db)
    ensures SomeAdmin(ApplyAll(db, calls)) && Consistent(ApplyAll(db, calls))
    decreases |calls|
  {
    if calls == [] {
    } else {
      hide SomeAdmin, Consistent, Apply;
      AdminKept(db, calls[0]);
      ApplyKeeps(db, calls[0]);
      AdminAlways(Apply(db, calls[0]), calls[1..]);
    }
  }

  /** A usable administrator is let in with some key, under their name in any spelling of case. */
  lemma AdminCanLogIn(db: Db, user: int, spelling: string)
    requires Consistent(db) && UsableAdmin(db, user) && Lower(spelling) == db.users[user].username
    ensures db.users[user].role == ADMIN
      && exists fingerprint :: AuthenticateKey(db, spelling, fingerprint) == Some(user)
  {
    hide Lower, TrimSpace, ForeignKeys;
    var k :| k in db.keys && db.keys[k].userId == user;
    assert HasKey(db, user, db.keys[k].fingerprint);
    assert UserNamed(db, Lower(spelling)) == Some(user);
    assert AuthenticateKey(db, spelling, db.keys[k].fingerprint) == Some(user);
  }

  /** Once the gateway is initialized, whatever calls follow, some key lets in an administrator. */
  lemma SomeAdminCanLogIn(username: string, fingerprint: string, publicKey: string, calls: seq<Call>)
    requires ValidName(username).Some?
    ensures var (db, user) := AddUser(EMPTY_DB, username, ADMIN);
      user.Ok? && var start := AddGatewayKey(db, db.users[user.value].username, fingerprint, publicKey, "bootstrap").0;
        var now := ApplyAll(start, calls);
        exists name, key :: AuthenticateKey(now, name, key).Some? && IsAdmin(now, AuthenticateKey(now, name, key).value)
  {
    InitMakesAdmin(username, fingerprint, publicKey);
    hide ValidName, AddUser, AddGatewayKey, Consistent, ApplyAll, UsableAdmin, AuthenticateKey, Lower;
    var (db, user) := AddUser(EMPTY_DB, username, ADMIN);
    var start := AddGatewayKey(db, db.users[user.value].username, fingerprint, publicKey, "bootstrap").0;
    assert SomeAdmin(start);
    AdminAlways(start, calls);
    var now := ApplyAll(start, calls);
    var admin :| UsableAdmin(now, admin);
    NamedInLowerCase(now, admin);
    AdminCanLogIn(now, admin, now.users[admin].username);
    var key :| AuthenticateKey(now, now.users[admin].username, key) == Some(admin);
    assert AuthenticateKey(now, now.users[admin].username, key).Some? && IsAdmin(now, admin);
  }

  predicate IsAdmin(db: Db, user: int) { user in db.users && db.users[user].role == ADMIN && db.users[user].enabled }

  lemma NamedInLowerCase(db: Db, user: int)
    requires Consistent(db) && UsableAdmin(db, user)
    ensures user in db.users && Lower(db.users[user].username) == db.users[user].username && IsAdmin(db, user)
  {
    hide Lower, TrimSpace;
  }
}
