/** Which gateway keys let whom in, and what the calls on users and keys change about that. */
module KeyLogins {
  import opened Wrappers
  import opened Text
  import opened Database
  import opened StoreSpec

  /** A lookup by name depends on the users alone. */
  lemma SameNames(db: Db, next: Db, name: string)
    requires UniqueUsernames(db.users) && next.users == db.users
    ensures UserNamed(next, name) == UserNamed(db, name)
  {
  }

  /** Whether a login by key succeeds depends on the user of that name and their keys alone. */
  lemma SameLogin(db: Db, next: Db, username: string, fingerprint: string)
    requires UserNamed(next, Lower(username)) == UserNamed(db, Lower(username)) && next.users == db.users
    requires var u := UserNamed(db, Lower(username));
      u.Some? ==> (HasKey(next, u.value, fingerprint) <==> HasKey(db, u.value, fingerprint))
    ensures AuthenticateKey(next, username, fingerprint) == AuthenticateKey(db, username, fingerprint)
  {
    hide Lower, HasKey;
  }

  /** The login of that name, in any case, with that key. */
  predicate SameAttempt(username: string, fingerprint: string, name: string, key: string) {
    Lower(name) == Lower(username) && key == fingerprint
  }

  /** Nobody else's login and no other key is affected. */
  ghost predicate OnlyAttempt(db: Db, next: Db, username: string, fingerprint: string) {
    forall name, key :: !SameAttempt(username, fingerprint, name, key) ==>
      AuthenticateKey(next, name, key) == AuthenticateKey(db, name, key)
  }

  lemma KeyMapChanged(db: Db, next: Db, username: string, fingerprint: string, user: int)
    requires UniqueUsernames(db.users) && next == db.(keys := next.keys) && UserNamed(db, Lower(username)) == Some(user)
    requires forall u, key :: (u != user || key != fingerprint) ==> (HasKey(next, u, key) <==> HasKey(db, u, key))
    ensures OnlyAttempt(db, next, username, fingerprint)
  {
    hide Lower, HasKey, UniqueUsernames, AuthenticateKey, UserNamed;
    forall name, key | !SameAttempt(username, fingerprint, name, key)
      ensures AuthenticateKey(next, name, key) == AuthenticateKey(db, name, key)
    {
      SameNames(db, next, Lower(name));
      if UserNamed(db, Lower(name)) == Some(user) { SameName(db, user, Lower(name), Lower(username)); }
      SameLogin(db, next, name, key);
    }
  }

  lemma SameName(db: Db, user: int, one: string, two: string)
    requires UserNamed(db, one) == Some(user) && UserNamed(db, two) == Some(user)
    ensures one == two
  {
  }

  /** A key that was added lets its user in, if the user is enabled, and changes no other login. */
  lemma AddedKeyLogsIn(db: Db, username: string, fingerprint: string, publicKey: string, note: string)
    requires Consistent(db) && AddGatewayKey(db, username, fingerprint, publicKey, note).1 == DONE
    ensures var next := AddGatewayKey(db, username, fingerprint, publicKey, note).0;
      AuthenticateKey(db, username, fingerprint).None? && OnlyAttempt(db, next, username, fingerprint)
      && UserNamed(db, Lower(username)).Some? && var user := UserNamed(db, Lower(username)).value;
        AuthenticateKey(next, username, fingerprint) == if db.users[user].enabled then Some(user) else None
  {
    var u, next := UserNamed(db, Lower(username)), AddGatewayKey(db, username, fingerprint, publicKey, note).0;
    assert UniqueUsernames(db.users);
    hide Lower, UserNamed, Consistent, UniqueUsernames;
    SameNames(db, next, Lower(username));
    var id := NextId(db.keys.Keys);
    assert next == db.(keys := db.keys[id := KeyRow(u.value, fingerprint, publicKey, note)]);
    hide AddGatewayKey, NextId, AuthenticateKey;
    AddedHas(db, next, id, u.value, fingerprint);
    KeyMapChanged(db, next, username, fingerprint, u.value);
    LoginIs(next, username, fingerprint, u.value);
    LoginIs(db, username, fingerprint, u.value);
  }

  lemma LoginIs(db: Db, username: string, fingerprint: string, user: int)
    requires UserNamed(db, Lower(username)) == Some(user)
    ensures user in db.users
    ensures AuthenticateKey(db, username, fingerprint)
      == if db.users[user].enabled && HasKey(db, user, fingerprint) then Some(user) else None
  {
    hide Lower, HasKey;
  }

  lemma AddedHas(db: Db, next: Db, id: int, user: int, fingerprint: string)
    requires id !in db.keys && id in next.keys && next.keys == db.keys[id := next.keys[id]]
    requires next.keys[id].userId == user && next.keys[id].fingerprint == fingerprint
    ensures HasKey(next, user, fingerprint)
    ensures forall u, key :: (u != user || key != fingerprint) ==> (HasKey(next, u, key) <==> HasKey(db, u, key))
  {
    forall u, key | (u != user || key != fingerprint) && HasKey(db, u, key) ensures HasKey(next, u, key) {
      var k :| k in db.keys && db.keys[k].userId == u && db.keys[k].fingerprint == key;
      assert k in next.keys && next.keys[k] == db.keys[k];
    }
  }

  lemma RemovedHas(db: Db, next: Db, user: int, fingerprint: string)
    requires next.keys == KeysWithout(db.keys, user, fingerprint)
    ensures !HasKey(next, user, fingerprint)
    ensures forall u, key :: (u != user || key != fingerprint) ==> (HasKey(next, u, key) <==> HasKey(db, u, key))
  {
    forall u, key | (u != user || key != fingerprint) && HasKey(db, u, key) ensures HasKey(next, u, key) {
      var k :| k in db.keys && db.keys[k].userId == u && db.keys[k].fingerprint == key;
      assert k in next.keys && next.keys[k] == db.keys[k];
    }
  }

  /** A key that was removed no longer lets its user in, and every other login is as before. */
  lemma RemovedKeyIsRefused(db: Db, username: string, fingerprint: string)
    requires Consistent(db) && RemoveGatewayKey(db, username, fingerprint).1 == DONE
    ensures var next := RemoveGatewayKey(db, username, fingerprint).0;
      AuthenticateKey(next, username, fingerprint).None? && OnlyAttempt(db, next, username, fingerprint)
  {
    hide OtherUsableAdmin, KeysOf, KeysWithout, HasKey;
    var u, next := UserNamed(db, Lower(username)), RemoveGatewayKey(db, username, fingerprint).0;
    assert UniqueUsernames(db.users);
    hide Lower, UserNamed, Consistent, UniqueUsernames;
    assert next == db.(keys := KeysWithout(db.keys, u.value, fingerprint));
    hide RemoveGatewayKey, AuthenticateKey;
    SameNames(db, next, Lower(username));
    RemovedHas(db, next, u.value, fingerprint);
    KeyMapChanged(db, next, username, fingerprint, u.value);
    LoginIs(next, username, fingerprint, u.value);
  }

  /** No key lets in a user who is disabled, under any spelling of the name. */
  lemma DisabledIsRefused(db: Db, name: string, fingerprint: string)
    requires SetUserEnabled(db, name, false).1 == DONE && UniqueUsernames(db.users)
    ensures AuthenticateKey(SetUserEnabled(db, name, false).0, name, fingerprint).None?
  {
    hide Lower, OtherUsableAdmin, HasKey;
    var u, next := UserNamed(db, Lower(name)), SetUserEnabled(db, name, false).0;
    assert next.users == db.users[u.value := db.users[u.value].(enabled := false)];
  }

  /** Nor one who was deleted. */
  lemma DeletedIsRefused(db: Db, name: string, fingerprint: string)
    requires DeleteUser(db, name).1 == DONE && UniqueUsernames(db.users)
    ensures UserNamed(DeleteUser(db, name).0, Lower(name)).None?
    ensures AuthenticateKey(DeleteUser(db, name).0, name, fingerprint).None?
  {
    hide Lower, OtherUsableAdmin, HasKey;
    var u, next := UserNamed(db, Lower(name)), DeleteUser(db, name).0;
    assert next.users == db.users - {u.value};
  }
}
