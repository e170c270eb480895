/** Credentials end to end: the administrative commands that store them, with the points where they may
    fail, and the read before a connection, together refine a map from target to payload. */
module Credentials {
  import opened Wrappers
  import opened Text
  import opened Secrets
  import opened Database
  import opened StoreSpec
  import opened StoreInvariants
  import opened Deletions
  import S = Store

  // ---------- the commands ----------

  /** Where a command that stores a credential may fail: while reading or sealing it, or when writing it. */
  datatype Fault = NoFault | BeforeWrite | WriteFails

  datatype Command =
    | CreateTarget(target: NewTarget, payload: Payload, nonce: seq<byte>, fault: Fault)
    | CreateStoredTarget(target: NewTarget, identity: int)
    | ReplaceCredential(id: int, kind: string, payload: Payload, nonce: seq<byte>, fault: Fault)
    | UseStoredKey(id: int, identity: int)
    | RemoveTarget(name: string)
    | CreateIdentity(name: string, publicKey: string, fingerprint: string, payload: Payload, nonce: seq<byte>,
      fault: Fault)
    | RemoveIdentity(name: string)
    | Other(call: Call)

  /** The calls that no command makes except as part of those above. */
  predicate StoresCredentials(call: Call) {
    call.OnIdentities?
    || (call.OnTargets? && !call.callTarget.DoUpdateTarget? && !call.callTarget.DoSetTargetHostKey?
        && !call.callTarget.DoSetTargetEnabled?)
  }

  /** `targetAdd` and the menu's form: the target is added first and deleted again if anything fails. */
  ghost function ExecCreate(
    db: Db, key: seq<byte>, n: NewTarget, payload: Payload, nonce: seq<byte>, fault: Fault): (r: (Db, Option<int>))
  {
    var (added, r) := AddTarget(db, n.(identityId := None));
    if r.Err? then (db, None)
    else if fault != NoFault then (DeleteTarget(added, n.name).0, None)
    else
      var (stored, s) := SetTargetCredential(added, r.value, Encrypt(key, nonce, r.value, n.kind, payload));
      if s.Err? then (DeleteTarget(stored, n.name).0, None) else (stored, Some(r.value))
  }

  ghost function ExecReplace(
    db: Db, key: seq<byte>, id: int, kind: string, payload: Payload, nonce: seq<byte>, fault: Fault)
    : (r: (Db, Option<int>))
  {
    if fault != NoFault then (db, None)
    else
      var (next, r) := SetTargetCredentialKind(db, id, kind, Encrypt(key, nonce, id, kind, payload));
      if r.Err? then (next, None) else (next, Some(id))
  }

  /** The stored name is used for the compensating delete. */
  ghost function ExecIdentity(
    db: Db, key: seq<byte>, name: string, publicKey: string, fingerprint: string, payload: Payload, nonce: seq<byte>,
    fault: Fault)
    : (r: (Db, Option<int>))
  {
    var (added, r) := AddSSHIdentity(db, name, publicKey, fingerprint);
    if r.Err? || r.value !in added.identities then (db, None)
    else
      var stored := added.identities[r.value].name;
      if fault != NoFault then (DeleteSSHIdentity(added, stored).0, None)
      else
        var (next, s) := SetSSHIdentitySecret(added, r.value, EncryptSSHIdentity(key, nonce, r.value, payload));
        if s.Err? then (DeleteSSHIdentity(next, stored).0, None) else (next, Some(r.value))
  }

  ghost function Exec(db: Db, key: seq<byte>, c: Command): (r: (Db, Option<int>)) {
    match c
    case CreateTarget(n, payload, nonce, fault) => ExecCreate(db, key, n, payload, nonce, fault)
    case CreateStoredTarget(n, identity) =>
      var (next, r) := AddTarget(db, n.(kind := STORED_KEY, identityId := Some(identity)));
      (next, if r.Ok? then Some(r.value) else None)
    case ReplaceCredential(id, kind, payload, nonce, fault) => ExecReplace(db, key, id, kind, payload, nonce, fault)
    case UseStoredKey(id, identity) =>
      var (next, r) := SetTargetIdentity(db, id, identity); (next, if r.Ok? then Some(id) else None)
    case RemoveTarget(name) =>
      var t := TargetNamed(db, name); (DeleteTarget(db, name).0, t)
    case CreateIdentity(name, publicKey, fingerprint, payload, nonce, fault) =>
      ExecIdentity(db, key, name, publicKey, fingerprint, payload, nonce, fault)
    case RemoveIdentity(name) =>
      var i := IdentityNamed(db, Lower(name));
      var (next, r) := DeleteSSHIdentity(db, name); (next, if r.Ok? then i else None)
    case Other(call) => if StoresCredentials(call) then (db, None) else (Apply(db, call), None)
  }

  // ---------- reading a credential ----------

  datatype LoadError = NoTarget | NoReference | NoIdentity | NoSecret | Refused(error: SecretError)

  /** `loadCredential`; a missing secret does not open. */
  function LoadCredential(db: Db, key: seq<byte>, target: int): (r: Result<Payload, LoadError>) {
    if target !in db.targets then Err(NoTarget)
    else
      var row := db.targets[target];
      if row.kind == STORED_KEY then
        if row.identityId.None? then Err(NoReference)
        else if row.identityId.value !in db.identities then Err(NoIdentity)
        else Opened(db.identities[row.identityId.value].secret, key, Identity(row.identityId.value))
      else Opened(row.secret, key, Target(target, row.kind))
  }

  function Opened(secret: Option<Sealed>, key: seq<byte>, owner: Owner): (r: Result<Payload, LoadError>) {
    if secret.None? then Err(NoSecret)
    else
      match Unseal(key, secret.value, DataOf(owner))
      case Ok(payload) => Ok(payload)
      case Err(e) => Err(Refused(e))
  }

  // ---------- the map that the commands maintain ----------

  datatype Slot = Own(payload: Payload) | Stored(identity: int)

  /** What was last set for each target and each identity. */
  datatype Vault = Vault(targets: map<int, Slot>, identities: map<int, Payload>)

  /** What a command that succeeded for a row changes. */
  function Next(v: Vault, c: Command, r: Option<int>): (result: Vault) {
    if r.None? then v
    else
      match c
      case CreateTarget(_, payload, _, _) => v.(targets := v.targets[r.value := Own(payload)])
      case CreateStoredTarget(_, identity) => v.(targets := v.targets[r.value := Stored(identity)])
      case ReplaceCredential(_, _, payload, _, _) => v.(targets := v.targets[r.value := Own(payload)])
      case UseStoredKey(_, identity) => v.(targets := v.targets[r.value := Stored(identity)])
      case RemoveTarget(_) => v.(targets := v.targets - {r.value})
      case CreateIdentity(_, _, _, payload, _, _) => v.(identities := v.identities[r.value := payload])
      case RemoveIdentity(_) => v.(identities := v.identities - {r.value})
      case Other(_) => v
  }

  ghost predicate SealedFor(secret: Option<Sealed>, key: seq<byte>, owner: Owner, payload: Payload) {
    exists nonce :: secret == Some(Seal(key, nonce, payload, DataOf(owner)))
  }

  ghost predicate HoldsSlot(row: TargetRow, t: int, key: seq<byte>, slot: Slot, identities: set<int>) {
    match slot
    case Own(payload) =>
      row.kind != STORED_KEY && row.identityId.None? && SealedFor(row.secret, key, Target(t, row.kind), payload)
    case Stored(i) => row.kind == STORED_KEY && row.identityId == Some(i) && i in identities
  }

  ghost predicate TargetsHold(
    targets: map<int, TargetRow>, key: seq<byte>, slots: map<int, Slot>, identities: set<int>)
  {
    slots.Keys == targets.Keys && forall t :: t in targets ==> HoldsSlot(targets[t], t, key, slots[t], identities)
  }

  ghost predicate IdentitiesHold(identities: map<int, IdentityRow>, key: seq<byte>, payloads: map<int, Payload>) {
    payloads.Keys == identities.Keys
    && forall i :: i in identities ==> SealedFor(identities[i].secret, key, Identity(i), payloads[i])
  }

  ghost predicate Refines(db: Db, key: seq<byte>, v: Vault) {
    TargetsHold(db.targets, key, v.targets, db.identities.Keys) && IdentitiesHold(db.identities, key, v.identities)
  }

  // ---------- one row changes ----------

  lemma SlotSet(
    targets: map<int, TargetRow>, key: seq<byte>, slots: map<int, Slot>, identities: set<int>, t: int, row: TargetRow,
    slot: Slot)
    requires TargetsHold(targets, key, slots, identities) && HoldsSlot(row, t, key, slot, identities)
    ensures TargetsHold(targets[t := row], key, slots[t := slot], identities)
  {
    hide HoldsSlot;
  }

  lemma SlotRemoved(targets: map<int, TargetRow>, key: seq<byte>, slots: map<int, Slot>, identities: set<int>, t: int)
    requires TargetsHold(targets, key, slots, identities)
    ensures TargetsHold(targets - {t}, key, slots - {t}, identities)
  {
    hide HoldsSlot;
  }

  lemma MoreIdentities(
    targets: map<int, TargetRow>, key: seq<byte>, slots: map<int, Slot>, identities: set<int>, more: set<int>)
    requires TargetsHold(targets, key, slots, identities) && identities <= more
    ensures TargetsHold(targets, key, slots, more)
  {
    hide SealedFor;
  }

  lemma FewerIdentities(
    targets: map<int, TargetRow>, key: seq<byte>, slots: map<int, Slot>, identities: set<int>, i: int)
    requires TargetsHold(targets, key, slots, identities)
    requires forall t :: t in targets ==> targets[t].identityId != Some(i)
    ensures TargetsHold(targets, key, slots, identities - {i})
  {
    hide SealedFor;
  }

  lemma IdentitySet(
    identities: map<int, IdentityRow>, key: seq<byte>, payloads: map<int, Payload>, i: int, row: IdentityRow,
    payload: Payload)
    requires IdentitiesHold(identities, key, payloads) && SealedFor(row.secret, key, Identity(i), payload)
    ensures IdentitiesHold(identities[i := row], key, payloads[i := payload])
  {
    hide SealedFor;
  }

  lemma IdentityRemoved(identities: map<int, IdentityRow>, key: seq<byte>, payloads: map<int, Payload>, i: int)
    requires IdentitiesHold(identities, key, payloads)
    ensures IdentitiesHold(identities - {i}, key, payloads - {i})
  {
    hide SealedFor;
  }

  lemma SealsTarget(key: seq<byte>, nonce: seq<byte>, t: int, kind: string, payload: Payload)
    ensures SealedFor(Some(Encrypt(key, nonce, t, kind, payload)), key, Target(t, kind), payload)
  {
    assert Encrypt(key, nonce, t, kind, payload) == Seal(key, nonce, payload, DataOf(Target(t, kind)));
  }

  lemma SealsIdentity(key: seq<byte>, nonce: seq<byte>, i: int, payload: Payload)
    ensures SealedFor(Some(EncryptSSHIdentity(key, nonce, i, payload)), key, Identity(i), payload)
  {
    assert EncryptSSHIdentity(key, nonce, i, payload) == Seal(key, nonce, payload, DataOf(Identity(i)));
  }

  // ---------- one command ----------

  /** A creation that succeeds adds one target with the sealed payload; one that fails changes nothing. */
  lemma CreateEffect(db: Db, key: seq<byte>, n: NewTarget, payload: Payload, nonce: seq<byte>, fault: Fault)
    requires ForeignKeys(db)
    ensures var (next, r) := ExecCreate(db, key, n, payload, nonce, fault);
      if r.None? then next == db
      else
        r.value !in db.targets && r.value in next.targets && n.kind != STORED_KEY && var row := next.targets[r.value];
          next == db.(targets := db.targets[r.value := row]) && row.kind == n.kind && row.identityId.None?
          && row.secret == Some(Encrypt(key, nonce, r.value, n.kind, payload))
  {
    var m := n.(identityId := None);
    var (added, r) := AddTarget(db, m);
    if r.Ok? {
      var id := r.value;
      DeleteUndoesAddTarget(db, m);
      AddedTarget(db, m);
      AddedKind(db, m);
      hide AddTarget, DeleteTarget, ForeignKeys, TargetNamed, Encrypt;
      assert n.kind == m.kind && n.name == m.name;
      if fault != NoFault {
        assert ExecCreate(db, key, n, payload, nonce, fault) == (db, None);
      } else {
        var secret := Encrypt(key, nonce, id, n.kind, payload);
        var row := added.targets[id].(secret := Some(secret), identityId := None);
        var next := db.(targets := db.targets[id := row]);
        Overwritten(db.targets, id, added.targets[id], row);
        assert SetTargetCredential(added, id, secret) == (next, DONE);
        assert ExecCreate(db, key, n, payload, nonce, fault) == (next, Some(id));
      }
    } else {
      RefusedAddChangesNothing(db, m);
      hide AddTarget;
    }
  }

  lemma CreateRefines(db: Db, key: seq<byte>, n: NewTarget, payload: Payload, nonce: seq<byte>, fault: Fault, v: Vault)
    requires ForeignKeys(db) && Refines(db, key, v)
    ensures var (next, r) := ExecCreate(db, key, n, payload, nonce, fault);
      if r.None? then next == db else Refines(next, key, v.(targets := v.targets[r.value := Own(payload)]))
  {
    CreateEffect(db, key, n, payload, nonce, fault);
    hide ExecCreate, ForeignKeys, Encrypt, HoldsSlot, TargetsHold, IdentitiesHold, SealedFor;
    var (next, r) := ExecCreate(db, key, n, payload, nonce, fault);
    if r.Some? {
      var row := next.targets[r.value];
      SealsTarget(key, nonce, r.value, n.kind, payload);
      HoldsOwn(row, r.value, key, payload, db.identities.Keys);
      SlotSet(db.targets, key, v.targets, db.identities.Keys, r.value, row, Own(payload));
    }
  }

  /** What a created target loads, and that all others load what they did. */
  lemma CreatedLoads(db: Db, key: seq<byte>, n: NewTarget, payload: Payload, nonce: seq<byte>, fault: Fault)
    requires ForeignKeys(db)
    ensures var (next, r) := ExecCreate(db, key, n, payload, nonce, fault);
      (r.None? ==> next == db)
      && (r.Some? ==> r.value !in db.targets && LoadCredential(next, key, r.value) == Ok(payload.(version := 1)))
      && forall t :: t in db.targets ==> LoadCredential(next, key, t) == LoadCredential(db, key, t)
  {
    CreateEffect(db, key, n, payload, nonce, fault);
    hide ExecCreate, ForeignKeys, Encrypt, LoadCredential, SealedFor;
    var (next, r) := ExecCreate(db, key, n, payload, nonce, fault);
    if r.Some? {
      SealsTarget(key, nonce, r.value, n.kind, payload);
      OneMoreLoads(db, next, key, r.value, payload);
    }
  }

  lemma OneMoreLoads(db: Db, next: Db, key: seq<byte>, id: int, payload: Payload)
    requires id !in db.targets && id in next.targets && next == db.(targets := db.targets[id := next.targets[id]])
    requires var row := next.targets[id];
      row.kind != STORED_KEY && SealedFor(row.secret, key, Target(id, row.kind), payload)
    ensures LoadCredential(next, key, id) == Ok(payload.(version := 1))
    ensures forall t :: t in db.targets ==> LoadCredential(next, key, t) == LoadCredential(db, key, t)
  {
    hide LoadCredential, SealedFor;
    LoadsOwn(next, key, id, payload);
    forall t | t in db.targets ensures LoadCredential(next, key, t) == LoadCredential(db, key, t) {
      LoadsTheSame(db, next, key, t);
    }
  }

  lemma LoadsOwn(db: Db, key: seq<byte>, t: int, payload: Payload)
    requires t in db.targets && db.targets[t].kind != STORED_KEY
    requires SealedFor(db.targets[t].secret, key, Target(t, db.targets[t].kind), payload)
    ensures LoadCredential(db, key, t) == Ok(payload.(version := 1))
  {
    hide Opened, SealedFor;
    OpensAsSealed(db.targets[t].secret, key, Target(t, db.targets[t].kind), payload);
  }

  lemma LoadsTheSame(db: Db, next: Db, key: seq<byte>, t: int)
    requires t in db.targets && t in next.targets && next.targets[t] == db.targets[t]
    requires next.identities == db.identities
    ensures LoadCredential(next, key, t) == LoadCredential(db, key, t)
  {
    hide Opened;
  }

  lemma Overwritten<V>(m: map<int, V>, id: int, first: V, second: V)
    ensures m[id := first][id := second] == m[id := second]
  {
  }

  lemma HoldsOwn(row: TargetRow, t: int, key: seq<byte>, payload: Payload, identities: set<int>)
    requires row.kind != STORED_KEY && row.identityId.None? && SealedFor(row.secret, key, Target(t, row.kind), payload)
    ensures HoldsSlot(row, t, key, Own(payload), identities)
  {
  }

  lemma AddedKind(db: Db, n: NewTarget)
    requires AddTarget(db, n).1.Ok?
    ensures var (next, r) := AddTarget(db, n);
      r.value in next.targets && var row := next.targets[r.value];
        row.kind == n.kind && row.identityId == n.identityId
        && (n.identityId.Some? ==> n.identityId.value in db.identities) && (n.kind == STORED_KEY ==> n.identityId.Some?)
  {
    hide TrimSpace, ValidKind, ValidPort, NextId, TargetNamed;
  }

  lemma CreateStoredRefines(db: Db, key: seq<byte>, n: NewTarget, identity: int, v: Vault)
    requires Refines(db, key, v)
    ensures var (next, r) := AddTarget(db, n.(kind := STORED_KEY, identityId := Some(identity)));
      if r.Err? then next == db else Refines(next, key, v.(targets := v.targets[r.value := Stored(identity)]))
  {
    var m := n.(kind := STORED_KEY, identityId := Some(identity));
    var (next, r) := AddTarget(db, m);
    if r.Ok? {
      AddedTarget(db, m);
      AddedKind(db, m);
      hide AddTarget, TargetNamed, TargetsHold, IdentitiesHold;
      SlotSet(db.targets, key, v.targets, db.identities.Keys, r.value, next.targets[r.value], Stored(identity));
    } else {
      hide TrimSpace, ValidKind, ValidPort, NextId, TargetNamed, Refines;
    }
  }

  lemma ReplaceRefines(
    db: Db, key: seq<byte>, id: int, kind: string, payload: Payload, nonce: seq<byte>, fault: Fault, v: Vault)
    requires Refines(db, key, v)
    ensures var (next, r) := ExecReplace(db, key, id, kind, payload, nonce, fault);
      if r.None? then next == db else Refines(next, key, v.(targets := v.targets[r.value := Own(payload)]))
  {
    hide ValidKind, Encrypt, HoldsSlot, TargetsHold, IdentitiesHold, SealedFor;
    if ValidKind(kind) && kind != STORED_KEY && id in db.targets && fault == NoFault {
      var secret := Encrypt(key, nonce, id, kind, payload);
      var row := db.targets[id].(kind := kind, secret := Some(secret), identityId := None);
      assert ExecReplace(db, key, id, kind, payload, nonce, fault) == (db.(targets := db.targets[id := row]), Some(id));
      SealsTarget(key, nonce, id, kind, payload);
      HoldsOwn(row, id, key, payload, db.identities.Keys);
      SlotSet(db.targets, key, v.targets, db.identities.Keys, id, row, Own(payload));
    } else {
      assert ExecReplace(db, key, id, kind, payload, nonce, fault) == (db, None);
    }
  }

  lemma UseStoredRefines(db: Db, key: seq<byte>, id: int, identity: int, v: Vault)
    requires Refines(db, key, v)
    ensures var (next, r) := SetTargetIdentity(db, id, identity);
      if r.Err? then next == db else Refines(next, key, v.(targets := v.targets[id := Stored(identity)]))
  {
    hide TargetsHold, IdentitiesHold;
    if id in db.targets && identity in db.identities {
      var row := db.targets[id].(kind := STORED_KEY, secret := None, identityId := Some(identity));
      SlotSet(db.targets, key, v.targets, db.identities.Keys, id, row, Stored(identity));
    }
  }

  lemma RemoveTargetRefines(db: Db, key: seq<byte>, name: string, v: Vault)
    requires Refines(db, key, v)
    ensures var t := TargetNamed(db, name);
      if t.None? then DeleteTarget(db, name).0 == db
      else Refines(DeleteTarget(db, name).0, key, v.(targets := v.targets - {t.value}))
  {
    hide TargetNamed, TargetsHold, IdentitiesHold, GrantsWithoutTarget, ForwardsWithoutTarget, ForgetTargets;
    var t := TargetNamed(db, name);
    if t.Some? { SlotRemoved(db.targets, key, v.targets, db.identities.Keys, t.value); }
  }

  lemma AddedIdentity(db: Db, name: string, publicKey: string, fingerprint: string)
    requires AddSSHIdentity(db, name, publicKey, fingerprint).1.Ok?
    ensures var (next, r) := AddSSHIdentity(db, name, publicKey, fingerprint);
      r.value !in db.identities && ValidName(name).Some? && IdentityNamed(db, ValidName(name).value).None?
      && next == db.(identities := db.identities[
        r.value := IdentityRow(ValidName(name).value, publicKey, fingerprint, None)])
  {
    hide ValidName, TrimSpace, NextId, IdentityNamed;
    var id := NextId(db.identities.Keys);
    assert AddSSHIdentity(db, name, publicKey, fingerprint).1 == Ok(id);
  }

  /** Deleting an identity that was just added restores the database. */
  lemma DeleteUndoesAddIdentity(db: Db, name: string, publicKey: string, fingerprint: string)
    requires ForeignKeys(db) && AddSSHIdentity(db, name, publicKey, fingerprint).1.Ok?
    ensures var (added, r) := AddSSHIdentity(db, name, publicKey, fingerprint);
      r.value in added.identities && DeleteSSHIdentity(added, added.identities[r.value].name) == (db, DONE)
  {
    AddedIdentity(db, name, publicKey, fingerprint);
    ValidNameIsNormal(name);
    hide AddSSHIdentity, ValidName, TrimSpace, Lower;
    var (added, r) := AddSSHIdentity(db, name, publicKey, fingerprint);
    var id, valid := r.value, ValidName(name).value;
    OnlyIdentityNamesake(db, added, id);
    FreshIdentityUnused(db, added, id);
    hide ForeignKeys, IdentityNamed, IdentityUsed;
    RemoveFresh(db.identities, id, added.identities[id]);
    assert DeleteSSHIdentity(added, valid) == (added.(identities := added.identities - {id}), DONE);
  }

  lemma OnlyIdentityNamesake(db: Db, next: Db, id: int)
    requires id in next.identities && next.identities == db.identities[id := next.identities[id]]
    requires IdentityNamed(db, next.identities[id].name).None?
    ensures IdentityNamed(next, next.identities[id].name) == Some(id)
  {
  }

  lemma FreshIdentityUnused(db: Db, next: Db, id: int)
    requires ForeignKeys(db) && id !in db.identities && next.targets == db.targets
    ensures !IdentityUsed(next, id)
  {
  }

  lemma CreateIdentityRefines(
    db: Db, key: seq<byte>, name: string, publicKey: string, fingerprint: string, payload: Payload, nonce: seq<byte>,
    fault: Fault, v: Vault)
    requires ForeignKeys(db) && Refines(db, key, v)
    ensures var (next, r) := ExecIdentity(db, key, name, publicKey, fingerprint, payload, nonce, fault);
      if r.None? then next == db else Refines(next, key, v.(identities := v.identities[r.value := payload]))
  {
    var (added, r) := AddSSHIdentity(db, name, publicKey, fingerprint);
    if r.Ok? {
      var id := r.value;
      DeleteUndoesAddIdentity(db, name, publicKey, fingerprint);
      AddedIdentity(db, name, publicKey, fingerprint);
      hide AddSSHIdentity, DeleteSSHIdentity, ForeignKeys, ValidName, IdentityNamed, EncryptSSHIdentity,
        TargetsHold, IdentitiesHold, SealedFor;
      if fault != NoFault {
        assert ExecIdentity(db, key, name, publicKey, fingerprint, payload, nonce, fault) == (db, None);
      } else {
        var secret := EncryptSSHIdentity(key, nonce, id, payload);
        var row := added.identities[id].(secret := Some(secret));
        var next := db.(identities := db.identities[id := row]);
        Overwritten(db.identities, id, added.identities[id], row);
        assert SetSSHIdentitySecret(added, id, secret) == (next, DONE);
        assert ExecIdentity(db, key, name, publicKey, fingerprint, payload, nonce, fault) == (next, Some(id));
        SealsIdentity(key, nonce, id, payload);
        IdentitySet(db.identities, key, v.identities, id, row, payload);
        MoreIdentities(db.targets, key, v.targets, db.identities.Keys, next.identities.Keys);
      }
    } else {
      hide AddSSHIdentity;
    }
  }

  lemma RemoveIdentityRefines(db: Db, key: seq<byte>, name: string, v: Vault)
    requires Refines(db, key, v)
    ensures var (next, r) := DeleteSSHIdentity(db, name);
      if r.Err? then next == db
      else (IdentityNamed(db, Lower(name)).Some?
            && Refines(next, key, v.(identities := v.identities - {IdentityNamed(db, Lower(name)).value})))
  {
    hide Lower, IdentityNamed, TargetsHold, IdentitiesHold;
    var i := IdentityNamed(db, Lower(name));
    if i.Some? && !IdentityUsed(db, i.value) {
      FewerIdentities(db.targets, key, v.targets, db.identities.Keys, i.value);
      IdentityRemoved(db.identities, key, v.identities, i.value);
      assert (db.identities - {i.value}).Keys == db.identities.Keys - {i.value};
    }
  }

  /** A row that keeps its kind, secret and identity holds what it held. */
  lemma SlotKept(
    targets: map<int, TargetRow>, key: seq<byte>, slots: map<int, Slot>, identities: set<int>, t: int, row: TargetRow)
    requires TargetsHold(targets, key, slots, identities) && t in targets
    requires row.kind == targets[t].kind && row.secret == targets[t].secret && row.identityId == targets[t].identityId
    ensures TargetsHold(targets[t := row], key, slots, identities)
  {
    hide SealedFor;
    assert slots[t := slots[t]] == slots;
    SlotSet(targets, key, slots, identities, t, row, slots[t]);
  }

  lemma OtherRefines(db: Db, key: seq<byte>, call: Call, v: Vault)
    requires Refines(db, key, v) && !StoresCredentials(call)
    ensures Refines(Apply(db, call), key, v)
  {
    hide TargetsHold, IdentitiesHold;
    if call.OnTargets? {
      PlainTargetCall(db, key, call.callTarget, v);
    } else {
      assert Apply(db, call).targets == db.targets && Apply(db, call).identities == db.identities by {
        hide ApplyUser, ApplyLink, ApplyTotp, ApplyGroup, ApplyGrant, ApplyAudit;
        if call.OnUsers? { UsersLeaveTargets(db, call.callUser); }
      }
    }
  }

  lemma UsersLeaveTargets(db: Db, call: UserCall)
    ensures ApplyUser(db, call).targets == db.targets && ApplyUser(db, call).identities == db.identities
  {
    if call.DoDeleteUser? {
      hide Lower, UserNamed, OtherUsableAdmin, KeysWithoutUser, LinksWithoutUser, GrantsWithoutPrincipal, ForgetActors;
    } else {
      hide ApplyUser;
    }
  }

  lemma PlainTargetCall(db: Db, key: seq<byte>, call: TargetCall, v: Vault)
    requires Refines(db, key, v) && (call.DoUpdateTarget? || call.DoSetTargetHostKey? || call.DoSetTargetEnabled?)
    ensures Refines(ApplyTarget(db, call), key, v)
  {
    hide TargetsHold, IdentitiesHold, TargetNamed, ValidPort;
    var next, t := ApplyTarget(db, call), TargetNamed(db, call.name);
    if next != db {
      var row := next.targets[t.value];
      assert next == db.(targets := db.targets[t.value := row]);
      SlotKept(db.targets, key, v.targets, db.identities.Keys, t.value, row);
    }
  }

  /** Every command, wherever it fails, keeps the database in step with the map; and a command that
      fails leaves the whole database as it was. */
  lemma ExecRefines(db: Db, key: seq<byte>, c: Command, v: Vault)
    requires ForeignKeys(db) && Refines(db, key, v)
    ensures var (next, r) := Exec(db, key, c);
      Refines(next, key, Next(v, c, r)) && (r.None? && !c.Other? ==> next == db)
  {
    hide ForeignKeys, Refines, AddTarget, SetTargetIdentity, DeleteTarget, DeleteSSHIdentity, ExecCreate,
      ExecReplace, ExecIdentity, Lower, TargetNamed, IdentityNamed, Apply;
    match c
    case CreateTarget(n, payload, nonce, fault) => CreateRefines(db, key, n, payload, nonce, fault, v);
    case CreateStoredTarget(n, identity) => CreateStoredRefines(db, key, n, identity, v);
    case ReplaceCredential(id, kind, payload, nonce, fault) =>
      ReplaceRefines(db, key, id, kind, payload, nonce, fault, v);
    case UseStoredKey(id, identity) => UseStoredRefines(db, key, id, identity, v);
    case RemoveTarget(name) => RemoveTargetRefines(db, key, name, v);
    case CreateIdentity(name, publicKey, fingerprint, payload, nonce, fault) =>
      CreateIdentityRefines(db, key, name, publicKey, fingerprint, payload, nonce, fault, v);
    case RemoveIdentity(name) => RemoveIdentityRefines(db, key, name, v);
    case Other(call) => if !StoresCredentials(call) { OtherRefines(db, key, call, v); }
  }

  // ---------- runs of commands ----------

  lemma ExecKeeps(db: Db, key: seq<byte>, c: Command)
    requires Consistent(db)
    ensures Consistent(Exec(db, key, c).0)
  {
    hide Consistent, AddTarget, SetTargetIdentity, SetTargetCredential, SetTargetCredentialKind, DeleteTarget,
      DeleteSSHIdentity, AddSSHIdentity, SetSSHIdentitySecret, Lower, TargetNamed, IdentityNamed, Apply, Encrypt,
      EncryptSSHIdentity;
    match c
    case CreateTarget(n, payload, nonce, fault) =>
      var (added, r) := AddTarget(db, n.(identityId := None));
      AddTargetKeeps(db, n.(identityId := None));
      TargetCallKeeps(added, DoDeleteTarget(n.name));
      if r.Ok? {
        var secret := Encrypt(key, nonce, r.value, n.kind, payload);
        TargetCallKeeps(added, DoSetTargetCredential(r.value, secret));
        TargetCallKeeps(SetTargetCredential(added, r.value, secret).0, DoDeleteTarget(n.name));
      }
    case CreateStoredTarget(n, identity) => AddTargetKeeps(db, n.(kind := STORED_KEY, identityId := Some(identity)));
    case ReplaceCredential(id, kind, payload, nonce, fault) =>
      TargetCallKeeps(db, DoSetTargetCredentialKind(id, kind, Encrypt(key, nonce, id, kind, payload)));
    case UseStoredKey(id, identity) => TargetCallKeeps(db, DoSetTargetIdentity(id, identity));
    case RemoveTarget(name) => TargetCallKeeps(db, DoDeleteTarget(name));
    case CreateIdentity(name, publicKey, fingerprint, payload, nonce, fault) =>
      var (added, r) := AddSSHIdentity(db, name, publicKey, fingerprint);
      IdentityCallKeeps(db, DoAddSSHIdentity(name, publicKey, fingerprint));
      if r.Ok? && r.value in added.identities {
        var stored, secret := added.identities[r.value].name, EncryptSSHIdentity(key, nonce, r.value, payload);
        IdentityCallKeeps(added, DoDeleteSSHIdentity(stored));
        IdentityCallKeeps(added, DoSetSSHIdentitySecret(r.value, secret));
        IdentityCallKeeps(SetSSHIdentitySecret(added, r.value, secret).0, DoDeleteSSHIdentity(stored));
      }
    case RemoveIdentity(name) => IdentityCallKeeps(db, DoDeleteSSHIdentity(name));
    case Other(call) => ApplyKeeps(db, call);
  }

  /** The database and the map after a run. */
  ghost function ExecAll(db: Db, key: seq<byte>, v: Vault, commands: seq<Command>): (r: (Db, Vault))
    decreases |commands|
  {
    if commands == [] then (db, v)
    else
      var (next, r) := Exec(db, key, commands[0]);
      ExecAll(next, key, Next(v, commands[0], r), commands[1..])
  }

  lemma {:induction false} RunRefines(db: Db, key: seq<byte>, v: Vault, commands: seq<Command>)
    requires Consistent(db) && Refines(db, key, v)
    ensures var (after, w) := ExecAll(db, key, v, commands); Consistent(after) && Refines(after, key, w)
    decreases |commands|
  {
    if commands == [] {
    } else {
      ExecRefines(db, key, commands[0], v);
      ExecKeeps(db, key, commands[0]);
      hide Exec, Refines, Consistent;
      var (next, r) := Exec(db, key, commands[0]);
      RunRefines(next, key, Next(v, commands[0], r), commands[1..]);
    }
  }

  /** What a map says about a target. */
  function Meaning(v: Vault, target: int): (r: Option<Payload>) {
    if target !in v.targets then None
    else
      match v.targets[target]
      case Own(payload) => Some(payload)
      case Stored(i) => if i in v.identities then Some(v.identities[i]) else None
  }

  lemma OpensAsSealed(secret: Option<Sealed>, key: seq<byte>, owner: Owner, payload: Payload)
    requires SealedFor(secret, key, owner, payload)
    ensures Opened(secret, key, owner) == Ok(payload.(version := 1))
  {
    hide DataOf;
  }

  lemma LoadsMeaning(db: Db, key: seq<byte>, v: Vault, target: int)
    requires Refines(db, key, v)
    ensures target in db.targets <==> Meaning(v, target).Some?
    ensures target in db.targets ==> LoadCredential(db, key, target) == Ok(Meaning(v, target).value.(version := 1))
    ensures target in db.targets ==>
      var row := db.targets[target];
      row.kind == STORED_KEY <==> row.identityId.Some? && row.identityId.value in db.identities
  {
    hide SealedFor, Opened;
    if target in db.targets {
      var row := db.targets[target];
      assert HoldsSlot(row, target, key, v.targets[target], db.identities.Keys);
      match v.targets[target]
      case Own(payload) => OpensAsSealed(row.secret, key, Target(target, row.kind), payload);
      case Stored(i) => OpensAsSealed(db.identities[i].secret, key, Identity(i), v.identities[i]);
    }
  }

  /** After any run of commands from an empty database, loading a credential gives exactly the payload
      last set for the target, or that of the identity it refers to; and a target's kind is stored_key
      exactly if it refers to an identity that exists. */
  lemma LoadReturnsLastSet(key: seq<byte>, commands: seq<Command>, target: int)
    ensures var (db, v) := ExecAll(EMPTY_DB, key, Vault(map[], map[]), commands);
      (target in db.targets <==> Meaning(v, target).Some?)
      && (target in db.targets ==>
            LoadCredential(db, key, target) == Ok(Meaning(v, target).value.(version := 1))
            && var row := db.targets[target];
              (row.kind == STORED_KEY <==> row.identityId.Some? && row.identityId.value in db.identities))
  {
    assert Consistent(EMPTY_DB);
    assert Refines(EMPTY_DB, key, Vault(map[], map[]));
    hide Consistent, Refines, ExecAll, Meaning, LoadCredential;
    RunRefines(EMPTY_DB, key, Vault(map[], map[]), commands);
    var (db, v) := ExecAll(EMPTY_DB, key, Vault(map[], map[]), commands);
    LoadsMeaning(db, key, v, target);
  }

  /** A secret that is moved to another target's row, or whose row is given another kind, does not open. */
  lemma MovedSecretIsRefused(db: Db, key: seq<byte>, v: Vault, from: int, to: int, kind: string)
    requires Refines(db, key, v) && from in db.targets && v.targets[from].Own? && to in db.targets
    requires kind != STORED_KEY && (to != from || kind != db.targets[from].kind)
    ensures var row := db.targets[to].(kind := kind, secret := db.targets[from].secret);
      LoadCredential(db.(targets := db.targets[to := row]), key, to) == Err(Refused(AuthenticationFailed))
  {
    var source := db.targets[from];
    assert HoldsSlot(source, from, key, v.targets[from], db.identities.Keys);
    OthersDoNotOpen(source.secret, key, Target(from, source.kind), Target(to, kind), v.targets[from].payload);
    hide Opened, SealedFor, TargetsHold, IdentitiesHold, HoldsSlot;
    var row := db.targets[to].(kind := kind, secret := source.secret);
    var moved := db.(targets := db.targets[to := row]);
    assert moved.targets[to] == row;
    assert LoadCredential(moved, key, to) == Opened(source.secret, key, Target(to, kind));
  }

  lemma OthersDoNotOpen(secret: Option<Sealed>, key: seq<byte>, owner: Owner, reader: Owner, payload: Payload)
    requires SealedFor(secret, key, owner, payload) && reader != owner
    ensures Opened(secret, key, reader) == Err(Refused(AuthenticationFailed))
  {
    if DataOf(owner) == DataOf(reader) { DataInjective(owner, reader); }
    hide DataOf;
  }

  // ---------- the commands as the program runs them ----------

  /** `targetAdd` on the store, after the host key was obtained. */
  method TargetAdd(
    st: S.Store, key: seq<byte>, n: NewTarget, payload: Payload, nonce: seq<byte>, fault: Fault)
    returns (r: Option<int>)
    requires st.Valid()
    modifies st
    ensures st.Valid() && (st.db, r) == ExecCreate(old(st.db), key, n, payload, nonce, fault)
    ensures r.None? ==> st.db == old(st.db)
    ensures r.Some? ==>
      r.value !in old(st.db).targets && LoadCredential(st.db, key, r.value) == Ok(payload.(version := 1))
    ensures forall t :: t in old(st.db).targets ==> LoadCredential(st.db, key, t) == LoadCredential(old(st.db), key, t)
  {
    CreatedLoads(st.db, key, n, payload, nonce, fault);
    hide AddTarget, DeleteTarget, SetTargetCredential, Encrypt, Consistent, LoadCredential;
    var t := st.AddTarget(n.(identityId := None));
    if t.Err? {
      return None;
    }
    if fault == BeforeWrite {
      var _ := st.DeleteTarget(n.name);
      return None;
    }
    var sealed := Encrypt(key, nonce, t.value, n.kind, payload);
    if fault == WriteFails {
      var _ := st.DeleteTarget(n.name);
      return None;
    }
    var e := st.SetTargetCredential(t.value, sealed);
    if e.Err? {
      var _ := st.DeleteTarget(n.name);
      return None;
    }
    r := Some(t.value);
  }

  lemma RefusedAddChangesNothing(db: Db, n: NewTarget)
    requires AddTarget(db, n).1.Err?
    ensures AddTarget(db, n).0 == db
  {
    hide TrimSpace, ValidKind, ValidPort, NextId, TargetNamed;
  }

  /** `loadCredential` on the store. */
  method Load(st: S.Store, key: seq<byte>, target: int) returns (r: Result<Payload, LoadError>)
    ensures r == LoadCredential(st.db, key, target)
    ensures forall v :: Refines(st.db, key, v) ==>
      r == if Meaning(v, target).Some? then Ok(Meaning(v, target).value.(version := 1)) else Err(NoTarget)
  {
    forall v | Refines(st.db, key, v)
      ensures LoadCredential(st.db, key, target)
        == if Meaning(v, target).Some? then Ok(Meaning(v, target).value.(version := 1)) else Err(NoTarget)
    {
      LoadsMeaning(st.db, key, v, target);
    }
    hide Refines, Meaning;
    if target !in st.db.targets {
      return Err(NoTarget);
    }
    var row := st.db.targets[target];
    var plain: Result<Payload, SecretError>;
    if row.kind == STORED_KEY {
      if row.identityId.None? {
        return Err(NoReference);
      }
      if row.identityId.value !in st.db.identities {
        return Err(NoIdentity);
      }
      var identity := st.db.identities[row.identityId.value];
      if identity.secret.None? {
        return Err(NoSecret);
      }
      plain := DecryptSSHIdentity(key, row.identityId.value, identity.secret.value);
    } else {
      if row.secret.None? {
        return Err(NoSecret);
      }
      plain := Decrypt(key, target, row.kind, row.secret.value);
    }
    r := if plain.Ok? then Ok(plain.value) else Err(Refused(plain.error));
  }
}
