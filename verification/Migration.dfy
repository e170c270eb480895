/** The migrations of the database file, as they run whenever it is opened: a script of statements that
    each take effect at once, and then six steps that are one transaction each. Two of the steps check
    the foreign keys after their transaction. A crash is possible before every statement, every
    transaction and every check; the next time the file is opened everything runs again. */
module Migration {
  import opened Wrappers
  import opened Secrets
  import opened Database

  const LATEST: nat := 7

  /** A target before identities existed. */
  datatype OldTarget = OldTarget(
    name: string, host: string, port: int, remoteUser: string, kind: string, secret: Option<Sealed>,
    hostKeyAlgorithm: string, hostKey: string, enabled: bool)

  /** The targets table and the kinds its CHECK allows, or the table with the identity column. */
  datatype Targets = Old(rows: map<int, OldTarget>, kinds: set<string>) | New(table: map<int, TargetRow>)

  /** A grant table without columns for capabilities, or with them. */
  datatype Grants = Plain(pairs: set<(int, int)>) | Detailed(grants: map<(int, int), Capabilities>)

  /** The file. The names of the script's tables and indexes that exist are in `created`; for the tables
      of later steps None means that they do not exist yet. */
  datatype File = File(
    created: set<string>, versions: set<nat>, users: map<int, UserRow>, keys: map<int, KeyRow>,
    groups: map<int, string>, members: set<(int, int)>,
    targets: Targets, identities: Option<map<int, IdentityRow>>, userGrants: Grants, groupGrants: Grants,
    forwards: Option<map<int, ForwardRow>>, audit: map<int, AuditRow>, totp: Option<map<int, TotpRow>>,
    links: Option<map<int, LinkRow>>)

  const FIRST_KINDS := {PASSWORD, PRIVATE_KEY}
  const SECOND_KINDS := {PASSWORD, PRIVATE_KEY, FORWARDED_AGENT}

  /** A new file. */
  const EMPTY_FILE :=
    File({}, {}, map[], map[], map[], {}, Old(map[], FIRST_KINDS), None, Plain({}), Plain({}), None, map[], None, None)

  // ---------- what a file means ----------

  /** Before there were capabilities a grant meant shell, SFTP and SCP, and no forwarding. */
  const IMPLIED := Capabilities(true, true, true, false)

  function GrantsMeant(g: Grants): (r: map<(int, int), Capabilities>) {
    match g
    case Plain(pairs) => map p | p in pairs :: IMPLIED
    case Detailed(grants) => grants
  }

  function WithIdentity(row: OldTarget): (r: TargetRow) {
    TargetRow(row.name, row.host, row.port, row.remoteUser, row.kind, row.hostKeyAlgorithm, row.hostKey, row.enabled,
      row.secret, None)
  }

  function TargetsMeant(t: Targets): (r: map<int, TargetRow>) {
    match t
    case Old(rows, _) => map i | i in rows :: WithIdentity(rows[i])
    case New(table) => table
  }

  function OrEmpty<V>(table: Option<map<int, V>>): (r: map<int, V>) { if table.Some? then table.value else map[] }

  /** The database that a file of any version stands for. */
  function Meaning(f: File): (r: Db) {
    Db(f.users, f.keys, f.groups, f.members, TargetsMeant(f.targets), OrEmpty(f.identities), GrantsMeant(f.userGrants),
       GrantsMeant(f.groupGrants), OrEmpty(f.forwards), f.audit, OrEmpty(f.totp), OrEmpty(f.links))
  }

  // ---------- the script ----------

  /** The tables and indexes that the script creates if they do not exist, in its order. */
  function Script(): (names: seq<string>)
    ensures |names| == LENGTH
  {
    ["schema_migrations", "users", "gateway_keys", "groups_table", "group_members", "targets", "user_target_grants",
     "group_target_grants", "audit_events", "audit_at_idx", "audit_actor_idx", "audit_target_idx"]
  }

  const LENGTH: nat := 12

  /** One statement of the script; the last one records version 1 unless it is recorded. */
  function Statement(k: nat, f: File): (r: File)
    requires k <= LENGTH
  {
    if k < LENGTH then f.(created := f.created + {Script()[k]}) else f.(versions := f.versions + {1})
  }

  /** The file after some of the statements. */
  function Played(k: nat, f: File, count: nat): (r: File)
    requires k + count <= LENGTH + 1
    decreases count
  {
    if count == 0 then f else Played(k + 1, Statement(k, f), count - 1)
  }

  // ---------- the steps ----------

  /** SELECT of all rows. */
  function AllRows<V>(table: map<int, V>): (r: map<int, V>) { map k | k in table :: table[k] }

  /** Inserting the rows into the table with the wider CHECK; None if a row violates it. */
  function CopyTargets(rows: map<int, OldTarget>): (r: Option<map<int, OldTarget>>) {
    if exists i :: i in rows && rows[i].kind !in SECOND_KINDS then None else Some(AllRows(rows))
  }

  predicate AnyKind(kind: string) {
    kind == PASSWORD || kind == PRIVATE_KEY || kind == FORWARDED_AGENT || kind == STORED_KEY
  }

  /** Inserting the columns of the old table into the one with the identity column, which stays NULL. */
  function WidenTargets(rows: map<int, OldTarget>): (r: Option<map<int, TargetRow>>) {
    if exists i :: i in rows && !AnyKind(rows[i].kind) then None
    else
      Some(map i | i in rows ::
        TargetRow(rows[i].name, rows[i].host, rows[i].port, rows[i].remoteUser, rows[i].kind,
                  rows[i].hostKeyAlgorithm, rows[i].hostKey, rows[i].enabled, rows[i].secret, None))
  }

  function CopyKeys(keys: map<int, KeyRow>): (r: Option<map<int, KeyRow>>) {
    if exists i, j :: i in keys && j in keys && i != j && SameKey(keys[i], keys[j]) then None else Some(AllRows(keys))
  }

  /** New columns take their defaults in every row. */
  function AddColumns(g: Grants): (r: Option<Grants>) {
    match g
    case Plain(pairs) => Some(Detailed(map p | p in pairs :: Capabilities(true, true, true, false)))
    case Detailed(_) => None
  }

  /** One step with the record of its version; None if a statement fails, and then nothing is written. */
  function Step(version: nat, f: File): (r: Option<File>) {
    if version in f.versions || "schema_migrations" !in f.created then None
    else
      var g := f.(versions := f.versions + {version});
      if version == 2 then
        if f.targets.New? || "targets" !in f.created then None
        else
          var rows := CopyTargets(f.targets.rows);
          if rows.None? then None else Some(g.(targets := Old(rows.value, SECOND_KINDS)))
      else if version == 3 then
        if f.targets.New? || f.identities.Some? || "targets" !in f.created then None
        else
          var table := WidenTargets(f.targets.rows);
          if table.None? then None else Some(g.(identities := Some(map[]), targets := New(table.value)))
      else if version == 4 then Some(g.(totp := if f.totp.Some? then f.totp else Some(map[])))
      else if version == 5 then
        var keys := CopyKeys(f.keys);
        if keys.None? || "gateway_keys" !in f.created then None else Some(g.(keys := keys.value))
      else if version == 6 then
        var users, groups := AddColumns(f.userGrants), AddColumns(f.groupGrants);
        if users.None? || groups.None? || f.forwards.Some? || "user_target_grants" !in f.created
          || "group_target_grants" !in f.created
        then None
        else Some(g.(userGrants := users.value, groupGrants := groups.value, forwards := Some(map[])))
      else if version == 7 then if f.links.Some? then None else Some(g.(links := Some(map[])))
      else None
  }

  /** The two steps that swap the targets table run without foreign keys and check them afterwards. */
  predicate Checks(version: nat) { version == 2 || version == 3 }

  datatype End = Finished | Crashed | Failed

  /** The steps from a version on, which crash after the given number of transactions and checks. */
  ghost function Migrated(version: nat, f: File, steps: nat): (r: (File, End))
    decreases LATEST + 1 - version
  {
    if version > LATEST then (f, Finished)
    else if version in f.versions then Migrated(version + 1, f, steps)
    else if steps == 0 then (f, Crashed)
    else
      var next := Step(version, f);
      if next.None? then (f, Failed)
      else if !Checks(version) then Migrated(version + 1, next.value, steps - 1)
      else if steps == 1 then (next.value, Crashed)
      else if !ForeignKeys(Meaning(next.value)) then (next.value, Failed)
      else Migrated(version + 1, next.value, steps - 2)
  }

  /** migrate(), from a statement of the script on. */
  ghost function Started(k: nat, f: File, steps: nat): (r: (File, End))
    requires k <= LENGTH + 1
    decreases LENGTH + 1 - k
  {
    if k > LENGTH then Migrated(2, f, steps)
    else if steps == 0 then (f, Crashed)
    else Started(k + 1, Statement(k, f), steps - 1)
  }

  /** Opening the file: all statements, transactions and checks until the given number is done. */
  ghost function Opening(f: File, steps: nat): (r: (File, End)) { Started(0, f, steps) }

  /** As many as there can be. */
  const ALL: nat := LENGTH + 1 + 8

  // ---------- every step preserves the meaning ----------

  lemma TargetsPreserved(rows: map<int, OldTarget>, kinds: set<string>)
    ensures CopyTargets(rows).Some? ==> CopyTargets(rows).value == rows
    ensures WidenTargets(rows).Some? ==> WidenTargets(rows).value == TargetsMeant(Old(rows, kinds))
  {
    Copied(rows);
    if WidenTargets(rows).Some? {
      var wide, meant := WidenTargets(rows).value, TargetsMeant(Old(rows, kinds));
      assert wide.Keys == rows.Keys && meant.Keys == rows.Keys;
      forall i | i in rows ensures wide[i] == meant[i] { assert meant[i] == WithIdentity(rows[i]); }
    }
  }

  lemma KeysPreserved(keys: map<int, KeyRow>)
    ensures CopyKeys(keys).Some? ==> CopyKeys(keys).value == keys
    ensures CopyKeys(keys).Some? <==> UniqueKeys(keys)
  {
    hide SameKey;
    Copied(keys);
  }

  lemma Copied<V>(table: map<int, V>)
    ensures AllRows(table) == table
  {
  }

  lemma GrantsPreserved(g: Grants)
    ensures AddColumns(g).Some? ==> GrantsMeant(AddColumns(g).value) == GrantsMeant(g)
  {
  }

  /** No step changes what the file means: all rows keep their ids and their content, and every old
      grant still means shell, SFTP and SCP but no forwarding. */
  lemma StepPreserves(version: nat, f: File)
    requires Step(version, f).Some?
    ensures Meaning(Step(version, f).value) == Meaning(f)
    ensures Step(version, f).value.versions == f.versions + {version} && Step(version, f).value.created == f.created
  {
    hide CopyTargets, WidenTargets, CopyKeys, AddColumns, TargetsMeant, GrantsMeant;
    if version == 2 {
      TargetsPreserved(f.targets.rows, f.targets.kinds);
      SameRowsMeanTheSame(f.targets.rows, f.targets.kinds, SECOND_KINDS);
    } else if version == 3 {
      TargetsPreserved(f.targets.rows, f.targets.kinds);
      NewMeansItself(WidenTargets(f.targets.rows).value);
    } else if version == 5 {
      KeysPreserved(f.keys);
    } else if version == 6 {
      GrantsPreserved(f.userGrants);
      GrantsPreserved(f.groupGrants);
    }
  }

  lemma SameRowsMeanTheSame(rows: map<int, OldTarget>, one: set<string>, two: set<string>)
    ensures TargetsMeant(Old(rows, one)) == TargetsMeant(Old(rows, two))
  {
    hide WithIdentity;
    assert TargetsMeant(Old(rows, one)).Keys == TargetsMeant(Old(rows, two)).Keys;
  }

  lemma NewMeansItself(table: map<int, TargetRow>)
    ensures TargetsMeant(New(table)) == table
  {
  }

  lemma {:induction false} MigratedPreserves(version: nat, f: File, steps: nat)
    ensures Meaning(Migrated(version, f, steps).0) == Meaning(f)
    decreases LATEST + 1 - version
  {
    hide Meaning, Step, ForeignKeys;
    if version > LATEST {
    } else if version in f.versions {
      MigratedPreserves(version + 1, f, steps);
    } else if steps > 0 && Step(version, f).Some? {
      StepPreserves(version, f);
      var next := Step(version, f).value;
      MigratedPreserves(version + 1, next, steps - 1);
      if steps > 1 { MigratedPreserves(version + 1, next, steps - 2); }
    }
  }

  lemma StatementPreserves(k: nat, f: File)
    requires k <= LENGTH
    ensures Meaning(Statement(k, f)) == Meaning(f)
  {
    hide Script;
  }

  lemma {:induction false} StartedPreserves(k: nat, f: File, steps: nat)
    requires k <= LENGTH + 1
    ensures Meaning(Started(k, f, steps).0) == Meaning(f)
    decreases LENGTH + 1 - k
  {
    hide Meaning, Statement, Migrated;
    if k > LENGTH {
      MigratedPreserves(2, f, steps);
    } else if steps > 0 {
      StatementPreserves(k, f);
      StartedPreserves(k + 1, Statement(k, f), steps - 1);
    }
  }

  /** Opening a file, whether it crashes, fails or finishes, never changes what it means. */
  lemma MigrationPreserves(f: File, steps: nat)
    ensures Meaning(Opening(f, steps).0) == Meaning(f)
  {
    hide Meaning, Started;
    StartedPreserves(0, f, steps);
  }

  // ---------- the script runs to its end, or is run again ----------

  /** What the statements of a range create. */
  function Names(k: nat, count: nat): (r: set<string>) {
    set i | k <= i < k + count && i < LENGTH :: Script()[i]
  }

  lemma NamesNext(k: nat, count: nat)
    requires count > 0
    ensures k < LENGTH ==> {Script()[k]} + Names(k + 1, count - 1) == Names(k, count)
    ensures k >= LENGTH ==> Names(k + 1, count - 1) == Names(k, count)
  {
    hide Script;
  }

  lemma {:induction false} PlayedAdds(k: nat, f: File, count: nat)
    requires k + count <= LENGTH + 1
    ensures Played(k, f, count) == f.(
      created := f.created + Names(k, count),
      versions := if k + count > LENGTH && count > 0 then f.versions + {1} else f.versions)
    decreases count
  {
    hide Script;
    if count == 0 {
      assert Names(k, 0) == {} && f.created + {} == f.created;
    } else {
      NamesNext(k, count);
      hide Names, Played;
      assert Played(k, f, count) == Played(k + 1, Statement(k, f), count - 1) by { PlaysFirst(k, f, count); }
      PlayedAdds(k + 1, Statement(k, f), count - 1);
      Joined(f.created, if k < LENGTH then {Script()[k]} else {}, Names(k + 1, count - 1));
    }
  }

  lemma PlaysFirst(k: nat, f: File, count: nat)
    requires 0 < count && k + count <= LENGTH + 1
    ensures Played(k, f, count) == Played(k + 1, Statement(k, f), count - 1)
  {
    hide Statement;
  }

  lemma Joined(one: set<string>, two: set<string>, three: set<string>)
    ensures one + two + three == one + (two + three)
    ensures {} + three == three
  {
  }

  /** Until the script is done a crash leaves what was played; after that the steps begin. */
  lemma {:induction false} StartedPlays(k: nat, f: File, steps: nat)
    requires k <= LENGTH + 1
    ensures var rest := LENGTH + 1 - k;
      Started(k, f, steps) == if steps < rest then (Played(k, f, steps), Crashed)
                              else Migrated(2, Played(k, f, rest), steps - rest)
    decreases LENGTH + 1 - k
  {
    hide Statement, Migrated;
    if k > LENGTH || steps == 0 {
    } else {
      StartedPlays(k + 1, Statement(k, f), steps - 1);
    }
  }

  /** Playing the script again, after any part of it or all of it, changes nothing that it would not. */
  lemma PlayedAgain(f: File, count: nat)
    requires count <= LENGTH + 1
    ensures Played(0, Played(0, f, count), LENGTH + 1) == Played(0, f, LENGTH + 1)
  {
    hide Script;
    PlayedAdds(0, f, count);
    PlayedAdds(0, Played(0, f, count), LENGTH + 1);
    PlayedAdds(0, f, LENGTH + 1);
    assert Names(0, count) <= Names(0, LENGTH + 1);
    assert f.created + Names(0, count) + Names(0, LENGTH + 1) == f.created + Names(0, LENGTH + 1);
  }

  // ---------- versions are a prefix ----------

  function Versions(n: nat): (r: set<nat>)
    ensures forall v :: v in r <==> 1 <= v <= n
  {
    if n == 0 then {} else Versions(n - 1) + {n}
  }

  /** What the step behind the last recorded version does, and where the migration goes on. */
  lemma Unfolds(f: File, n: nat, steps: nat)
    requires 1 <= n < LATEST && f.versions == Versions(n) && steps > 0
    ensures Step(n + 1, f).None? ==> Migrated(n + 1, f, steps) == (f, Failed)
    ensures Step(n + 1, f).Some? ==>
      var next := Step(n + 1, f).value;
      && next.versions == Versions(n + 1) && next.created == f.created && Meaning(next) == Meaning(f)
      && Migrated(n + 1, f, steps)
        == if !Checks(n + 1) then Migrated(n + 2, next, steps - 1)
           else if steps == 1 then (next, Crashed)
           else if !ForeignKeys(Meaning(f)) then (next, Failed)
           else Migrated(n + 2, next, steps - 2)
  {
    hide Meaning, Step, ForeignKeys;
    assert n + 1 !in f.versions;
    if Step(n + 1, f).Some? {
      StepPreserves(n + 1, f);
      assert Versions(n + 1) == Versions(n) + {n + 1};
    }
  }

  /** Nothing left to do, or nothing that may be done. */
  lemma Stops(f: File, n: nat, steps: nat)
    requires 1 <= n <= LATEST && f.versions == Versions(n)
    ensures n == LATEST ==> Migrated(n + 1, f, steps) == (f, Finished)
    ensures n < LATEST && steps == 0 ==> Migrated(n + 1, f, steps) == (f, Crashed)
  {
    hide Meaning, Step, ForeignKeys;
  }

  /** The recorded versions that the steps leave, and all of them if they finish; the script's tables stay. */
  lemma {:induction false} MigratedVersions(f: File, n: nat, steps: nat) returns (m: nat)
    requires 1 <= n <= LATEST && f.versions == Versions(n)
    ensures Migrated(n + 1, f, steps).0.created == f.created
    ensures n <= m <= LATEST && Migrated(n + 1, f, steps).0.versions == Versions(m)
    ensures Migrated(n + 1, f, steps).1.Finished? ==> m == LATEST
    decreases LATEST + 1 - n
  {
    hide Meaning, Step, ForeignKeys, Migrated;
    m := n;
    if n == LATEST || steps == 0 {
      Stops(f, n, steps);
    } else {
      Unfolds(f, n, steps);
      if Step(n + 1, f).Some? {
        var next := Step(n + 1, f).value;
        if !Checks(n + 1) {
          m := MigratedVersions(next, n + 1, steps - 1);
        } else if steps > 1 && ForeignKeys(Meaning(f)) {
          m := MigratedVersions(next, n + 1, steps - 2);
        } else {
          m := n + 1;
        }
      }
    }
  }

  /** Versions that are recorded are passed over. */
  lemma {:induction false} PassesOver(version: nat, f: File, n: nat, steps: nat)
    requires 2 <= version <= n + 1 && n <= LATEST && f.versions == Versions(n)
    ensures Migrated(version, f, steps) == Migrated(n + 1, f, steps)
    decreases n + 1 - version
  {
    if version > n {
    } else {
      PassesOver(version + 1, f, n, steps);
    }
  }

  function Max(a: nat, b: nat): (r: nat) { if a < b then b else a }

  /** The script leaves the versions as a prefix. */
  lemma PlayedVersions(f: File, n: nat)
    requires f.versions == Versions(n)
    ensures Played(0, f, LENGTH + 1).versions == Versions(Max(n, 1))
  {
    PlayedAdds(0, f, LENGTH + 1);
    assert Played(0, f, LENGTH + 1).versions == f.versions + {1};
  }

  /** Opening begins with the script, unless it crashes within, and goes on behind the last version. */
  lemma OpeningIs(f: File, n: nat, steps: nat)
    requires n <= LATEST && f.versions == Versions(n)
    ensures Opening(f, steps) == if steps <= LENGTH then (Played(0, f, steps), Crashed)
      else Migrated(Max(n, 1) + 1, Played(0, f, LENGTH + 1), steps - LENGTH - 1)
  {
    hide Played, Migrated, Started, Statement, Meaning;
    StartedPlays(0, f, steps);
    if steps > LENGTH {
      PlayedVersions(f, n);
      PassesOver(2, Played(0, f, LENGTH + 1), Max(n, 1), steps - LENGTH - 1);
    }
  }

  /** The recorded versions are always 1 to n for some n, never fewer than before, and all when it finishes. */
  lemma VersionsArePrefix(f: File, n: nat, steps: nat) returns (m: nat)
    requires n <= LATEST && f.versions == Versions(n)
    ensures n <= m <= LATEST && Opening(f, steps).0.versions == Versions(m)
    ensures Opening(f, steps).1.Finished? ==> m == LATEST
  {
    hide Opening, Migrated, Played;
    OpeningIs(f, n, steps);
    if steps <= LENGTH {
      PlayedAdds(0, f, steps);
      m := n;
    } else {
      PlayedVersions(f, n);
      m := MigratedVersions(Played(0, f, LENGTH + 1), Max(n, 1), steps - LENGTH - 1);
    }
  }

  // ---------- migration succeeds ----------

  /** The tables are those that the recorded versions have created. */
  predicate Shaped(f: File, n: nat) {
    && f.versions == Versions(n) && (n >= 1 ==> Names(0, LENGTH + 1) <= f.created)
    && (f.targets.New? <==> n >= 3) && (f.identities.Some? <==> n >= 3) && (n < 4 ==> f.totp.None?)
    && (f.userGrants.Detailed? <==> n >= 6) && (f.groupGrants.Detailed? <==> n >= 6) && (f.forwards.Some? <==> n >= 6)
    && (f.links.Some? <==> n >= 7)
  }

  /** The kinds that each table's CHECK lets in. */
  ghost predicate KindsChecked(f: File) {
    f.targets.Old? ==> forall i :: i in f.targets.rows ==> f.targets.rows[i].kind in SECOND_KINDS
  }

  lemma AllNames()
    ensures {"schema_migrations", "targets", "gateway_keys", "user_target_grants", "group_target_grants"}
         <= Names(0, LENGTH + 1)
  {
    assert Script()[0] == "schema_migrations" && Script()[5] == "targets" && Script()[2] == "gateway_keys"
      && Script()[6] == "user_target_grants" && Script()[7] == "group_target_grants";
  }

  /** After the script the file is that of the first version at least. */
  lemma PlayedShapes(f: File, n: nat)
    requires Shaped(f, n) && KindsChecked(f)
    ensures var g := Played(0, f, LENGTH + 1);
      Shaped(g, Max(n, 1)) && KindsChecked(g) && Meaning(g) == Meaning(f) && g.keys == f.keys
  {
    hide Script;
    PlayedVersions(f, n);
    PlayedAdds(0, f, LENGTH + 1);
  }

  /** A step fails at most for a key that a user has twice. */
  lemma StepSucceeds(f: File, n: nat)
    requires 1 <= n < LATEST && Shaped(f, n) && KindsChecked(f) && (n == 4 ==> UniqueKeys(f.keys))
    ensures Step(n + 1, f).Some? && Shaped(Step(n + 1, f).value, n + 1) && KindsChecked(Step(n + 1, f).value)
    ensures Step(n + 1, f).value.keys == f.keys
  {
    AllNames();
    hide Names, Script;
    KeysPreserved(f.keys);
    if f.targets.Old? { TargetsPreserved(f.targets.rows, f.targets.kinds); }
    assert Versions(n + 1) == Versions(n) + {n + 1};
  }

  /** The steps finish if the keys are unique and the references intact, or no longer checked. */
  lemma {:induction false} StepsFinish(f: File, n: nat, steps: nat)
    requires 1 <= n <= LATEST && Shaped(f, n) && KindsChecked(f) && UniqueKeys(f.keys)
    requires steps >= Needed(n) && (ForeignKeys(Meaning(f)) || n >= 3)
    ensures var (after, end) := Migrated(n + 1, f, steps);
      end.Finished? && Shaped(after, LATEST) && KindsChecked(after) && Meaning(after) == Meaning(f)
    decreases LATEST - n
  {
    hide Shaped, KindsChecked, Meaning, Step, ForeignKeys, UniqueKeys, Migrated;
    ShapedVersions(f, n);
    if n == LATEST {
      Stops(f, n, steps);
    } else {
      StepSucceeds(f, n);
      Unfolds(f, n, steps);
      StepsFinish(Step(n + 1, f).value, n + 1, if Checks(n + 1) then steps - 2 else steps - 1);
    }
  }

  lemma ShapedVersions(f: File, n: nat)
    requires Shaped(f, n)
    ensures f.versions == Versions(n)
  {
  }

  /** Transactions and checks from a version on. */
  function Needed(n: nat): (r: nat)
    decreases LATEST - n
  {
    if n >= LATEST then 0 else Needed(n + 1) + if Checks(n + 1) then 2 else 1
  }

  lemma NeededAll(n: nat)
    requires n >= 1
    ensures Needed(n) <= 8
  {
    assert Needed(6) == 1 && Needed(4) == 3 && Needed(2) == 6 && Needed(1) == 8;
  }

  /** A file that migrations up to n have left. */
  ghost predicate Ready(f: File, n: nat) {
    Shaped(f, n) && KindsChecked(f) && Consistent(Meaning(f))
  }

  /** Opening a consistent file of any version always finishes; the foreign-key check cannot fail. */
  lemma ConsistentFileMigrates(f: File, n: nat)
    requires n <= LATEST && Ready(f, n)
    ensures var (after, end) := Opening(f, ALL);
      end.Finished? && Ready(after, LATEST) && Meaning(after) == Meaning(f)
  {
    assert UniqueKeys(f.keys) && ForeignKeys(Meaning(f)) by { hide ForeignKeys; }
    hide Consistent, ForeignKeys, UniqueKeys, KindsChecked, Meaning, Opening, Migrated, Played;
    ShapedVersions(f, n);
    OpeningIs(f, n, ALL);
    PlayedShapes(f, n);
    hide Shaped;
    NeededAll(Max(n, 1));
    StepsFinish(Played(0, f, LENGTH + 1), Max(n, 1), 8);
  }

  /** A new file becomes an empty database. */
  lemma NewFileMigrates()
    ensures var (after, end) := Opening(EMPTY_FILE, ALL); end.Finished? && Meaning(after) == EMPTY_DB
  {
    assert Meaning(EMPTY_FILE) == EMPTY_DB;
    assert Consistent(EMPTY_DB);
    assert Shaped(EMPTY_FILE, 0) && KindsChecked(EMPTY_FILE);
    assert Ready(EMPTY_FILE, 0);
    hide Ready, Meaning, Opening;
    ConsistentFileMigrates(EMPTY_FILE, 0);
  }

  // ---------- migration resumes ----------

  /** More steps than are needed make no difference. */
  lemma {:induction false} EnoughSteps(f: File, n: nat, one: nat, two: nat)
    requires 1 <= n <= LATEST && f.versions == Versions(n) && one >= Needed(n) && two >= Needed(n)
    ensures Migrated(n + 1, f, one) == Migrated(n + 1, f, two)
    decreases LATEST - n
  {
    hide Meaning, Step, ForeignKeys, Migrated;
    if n == LATEST {
      Stops(f, n, one);
      Stops(f, n, two);
    } else {
      Unfolds(f, n, one);
      Unfolds(f, n, two);
      if Step(n + 1, f).Some? {
        var done := if Checks(n + 1) then 2 else 1;
        EnoughSteps(Step(n + 1, f).value, n + 1, one - done, two - done);
      }
    }
  }

  /** From where an opening has left it, with the references intact or the checks behind, or if nothing
      was done, the migration ends as one that was not interrupted. */
  lemma {:induction false} ResumesFrom(f: File, n: nat, steps: nat)
    requires 1 <= n <= LATEST && f.versions == Versions(n)
    requires ForeignKeys(Meaning(f)) || n >= 3 || steps == 0
    ensures Migrated(2, Migrated(n + 1, f, steps).0, 8) == Migrated(n + 1, f, 8)
    decreases steps
  {
    hide Meaning, Step, ForeignKeys, Migrated;
    NeededAll(n);
    if n == LATEST || steps == 0 {
      Stops(f, n, steps);
      PassesOver(2, f, n, 8);
    } else {
      Unfolds(f, n, steps);
      Unfolds(f, n, 8);
      if Step(n + 1, f).None? {
        PassesOver(2, f, n, 8);
      } else {
        var next := Step(n + 1, f).value;
        var done := if Checks(n + 1) then 2 else 1;
        if steps >= done {
          ResumesFrom(next, n + 1, steps - done);
        } else {
          PassesOver(2, next, n + 1, 8);
        }
        EnoughSteps(next, n + 1, 8, 8 - done);
      }
    }
  }

  /** The opening commits a step that is checked only afterwards. */
  predicate RecordsUnchecked(n: nat, steps: nat) { Max(n, 1) < 3 && steps >= LENGTH + 2 }

  /** Nothing is played again behind the script. */
  lemma PlayedOut(f: File, n: nat)
    requires 1 <= n && f.versions == Versions(n) && Names(0, LENGTH + 1) <= f.created
    ensures Played(0, f, LENGTH + 1) == f
  {
    hide Names;
    PlayedAdds(0, f, LENGTH + 1);
    assert f.created + Names(0, LENGTH + 1) == f.created;
    assert f.versions + {1} == f.versions;
  }

  /** Opening again what an opening that reached the steps has left. */
  lemma OpenedAgain(f: File, n: nat, steps: nat)
    requires n <= LATEST && f.versions == Versions(n) && steps > LENGTH
    ensures Opening(Opening(f, steps).0, ALL) == Migrated(2, Opening(f, steps).0, 8)
  {
    hide Names, Migrated, Played, Opening;
    var g := Played(0, f, LENGTH + 1);
    OpeningIs(f, n, steps);
    PlayedVersions(f, n);
    PlayedAdds(0, f, LENGTH + 1);
    var after := Opening(f, steps).0;
    var m := MigratedVersions(g, Max(n, 1), steps - LENGTH - 1);
    PlayedOut(after, m);
    OpeningIs(after, m, ALL);
    PassesOver(2, after, m, 8);
  }

  /** Wherever an opening stops, by a crash, a failure or because it finished: with intact references, or if
      it recorded no step before its check, opening the file again ends as if nothing had happened. */
  lemma Resumable(f: File, n: nat, steps: nat)
    requires n <= LATEST && f.versions == Versions(n)
    requires ForeignKeys(Meaning(f)) || !RecordsUnchecked(n, steps)
    ensures Opening(Opening(f, steps).0, ALL) == Opening(f, ALL)
  {
    hide Names, Migrated, Played, Opening, Meaning, ForeignKeys;
    OpeningIs(f, n, steps);
    OpeningIs(f, n, ALL);
    if steps <= LENGTH {
      PlayedAgain(f, steps);
      PlayedAdds(0, f, steps);
      OpeningIs(Played(0, f, steps), n, ALL);
    } else {
      PlayedVersions(f, n);
      PlayedMeans(f);
      ResumesFrom(Played(0, f, LENGTH + 1), Max(n, 1), steps - LENGTH - 1);
      OpenedAgain(f, n, steps);
    }
  }

  lemma PlayedMeans(f: File)
    ensures Meaning(Played(0, f, LENGTH + 1)) == Meaning(f)
  {
    hide Names;
    PlayedAdds(0, f, LENGTH + 1);
  }

  /** An opening that recorded a step before its check, on a file whose references are broken, is the only
      one after which opening again does not end as one opening would; whether it crashed there or was
      refused by the check makes no difference. */
  lemma ResumableExactly(f: File, n: nat, steps: nat)
    requires n <= LATEST && Shaped(f, n) && KindsChecked(f)
    ensures Opening(Opening(f, steps).0, ALL) == Opening(f, ALL) <==>
      ForeignKeys(Meaning(f)) || !RecordsUnchecked(n, steps)
  {
    hide Meaning, ForeignKeys, Migrated, Played, Opening;
    ShapedVersions(f, n);
    if ForeignKeys(Meaning(f)) || !RecordsUnchecked(n, steps) {
      Resumable(f, n, steps);
    } else {
      BrokenFails(f, n, steps);
      BrokenFails(f, n, LENGTH + 2);
      GoesOnUnchecked(f, n);
    }
  }

  /** Broken references are found by the first check that an opening reaches. */
  lemma BrokenFails(f: File, n: nat, steps: nat)
    requires n <= LATEST && Shaped(f, n) && KindsChecked(f) && steps > LENGTH + 1
    requires !ForeignKeys(Meaning(f)) && Max(n, 1) < 3
    ensures var next := Step(Max(n, 1) + 1, Played(0, f, LENGTH + 1));
      next.Some? && Opening(f, steps) == (next.value, if steps == LENGTH + 2 then Crashed else Failed)
  {
    hide Meaning, ForeignKeys, Played, Opening, KindsChecked;
    ShapedVersions(f, n);
    OpeningIs(f, n, steps);
    PlayedShapes(f, n);
    hide Shaped, Step, Migrated;
    var g, m := Played(0, f, LENGTH + 1), Max(n, 1);
    ShapedVersions(g, m);
    StepSucceeds(g, m);
    Unfolds(g, m, steps - LENGTH - 1);
  }

  /** The check that was missed is not made up for: the version is recorded, and the next step follows. */
  lemma GoesOnUnchecked(f: File, n: nat)
    requires n <= LATEST && Shaped(f, n) && KindsChecked(f) && !ForeignKeys(Meaning(f)) && Max(n, 1) < 3
    ensures Opening(Opening(f, LENGTH + 2).0, ALL).0 != Opening(f, ALL).0
  {
    hide Meaning, ForeignKeys, Played, Opening, KindsChecked;
    var g, m := Played(0, f, LENGTH + 1), Max(n, 1);
    BrokenFails(f, n, LENGTH + 2);
    BrokenFails(f, n, ALL);
    PlayedShapes(f, n);
    hide Shaped;
    ShapedVersions(f, n);
    ShapedVersions(g, m);
    StepSucceeds(g, m);
    var next := Step(m + 1, g).value;
    OpenedAgain(f, n, LENGTH + 2);
    ShapedVersions(next, m + 1);
    StepSucceeds(next, m + 1);
    PassesOver(2, next, m + 1, 8);
    var k := MigratedVersionsMore(next, m + 1);
  }

  lemma MigratedVersionsMore(f: File, n: nat) returns (m: nat)
    requires 1 <= n < LATEST && f.versions == Versions(n) && Step(n + 1, f).Some?
    ensures n < m && Migrated(n + 1, f, 8).0.versions == Versions(m) && Migrated(n + 1, f, 8).0.versions != f.versions
  {
    hide Meaning, Step, ForeignKeys, Migrated;
    Unfolds(f, n, 8);
    var next := Step(n + 1, f).value;
    if Checks(n + 1) && !ForeignKeys(Meaning(f)) {
      m := n + 1;
    } else {
      m := MigratedVersions(next, n + 1, if Checks(n + 1) then 6 else 7);
    }
    assert n + 1 in Versions(m) && n + 1 !in f.versions;
  }

  // ---------- how often broken references are refused ----------

  /** The file after a number of openings, each of which stops after as many statements, transactions and
      checks as the sequence says, or before. */
  ghost function Reopened(f: File, stops: seq<nat>): (r: File)
    decreases |stops|
  {
    if stops == [] then f else Reopened(Opening(f, stops[0]).0, stops[1..])
  }

  /** How many of them get as far as the transaction of a first step. */
  function Recorded(stops: seq<nat>): (r: nat) {
    if stops == [] then 0 else (if stops[0] >= LENGTH + 2 then 1 else 0) + Recorded(stops[1..])
  }

  /** The steps lead from one well-formed file to another; with broken references they record one version. */
  lemma {:induction false} StepsShape(f: File, n: nat, steps: nat) returns (m: nat)
    requires 1 <= n <= LATEST && Shaped(f, n) && KindsChecked(f) && UniqueKeys(f.keys)
    ensures var after := Migrated(n + 1, f, steps).0;
      && n <= m <= LATEST && Shaped(after, m) && KindsChecked(after) && UniqueKeys(after.keys)
      && Meaning(after) == Meaning(f)
    ensures !ForeignKeys(Meaning(f)) && n < 3 ==> m == n + if steps > 0 then 1 else 0
    decreases LATEST - n
  {
    hide Shaped, KindsChecked, Meaning, Step, ForeignKeys, UniqueKeys, Migrated;
    ShapedVersions(f, n);
    m := n;
    if n == LATEST || steps == 0 {
      Stops(f, n, steps);
    } else {
      StepSucceeds(f, n);
      Unfolds(f, n, steps);
      var next := Step(n + 1, f).value;
      if !Checks(n + 1) {
        m := StepsShape(next, n + 1, steps - 1);
      } else if steps > 1 && ForeignKeys(Meaning(f)) {
        m := StepsShape(next, n + 1, steps - 2);
      } else {
        m := n + 1;
      }
    }
  }

  /** Likewise for a whole opening. */
  lemma OpeningShapes(f: File, n: nat, steps: nat) returns (m: nat)
    requires n <= LATEST && Shaped(f, n) && KindsChecked(f) && UniqueKeys(f.keys)
    ensures var after := Opening(f, steps).0;
      && n <= m <= LATEST && Shaped(after, m) && KindsChecked(after) && UniqueKeys(after.keys)
      && Meaning(after) == Meaning(f)
    ensures !ForeignKeys(Meaning(f)) && Max(n, 1) < 3 ==>
      Max(m, 1) == Max(n, 1) + if steps >= LENGTH + 2 then 1 else 0
  {
    hide KindsChecked, Meaning, ForeignKeys, UniqueKeys, Migrated, Played, Opening, Names;
    ShapedVersions(f, n);
    OpeningIs(f, n, steps);
    MigrationPreserves(f, steps);
    if steps <= LENGTH {
      m := n;
      PlayedPartly(f, n, steps);
    } else {
      PlayedShapes(f, n);
      hide Shaped;
      m := StepsShape(Played(0, f, LENGTH + 1), Max(n, 1), steps - LENGTH - 1);
    }
  }

  lemma PlayedPartly(f: File, n: nat, count: nat)
    requires count <= LENGTH && Shaped(f, n) && KindsChecked(f)
    ensures var g := Played(0, f, count); Shaped(g, n) && KindsChecked(g) && g.keys == f.keys
  {
    hide Names;
    PlayedAdds(0, f, count);
  }

  /** A complete opening of a file with broken references is refused exactly as long as fewer versions than
      three are recorded: every opening before that got as far as a transaction has used up one check. */
  lemma {:induction false} RefusedExactly(f: File, n: nat, stops: seq<nat>)
    requires n <= LATEST && Shaped(f, n) && KindsChecked(f) && UniqueKeys(f.keys) && !ForeignKeys(Meaning(f))
    ensures Opening(Reopened(f, stops), ALL).1 == if Max(n, 1) + Recorded(stops) < 3 then Failed else Finished
    decreases |stops|
  {
    hide Shaped, KindsChecked, Meaning, ForeignKeys, UniqueKeys, Opening;
    if stops == [] {
      if Max(n, 1) < 3 { BrokenFails(f, n, ALL); } else { AcceptedUnchecked(f, n); }
    } else {
      var m := OpeningShapes(f, n, stops[0]);
      RefusedExactly(Opening(f, stops[0]).0, m, stops[1..]);
    }
  }

  lemma AcceptedUnchecked(f: File, n: nat)
    requires 3 <= n <= LATEST && Shaped(f, n) && KindsChecked(f) && UniqueKeys(f.keys)
    ensures Opening(f, ALL).1.Finished?
  {
    hide KindsChecked, UniqueKeys, Migrated, Played, Opening, Meaning, ForeignKeys;
    ShapedVersions(f, n);
    OpeningIs(f, n, ALL);
    PlayedShapes(f, n);
    hide Shaped;
    NeededAll(n);
    StepsFinish(Played(0, f, LENGTH + 1), n, 8);
  }

  /** Ordinary starts of the program, one after another. */
  function Starts(k: nat): (r: seq<nat>) {
    if k == 0 then [] else [ALL] + Starts(k - 1)
  }

  lemma {:induction false} EveryStartRecords(k: nat)
    ensures Recorded(Starts(k)) == k
  {
    if k == 0 {
    } else {
      EveryStartRecords(k - 1);
      assert ([ALL] + Starts(k - 1))[1..] == Starts(k - 1);
    }
  }

  /** Without any crash: of a file with broken references the starts are refused as often as checks are
      left, twice from version 0 or 1 and once from version 2, and then it is accepted as it is. */
  lemma RefusedThenAccepted(f: File, n: nat, k: nat)
    requires n <= LATEST && Shaped(f, n) && KindsChecked(f) && UniqueKeys(f.keys) && !ForeignKeys(Meaning(f))
    ensures Opening(Reopened(f, Starts(k)), ALL).1 == if k < 3 - Max(n, 1) then Failed else Finished
    ensures !ForeignKeys(Meaning(Reopened(f, Starts(k))))
  {
    hide Shaped, KindsChecked, Meaning, ForeignKeys, UniqueKeys, Opening;
    EveryStartRecords(k);
    RefusedExactly(f, n, Starts(k));
    ReopenedPreserves(f, Starts(k));
  }

  lemma {:induction false} ReopenedPreserves(f: File, stops: seq<nat>)
    ensures Meaning(Reopened(f, stops)) == Meaning(f)
    decreases |stops|
  {
    hide Meaning, Opening;
    if stops == [] {
    } else {
      MigrationPreserves(f, stops[0]);
      ReopenedPreserves(Opening(f, stops[0]).0, stops[1..]);
    }
  }

  // ---------- as the program runs it ----------

  class Opened {
    var file: File

    constructor (file: File)
      ensures this.file == file
    {
      this.file := file;
    }

    /** Runs the script, and then goes through the versions in order. */
    method Migrate(steps: nat) returns (end: End)
      modifies this
      ensures (file, end) == Opening(old(file), steps)
    {
      hide Meaning, Step, ForeignKeys, Statement, Migrated;
      var left := steps;
      var k := 0;
      while k <= LENGTH
        invariant 0 <= k <= LENGTH + 1
        invariant Started(0, old(file), steps) == Started(k, file, left)
      {
        if left == 0 {
          return Crashed;
        }
        file := Statement(k, file);
        left := left - 1;
        k := k + 1;
      }
      end := Upgrade(left);
    }

    /** The steps; the check is a step of its own, behind the transaction. */
    method Upgrade(steps: nat) returns (end: End)
      modifies this
      ensures (file, end) == Migrated(2, old(file), steps)
    {
      hide Meaning, Step, ForeignKeys;
      var left := steps;
      var version: nat := 2;
      while version <= LATEST
        invariant 2 <= version <= LATEST + 1
        invariant Migrated(2, old(file), steps) == Migrated(version, file, left)
      {
        if version !in file.versions {
          if left == 0 {
            return Crashed;
          }
          var next := Step(version, file);
          if next.None? {
            return Failed;
          }
          file := next.value;
          left := left - 1;
          if version == 2 || version == 3 {
            if left == 0 {
              return Crashed;
            }
            if !ForeignKeys(Meaning(file)) {
              return Failed;
            }
            left := left - 1;
          }
        }
        version := version + 1;
      }
      end := Finished;
    }
  }
}
