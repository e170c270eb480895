/** The state of the menu and what each key does to it. */
module MenuModel {
  import opened Wrappers
  import opened Text
  import Decimal
  import opened Menu
  import opened Database

  datatype Section = Targets | Keys | Users | Groups | Grants | Forwards | AuditLog

  const SECTIONS := [Targets, Keys, Users, Groups, Grants, Forwards, AuditLog]

  datatype Mode =
    | Browsing | Help | TotpAuth | TotpEnroll | TotpConfirm | OidcStart | OidcLink | OidcComplete | Forming
    | Acting | UserKeys | MemberAdd | MemberRemove | IdentityPublic | ConfirmDelete | PublicKey | AgentKey
    | Scanning | ConfirmHost | SecretPassword | SecretKey | SecretPassphrase | Saving

  datatype TargetItem = TargetItem(
    id: int, name: string, host: string, port: int, remoteUser: string, enabled: bool, kind: string,
    identityId: Option<int>)

  datatype UserItem = UserItem(username: string, admin: bool, enabled: bool, totp: bool, mapped: bool)

  datatype IdentityItem = IdentityItem(id: int, name: string)

  /** What the store holds when the menu loads it; of some lists only the length matters. */
  datatype Lists = Lists(
    targets: seq<TargetItem>, users: seq<UserItem>, groups: seq<string>, members: set<(string, string)>,
    identities: seq<IdentityItem>, grants: seq<Capabilities>, forwards: nat, audit: nat)

  datatype Deletion =
    | OneKey | OneTarget | OneUser | OneGroup | OneGrant | OneForward | OneTotp | OneMapping | OneIdentity

  datatype Purpose = NoPurpose | NewHostKey | NewTarget | NewCredential | NewIdentity | NewTotp | Delete(what: Deletion)

  /** The operation that a dialog is collecting. */
  datatype Pending = Pending(
    purpose: Purpose, target: Option<TargetItem>, user: Option<UserItem>, group: string, grant: Option<Capabilities>,
    credentialKind: string)

  const NOTHING := Pending(NoPurpose, None, None, "", None, "")

  datatype Label = Authentication | SavedKey | Plain(text: string)

  datatype Field = Field(name: Label, value: string, options: seq<string>)

  datatype FormKind =
    | TargetAdd | IdentityAdd | UserAdd | GroupAdd | GrantAdd | ForwardAdd | GrantEdit | TargetEdit | TargetCredential
    | OidcMap

  datatype Form = Form(kind: FormKind, fields: seq<Field>, index: int)

  datatype Code =
    | ConnectTo | EditTarget | ReplaceCredential | ReplaceHostKey | ToggleTarget | Remove(what: Deletion) | ViewIdentity
    | ManageKeys | AddKey | SetUpTotp | MapOidc | ChangeRole | ToggleUser | AddMember | RemoveMember | EditGrant
    | Choice(text: string)

  datatype Chosen = Quit | Verified | Connect(id: int)

  /** What a key starts; None of the transient modes is left before its command has run. */
  datatype Cmd = NoCmd | Load | Mutate(section: Option<Section>) | Scan | BeginOidc | CompleteOidc | Leave

  datatype Msg = Data(lists: Lists, failed: bool) | Mutated(to: Option<Section>, failed: bool) | HostKey(failed: bool)
    | OidcBegun(failed: bool) | OidcLinked(failed: bool)

  /** What the libraries, the store and the network answer while one key is handled. */
  datatype World = World(
    keyParses: bool, needsPassphrase: bool, passphraseFits: bool, codeAccepted: bool, generated: bool,
    userKeys: Option<seq<string>>, identityKnown: bool, oidcConfigured: bool, mayLinkOidc: bool, fails: bool,
    lists: Lists)

  const KINDS := [PRIVATE_KEY, PASSWORD, STORED_KEY, FORWARDED_AGENT]

  predicate KnownKind(kind: string) { kind in KINDS }

  // ---------- the list of targets ----------

  predicate Contains(text: string, part: string) {
    exists i :: 0 <= i <= |text| && part <= text[i..]
  }

  function Filtered(targets: seq<TargetItem>, query: string): (r: seq<TargetItem>)
    ensures forall t :: t in r ==> t in targets
  {
    if query == "" then targets
    else if targets == [] then []
    else
      var t := targets[0];
      var rest := Filtered(targets[1..], query);
      if Contains(Lower(t.name + " " + t.host + " " + t.remoteUser), Lower(query)) then [t] + rest else rest
  }

  function ItemCount(lists: Lists, section: Section, query: string): (r: nat) {
    match section
    case Targets => |Filtered(lists.targets, query)|
    case Keys => |lists.identities|
    case Users => |lists.users|
    case Groups => |lists.groups|
    case Grants => |lists.grants|
    case Forwards => lists.forwards
    case AuditLog => lists.audit
  }

  // ---------- forms ----------

  predicate IsAuthentication(f: Field) { f.name.Authentication? && f.options == KINDS && KnownKind(f.value) }

  /** How many fields a form has without the extra key field, and which one is the authentication. */
  function BaseFields(kind: FormKind): (r: nat) {
    match kind
    case TargetAdd => 5
    case TargetCredential => 1
    case IdentityAdd => 2
    case UserAdd => 2
    case GroupAdd => 1
    case GrantAdd => 7
    case ForwardAdd => 3
    case GrantEdit => 4
    case TargetEdit => 3
    case OidcMap => 1
  }

  predicate ChoosesCredential(kind: FormKind) { kind.TargetAdd? || kind.TargetCredential? }

  /** The right fields, but perhaps not yet the right number of them. */
  predicate Unsynced(f: Form) {
    var base := BaseFields(f.kind);
    0 <= f.index < |f.fields|
    && if ChoosesCredential(f.kind) then base <= |f.fields| <= base + 1 && IsAuthentication(f.fields[base - 1])
       else |f.fields| == base
  }

  /** The extra key field is there exactly when a stored key is chosen. */
  predicate WellFormed(f: Form) {
    Unsynced(f)
    && (ChoosesCredential(f.kind) ==> (
          var base := BaseFields(f.kind); |f.fields| == base + 1 <==> f.fields[base - 1].value == STORED_KEY))
  }

  predicate NeedsPending(kind: FormKind) {
    kind.GrantEdit? || kind.TargetEdit? || kind.TargetCredential? || kind.OidcMap?
  }

  function SelectedName(identities: seq<IdentityItem>, selected: Option<int>): (r: string) {
    if selected.Some? && exists i :: 0 <= i < |identities| && identities[i].id == selected.value then
      NameOf(identities, selected.value)
    else if identities == [] then "" else identities[0].name
  }

  function NameOf(identities: seq<IdentityItem>, id: int): (r: string) {
    if identities == [] then "" else if identities[0].id == id then identities[0].name else NameOf(identities[1..], id)
  }

  /** `strconv.Atoi` and the check of the range. */
  predicate ValidPortText(s: string) {
    var digits := if s != "" && s[0] == '+' then s[1..] else s;
    digits != "" && Decimal.AllDigits(digits) && 1 <= Decimal.Value(digits) <= 65535
  }

  predicate Transient(mode: Mode) { mode.OidcStart? || mode.OidcComplete? || mode.Scanning? || mode.Saving? }

  predicate HasActions(mode: Mode) { mode.Acting? || mode.UserKeys? || mode.MemberAdd? || mode.MemberRemove? }

  /** The modes whose keys use the pending operation. */
  predicate UsesPending(mode: Mode) {
    HasActions(mode) || mode.IdentityPublic? || mode.ConfirmDelete? || mode.PublicKey? || mode.AgentKey?
    || mode.Scanning?
    || mode.ConfirmHost? || mode.SecretPassword? || mode.SecretKey? || mode.SecretPassphrase? || mode.TotpEnroll?
    || mode.TotpConfirm?
  }

  function TargetNames(lists: Lists): (r: seq<string>) {
    seq(|lists.targets|, i requires 0 <= i < |lists.targets| => lists.targets[i].name)
  }

  function UserNames(lists: Lists): (r: seq<string>) {
    seq(|lists.users|, i requires 0 <= i < |lists.users| => lists.users[i].username)
  }

  function Empty(name: string): (r: Field) { Field(Plain(name), "", []) }

  const YES := ["yes", "no"]

  /** The form that adds a row to the section. */
  function AddForm(section: Section, lists: Lists): (f: Form)
    requires !section.AuditLog? && (section.Grants? || section.Forwards? ==> lists.targets != [])
    ensures WellFormed(f) && !NeedsPending(f.kind)
  {
    match section
    case Targets =>
      Form(TargetAdd, [Empty("Name"), Empty("Host"), Field(Plain("Port"), "22", []), Empty("Remote user"),
                       Field(Authentication, PRIVATE_KEY, KINDS)], 0)
    case Keys =>
      Form(IdentityAdd, [Empty("Name"), Field(Plain("Method"), GENERATE, [GENERATE, "import_private_key"])], 0)
    case Users => Form(UserAdd, [Empty("Username"), Field(Plain("Role"), MEMBER, [MEMBER, ADMIN])], 0)
    case Groups => Form(GroupAdd, [Empty("Name")], 0)
    case Grants =>
      var users := UserNames(lists);
      Form(GrantAdd, [
        Field(Plain("Target"), lists.targets[0].name, TargetNames(lists)),
        Field(Plain("Principal type"), "user", ["user", "group"]),
        Field(Plain("Principal"), if users == [] then "" else users[0], users), Field(Plain("Shell"), "yes", YES),
        Field(Plain("SFTP"), "yes", YES), Field(Plain("Legacy SCP"), "yes", YES),
        Field(Plain("TCP forwarding"), "no", ["no", "yes"])], 0)
    case Forwards =>
      Form(ForwardAdd, [
        Field(Plain("Target"), lists.targets[0].name, TargetNames(lists)), Empty("Destination host"),
        Empty("Destination port")], 0)
  }

  function TargetActions(t: TargetItem): (r: seq<Code>) {
    (if t.enabled then [ConnectTo] else [])
      + [EditTarget, ReplaceCredential, ReplaceHostKey, ToggleTarget, Remove(OneTarget)]
  }

  function UserActions(u: UserItem, oidc: bool): (r: seq<Code>) {
    (if oidc then [MapOidc] else [])
    + [ManageKeys, if u.totp then Remove(OneTotp) else SetUpTotp, ChangeRole, ToggleUser, Remove(OneUser)]
    + (if oidc && u.mapped then [Remove(OneMapping)] else [])
  }

  /** The row under the cursor and what can be done with it. */
  function Selected(lists: Lists, section: Section, query: string, cursor: int, oidc: bool): (r: (Pending, seq<Code>))
    requires !section.AuditLog? && 0 <= cursor < ItemCount(lists, section, query)
    ensures r.1 != [] && OffersFit(r.1, r.0)
    ensures r.0.target.Some? ==> r.0.target.value in lists.targets
  {
    match section
    case Targets =>
      var t := Filtered(lists.targets, query)[cursor];
      (NOTHING.(target := Some(t)), TargetActions(t))
    case Users => (NOTHING.(user := Some(lists.users[cursor])), UserActions(lists.users[cursor], oidc))
    case Keys => (NOTHING, [ViewIdentity, Remove(OneIdentity)])
    case Groups => (NOTHING.(group := lists.groups[cursor]), [AddMember, RemoveMember, Remove(OneGroup)])
    case Grants => (NOTHING.(grant := Some(lists.grants[cursor])), [EditGrant, Remove(OneGrant)])
    case Forwards => (NOTHING, [Remove(OneForward)])
  }

  function YesNo(v: bool): (r: string) { if v then "yes" else "no" }

  function GrantForm(c: Capabilities): (f: Form)
    ensures WellFormed(f)
  {
    Form(GrantEdit, [
      Field(Plain("Shell"), YesNo(c.shell), YES), Field(Plain("SFTP"), YesNo(c.sftp), YES),
      Field(Plain("Legacy SCP"), YesNo(c.scp), YES), Field(Plain("TCP forwarding"), YesNo(c.tcpForward), YES)], 0)
  }

  function TargetForm(t: TargetItem): (f: Form)
    ensures WellFormed(f)
  {
    Form(TargetEdit, [
      Field(Plain("Host"), t.host, []), Field(Plain("Port"), Decimal.Render(t.port), []),
      Field(Plain("Remote user"), t.remoteUser, [])], 0)
  }

  function CredentialForm(t: TargetItem): (f: Form)
    ensures KnownKind(t.kind) ==> Unsynced(f)
    ensures f.kind.TargetCredential?
  {
    Form(TargetCredential, [Field(Authentication, t.kind, KINDS)], 0)
  }

  lemma OneField()
    ensures WellFormed(Form(OidcMap, [Empty("OIDC username")], 0))
  {
  }

  function Choices(names: seq<string>): (r: seq<Code>)
    ensures |r| == |names| && forall c :: c in r ==> c.Choice?
  {
    seq(|names|, i requires 0 <= i < |names| => Choice(names[i]))
  }

  function SectionOf(kind: FormKind): (r: Section) {
    match kind
    case TargetAdd => Targets
    case TargetCredential => Targets
    case TargetEdit => Targets
    case IdentityAdd => Keys
    case UserAdd => Users
    case OidcMap => Users
    case GroupAdd => Groups
    case GrantAdd => Grants
    case GrantEdit => Grants
    case ForwardAdd => Forwards
  }

  lemma IndexMoved(f: Form, i: int)
    requires WellFormed(f) && 0 <= i < |f.fields|
    ensures WellFormed(f.(index := i))
  {
  }

  predicate Trimmed(f: Form, values: seq<string>) {
    |values| == |f.fields| && forall i :: 0 <= i < |values| ==> values[i] == TrimSpace(f.fields[i].value)
  }

  /** The first field that is required and blank, and the trimmed values up to there. */
  method FirstMissing(f: Form) returns (i: nat, values: seq<string>)
    ensures i <= |f.fields| && (i == |f.fields| ==> Trimmed(f, values))
    ensures i < |f.fields| ==> TrimSpace(f.fields[i].value) == ""
  {
    hide TrimSpace;
    var authentication := "";
    for k := 0 to |f.fields| {
      if f.fields[k].name.Authentication? {
        authentication := TrimSpace(f.fields[k].value);
        break;
      }
    }
    i, values := 0, [];
    while i < |f.fields|
      invariant i <= |f.fields| && |values| == i
      invariant forall k :: 0 <= k < i ==> values[k] == TrimSpace(f.fields[k].value)
    {
      values := values + [TrimSpace(f.fields[i].value)];
      if !(f.fields[i].name.SavedKey? && authentication != STORED_KEY) && values[i] == "" {
        return;
      }
      i := i + 1;
    }
  }

  /** The kinds of credentials have no space at either end. */
  lemma ChosenIsTrimmed(field: Field)
    requires IsAuthentication(field)
    ensures TrimSpace(field.value) == field.value
  {
    TrimNothing(field.value);
  }

  const GENERATE := "generate_ed25519"

  /** Actions on a target, user or grant are offered only for one. */
  predicate OffersFit(actions: seq<Code>, p: Pending) {
    && (ConnectTo in actions || EditTarget in actions || ReplaceCredential in actions ==> p.target.Some?)
    && (EditGrant in actions ==> p.grant.Some?)
  }

  class Model {
    const admin: bool
    var lists: Lists
    var section: Section
    var mode: Mode
    var searching: bool
    var query: string
    var cursor: int
    var height: int
    var pending: Option<Pending>
    var form: Option<Form>
    var actions: seq<Code>
    var actionCursor: int
    var totpAttempts: nat
    var result: Option<Chosen>

    ghost predicate KindsKnown()
      reads this
    {
      (forall t :: t in lists.targets ==> KnownKind(t.kind))
      && (pending.Some? && pending.value.target.Some? ==> KnownKind(pending.value.target.value.kind))
    }

    /** Cursors are in range, forms have their fields, and what a mode uses is there. */
    ghost predicate Valid()
      reads this
    {
      && (cursor == 0 || 0 < cursor < ItemCount(lists, section, query))
      && (actionCursor == 0 || 0 < actionCursor < |actions|)
      && (form.Some? ==> WellFormed(form.value))
      && (mode.Forming? && form.Some? && NeedsPending(form.value.kind) ==> pending.Some?)
      && (UsesPending(mode) ==> pending.Some?)
      && (HasActions(mode) ==> actions != [])
      && (HasActions(mode) ==> OffersFit(actions, pending.value))
      && (mode.ConfirmDelete? ==> pending.value.purpose.Delete?)
      && KindsKnown()
    }

    /** A command finds what it needs, and its last message ends every transient mode. */
    ghost predicate Fits(cmd: Cmd)
      reads this
    {
      match cmd
      case NoCmd => !Transient(mode)
      case Load => !Transient(mode)
      case Scan => pending.Some?
      case Leave => result.Some?
      case _ => true
    }

    constructor (admin: bool, challenge: bool)
      ensures Valid() && result.None? && !Transient(mode)
    {
      this.admin := admin;
      lists := Lists([], [], [], {}, [], [], 0, 0);
      section, mode := Targets, if challenge then TotpAuth else Browsing;
      searching, query, cursor, height := false, "", 0, 0;
      pending, form, actions, actionCursor, totpAttempts, result := None, None, [], 0, 0, None;
    }

    method CloseModal()
      requires Valid()
      modifies this
      ensures Valid() && mode == Browsing && form.None? && pending.None? && actions == []
      ensures result == old(result) && section == old(section) && cursor == old(cursor) && lists == old(lists)
    {
      hide WellFormed, ItemCount, KnownKind;
      mode, form, actions, pending, actionCursor := Browsing, None, [], None, 0;
    }

    method Clamp()
      requires cursor >= 0
      modifies `cursor
      ensures var n := ItemCount(lists, section, query);
        cursor == if n == 0 then 0 else if old(cursor) >= n then n - 1 else old(cursor)
    {
      var n: int := ItemCount(lists, section, query);
      if n == 0 {
        cursor := 0;
      } else if cursor >= n {
        cursor := n - 1;
      }
    }

    method ChangeSection(delta: int)
      requires Valid() && mode.Browsing? && (delta == 1 || delta == -1)
      modifies this
      ensures Valid() && mode == old(mode) && result == old(result) && section in SECTIONS && cursor == 0 && query == ""
    {
      var current := 0;
      for i := 0 to |SECTIONS| {
        if SECTIONS[i] == section {
          current := i;
          break;
        }
      }
      current := (current + delta + |SECTIONS|) % |SECTIONS|;
      section, cursor, query, searching := SECTIONS[current], 0, "", false;
    }

    // ---------- messages and commands ----------

    /** The lists were read again; the cursor stays within the new one. */
    method Replace(loaded: Lists)
      requires Valid() && forall t :: t in loaded.targets ==> KnownKind(t.kind)
      modifies this
      ensures Valid() && lists == loaded && result == old(result) && mode == old(mode) && section == old(section)
    {
      hide WellFormed, Filtered, KnownKind;
      lists := loaded;
      Clamp();
    }

    /** A change has ended: back to the list, and to the section it belongs to. */
    method Finish(to: Option<Section>, failed: bool)
      requires Valid()
      modifies this
      ensures Valid() && result == old(result) && mode.Browsing?
      ensures !failed && to.Some? ==> section == to.value && cursor == 0
    {
      hide ItemCount, KnownKind;
      mode, pending, form, actions, actionCursor := Browsing, None, None, [], 0;
      if !failed && to.Some? { section, cursor := to.value, 0; }
    }

    method Update(msg: Msg) returns (cmd: Cmd)
      requires Valid() && (msg.Data? ==> forall t :: t in msg.lists.targets ==> KnownKind(t.kind))
      requires msg.HostKey? && !msg.failed ==> pending.Some?
      modifies this
      ensures Valid() && result == old(result)
      ensures cmd.NoCmd? || cmd.Load?
      ensures msg.Data? ==> cmd.NoCmd? && mode == old(mode)
      ensures !msg.Data? ==> !Transient(mode)
      ensures msg.Mutated? && !msg.failed && msg.to.Some? ==> section == msg.to.value && cursor == 0
    {
      hide WellFormed, ItemCount, KnownKind;
      cmd := NoCmd;
      match msg
      case Data(loaded, _) => Replace(loaded);
      case OidcBegun(failed) =>
        if failed { CloseModal(); } else { mode := OidcLink; }
      case OidcLinked(failed) =>
        if failed {
          CloseModal();
        } else {
          mode, pending := Browsing, None;
          cmd := Load;
        }
      case HostKey(failed) =>
        if failed { mode, pending := Browsing, None; } else { mode := ConfirmHost; }
      case Mutated(to, failed) =>
        Finish(to, failed);
        cmd := Load;
    }

    function MessageOf(cmd: Cmd, w: World): (r: Msg)
    {
      match cmd
      case Mutate(to) => Mutated(to, w.fails)
      case Scan => HostKey(w.fails)
      case BeginOidc => OidcBegun(w.fails)
      case CompleteOidc => OidcLinked(w.fails)
      case _ => Data(w.lists, w.fails)
    }

    /** Runs the command and those that its messages lead to. */
    method ApplyCommand(cmd: Cmd, w: World)
      requires Valid() && Fits(cmd) && !cmd.Leave? && forall t :: t in w.lists.targets ==> KnownKind(t.kind)
      modifies this
      ensures Valid() && !Transient(mode) && result == old(result)
    {
      var next := cmd;
      while !next.NoCmd?
        invariant Valid() && Fits(next) && !next.Leave? && result == old(result)
        decreases if next.NoCmd? then 0 else if next.Load? then 1 else 2
      {
        next := Update(MessageOf(next, w));
      }
    }

    // ---------- browsing ----------

    method OpenAddForm() returns (cmd: Cmd)
      requires Valid() && mode.Browsing?
      modifies this
      ensures Valid() && cmd.NoCmd? && result == old(result) && (mode.Browsing? || (mode.Forming? && form.Some?))
    {
      cmd := NoCmd;
      if !admin {
        return;
      }
      hide ItemCount, WellFormed, KnownKind, AddForm;
      if section.AuditLog? {
        return;
      }
      if section.Grants? && (lists.targets == [] || |lists.users| + |lists.groups| == 0) {
        return;
      }
      if section.Forwards? && lists.targets == [] {
        return;
      }
      form := Some(AddForm(section, lists));
      mode := Forming;
    }

    /** The row under the cursor is read from the list of the section. */
    method OpenSelectedActions(oidc: bool) returns (cmd: Cmd)
      requires Valid() && mode.Browsing?
      modifies this
      ensures Valid() && cmd.NoCmd? && result == old(result)
      ensures if ItemCount(lists, section, query) == 0 || section.AuditLog? then mode.Browsing?
        else mode.Acting? && actionCursor == 0
    {
      cmd := NoCmd;
      actionCursor := 0;
      if ItemCount(lists, section, query) == 0 || section.AuditLog? {
        return;
      }
      hide WellFormed, KnownKind, OffersFit, Selected, Filtered;
      var (p, offered) := Selected(lists, section, query, cursor, oidc);
      pending, actions := Some(p), offered;
      mode := Acting;
    }

    // ---------- actions on the selected row ----------

    method DispatchAction(code: Code, w: World) returns (cmd: Cmd)
      requires Valid() && HasActions(mode) && code in actions && !code.Choice?
      modifies this
      ensures Valid() && Fits(cmd)
      ensures result == if code.ConnectTo? then Some(Connect(old(pending.value.target.value.id))) else old(result)
    {
      hide ItemCount, KnownKind, WellFormed;
      cmd := NoCmd;
      var p := pending.value;
      assert (code.ConnectTo? || code.EditTarget? || code.ReplaceCredential? ==> p.target.Some?)
        && (code.EditGrant? ==> p.grant.Some?);
      if code.ReplaceCredential? { assert Unsynced(CredentialForm(p.target.value)); }
      OneField();
      hide OffersFit, Unsynced, GrantForm, TargetForm, CredentialForm, Valid;
      match code {
      case ConnectTo => cmd := ConnectNow(p.target.value.id);
      case EditGrant => ShowForm(GrantForm(p.grant.value));
      case EditTarget => ShowForm(TargetForm(p.target.value));
      case ReplaceCredential => ShowForm(CredentialForm(p.target.value));
      case ReplaceHostKey => cmd := StartOn(NewHostKey, Scanning);
      case ToggleTarget => cmd := Mutate(Some(Targets));
      case Remove(what) => cmd := StartOn(Delete(what), ConfirmDelete);
      case ViewIdentity => cmd := StartOn(p.purpose, IdentityPublic);
      case ManageKeys => ManageUserKeys(w.userKeys);
      case AddKey => cmd := StartOn(p.purpose, PublicKey);
      case SetUpTotp => if w.generated { cmd := StartOn(NewTotp, TotpEnroll); } else { CloseModal(); }
      case MapOidc => ShowForm(Form(OidcMap, [Empty("OIDC username")], 0));
      case ChangeRole => cmd := Mutate(Some(Users));
      case ToggleUser => cmd := Mutate(Some(Users));
      case AddMember => OfferMembers(true);
      case RemoveMember => OfferMembers(false);
      }
    }

    method ConnectNow(id: int) returns (cmd: Cmd)
      requires Valid()
      modifies `result
      ensures Valid() && cmd.Leave? && result == Some(Connect(id))
    {
      hide ItemCount, KnownKind, WellFormed;
      result, cmd := Some(Connect(id)), Leave;
    }

    /** The dialog of an action on the selected row; a scan of the host key starts at once. */
    method StartOn(purpose: Purpose, dialog: Mode) returns (cmd: Cmd)
      requires Valid() && pending.Some? && (dialog.ConfirmDelete? ==> purpose.Delete?)
      requires UsesPending(dialog) && !HasActions(dialog)
      modifies `pending, `mode
      ensures Valid() && mode == dialog && Fits(cmd) && cmd == if dialog.Scanning? then Scan else NoCmd
    {
      hide ItemCount, KnownKind, WellFormed;
      pending, mode := Some(pending.value.(purpose := purpose)), dialog;
      cmd := if dialog.Scanning? then Scan else NoCmd;
    }

    /** The form appears, with its key field if a stored key is chosen. */
    method ShowForm(f: Form)
      requires Valid() && HasActions(mode) && Unsynced(f) && (!ChoosesCredential(f.kind) ==> WellFormed(f))
      modifies this
      ensures Valid() && mode.Forming? && result == old(result)
    {
      hide ItemCount, KnownKind, WellFormed, Unsynced, OffersFit;
      form := Some(f);
      SyncTargetKeyField();
      mode := Forming;
    }

    method ManageUserKeys(keys: Option<seq<string>>)
      requires Valid() && HasActions(mode)
      modifies this
      ensures Valid() && !Transient(mode) && result == old(result)
    {
      hide ItemCount, KnownKind, WellFormed;
      if keys.None? {
        CloseModal();
        return;
      }
      actions := [AddKey] + Choices(keys.value);
      mode, actionCursor := UserKeys, 0;
    }

    /** Offers the users who are not yet in the group, or those who are. */
    method OfferMembers(adding: bool)
      requires Valid() && HasActions(mode)
      modifies this
      ensures Valid() && !Transient(mode) && result == old(result)
    {
      hide ItemCount, KnownKind, WellFormed;
      var offered: seq<Code> := [];
      for i := 0 to |lists.users|
        invariant unchanged(this)
        invariant forall c :: c in offered ==> c.Choice?
      {
        var member := (pending.value.group, lists.users[i].username) in lists.members;
        if member != adding { offered := offered + [Choice(lists.users[i].username)]; }
      }
      actions := offered;
      if |actions| == 0 {
        actionCursor := 0;
        pending, mode, form := None, Browsing, None;
        return;
      }
      mode, actionCursor := if adding then MemberAdd else MemberRemove, 0;
    }

    method HandleActionKey(key: string, w: World) returns (cmd: Cmd)
      requires Valid() && HasActions(mode)
      modifies this
      ensures Valid() && Fits(cmd)
      ensures key == "esc" ==> mode.Browsing? && result == old(result)
      ensures key == "up" || key == "k" ==> actionCursor == if old(actionCursor) > 0 then old(actionCursor) - 1 else 0
      ensures key == "down" || key == "j" || key == "tab" ==>
        actionCursor == if old(actionCursor) + 1 < |actions| then old(actionCursor) + 1 else old(actionCursor)
      ensures result == old(result) || (result.Some? && result.value.Connect?)
    {
      hide ItemCount, KnownKind, WellFormed;
      cmd := NoCmd;
      if key == "esc" {
        CloseModal();
        return;
      }
      if key == "up" || key == "k" {
        if actionCursor > 0 { actionCursor := actionCursor - 1; }
      } else if key == "down" || key == "j" || key == "tab" {
        if actionCursor < |actions| - 1 { actionCursor := actionCursor + 1; }
      } else if key == "home" {
        actionCursor := 0;
      } else if key == "end" {
        if |actions| > 0 { actionCursor := |actions| - 1; }
      } else if key == "enter" || key == "space" {
        if |actions| > 0 {
          var code := actions[actionCursor];
          if mode.UserKeys? && !code.AddKey? {
            pending, mode := Some(pending.value.(purpose := Delete(OneKey))), ConfirmDelete;
            return;
          }
          if mode.MemberAdd? || mode.MemberRemove? {
            cmd := Mutate(Some(Groups));
          } else if !code.Choice? {
            cmd := DispatchAction(code, w);
          }
        }
      }
    }

    // ---------- forms ----------

    /** Adds or removes the field for the saved key, and keeps the index on a field. */
    method SyncTargetKeyField()
      requires form.Some? ==> Unsynced(form.value)
      modifies `form
      ensures form.Some? == old(form.Some?)
      ensures form.Some? ==> WellFormed(form.value) && form.value.kind == old(form.value.kind)
      ensures form.Some? && old(WellFormed(form.value)) ==> form == old(form)
      ensures form.Some? && ChoosesCredential(form.value.kind) ==>
        var base := BaseFields(form.value.kind); form.value.fields[..base] == old(form.value.fields)[..base]
    {
      if form.None? {
        return;
      }
      var f := form.value;
      if !ChoosesCredential(f.kind) {
        return;
      }
      var base := BaseFields(f.kind);
      var storedKey := f.fields[base - 1].value == STORED_KEY;
      if storedKey && |f.fields| == base {
        var selected := if f.kind.TargetCredential? && pending.Some? && pending.value.target.Some?
          then pending.value.target.value.identityId else None;
        var names := seq(|lists.identities|, i requires 0 <= i < |lists.identities| reads this =>
          lists.identities[i].name);
        form := Some(f.(fields := f.fields + [Field(SavedKey, SelectedName(lists.identities, selected), names)]));
      } else if !storedKey && |f.fields| > base {
        form := Some(f.(fields := f.fields[..base], index := if f.index >= base then base - 1 else f.index));
      }
    }

    method SyncFormOptions()
      requires form.Some? && Unsynced(form.value)
      modifies `form
      ensures form.Some? && WellFormed(form.value) && form.value.kind == old(form.value.kind)
    {
      var f := form.value;
      if ChoosesCredential(f.kind) {
        SyncTargetKeyField();
        return;
      }
      if !f.kind.GrantAdd? || |f.fields| < 3 {
        return;
      }
      var options := if f.fields[1].value == "group" then lists.groups else UserNames(lists);
      var value := if |options| > 0 && f.fields[2].value !in options then options[0] else f.fields[2].value;
      form := Some(f.(fields := f.fields[2 := f.fields[2].(value := value, options := options)]));
    }

    /** Writes a new value into the selected field, which is not the authentication. */
    method Type(value: string)
      requires form.Some? && WellFormed(form.value) && form.value.fields[form.value.index].options == []
      modifies `form
      ensures form.Some? && WellFormed(form.value) && form.value.kind == old(form.value.kind)
      ensures form.value.fields[form.value.index].value == value
    {
      var f := form.value;
      form := Some(f.(fields := f.fields[f.index := f.fields[f.index].(value := value)]));
    }

    /** The cursor of the form goes to a field that needs attention. */
    method MoveTo(i: nat)
      requires Valid() && form.Some? && i < |form.value.fields|
      modifies `form
      ensures Valid() && form == Some(old(form.value).(index := i))
    {
      IndexMoved(form.value, i);
      hide ItemCount, KnownKind, WellFormed;
      form := Some(form.value.(index := i));
    }

    method SubmitForm(w: World) returns (cmd: Cmd)
      requires Valid() && mode.Forming? && form.Some?
      modifies this
      ensures Valid() && Fits(cmd) && result == old(result)
    {
      hide Valid, WellFormed, Trimmed;
      cmd := NoCmd;
      var f := form.value;
      var i, values := FirstMissing(f);
      if i < |f.fields| {
        MoveTo(i);
        return;
      }
      if f.kind.TargetAdd? {
        cmd := SubmitTarget(values, w);
      } else if f.kind.TargetCredential? {
        cmd := SubmitCredential(values, w);
      } else if f.kind.IdentityAdd? {
        cmd := SubmitIdentity(values, w);
      } else {
        cmd := SubmitRow(values);
      }
    }

    /** The forms whose values go to the store as they are, except that a port must be one. */
    method SubmitRow(values: seq<string>) returns (cmd: Cmd)
      requires Valid() && mode.Forming? && form.Some? && Trimmed(form.value, values)
      requires !ChoosesCredential(form.value.kind) && !form.value.kind.IdentityAdd?
      modifies `form
      ensures Valid() && form.Some? && (cmd.NoCmd? || cmd == Mutate(Some(SectionOf(form.value.kind))))
    {
      hide ItemCount, KnownKind, TrimSpace, ValidPortText;
      var f := form.value;
      assert |values| == BaseFields(f.kind);
      if f.kind.ForwardAdd? || f.kind.TargetEdit? {
        var port := if f.kind.ForwardAdd? then 2 else 1;
        if !ValidPortText(values[port]) {
          form := Some(f.(index := port));
          return NoCmd;
        }
      }
      cmd := Mutate(Some(SectionOf(f.kind)));
    }

    /** The new target's values; the sixth exists because a stored key was chosen. */
    method SubmitTarget(values: seq<string>, w: World) returns (cmd: Cmd)
      requires Valid() && mode.Forming? && form.Some? && form.value.kind.TargetAdd? && Trimmed(form.value, values)
      modifies this
      ensures Valid() && Fits(cmd) && result == old(result)
      ensures cmd.Scan? <==>
        ValidPortText(values[2]) && (values[4] == STORED_KEY ==> |values| == 6 && values[5] != "" && w.identityKnown)
      ensures cmd.Scan? ==> pending == Some(NOTHING.(purpose := NewTarget, credentialKind := values[4])) && form.None?
    {
      hide ItemCount, KnownKind, TrimSpace, ValidPortText;
      cmd := NoCmd;
      var f := form.value;
      if !ValidPortText(values[2]) {
        form := Some(f.(index := 2));
        return;
      }
      pending := Some(NOTHING.(purpose := NewTarget, credentialKind := values[4]));
      if values[4] == STORED_KEY {
        assert |values| == 6 by { ChosenIsTrimmed(f.fields[4]); }
        if values[5] == "" {
          form := Some(f.(index := 5));
          return;
        }
        if !w.identityKnown {
          form := Some(f.(index := 5));
          return;
        }
      }
      form, mode, cmd := None, Scanning, Scan;
    }

    method SubmitCredential(values: seq<string>, w: World) returns (cmd: Cmd)
      requires Valid() && mode.Forming? && form.Some? && form.value.kind.TargetCredential?
        && Trimmed(form.value, values)
      modifies this
      ensures Valid() && Fits(cmd) && result == old(result) && form.None?
      ensures cmd == Mutate(Some(Targets)) <==> values[0] == STORED_KEY && w.identityKnown
      ensures mode.SecretPassword? <==> values[0] == PASSWORD
      ensures mode.SecretKey? <==> values[0] == PRIVATE_KEY
      ensures !mode.Browsing? ==>
        pending == Some(old(pending.value).(purpose := NewCredential, credentialKind := values[0]))
    {
      hide ItemCount, KnownKind, TrimSpace;
      cmd := NoCmd;
      var f := form.value;
      pending := Some(pending.value.(purpose := NewCredential, credentialKind := values[0]));
      form := None;
      if values[0] == STORED_KEY {
        assert |values| == 2 by { ChosenIsTrimmed(f.fields[0]); }
        var name := values[1];
        if !w.identityKnown {
          CloseModal();
          return;
        }
        cmd := Mutate(Some(Targets));
      } else if values[0] == PASSWORD {
        mode := SecretPassword;
      } else if values[0] == PRIVATE_KEY {
        mode := SecretKey;
      } else {
        mode := AgentKey;
      }
    }

    method SubmitIdentity(values: seq<string>, w: World) returns (cmd: Cmd)
      requires Valid() && mode.Forming? && form.Some? && form.value.kind.IdentityAdd? && Trimmed(form.value, values)
      modifies this
      ensures Valid() && Fits(cmd) && result == old(result)
    {
      hide ItemCount, KnownKind, TrimSpace;
      cmd := NoCmd;
      assert |values| == 2;
      pending := Some(NOTHING.(purpose := NewIdentity));
      form := None;
      if values[1] == GENERATE {
        if !w.generated {
          CloseModal();
          return;
        }
        cmd := FinishIdentity(w.keyParses);
        return;
      }
      mode := SecretKey;
    }

    /** A key that does not parse leaves the dialog as it is. */
    method FinishIdentity(parses: bool) returns (cmd: Cmd)
      requires Valid() && pending.Some? && !Transient(mode)
      modifies `mode
      ensures Valid() && Fits(cmd) && (if parses then cmd == Mutate(Some(Keys)) else cmd == NoCmd && mode == old(mode))
    {
      hide ItemCount, KnownKind, WellFormed;
      if !parses {
        return NoCmd;
      }
      mode := Saving;
      cmd := Mutate(Some(Keys));
    }

    method HandleFormKey(key: string, w: World) returns (cmd: Cmd)
      requires Valid() && mode.Forming?
      modifies this
      ensures Valid() && Fits(cmd) && result == old(result)
      ensures key == "esc" ==> mode.Browsing?
    {
      hide ItemCount, KnownKind, Cycled;
      cmd := NoCmd;
      if key == "esc" {
        CloseModal();
        return;
      }
      if form.None? || |form.value.fields| == 0 {
        return;
      }
      var f := form.value;
      var field := f.fields[f.index];
      if key == "up" || key == "shift+tab" {
        if f.index > 0 { form := Some(f.(index := f.index - 1)); }
      } else if key == "down" || key == "tab" {
        if f.index < |f.fields| - 1 { form := Some(f.(index := f.index + 1)); }
      } else if key == "left" || key == "right" || key == "space" {
        if |field.options| > 0 {
          Turn(if key == "left" then -1 else 1);
        } else if key == "space" {
          Type(field.value + " ");
        }
      } else if key == "backspace" {
        if |field.options| == 0 { Type(if field.value == "" then "" else field.value[..|field.value| - 1]); }
      } else if key == "ctrl+u" {
        if |field.options| == 0 { Type(""); }
      } else if key == "enter" {
        if f.index < |f.fields| - 1 {
          form := Some(f.(index := f.index + 1));
        } else {
          cmd := SubmitForm(w);
        }
      } else if |field.options| == 0 && |key| == 1 {
        Type(field.value + key);
      }
    }

    /** The next or previous option of the selected field; then the fields that depend on it follow. */
    method Turn(delta: int)
      requires form.Some? && WellFormed(form.value) && form.value.fields[form.value.index].options != []
      requires delta == 1 || delta == -1
      modifies `form
      ensures form.Some? && WellFormed(form.value) && form.value.kind == old(form.value.kind)
    {
      var f := form.value;
      var field := f.fields[f.index];
      form := Some(f.(fields := f.fields[f.index := field.(value := Cycled(field.options, field.value, delta))]));
      SyncFormOptions();
    }

    // ---------- dialogs ----------

    method VerifyChallenge(accepted: bool)
      requires Valid() && mode.TotpAuth? && result.None?
      modifies `totpAttempts, `result
      ensures Valid() && (accepted ==> result == Some(Verified)) && (!accepted ==> result.None? || result == Some(Quit))
      ensures !accepted ==> (result == Some(Quit) <==> old(totpAttempts) >= 4)
    {
      hide ItemCount, KnownKind, WellFormed;
      if !accepted {
        totpAttempts := totpAttempts + 1;
        if totpAttempts >= 5 { result := Some(Quit); }
        return;
      }
      result := Some(Verified);
    }

    method StartOidc(w: World) returns (cmd: Cmd)
      requires Valid() && mode.Browsing?
      modifies `mode, `pending
      ensures Valid() && Fits(cmd)
    {
      hide ItemCount, KnownKind, WellFormed;
      if !w.oidcConfigured || !w.mayLinkOidc {
        return NoCmd;
      }
      mode, pending := OidcStart, Some(NOTHING);
      cmd := BeginOidc;
    }

    /** After the host key was shown: yes goes on to the credential, no ends the operation. */
    method ConfirmHostKey(key: string) returns (cmd: Cmd)
      requires Valid() && mode.ConfirmHost?
      modifies this
      ensures Valid() && Fits(cmd) && result == old(result)
      ensures key == "n" ==> mode.Browsing?
    {
      hide ItemCount, KnownKind, WellFormed;
      cmd := NoCmd;
      if key == "n" {
        mode, pending := Browsing, None;
      } else if key == "y" {
        var p := pending.value;
        if p.purpose.NewHostKey? {
          cmd := Mutate(None);
        } else if p.credentialKind == PASSWORD {
          mode := SecretPassword;
        } else if p.credentialKind == PRIVATE_KEY {
          mode := SecretKey;
        } else if p.credentialKind == STORED_KEY {
          cmd := Mutate(Some(Targets));
        } else {
          mode := AgentKey;
        }
      }
    }

    /** A pasted private key, or the passphrase of one, is complete. */
    method FinishSecret(w: World) returns (cmd: Cmd)
      requires Valid() && (mode.SecretKey? || mode.SecretPassphrase?)
      modifies `mode
      ensures Valid() && Fits(cmd)
    {
      hide ItemCount, KnownKind, WellFormed;
      if mode.SecretKey? && !w.keyParses {
        if w.needsPassphrase { mode := SecretPassphrase; }
        return NoCmd;
      }
      if mode.SecretPassphrase? && !w.passphraseFits {
        return NoCmd;
      }
      if pending.value.purpose.NewIdentity? {
        cmd := FinishIdentity(true);
      } else {
        cmd := Mutate(Some(Targets));
      }
    }

    /** Where the list goes back to after a deletion. */
    function SectionAfter(what: Deletion): (r: Section) {
      match what
      case OneTarget => Targets
      case OneIdentity => Keys
      case OneGroup => Groups
      case OneGrant => Grants
      case OneForward => Forwards
      case _ => Users
    }

    method HandleModeKey(key: string, w: World) returns (cmd: Cmd)
      requires Valid() && !mode.Browsing? && !Transient(mode) && result.None?
      modifies this
      ensures Valid() && Fits(cmd)
      ensures key == "esc" && !old(mode).ConfirmDelete? ==> mode.Browsing? || result == Some(Quit)
      ensures old(mode).ConfirmDelete? && key == "n" ==> mode.Browsing? && pending.None?
    {
      hide ItemCount, KnownKind, WellFormed;
      cmd := NoCmd;
      if mode.Help? {
        mode := Browsing;
        return;
      }
      if mode.TotpAuth? {
        if key == "enter" {
          VerifyChallenge(w.codeAccepted);
          return;
        }
        if key == "esc" || key == "ctrl+c" {
          result := Some(Quit);
          return Leave;
        }
      } else if mode.Forming? {
        cmd := HandleFormKey(key, w);
        return;
      } else if HasActions(mode) {
        cmd := HandleActionKey(key, w);
        return;
      } else if mode.IdentityPublic? {
        CloseModal();
        return;
      } else if mode.ConfirmDelete? {
        if key == "y" { cmd := Mutate(Some(SectionAfter(pending.value.purpose.what))); }
        if key == "n" { CloseModal(); }
        return;
      }
      cmd := HandleDialogKey(key, w);
    }

    /** The dialogs that collect a text or a confirmation, all of which esc closes. */
    method HandleDialogKey(key: string, w: World) returns (cmd: Cmd)
      requires Valid() && !Transient(mode) && !mode.Forming? && !HasActions(mode) && !mode.ConfirmDelete?
      modifies this
      ensures Valid() && Fits(cmd) && result == old(result)
      ensures key == "esc" ==> mode.Browsing?
    {
      hide ItemCount, KnownKind, WellFormed;
      cmd := NoCmd;
      if key == "enter" && mode.TotpEnroll? {
        mode := TotpConfirm;
        return;
      }
      if key == "enter" && mode.TotpConfirm? {
        if w.codeAccepted { cmd := Mutate(Some(Users)); }
        return;
      }
      if key == "enter" && mode.OidcLink? {
        if !w.oidcConfigured || pending.None? {
          CloseModal();
          return;
        }
        mode := OidcComplete;
        return CompleteOidc;
      }
      if (key == "enter" || key == "ctrl+d") && mode.PublicKey? {
        if w.keyParses { cmd := Mutate(Some(Users)); }
        return;
      }
      if (key == "enter" || key == "ctrl+d") && mode.AgentKey? {
        if w.keyParses { cmd := Mutate(Some(Targets)); }
        return;
      }
      if key == "esc" {
        CloseModal();
        return;
      }
      if mode.ConfirmHost? {
        cmd := ConfirmHostKey(key);
      } else if mode.SecretPassword? && key == "enter" {
        cmd := Mutate(Some(Targets));
      } else if (mode.SecretKey? && key == "ctrl+d") || (mode.SecretPassphrase? && key == "enter") {
        cmd := FinishSecret(w);
      }
    }

    // ---------- keys ----------

    method HandleSearchKey(key: string)
      requires Valid() && mode.Browsing? && searching
      modifies `searching, `query, `cursor
      ensures Valid() && (query != old(query) ==> cursor == 0)
    {
      hide ItemCount, KnownKind, WellFormed;
      if key == "esc" {
        searching, query, cursor := false, "", 0;
      } else if key == "enter" {
        searching := false;
      } else if key == "backspace" {
        query, cursor := if query == "" then "" else query[..|query| - 1], 0;
      } else if key == "ctrl+u" {
        query, cursor := "", 0;
      } else if key == "space" {
        query, cursor := query + " ", 0;
      } else if |key| == 1 {
        query, cursor := query + key, 0;
      }
    }

    method HandleMoveKey(key: string)
      requires Valid() && mode.Browsing?
      modifies `cursor
      ensures Valid()
      ensures key == "up" || key == "k" ==> cursor == if old(cursor) > 0 then old(cursor) - 1 else 0
      ensures key == "down" || key == "j" ==>
        cursor == if old(cursor) + 1 < ItemCount(lists, section, query) then old(cursor) + 1 else old(cursor)
      ensures key == "pgup" ==> cursor == if old(cursor) < PageSize(height) then 0 else old(cursor) - PageSize(height)
      ensures key == "pgdown" ==>
        var n := ItemCount(lists, section, query);
        cursor == if n == 0 then 0 else if old(cursor) + PageSize(height) >= n then n - 1
          else old(cursor) + PageSize(height)
      ensures key == "home" || key == "g" ==> cursor == 0
      ensures key == "end" || key == "G" ==>
        var n := ItemCount(lists, section, query); cursor == if n > 0 then n - 1 else old(cursor)
    {
      hide ItemCount, KnownKind, WellFormed, PageSize;
      var n: int := ItemCount(lists, section, query);
      if key == "up" || key == "k" {
        if cursor > 0 { cursor := cursor - 1; }
      } else if key == "down" || key == "j" {
        if cursor < n - 1 { cursor := cursor + 1; }
      } else if key == "pgup" {
        cursor := cursor - PageSize(height);
        if cursor < 0 { cursor := 0; }
      } else if key == "pgdown" {
        cursor := cursor + PageSize(height);
        Clamp();
      } else if key == "home" || key == "g" {
        cursor := 0;
      } else if key == "end" || key == "G" {
        if n > 0 { cursor := n - 1; }
      }
    }

    /** Keys that only an administrator has. */
    method HandleAdminKey(key: string, w: World) returns (cmd: Cmd, done: bool)
      requires Valid() && mode.Browsing? && admin
      modifies this
      ensures Valid() && Fits(cmd) && result == old(result) && (!done ==> mode.Browsing? && cmd.NoCmd?)
    {
      hide ItemCount, KnownKind, WellFormed;
      cmd, done := NoCmd, false;
      if |key| == 1 && '1' <= key[0] <= '7' {
        section, cursor := SECTIONS[(key[0] - '1') as int], 0;
      } else if key == "r" {
        cmd, done := Load, true;
      } else if key == "a" {
        cmd := OpenAddForm();
        done := true;
      } else if key == "m" {
        cmd := OpenSelectedActions(w.oidcConfigured);
        done := true;
      } else if key == "left" || key == "h" {
        ChangeSection(-1);
      } else if key == "right" || key == "l" || key == "tab" {
        ChangeSection(1);
      }
    }

    /** Enter chooses the target under the cursor, of those that the search leaves. */
    method HandleEnter(w: World) returns (cmd: Cmd)
      requires Valid() && mode.Browsing? && result.None?
      modifies this
      ensures Valid() && Fits(cmd)
      ensures old(section).Targets? ==>
        result == (var rows := old(Filtered(lists.targets, query));
          if rows == [] then None else Some(Connect(rows[old(cursor)].id)))
      ensures !old(section).Targets? ==> result.None?
    {
      hide KnownKind, WellFormed, Filtered;
      cmd := NoCmd;
      if section.Targets? {
        var rows := Filtered(lists.targets, query);
        if |rows| > 0 {
          result, cmd := Some(Connect(rows[cursor].id)), Leave;
        }
      } else if admin && !section.AuditLog? {
        cmd := OpenSelectedActions(w.oidcConfigured);
      }
    }

    method HandleKey(key: string, w: World) returns (cmd: Cmd)
      requires Valid() && !Transient(mode) && result.None?
      modifies this
      ensures Valid() && Fits(cmd)
      ensures !old(mode).Browsing? && !old(mode).ConfirmDelete? && key == "esc" ==>
        mode.Browsing? || result == Some(Quit)
      ensures old(mode).ConfirmDelete? && key == "n" ==> mode.Browsing?
    {
      hide ItemCount, KnownKind, WellFormed;
      cmd := NoCmd;
      if !mode.Browsing? {
        cmd := HandleModeKey(key, w);
        return;
      }
      if searching {
        HandleSearchKey(key);
        return;
      }
      if key == "ctrl+c" || key == "q" {
        result := Some(Quit);
        return Leave;
      }
      if key == "o" {
        cmd := StartOidc(w);
        return;
      }
      if admin {
        var done: bool;
        cmd, done := HandleAdminKey(key, w);
        if done {
          return;
        }
      }
      if key == "enter" {
        cmd := HandleEnter(w);
      } else if key == "/" {
        if section.Targets? { searching := true; }
      } else if key == "esc" {
        if section.Targets? { query, cursor := "", 0; }
      } else if key == "?" {
        mode := Help;
      } else {
        HandleMoveKey(key);
      }
    }

    method HandlePaste(text: string)
      requires Valid()
      modifies `form
      ensures Valid()
    {
      hide ItemCount, KnownKind, TrimSpace;
      if mode.Forming? && form.Some? && |form.value.fields[form.value.index].options| == 0 {
        Type(form.value.fields[form.value.index].value + TrimSpace(text));
      }
    }

    /** One key of RunRemote: it is handled and its command is run to the end. Nothing is ever indexed
        out of range, no dialog misses its operation, and the menu never stays in a transient mode. */
    method HandleEvent(key: string, w: World)
      requires Valid() && !Transient(mode) && result.None? && forall t :: t in w.lists.targets ==> KnownKind(t.kind)
      modifies this
      ensures Valid() && (result.None? ==> !Transient(mode))
    {
      var cmd := HandleKey(key, w);
      if result.Some? {
        return;
      }
      ApplyCommand(cmd, w);
    }
  }

  /** Every run of keys, pastes and window changes keeps the menu in a state that every key can handle. */
  datatype Event = Key(key: string, world: World) | Paste(text: string) | Resize(rows: int)

  method RunKeys(m: Model, events: seq<Event>) returns (handled: nat)
    requires m.Valid() && !Transient(m.mode) && m.result.None?
    requires forall i, t :: 0 <= i < |events| && events[i].Key? && t in events[i].world.lists.targets ==>
      KnownKind(t.kind)
    modifies m
    ensures m.Valid() && handled <= |events| && (handled < |events| ==> m.result.Some?)
  {
    handled := 0;
    while handled < |events| && m.result.None?
      invariant handled <= |events| && m.Valid() && (m.result.None? ==> !Transient(m.mode))
      decreases |events| - handled
    {
      match events[handled] {
      case Key(key, world) => m.HandleEvent(key, world);
      case Paste(text) => m.HandlePaste(text);
      case Resize(rows) => m.height := rows;
      }
      handled := handled + 1;
    }
  }
}
