/** Encrypted credential records. The AEAD is ideal: a box opens only under the key, nonce and
    associated data it was sealed with. JSON encoding of a payload is ideal too. */
module Secrets {
  import opened Wrappers
  import Decimal

  datatype SecretError = AuthenticationFailed | Corrupt | UnsupportedVersion(version: int) | EmptyTotp

  datatype Payload = Payload(
    version: int, password: string, privateKey: seq<byte>, publicKey: seq<byte>, passphrase: string, totpSecret: string)

  const EMPTY := Payload(0, "", [], [], "", "")

  datatype Plaintext = Json(payload: Payload) | OtherText

  datatype Box = Box(key: seq<byte>, nonce: seq<byte>, data: string, plain: Plaintext) | Forged(bytes: seq<byte>)

  /** The nonce and ciphertext columns of a row. */
  datatype Sealed = Sealed(nonce: seq<byte>, box: Box)

  // ---------- associated data ----------

  function CredentialData(targetId: int, kind: string): (r: string) {
    "sshgatew:credential:v1:" + Decimal.Render(targetId) + ":" + kind
  }

  function IdentityData(identityId: int): (r: string) {
    "sshgatew:ssh-identity:v1:" + Decimal.Render(identityId)
  }

  function TotpData(userId: int): (r: string) {
    "sshgatew:user-totp:v1:" + Decimal.Render(userId)
  }

  /** What a record may be sealed for. */
  datatype Owner = Target(targetId: int, kind: string) | Identity(identityId: int) | UserTotp(userId: int)

  function DataOf(owner: Owner): (r: string) {
    match owner
    case Target(id, kind) => CredentialData(id, kind)
    case Identity(id) => IdentityData(id)
    case UserTotp(id) => TotpData(id)
  }

  // ---------- sealing and opening ----------

  function Open(key: seq<byte>, nonce: seq<byte>, box: Box, data: string): (r: Result<Plaintext, SecretError>) {
    if box.Box? && box.key == key && box.nonce == nonce && box.data == data then Ok(box.plain)
    else Err(AuthenticationFailed)
  }

  /** `encrypt` with a freshly drawn nonce. */
  function Seal(key: seq<byte>, nonce: seq<byte>, payload: Payload, data: string): (r: Sealed) {
    Sealed(nonce, Box(key, nonce, data, Json(payload.(version := 1))))
  }

  /** `decrypt`. */
  function Unseal(key: seq<byte>, sealed: Sealed, data: string): (r: Result<Payload, SecretError>) {
    match Open(key, sealed.nonce, sealed.box, data)
    case Err(e) => Err(e)
    case Ok(OtherText) => Err(Corrupt)
    case Ok(Json(payload)) => if payload.version != 1 then Err(UnsupportedVersion(payload.version)) else Ok(payload)
  }

  function Encrypt(key: seq<byte>, nonce: seq<byte>, targetId: int, kind: string, payload: Payload): (r: Sealed) {
    Seal(key, nonce, payload, CredentialData(targetId, kind))
  }

  function Decrypt(key: seq<byte>, targetId: int, kind: string, sealed: Sealed): (r: Result<Payload, SecretError>) {
    Unseal(key, sealed, CredentialData(targetId, kind))
  }

  function EncryptSSHIdentity(key: seq<byte>, nonce: seq<byte>, identityId: int, payload: Payload): (r: Sealed) {
    Seal(key, nonce, payload, IdentityData(identityId))
  }

  function DecryptSSHIdentity(key: seq<byte>, identityId: int, sealed: Sealed): (r: Result<Payload, SecretError>) {
    Unseal(key, sealed, IdentityData(identityId))
  }

  function EncryptTOTP(key: seq<byte>, nonce: seq<byte>, userId: int, secret: string): (r: Sealed) {
    Seal(key, nonce, EMPTY.(totpSecret := secret), TotpData(userId))
  }

  function DecryptTOTP(key: seq<byte>, userId: int, sealed: Sealed): (r: Result<string, SecretError>) {
    match Unseal(key, sealed, TotpData(userId))
    case Err(e) => Err(e)
    case Ok(payload) => if payload.totpSecret == "" then Err(EmptyTotp) else Ok(payload.totpSecret)
  }

  // ---------- a record is bound to its owner ----------

  lemma ColonEndsNumber(one: string, two: string, rest: string, other: string)
    requires ':' !in one && ':' !in two && one + ":" + rest == two + ":" + other
    ensures one == two && rest == other
  {
    var left, right := one + ":" + rest, two + ":" + other;
    assert left[|one|] == ':' && right[|two|] == ':';
    assert |one| == |two|;
    assert left[..|one|] == one && right[..|two|] == two && left[|one| + 1..] == rest && right[|two| + 1..] == other;
  }

  /** The tenth character tells the three kinds of owner apart. */
  function Mark(owner: Owner): (r: (char, nat)) {
    match owner
    case Target(_, _) => ('c', 23)
    case Identity(_) => ('s', 25)
    case UserTotp(_) => ('u', 22)
  }

  function Suffix(owner: Owner): (r: string) {
    match owner
    case Target(id, kind) => Decimal.Render(id) + ":" + kind
    case Identity(id) => Decimal.Render(id)
    case UserTotp(id) => Decimal.Render(id)
  }

  lemma DataSplits(owner: Owner)
    ensures var (mark, n) := Mark(owner);
      |DataOf(owner)| >= n && DataOf(owner)[9] == mark && DataOf(owner)[n..] == Suffix(owner)
  {
    hide Decimal.Render;
    match owner
    case Target(id, kind) =>
      assert CredentialData(id, kind) == "sshgatew:credential:v1:" + (Decimal.Render(id) + ":" + kind);
    case Identity(_) =>
    case UserTotp(_) =>
  }

  /** Associated data determines the kind of object, its id and, for a target, its credential kind. */
  lemma DataInjective(one: Owner, two: Owner)
    requires DataOf(one) == DataOf(two)
    ensures one == two
  {
    hide DataOf;
    DataSplits(one);
    DataSplits(two);
    assert Mark(one) == Mark(two) && Suffix(one) == Suffix(two);
    match one
    case Target(id, kind) =>
      Decimal.RenderHasNoColon(id);
      Decimal.RenderHasNoColon(two.targetId);
      ColonEndsNumber(Decimal.Render(id), Decimal.Render(two.targetId), kind, two.kind);
      Decimal.RenderInjective(id, two.targetId);
    case Identity(id) => Decimal.RenderInjective(id, two.identityId);
    case UserTotp(id) => Decimal.RenderInjective(id, two.userId);
  }

  /** A sealed record opens for exactly the owner it was sealed for, under exactly the same key, and
      then yields the payload, marked with the current version. */
  lemma OpensOnlyForItsOwner(
    key: seq<byte>, other: seq<byte>, nonce: seq<byte>, payload: Payload, owner: Owner, reader: Owner)
    ensures var r := Unseal(other, Seal(key, nonce, payload, DataOf(owner)), DataOf(reader));
      (r.Ok? <==> other == key && reader == owner) && (r.Ok? ==> r.value == payload.(version := 1))
  {
    hide DataOf;
    if DataOf(owner) == DataOf(reader) { DataInjective(owner, reader); }
  }
}
