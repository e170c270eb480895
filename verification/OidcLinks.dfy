/** OIDC links: linking, the first login that binds a subject for good, and whom a login can be. */
module OidcLinks {
  import opened Wrappers
  import opened Text
  import opened Database
  import opened StoreSpec
  import opened StoreInvariants

  // ---------- linking ----------

  /** The owner check is all that linking needs: its upsert never runs into a constraint. */
  lemma LinkSucceedsExactly(db: Db, user: int, issuer: string, subject: string, provider: string)
    requires Consistent(db)
    ensures var r := LinkOIDCIdentity(db, user, issuer, subject, provider).1;
      r != Err(Constraint)
      && (r == DONE <==>
          Normalized(issuer, subject, provider).Some? && user in db.users
          && !OwnedByOther(db, user, Normalized(issuer, subject, provider).value))
  {
    hide Normalized, Lower, TrimSpace, LowerUsernames, ForeignKeys, NextId;
    var claim := Normalized(issuer, subject, provider);
    if claim.Some? && user in db.users && !OwnedByOther(db, user, claim.value) {
      var row := LinkRow(user, claim.value.issuer, Some(claim.value.subject), claim.value.providerUsername);
      OwnerCheckSuffices(db, row);
      assert LinkOIDCIdentity(db, user, issuer, subject, provider) == UpsertLink(db, row);
    }
  }

  lemma OwnerCheckSuffices(db: Db, row: LinkRow)
    requires UniqueLinks(db.links) && row.subject.Some?
    requires !OwnedByOther(db, row.userId, Claim(row.issuer, row.subject.value, row.providerUsername))
    ensures UpsertLink(db, row).1 == DONE
  {
    hide NextId;
    var existing := LinkOf(db.links, row.userId, row.issuer);
    var id := if existing.Some? then existing.value else NextId(db.links.Keys);
    if Conflicts(db.links, id, row) {
      var l :| l in db.links && l != id && db.links[l].issuer == row.issuer
        && ((row.subject.Some? && db.links[l].subject == row.subject)
          || db.links[l].providerUsername == row.providerUsername);
    }
  }

  // ---------- one login ----------

  /** The subject is bound to the user. */
  ghost predicate BoundTo(db: Db, issuer: string, subject: string, user: int) {
    exists l :: l in db.links && db.links[l] == LinkRow(user, issuer, Some(subject), db.links[l].providerUsername)
  }

  /** A failed login changes nothing. A successful one returns the enabled user that was claimed, to
      whom the subject is bound afterwards, and changes no subject that was bound before. */
  lemma LoginOutcome(db: Db, claimed: string, issuer: string, subject: string, provider: string)
    ensures var (next, r) := AuthenticateOIDC(db, claimed, issuer, subject, provider);
      if r.Err? then next == db
      else
        r.value in db.users && db.users[r.value].enabled && db.users[r.value].username == Lower(TrimSpace(claimed))
        && Normalized(issuer, subject, provider).Some? && var claim := Normalized(issuer, subject, provider).value;
          BoundTo(next, claim.issuer, claim.subject, r.value) && next == db.(links := next.links)
          && next.links.Keys == db.links.Keys
          && forall l :: l in db.links ==>
            next.links[l].userId == db.links[l].userId && next.links[l].issuer == db.links[l].issuer
            && (db.links[l].subject.Some? ==> next.links[l].subject == db.links[l].subject)
  {
    hide Normalized, Lower, TrimSpace;
    var (next, r) := AuthenticateOIDC(db, claimed, issuer, subject, provider);
    if r.Ok? {
      var claim := Normalized(issuer, subject, provider).value;
      var (link, row) := ClaimedLink(db, claim).value;
      hide AuthenticateOIDC;
      assert next.links == db.links[link := row];
      assert next.links[link] == LinkRow(r.value, claim.issuer, Some(claim.subject), claim.providerUsername);
    }
  }

  /** Linking binds the subject to the user, as a login does. */
  lemma LinkingBinds(db: Db, user: int, issuer: string, subject: string, provider: string)
    ensures var (next, r) := LinkOIDCIdentity(db, user, issuer, subject, provider);
      r == DONE ==>
        Normalized(issuer, subject, provider).Some? && var claim := Normalized(issuer, subject, provider).value;
        BoundTo(next, claim.issuer, claim.subject, user)
  {
    hide Normalized, OwnedByOther, UpsertLink, BoundTo;
    var claim := Normalized(issuer, subject, provider);
    if LinkOIDCIdentity(db, user, issuer, subject, provider).1 == DONE {
      var row := LinkRow(user, claim.value.issuer, Some(claim.value.subject), claim.value.providerUsername);
      assert LinkOIDCIdentity(db, user, issuer, subject, provider) == UpsertLink(db, row);
      UpsertBinds(db, row);
    }
  }

  lemma UpsertBinds(db: Db, row: LinkRow)
    requires row.subject.Some? && UpsertLink(db, row).1 == DONE
    ensures BoundTo(UpsertLink(db, row).0, row.issuer, row.subject.value, row.userId)
  {
    var id := UpsertEffect(db, row);
    hide UpsertLink;
    var links := UpsertLink(db, row).0.links;
    assert id in links && links[id]
      == LinkRow(row.userId, row.issuer, Some(row.subject.value), links[id].providerUsername);
  }

  // ---------- a binding is permanent ----------

  /** The calls that may undo a user's binding for an issuer: an administrator maps another username or
      removes the link, the user links another account, or the user is deleted. */
  ghost predicate Unbinds(db: Db, call: Call, user: int, issuer: string) {
    match call
    case OnLinks(DoSetOIDCUsernameMapping(u, i, _)) => u == user && OidcValue(i, 2048) == Some(issuer)
    case OnLinks(DoLinkOIDCIdentity(u, i, _, _)) => u == user && OidcValue(i, 2048) == Some(issuer)
    case OnLinks(DoRemoveOIDCIdentity(u, i)) => u == user && i == issuer
    case OnUsers(DoDeleteUser(name)) => UserNamed(db, Lower(name)) == Some(user)
    case _ => false
  }

  lemma BindingSurvives(db: Db, call: Call, issuer: string, subject: string, user: int)
    requires UniqueLinks(db.links) && BoundTo(db, issuer, subject, user) && !Unbinds(db, call, user, issuer)
    ensures BoundTo(Apply(db, call), issuer, subject, user)
  {
    hide UniqueLinks;
    match call
    case OnLinks(c) => LinkCallKeepsBinding(db, c, issuer, subject, user);
    case OnUsers(c) => UserCallKeepsBinding(db, c, issuer, subject, user);
    case OnTotps(_) => SameLinks(db, call, issuer, subject, user);
    case OnGroups(_) => SameLinks(db, call, issuer, subject, user);
    case OnIdentities(_) => SameLinks(db, call, issuer, subject, user);
    case OnTargets(_) => SameLinks(db, call, issuer, subject, user);
    case OnGrants(_) => SameLinks(db, call, issuer, subject, user);
    case OnAudits(_) => SameLinks(db, call, issuer, subject, user);
  }

  lemma SameLinks(db: Db, call: Call, issuer: string, subject: string, user: int)
    requires !call.OnLinks? && !call.OnUsers? && BoundTo(db, issuer, subject, user)
    ensures BoundTo(Apply(db, call), issuer, subject, user)
  {
    hide ApplyTotp, ApplyGroup, ApplyIdentity, ApplyTarget, ApplyGrant, ApplyAudit;
    assert Apply(db, call).links == db.links;
  }

  lemma UserCallKeepsBinding(db: Db, call: UserCall, issuer: string, subject: string, user: int)
    requires BoundTo(db, issuer, subject, user)
    requires call.DoDeleteUser? ==> UserNamed(db, Lower(call.username)) != Some(user)
    ensures BoundTo(ApplyUser(db, call), issuer, subject, user)
  {
    hide ValidName, ValidRole, Lower, OtherUsableAdmin, HasKey, NextId, BoundTo;
    var next := ApplyUser(db, call);
    if !call.DoDeleteUser? || next == db {
      assert next.links == db.links;
      SameBinding(db, next, issuer, subject, user);
    } else {
      KeptByDelete(db, UserNamed(db, Lower(call.username)).value, issuer, subject, user);
    }
  }

  lemma SameBinding(db: Db, next: Db, issuer: string, subject: string, user: int)
    requires BoundTo(db, issuer, subject, user) && next.links == db.links
    ensures BoundTo(next, issuer, subject, user)
  {
  }

  lemma KeptByDelete(db: Db, deleted: int, issuer: string, subject: string, user: int)
    requires BoundTo(db, issuer, subject, user) && deleted != user
    ensures BoundTo(DeleteUserRow(db, deleted), issuer, subject, user)
  {
    var l :| l in db.links && db.links[l] == LinkRow(user, issuer, Some(subject), db.links[l].providerUsername);
    assert DeleteUserRow(db, deleted).links[l] == db.links[l];
  }

  /** Writing a row of another user or issuer leaves the binding alone. */
  lemma UpsertKeepsBinding(db: Db, row: LinkRow, issuer: string, subject: string, user: int)
    requires BoundTo(db, issuer, subject, user) && (row.userId != user || row.issuer != issuer)
    ensures BoundTo(UpsertLink(db, row).0, issuer, subject, user)
  {
    hide UpsertLink;
    var l :| l in db.links && db.links[l] == LinkRow(user, issuer, Some(subject), db.links[l].providerUsername);
    var id := UpsertEffect(db, row);
    var links := UpsertLink(db, row).0.links;
    assert l in links && links[l] == db.links[l];
  }

  /** An upsert changes nothing, adds a row, or overwrites the row of the same user and issuer. */
  lemma UpsertEffect(db: Db, row: LinkRow) returns (id: int)
    ensures id in db.links ==> db.links[id].userId == row.userId && db.links[id].issuer == row.issuer
    ensures var links := UpsertLink(db, row).0.links; links == db.links || links == db.links[id := row]
    ensures UpsertLink(db, row).1 == DONE ==> UpsertLink(db, row).0.links == db.links[id := row]
  {
    hide NextId, LinkOf, Conflicts;
    var existing := LinkOf(db.links, row.userId, row.issuer);
    id := if existing.Some? then existing.value else NextId(db.links.Keys);
  }

  lemma LinkCallKeepsBinding(db: Db, call: LinkCall, issuer: string, subject: string, user: int)
    requires BoundTo(db, issuer, subject, user) && !Unbinds(db, OnLinks(call), user, issuer)
    ensures BoundTo(ApplyLink(db, call), issuer, subject, user)
  {
    match call
    case DoSetOIDCUsernameMapping(u, i, provider) => MappingKeepsBinding(db, u, i, provider, issuer, subject, user);
    case DoLinkOIDCIdentity(u, i, s, provider) => LinkingKeepsBinding(db, u, i, s, provider, issuer, subject, user);
    case DoAuthenticateOIDC(claimed, i, s, provider) =>
      LoginKeepsBinding(db, claimed, i, s, provider, issuer, subject, user);
    case DoRemoveOIDCIdentity(u, i) => RemovingKeepsBinding(db, u, i, issuer, subject, user);
  }

  lemma RemovingKeepsBinding(db: Db, u: int, i: string, issuer: string, subject: string, user: int)
    requires BoundTo(db, issuer, subject, user) && (u != user || i != issuer)
    ensures BoundTo(RemoveOIDCIdentity(db, u, i).0, issuer, subject, user)
  {
    hide LinkOf;
    if LinkOf(db.links, u, i).None? {
      assert RemoveOIDCIdentity(db, u, i).0 == db;
    } else {
      var l :| l in db.links && db.links[l] == LinkRow(user, issuer, Some(subject), db.links[l].providerUsername);
      var links := RemoveOIDCIdentity(db, u, i).0.links;
      hide RemoveOIDCIdentity;
      assert l in links && links[l] == db.links[l];
    }
  }

  lemma MappingKeepsBinding(db: Db, u: int, i: string, provider: string, issuer: string, subject: string, user: int)
    requires BoundTo(db, issuer, subject, user) && (u != user || OidcValue(i, 2048) != Some(issuer))
    ensures BoundTo(SetOIDCUsernameMapping(db, u, i, provider).0, issuer, subject, user)
  {
    hide OidcValue, Lower, BoundTo, UpsertLink;
    var iss, p := OidcValue(i, 2048), OidcValue(Lower(provider), 255);
    if iss.Some? && p.Some? && u in db.users {
      UpsertKeepsBinding(db, LinkRow(u, iss.value, None, p.value), issuer, subject, user);
    } else {
      assert SetOIDCUsernameMapping(db, u, i, provider).0 == db;
    }
  }

  lemma LinkingKeepsBinding(
    db: Db, u: int, i: string, s: string, provider: string, issuer: string, subject: string, user: int)
    requires BoundTo(db, issuer, subject, user) && (u != user || OidcValue(i, 2048) != Some(issuer))
    ensures BoundTo(LinkOIDCIdentity(db, u, i, s, provider).0, issuer, subject, user)
  {
    hide OidcValue, Lower, BoundTo, UpsertLink, OwnedByOther;
    var claim := Normalized(i, s, provider);
    if claim.Some? && u in db.users && !OwnedByOther(db, u, claim.value) {
      UpsertKeepsBinding(
        db, LinkRow(u, claim.value.issuer, Some(claim.value.subject), claim.value.providerUsername), issuer, subject,
        user);
    } else {
      assert LinkOIDCIdentity(db, u, i, s, provider).0 == db;
    }
  }

  lemma LoginKeepsBinding(
    db: Db, claimed: string, i: string, s: string, provider: string, issuer: string, subject: string, user: int)
    requires BoundTo(db, issuer, subject, user)
    ensures BoundTo(AuthenticateOIDC(db, claimed, i, s, provider).0, issuer, subject, user)
  {
    LoginOutcome(db, claimed, i, s, provider);
    hide AuthenticateOIDC;
    var next := AuthenticateOIDC(db, claimed, i, s, provider).0;
    var l :| l in db.links && db.links[l] == LinkRow(user, issuer, Some(subject), db.links[l].providerUsername);
    assert l in next.links && next.links[l] == LinkRow(user, issuer, Some(subject), next.links[l].providerUsername);
  }

  /** None of the calls may undo the binding at the point where it is made. */
  ghost predicate NeverUnbinds(db: Db, calls: seq<Call>, user: int, issuer: string)
    decreases |calls|
  {
    calls == [] || (!Unbinds(db, calls[0], user, issuer) && NeverUnbinds(Apply(db, calls[0]), calls[1..], user, issuer))
  }

  /** While a subject is bound to a user, whatever username the provider reports and whoever is
      claimed, a login with that subject is a login of that user. */
  lemma BoundLogin(db: Db, claimed: string, issuer: string, subject: string, provider: string, user: int)
    requires UniqueLinks(db.links) && Normalized(issuer, subject, provider).Some?
    requires var claim := Normalized(issuer, subject, provider).value; BoundTo(db, claim.issuer, claim.subject, user)
    ensures var r := AuthenticateOIDC(db, claimed, issuer, subject, provider).1; r.Ok? ==> r.value == user
  {
    hide Normalized, Lower, TrimSpace;
    var claim := Normalized(issuer, subject, provider).value;
    var l :| l in db.links
      && db.links[l] == LinkRow(user, claim.issuer, Some(claim.subject), db.links[l].providerUsername);
    var bound := BoundLink(db.links, claim.issuer, claim.subject);
    assert Clash(db.links[l], db.links[bound.value]);
  }

  /** While no such call is made, a bound subject logs in as no one else. */
  lemma {:induction false} BindingLasts(
    db: Db, calls: seq<Call>, claimed: string, issuer: string, subject: string, provider: string, user: int)
    requires Consistent(db) && Normalized(issuer, subject, provider).Some?
    requires var claim := Normalized(issuer, subject, provider).value;
      BoundTo(db, claim.issuer, claim.subject, user) && NeverUnbinds(db, calls, user, claim.issuer)
    ensures var r := AuthenticateOIDC(ApplyAll(db, calls), claimed, issuer, subject, provider).1;
      r.Ok? ==> r.value == user
    decreases |calls|
  {
    hide Normalized, AuthenticateOIDC, Apply, BoundTo, ForeignKeys, Unbinds;
    var claim := Normalized(issuer, subject, provider).value;
    if calls == [] {
      BoundLogin(db, claimed, issuer, subject, provider, user);
    } else {
      BindingSurvives(db, calls[0], claim.issuer, claim.subject, user);
      ApplyKeeps(db, calls[0]);
      BindingLasts(Apply(db, calls[0]), calls[1..], claimed, issuer, subject, provider, user);
    }
  }

  /** Once a subject has logged in as a user, it never logs in as anyone else, whatever happens, until
      that user's link is mapped, linked or removed anew or the user is deleted. */
  lemma FirstLoginBindsForever(
    db: Db, first: string, issuer: string, subject: string, reported: string, user: int,
    calls: seq<Call>, claimed: string, provider: string)
    requires Consistent(db) && AuthenticateOIDC(db, first, issuer, subject, reported).1 == Ok(user)
    requires Normalized(issuer, subject, provider).Some?
    requires NeverUnbinds(
      AuthenticateOIDC(db, first, issuer, subject, reported).0, calls, user,
      Normalized(issuer, subject, provider).value.issuer)
    ensures var later := ApplyAll(AuthenticateOIDC(db, first, issuer, subject, reported).0, calls);
      var r := AuthenticateOIDC(later, claimed, issuer, subject, provider).1; r.Ok? ==> r.value == user
  {
    LoginOutcome(db, first, issuer, subject, reported);
    ClaimKeeps(db, first, issuer, subject, reported);
    SameSubject(issuer, subject, reported, provider);
    hide Normalized, AuthenticateOIDC, Consistent, BoundTo, NeverUnbinds;
    BindingLasts(
      AuthenticateOIDC(db, first, issuer, subject, reported).0, calls, claimed, issuer, subject, provider, user);
  }

  /** The reported username has no influence on the issuer and the subject of a claim. */
  lemma SameSubject(issuer: string, subject: string, one: string, two: string)
    requires Normalized(issuer, subject, one).Some? && Normalized(issuer, subject, two).Some?
    ensures var c, d := Normalized(issuer, subject, one).value, Normalized(issuer, subject, two).value;
      c.issuer == d.issuer && c.subject == d.subject
  {
    hide OidcValue, Lower;
  }
}
