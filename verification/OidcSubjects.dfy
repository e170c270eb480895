/** How many users one OIDC subject can log in as. */
module OidcSubjects {
  import opened Wrappers
  import opened Text
  import opened Database
  import opened StoreSpec
  import opened StoreInvariants

  // ---------- provider usernames are stored in normal form ----------

  ghost predicate NormalLinks(links: map<int, LinkRow>) {
    forall l :: l in links ==> NormalProvider(links[l].providerUsername)
  }

  predicate NormalProvider(name: string) { OidcValue(Lower(name), 255) == Some(name) }

  /** Trimming what is in lower case leaves it in lower case. */
  lemma TrimmedIsLower(v: string)
    requires Lower(v) == v
    ensures Lower(TrimSpace(v)) == TrimSpace(v)
  {
    var from := TrimSpaceSlice(v);
    hide TrimSpace;
    var w := TrimSpace(v);
    forall i | 0 <= i < |w| ensures LowerChar(w[i]) == w[i] { assert w[i] == v[from + i] == LowerChar(v[from + i]); }
  }

  lemma TrimmedTwice(v: string)
    ensures TrimSpace(TrimSpace(v)) == TrimSpace(v)
  {
    var from := TrimSpaceSlice(v);
    TrimNothing(TrimSpace(v));
  }

  lemma ValueStays(v: string, limit: nat)
    requires OidcValue(v, limit).Some?
    ensures OidcValue(OidcValue(v, limit).value, limit) == OidcValue(v, limit)
  {
    TrimmedTwice(v);
    hide TrimSpace, ByteLength;
  }

  lemma ValueIsNormal(v: string)
    requires OidcValue(Lower(v), 255).Some?
    ensures NormalProvider(OidcValue(Lower(v), 255).value)
  {
    assert OidcValue(Lower(v), 255).value == TrimSpace(Lower(v));
    hide OidcValue, Lower, TrimSpace;
    LowerIdempotent(v);
    TrimmedIsLower(Lower(v));
    ValueStays(Lower(v), 255);
  }

  lemma NormalKeeps(db: Db, call: Call)
    requires NormalLinks(db.links)
    ensures NormalLinks(Apply(db, call).links)
  {
    hide NormalProvider, ApplyTotp, ApplyGroup, ApplyIdentity, ApplyTarget, ApplyGrant, ApplyAudit;
    if call.OnLinks? {
      LinkCallKeepsNormal(db, call.callLink);
    } else if call.OnUsers? {
      UserCallShrinksLinks(db, call.callUser);
    } else {
      assert Apply(db, call).links == db.links;
    }
  }

  lemma UserCallShrinksLinks(db: Db, call: UserCall)
    ensures var links := ApplyUser(db, call).links; forall l :: l in links ==> l in db.links && links[l] == db.links[l]
  {
    hide ValidName, ValidRole, Lower, OtherUsableAdmin, HasKey, NextId;
    if !call.DoDeleteUser? { assert ApplyUser(db, call).links == db.links; }
  }

  lemma LinkCallKeepsNormal(db: Db, call: LinkCall)
    requires NormalLinks(db.links)
    ensures NormalLinks(ApplyLink(db, call).links)
  {
    hide NormalProvider, Lower, OidcValue, AuthenticateOIDC, UpsertLink;
    match call
    case DoSetOIDCUsernameMapping(u, i, provider) =>
      if OidcValue(Lower(provider), 255).Some? {
        ValueIsNormal(provider);
        forall row: LinkRow | NormalProvider(row.providerUsername) { UpsertKeepsNormal(db, row); }
      }
    case DoLinkOIDCIdentity(u, i, s, provider) =>
      if OidcValue(Lower(provider), 255).Some? {
        ValueIsNormal(provider);
        forall row: LinkRow | NormalProvider(row.providerUsername) { UpsertKeepsNormal(db, row); }
      }
    case DoAuthenticateOIDC(claimed, i, s, provider) => LoginKeepsNormal(db, claimed, i, s, provider);
    case DoRemoveOIDCIdentity(_, _) =>
  }

  lemma UpsertKeepsNormal(db: Db, row: LinkRow)
    requires NormalLinks(db.links) && NormalProvider(row.providerUsername)
    ensures NormalLinks(UpsertLink(db, row).0.links)
  {
    hide NormalProvider, NextId, LinkOf, Conflicts;
  }

  lemma LoginKeepsNormal(db: Db, claimed: string, issuer: string, subject: string, provider: string)
    requires NormalLinks(db.links)
    ensures NormalLinks(AuthenticateOIDC(db, claimed, issuer, subject, provider).0.links)
  {
    hide NormalProvider, Lower, TrimSpace, OidcValue, Conflicts, BoundLink, WaitingLink;
    if OidcValue(Lower(provider), 255).Some? { ValueIsNormal(provider); }
  }

  lemma {:induction false} ReachableNormal(db: Db, calls: seq<Call>)
    requires NormalLinks(db.links)
    ensures NormalLinks(ApplyAll(db, calls).links)
    decreases |calls|
  {
    hide NormalLinks, Apply;
    if calls == [] {
    } else {
      NormalKeeps(db, calls[0]);
      ReachableNormal(Apply(db, calls[0]), calls[1..]);
    }
  }

  // ---------- whom a subject can be ----------

  /** Some login with this issuer and subject succeeds as the user. */
  ghost predicate LogsInAs(db: Db, issuer: string, subject: string, user: int) {
    exists claimed, provider :: AuthenticateOIDC(db, claimed, issuer, subject, provider).1 == Ok(user)
  }

  /** An enabled user's link waits for its first login. */
  ghost predicate Waits(db: Db, issuer: string, user: int) {
    user in db.users && db.users[user].enabled
    && exists l :: (l in db.links && db.links[l].issuer == issuer && db.links[l].userId == user
                    && db.links[l].subject.None?)
  }

  ghost predicate AtMostOneUser(db: Db, issuer: string, subject: string) {
    forall one, two :: LogsInAs(db, issuer, subject, one) && LogsInAs(db, issuer, subject, two) ==> one == two
  }

  ghost predicate AtMostOneWaits(db: Db, issuer: string) {
    forall one, two :: Waits(db, issuer, one) && Waits(db, issuer, two) ==> one == two
  }

  /** A subject that is not bound yet can log in as whoever waits. */
  lemma WaiterLogsIn(db: Db, issuer: string, subject: string, user: int)
    requires Consistent(db) && NormalLinks(db.links)
    requires OidcValue(issuer, 2048).Some? && OidcValue(subject, 512).Some?
    requires BoundLink(db.links, OidcValue(issuer, 2048).value, OidcValue(subject, 512).value).None?
    requires Waits(db, OidcValue(issuer, 2048).value, user)
    ensures LogsInAs(db, issuer, subject, user)
  {
    hide OidcValue, Lower, TrimSpace, ForeignKeys, UniqueKeys;
    var i, s := OidcValue(issuer, 2048).value, OidcValue(subject, 512).value;
    var l :| l in db.links && db.links[l].issuer == i && db.links[l].userId == user && db.links[l].subject.None?;
    var provider, claimed := db.links[l].providerUsername, db.users[user].username;
    assert Normalized(issuer, subject, provider) == Some(Claim(i, s, provider)) by { assert NormalProvider(provider); }
    var claim := Claim(i, s, provider);
    var waiting := WaitingLink(db.links, i, provider);
    assert waiting == Some(l) by { assert Clash(db.links[l], db.links[waiting.value]); }
    NoConflict(db, l, claim);
    assert ClaimedLink(db, claim) == Some((l, LinkRow(user, i, Some(s), provider)));
    assert Lower(TrimSpace(claimed)) == claimed;
    assert AuthenticateOIDC(db, claimed, issuer, subject, provider).1 == Ok(user);
  }

  lemma NoConflict(db: Db, l: int, claim: Claim)
    requires UniqueLinks(db.links) && l in db.links && db.links[l].issuer == claim.issuer
    requires db.links[l].providerUsername == claim.providerUsername
      && BoundLink(db.links, claim.issuer, claim.subject).None?
    ensures !Conflicts(db.links, l,
      db.links[l].(subject := Some(claim.subject), providerUsername := claim.providerUsername))
  {
  }

  /** A successful login is that of the bound user, or of a waiting one if the subject is not bound. */
  lemma LoginIsBoundOrWaiting(db: Db, issuer: string, subject: string, user: int)
    requires LogsInAs(db, issuer, subject, user)
    ensures OidcValue(issuer, 2048).Some? && OidcValue(subject, 512).Some?
    ensures var bound := BoundLink(db.links, OidcValue(issuer, 2048).value, OidcValue(subject, 512).value);
      if bound.Some? then user == db.links[bound.value].userId else Waits(db, OidcValue(issuer, 2048).value, user)
  {
    hide OidcValue, Lower, TrimSpace, Conflicts;
    var claimed, provider :| AuthenticateOIDC(db, claimed, issuer, subject, provider).1 == Ok(user);
  }

  /** A subject logs in as at most one user exactly when it is bound, or no two enabled users have
      links that still wait for their first login. */
  lemma OneUserExactly(db: Db, issuer: string, subject: string)
    requires Consistent(db) && NormalLinks(db.links)
    requires OidcValue(issuer, 2048).Some? && OidcValue(subject, 512).Some?
    ensures AtMostOneUser(db, issuer, subject) <==>
      BoundLink(db.links, OidcValue(issuer, 2048).value, OidcValue(subject, 512).value).Some?
      || AtMostOneWaits(db, OidcValue(issuer, 2048).value)
  {
    hide OidcValue, Consistent, NormalLinks, LogsInAs, Waits, BoundLink;
    var i := OidcValue(issuer, 2048).value;
    forall user | LogsInAs(db, issuer, subject, user) { LoginIsBoundOrWaiting(db, issuer, subject, user); }
    if BoundLink(db.links, i, OidcValue(subject, 512).value).None? {
      forall user | Waits(db, i, user) { WaiterLogsIn(db, issuer, subject, user); }
    }
  }

  // ---------- whichever rows the queries return ----------

  /** The links that a login may find: those bound to the subject or, if there is none, those that wait
      under the reported username. Nothing says which one, if there were several. */
  ghost predicate MayFind(links: map<int, LinkRow>, claim: Claim, l: int) {
    l in links && links[l].issuer == claim.issuer
    && (links[l].subject == Some(claim.subject)
        || (links[l].subject.None? && links[l].providerUsername == claim.providerUsername
            && forall b :: b in links && links[b].issuer == claim.issuer ==> links[b].subject != Some(claim.subject)))
  }

  /** Because of the uniqueness constraints there is at most one. */
  lemma FindsOneLink(links: map<int, LinkRow>, claim: Claim, one: int, two: int)
    requires UniqueLinks(links) && MayFind(links, claim, one) && MayFind(links, claim, two)
    ensures one == two
  {
    assert Clash(links[one], links[two]);
  }

  /** The link may be found, and binding it breaks no constraint. */
  ghost predicate Serves(links: map<int, LinkRow>, claim: Claim, l: int) {
    MayFind(links, claim, l)
    && !Conflicts(links, l, links[l].(subject := Some(claim.subject), providerUsername := claim.providerUsername))
  }

  /** Some choice of a row lets the claimed user in. */
  ghost predicate MayLogIn(db: Db, claimed: string, claim: Claim, user: int) {
    user in db.users && db.users[user].enabled && db.users[user].username == Lower(TrimSpace(claimed))
    && exists l :: Serves(db.links, claim, l) && db.links[l].userId == user
  }

  /** A claim is one user's: whoever is claimed and whichever rows are found, two logins with it are
      logins of the same user. */
  lemma ClaimIsOneUser(db: Db, one: string, two: string, claim: Claim, user: int, other: int)
    requires UniqueLinks(db.links) && MayLogIn(db, one, claim, user) && MayLogIn(db, two, claim, other)
    ensures user == other
  {
    hide Lower, TrimSpace, Conflicts, UniqueLinks;
    var l :| Serves(db.links, claim, l) && db.links[l].userId == user;
    var k :| Serves(db.links, claim, k) && db.links[k].userId == other;
    FindsOneLink(db.links, claim, l, k);
  }

  /** And the logins that succeed are exactly those. */
  lemma LoginsAreThose(db: Db, claimed: string, issuer: string, subject: string, provider: string, user: int)
    requires UniqueLinks(db.links)
    ensures AuthenticateOIDC(db, claimed, issuer, subject, provider).1 == Ok(user) <==>
      Normalized(issuer, subject, provider).Some?
      && MayLogIn(db, claimed, Normalized(issuer, subject, provider).value, user)
  {
    hide Normalized, Lower, TrimSpace, Conflicts, UniqueLinks;
    var claim := Normalized(issuer, subject, provider);
    if claim.Some? {
      ClaimedMayBeFound(db, claim.value);
      if l :| MayFind(db.links, claim.value, l) { FoundIsClaimed(db, claim.value, l); }
      hide ClaimedLink, MayFind;
      forall l | MayFind(db.links, claim.value, l) { FoundIsClaimed(db, claim.value, l); }
    }
  }

  lemma ClaimedMayBeFound(db: Db, claim: Claim)
    ensures ClaimedLink(db, claim).Some? ==>
      var (link, row) := ClaimedLink(db, claim).value;
      MayFind(db.links, claim, link)
      && row == db.links[link].(subject := Some(claim.subject), providerUsername := claim.providerUsername)
      && !Conflicts(db.links, link, row)
  {
    hide Conflicts;
  }

  lemma FoundIsClaimed(db: Db, claim: Claim, l: int)
    requires UniqueLinks(db.links) && MayFind(db.links, claim, l)
    ensures var row := db.links[l].(subject := Some(claim.subject), providerUsername := claim.providerUsername);
      ClaimedLink(db, claim) == if Conflicts(db.links, l, row) then None else Some((l, row))
  {
    hide Conflicts;
    var bound := BoundLink(db.links, claim.issuer, claim.subject);
    var found := if bound.Some? then bound else WaitingLink(db.links, claim.issuer, claim.providerUsername);
    FindsOneLink(db.links, claim, l, found.value);
  }

  /** A word of lower-case letters is stored as it is. */
  ghost predicate Plain(s: string) {
    s != "" && forall i :: 0 <= i < |s| ==> NameStart(s[i])
  }

  lemma PlainIsNormal(s: string, limit: nat)
    requires Plain(s) && |s| <= limit
    ensures Lower(s) == s && TrimSpace(s) == s && OidcValue(s, limit) == Some(s)
  {
    assert Lower(s) == s;
    hide Lower;
    assert NameStart(s[0]) && NameStart(s[|s| - 1]);
    TrimNothing(s);
    hide TrimSpace;
    AsciiLength(s);
    assert forall i :: 0 <= i < |s| ==> s[i] as int >= 97 && s[i] as int != 0x7F by {
      forall i | 0 <= i < |s| ensures s[i] as int >= 97 && s[i] as int != 0x7F { assert NameStart(s[i]); }
    }
  }

  lemma {:induction false} AsciiLength(s: string)
    requires forall i :: 0 <= i < |s| ==> NameStart(s[i])
    ensures ByteLength(s) == |s|
  {
    if s == "" {
    } else {
      assert NameStart(s[0]);
      AsciiLength(s[1..]);
    }
  }

  /** Two users whose links wait for a first login under the given provider usernames. */
  function TwoWaiting(one: string, two: string, issuer: string): (r: Db) {
    EMPTY_DB.(
      users := map[1 := UserRow(one, MEMBER, true), 2 := UserRow(two, MEMBER, true)],
      links := map[1 := LinkRow(1, issuer, None, one), 2 := LinkRow(2, issuer, None, two)])
  }

  lemma TwoWaitingConsistent(one: string, two: string, issuer: string)
    requires Lower(one) == one && TrimSpace(one) == one && Lower(two) == two && TrimSpace(two) == two && one != two
    ensures Consistent(TwoWaiting(one, two, issuer))
  {
    hide Lower, TrimSpace;
    var db := TwoWaiting(one, two, issuer);
    assert UniqueUsernames(db.users) && LowerUsernames(db.users) && UniqueLinks(db.links);
    hide UniqueUsernames, LowerUsernames, UniqueLinks;
  }

  /** Two users wait under different provider usernames: the same new subject can be either. */
  lemma TwoUsersPossible(one: string, two: string, issuer: string, subject: string)
    requires Plain(one) && Plain(two) && Plain(issuer) && Plain(subject) && one != two
    requires |one| <= 255 && |two| <= 255 && |issuer| <= 2048 && |subject| <= 512
    ensures var db := TwoWaiting(one, two, issuer);
      Consistent(db) && NormalLinks(db.links) && LogsInAs(db, issuer, subject, 1) && LogsInAs(db, issuer, subject, 2)
  {
    hide Lower, TrimSpace, OidcValue, Plain, LogsInAs, Consistent;
    PlainIsNormal(one, 255);
    PlainIsNormal(two, 255);
    PlainIsNormal(issuer, 2048);
    PlainIsNormal(subject, 512);
    TwoWaitingConsistent(one, two, issuer);
    var db := TwoWaiting(one, two, issuer);
    assert NormalProvider(one) && NormalProvider(two);
    assert db.links[1].userId == 1 && db.links[2].userId == 2;
    assert Waits(db, issuer, 1) && Waits(db, issuer, 2);
    WaiterLogsIn(db, issuer, subject, 1);
    WaiterLogsIn(db, issuer, subject, 2);
  }
}
