/** Logging in with one-time codes: sessions that load the secret, check a code and consume its counter
    interleave with each other, with enrolments and with every other call of the store. */
module TotpLogin {
  import opened Wrappers
  import opened Text
  import opened Secrets
  import opened Database
  import opened StoreSpec
  import opened Hotp

  /** What does not change during a run: the library, the server's key and whose logins are looked at. */
  datatype Setting = Setting(lib: Library, key: seq<byte>, user: int)

  /** A code that a session found valid for a counter at a time. */
  datatype Login = Login(session: nat, secret: string, candidate: string, at: int, counter: int)

  /** A login: prompted, secret loaded, code checked. An enrolment: code confirmed, secret stored. */
  datatype Session =
    | Prompted
    | Loaded(secret: string)
    | Checked(login: Login)
    | Confirmed(login: Login)
    | Enrolled(login: Login)
    | Over

  /** accepted lists the codes whose counters were consumed since the secret in use was stored, oldest
      first; enrolment is the confirmation that stored it, if that happened in this run. */
  datatype State = State(db: Db, sessions: map<nat, Session>, accepted: seq<Login>, enrolment: Option<Login>)

  datatype Action =
    | Prompt(s: nat)
    | Load(s: nat)                                              // UserTOTP and DecryptTOTP
    | Check(s: nat, candidate: string, unix: int)               // Validate
    | Confirm(s: nat, secret: string, candidate: string, unix: int) // Validate with the secret being enrolled
    | Enrol(s: nat, nonce: seq<byte>)                           // EncryptTOTP and SetUserTOTP
    | Consume(s: nat)                                           // ConsumeTOTPCounter
    | Store(next: Db)                                           // any other call, by OtherCallsLeaveRow

  /** The two calls that the program makes only as Enrol and Consume. */
  predicate CountsCodes(call: Call, user: int) {
    call.OnTotps? && call.callTotp.user == user && !call.callTotp.DoRemoveUserTOTP?
  }

  /** What every other change of the database does to the user's row: nothing, or remove it. */
  predicate LeavesRow(db: Db, next: Db, user: int) {
    user in next.totp ==> user in db.totp && next.totp[user] == db.totp[user]
  }

  function ValidCode(e: Setting, session: nat, secret: string, candidate: string, unix: int): (r: Option<Login>)
    requires Ideal(e.lib)
  {
    var counter := Accepted(e.lib, secret, candidate, unix);
    if counter.None? then None else Some(Login(session, secret, candidate, unix, counter.value))
  }

  predicate MayConsume(s: State, i: nat) {
    i in s.sessions && (s.sessions[i].Checked? || s.sessions[i].Enrolled?)
  }

  ghost function Step(e: Setting, s: State, a: Action): (r: Option<State>)
    requires Ideal(e.lib)
  {
    match a
    case Prompt(i) => if i in s.sessions then None else Some(s.(sessions := s.sessions[i := Prompted]))
    case Load(i) =>
      if i !in s.sessions || !s.sessions[i].Prompted? then None
      else
        var secret := if e.user in s.db.totp then DecryptTOTP(e.key, e.user, s.db.totp[e.user].secret)
          else Err(EmptyTotp);
        Some(s.(sessions := s.sessions[i := if secret.Ok? then Loaded(secret.value) else Over]))
    case Check(i, candidate, unix) =>
      if i !in s.sessions || !s.sessions[i].Loaded? then None
      else
        var login := ValidCode(e, i, s.sessions[i].secret, candidate, unix);
        Some(s.(sessions := s.sessions[i := if login.Some? then Checked(login.value) else Over]))
    case Confirm(i, secret, candidate, unix) =>
      if i in s.sessions then None
      else
        var login := ValidCode(e, i, secret, candidate, unix);
        Some(s.(sessions := s.sessions[i := if login.Some? then Confirmed(login.value) else Over]))
    case Enrol(i, nonce) =>
      if i !in s.sessions || !s.sessions[i].Confirmed? then None
      else
        var login := s.sessions[i].login;
        var (db, r) := SetUserTOTP(s.db, e.user, EncryptTOTP(e.key, nonce, e.user, login.secret));
        if r.Err? then Some(State(db, s.sessions[i := Over], s.accepted, s.enrolment))
        else Some(State(db, s.sessions[i := Enrolled(login)], [], Some(login)))
    case Consume(i) =>
      if !MayConsume(s, i) then None
      else
        var login := s.sessions[i].login;
        var (db, r) := ConsumeTOTPCounter(s.db, e.user, login.counter);
        Some(s.(db := db, sessions := s.sessions[i := Over], accepted := if r.Ok? then s.accepted + [login]
          else s.accepted))
    case Store(next) => if LeavesRow(s.db, next, e.user) then Some(s.(db := next)) else None
  }

  ghost function Run(e: Setting, s: State, actions: seq<Action>): (r: Option<State>)
    requires Ideal(e.lib)
    decreases |actions|
  {
    if actions == [] then Some(s)
    else match Step(e, s, actions[0])
      case None => None
      case Some(next) => Run(e, next, actions[1..])
  }

  // ---------- accepted counters increase ----------

  predicate Increasing(logins: seq<Login>) {
    forall i, j :: 0 <= i < j < |logins| ==> logins[i].counter < logins[j].counter
  }

  predicate Sound(e: Setting, login: Login)
    requires Ideal(e.lib)
  {
    Accepted(e.lib, login.secret, login.candidate, login.at) == Some(login.counter)
  }

  predicate HasLogin(session: Session) { session.Checked? || session.Confirmed? || session.Enrolled? }

  /** Codes were valid when they were checked, and each session consumes at most once. */
  ghost predicate LoginsInv(e: Setting, s: State)
    requires Ideal(e.lib)
  {
    && (forall i :: i in s.sessions && HasLogin(s.sessions[i]) ==>
      Sound(e, s.sessions[i].login) && s.sessions[i].login.session == i)
    && (forall k :: 0 <= k < |s.accepted| ==>
          Sound(e, s.accepted[k]) && s.accepted[k].session in s.sessions && s.sessions[s.accepted[k].session].Over?)
  }

  /** The row remembers the greatest counter that was consumed since its secret was stored. */
  ghost predicate CounterInv(e: Setting, s: State) {
    && Increasing(s.accepted)
    && (s.enrolment.Some? ==> forall k :: 0 <= k < |s.accepted| ==> s.accepted[k].counter >= 0)
    && (e.user in s.db.totp ==>
          var last := s.db.totp[e.user].lastCounter;
          (forall k :: 0 <= k < |s.accepted| ==> s.accepted[k].counter <= last)
          && (s.enrolment.Some? ==> last == if s.accepted == [] then -1 else s.accepted[|s.accepted| - 1].counter))
  }

  /** The enrolment has still to consume its counter, or that counter or a later one was consumed. */
  ghost predicate EnrolmentInv(e: Setting, s: State) {
    s.enrolment.Some? ==>
      var login := s.enrolment.value;
      login.session in s.sessions
      && (s.sessions[login.session] == Enrolled(login)
          || (s.sessions[login.session].Over?
            && (e.user in s.db.totp ==> login.counter <= s.db.totp[e.user].lastCounter)))
  }

  ghost predicate Inv(e: Setting, s: State)
    requires Ideal(e.lib)
  {
    LoginsInv(e, s) && CounterInv(e, s) && EnrolmentInv(e, s)
  }

  lemma UserCallShrinksTotp(db: Db, call: UserCall, user: int)
    ensures var next := ApplyUser(db, call); user in next.totp ==> user in db.totp && next.totp[user] == db.totp[user]
  {
    if call.DoDeleteUser? {
      hide Lower, UserNamed, OtherUsableAdmin, KeysWithoutUser, LinksWithoutUser, GrantsWithoutPrincipal, ForgetActors;
    } else {
      hide ApplyUser;
    }
  }

  /** No other call of the store changes the user's row, except that it may remove it. */
  lemma OtherCallsLeaveRow(db: Db, call: Call, user: int)
    requires !CountsCodes(call, user)
    ensures LeavesRow(db, Apply(db, call), user)
  {
    hide ApplyUser, ApplyLink, ApplyTotp, ApplyGroup, ApplyIdentity, ApplyTarget, ApplyGrant, ApplyAudit;
    if call.OnUsers? {
      UserCallShrinksTotp(db, call.callUser, user);
    } else if call.OnTotps? {
      TotpCallLeavesRow(db, call.callTotp, user);
    } else {
      assert Apply(db, call).totp == db.totp;
    }
  }

  lemma TotpCallLeavesRow(db: Db, call: TotpCall, user: int)
    requires call.user != user || call.DoRemoveUserTOTP?
    ensures var next := ApplyTotp(db, call); user in next.totp ==> user in db.totp && next.totp[user] == db.totp[user]
  {
  }

  lemma SessionMoves(e: Setting, s: State, i: nat, session: Session)
    requires Ideal(e.lib) && Inv(e, s) && (i in s.sessions ==> s.sessions[i].Prompted? || s.sessions[i].Loaded?)
    requires HasLogin(session) ==> Sound(e, session.login) && session.login.session == i
    ensures Inv(e, s.(sessions := s.sessions[i := session]))
  {
    hide Ideal, Sound, Increasing;
  }

  lemma InvSession(e: Setting, s: State, a: Action)
    requires a.Prompt? || a.Load? || a.Check? || a.Confirm?
    requires Ideal(e.lib) && Inv(e, s) && Step(e, s, a).Some?
    ensures Inv(e, Step(e, s, a).value)
  {
    hide Ideal, Inv, Accepted, DecryptTOTP;
    SessionMoves(e, s, a.s, Step(e, s, a).value.sessions[a.s]);
  }

  lemma InvEnrol(e: Setting, s: State, a: Action)
    requires a.Enrol? && Ideal(e.lib) && Inv(e, s) && Step(e, s, a).Some?
    ensures Inv(e, Step(e, s, a).value)
  {
    hide Ideal, Accepted, EncryptTOTP;
  }

  lemma InvConsume(e: Setting, s: State, i: nat)
    requires Ideal(e.lib) && Inv(e, s) && Step(e, s, Consume(i)).Some?
    ensures Inv(e, Step(e, s, Consume(i)).value)
  {
    hide Ideal, Accepted;
  }

  lemma RowLeft(e: Setting, s: State, db: Db)
    requires Ideal(e.lib) && Inv(e, s)
    requires LeavesRow(s.db, db, e.user)
    ensures Inv(e, s.(db := db))
  {
    hide Ideal, Sound;
  }

  lemma InvStore(e: Setting, s: State, next: Db)
    requires Ideal(e.lib) && Inv(e, s) && Step(e, s, Store(next)).Some?
    ensures Inv(e, Step(e, s, Store(next)).value)
  {
    hide Ideal, Inv;
    RowLeft(e, s, next);
  }

  lemma InvStep(e: Setting, s: State, a: Action)
    requires Ideal(e.lib) && Inv(e, s) && Step(e, s, a).Some?
    ensures Inv(e, Step(e, s, a).value)
  {
    hide Ideal, Inv, Step;
    match a
    case Enrol(_, _) => InvEnrol(e, s, a);
    case Consume(i) => InvConsume(e, s, i);
    case Store(next) => InvStore(e, s, next);
    case Prompt(_) => InvSession(e, s, a);
    case Load(_) => InvSession(e, s, a);
    case Check(_, _, _) => InvSession(e, s, a);
    case Confirm(_, _, _, _) => InvSession(e, s, a);
  }

  lemma {:induction false} InvRun(e: Setting, s: State, actions: seq<Action>)
    requires Ideal(e.lib) && Inv(e, s) && Run(e, s, actions).Some?
    ensures Inv(e, Run(e, s, actions).value)
    decreases |actions|
  {
    hide Inv, Step;
    if actions == [] {
    } else {
      InvStep(e, s, actions[0]);
      InvRun(e, Step(e, s, actions[0]).value, actions[1..]);
    }
  }

  function Start(db: Db): (r: State) { State(db, map[], [], None) }

  /** The state is reached from a database in which no session has begun. */
  ghost predicate Reached(e: Setting, s: State)
    requires Ideal(e.lib)
  {
    exists db, actions :: Run(e, Start(db), actions) == Some(s)
  }

  lemma ReachedInv(e: Setting, s: State)
    requires Ideal(e.lib) && Reached(e, s)
    ensures Inv(e, s)
  {
    hide Step;
    var db, actions :| Run(e, Start(db), actions) == Some(s);
    InvRun(e, Start(db), actions);
  }

  /** Between two enrolments each accepted counter is greater than all before, whatever interleaves;
      and each was accepted for a code that is valid for it at the time of its check. */
  lemma CountersIncrease(e: Setting, s: State)
    requires Ideal(e.lib) && Reached(e, s)
    ensures Increasing(s.accepted) && forall i :: 0 <= i < |s.accepted| ==> Sound(e, s.accepted[i])
  {
    ReachedInv(e, s);
    hide Ideal, Reached, Sound;
  }

  // ---------- how many codes are accepted ----------

  function CheckedWithin(logins: seq<Login>, from: int, to: int): (r: seq<Login>) {
    if logins == [] then []
    else
      var last := logins[|logins| - 1];
      CheckedWithin(logins[..|logins| - 1], from, to) + if from <= last.at <= to then [last] else []
  }

  lemma {:induction false} WithinAreLogins(logins: seq<Login>, from: int, to: int)
    ensures forall l :: l in CheckedWithin(logins, from, to) ==> from <= l.at <= to && l in logins
  {
    if logins == [] {
    } else {
      WithinAreLogins(logins[..|logins| - 1], from, to);
    }
  }

  lemma Append(logins: seq<Login>, last: Login)
    requires Increasing(logins) && forall l :: l in logins ==> l.counter < last.counter
    ensures Increasing(logins + [last])
  {
  }

  lemma {:induction false} WithinIncreases(logins: seq<Login>, from: int, to: int)
    requires Increasing(logins)
    ensures Increasing(CheckedWithin(logins, from, to))
  {
    if logins == [] {
    } else {
      var front, last := logins[..|logins| - 1], logins[|logins| - 1];
      WithinIncreases(front, from, to);
      WithinAreLogins(front, from, to);
      assert forall l :: l in front ==> l.counter < last.counter;
      hide Increasing;
      Append(CheckedWithin(front, from, to), last);
    }
  }

  lemma {:induction false} IncreasingSpan(logins: seq<Login>)
    requires Increasing(logins) && logins != []
    ensures |logins| <= logins[|logins| - 1].counter - logins[0].counter + 1
  {
    if |logins| <= 1 {
    } else {
      IncreasingSpan(logins[..|logins| - 1]);
    }
  }

  lemma SoundIsNear(e: Setting, login: Login)
    requires Ideal(e.lib) && Sound(e, login)
    ensures -1 <= login.counter - Quotient(login.at, PERIOD) <= 1
  {
    hide CodeAt, TrimSpace;
  }

  /** Between two enrolments, at most one code per period of the interval and three more are accepted
      among those that are checked in it, over all sessions together. */
  lemma LoginBound(e: Setting, s: State, from: int, to: int)
    requires Ideal(e.lib) && Reached(e, s) && from <= to
    ensures |CheckedWithin(s.accepted, from, to)| <= Quotient(to, PERIOD) - Quotient(from, PERIOD) + 3
  {
    CountersIncrease(e, s);
    hide Reached, Sound, Quotient, Accepted;
    WithinIncreases(s.accepted, from, to);
    WithinAreLogins(s.accepted, from, to);
    QuotientMonotone(from, to);
    var w := CheckedWithin(s.accepted, from, to);
    if w != [] {
      var first, last := w[0], w[|w| - 1];
      IncreasingSpan(w);
      SoundIsNear(e, first);
      SoundIsNear(e, last);
      QuotientMonotone(from, first.at);
      QuotientMonotone(last.at, to);
    }
  }

  // ---------- codes are not accepted twice ----------

  /** When two of the accepted codes are the same, the second was accepted as the code of a later counter. */
  lemma AcceptedAgainOnlyByCollision(e: Setting, s: State, i: nat, j: nat)
    requires Ideal(e.lib) && Reached(e, s) && i < j < |s.accepted|
    requires TrimSpace(s.accepted[i].candidate) == TrimSpace(s.accepted[j].candidate)
    ensures var one, two := s.accepted[i], s.accepted[j];
      one.counter < two.counter && CodeAt(e.lib, one.secret, one.counter) == CodeAt(e.lib, two.secret, two.counter)
  {
    CountersIncrease(e, s);
    hide Reached, CodeAt, TrimSpace, Sound;
    SoundIsCode(e, s.accepted[i]);
    SoundIsCode(e, s.accepted[j]);
  }

  lemma SoundIsCode(e: Setting, login: Login)
    requires Ideal(e.lib) && Sound(e, login)
    ensures CodeAt(e.lib, login.secret, login.counter) == Some(TrimSpace(login.candidate))
  {
    hide CodeAt, TrimSpace;
  }

  /** The session's next step consumes its counter. */
  ghost predicate IsAccepted(e: Setting, s: State, i: nat)
    requires Ideal(e.lib) && MayConsume(s, i)
  {
    Step(e, s, Consume(i)).value.accepted == s.accepted + [s.sessions[i].login]
  }

  lemma ConsumeDecides(e: Setting, s: State, i: nat)
    requires Ideal(e.lib) && MayConsume(s, i)
    ensures IsAccepted(e, s, i) <==> e.user in s.db.totp && s.db.totp[e.user].lastCounter < s.sessions[i].login.counter
    ensures !IsAccepted(e, s, i) ==> Step(e, s, Consume(i)) == Some(s.(sessions := s.sessions[i := Over]))
  {
    hide Ideal;
    assert |s.accepted + [s.sessions[i].login]| != |s.accepted|;
  }

  /** Once a counter was consumed, and until the next enrolment, consuming it or an earlier one fails,
      in every session. */
  lemma ConsumedOnce(e: Setting, s: State, k: nat, i: nat)
    requires Ideal(e.lib) && Reached(e, s) && k < |s.accepted|
    requires MayConsume(s, i) && s.sessions[i].login.counter <= s.accepted[k].counter
    ensures !IsAccepted(e, s, i) && Step(e, s, Consume(i)) == Some(s.(sessions := s.sessions[i := Over]))
  {
    ReachedInv(e, s);
    ConsumeDecides(e, s, i);
    hide Ideal, Reached, Step, LoginsInv, EnrolmentInv, IsAccepted;
  }

  // ---------- the code of an enrolment ----------

  /** Storing the secret and consuming the counter of the code that confirmed it are two steps. Until
      the next enrolment, a login that has checked a code for that counter is accepted if and only if
      the user is still enrolled and the row's last counter is less; that is, if and only if the
      enrolment has not consumed its counter yet and no such or later counter was consumed. */
  lemma EnrolmentCodeExactly(e: Setting, s: State, i: nat)
    requires Ideal(e.lib) && Reached(e, s) && s.enrolment.Some?
    requires MayConsume(s, i) && s.sessions[i].login.counter == s.enrolment.value.counter
    ensures IsAccepted(e, s, i) <==> e.user in s.db.totp && s.db.totp[e.user].lastCounter < s.enrolment.value.counter
    ensures IsAccepted(e, s, i) <==>
      (e.user in s.db.totp && s.enrolment.value.counter >= 0 && Pending(s)
       && forall k :: 0 <= k < |s.accepted| ==> s.accepted[k].counter < s.enrolment.value.counter)
  {
    ReachedInv(e, s);
    ConsumeDecides(e, s, i);
    hide Ideal, Reached, Step, LoginsInv, IsAccepted, CounterInv, EnrolmentInv, Pending;
    if e.user in s.db.totp { PendingExactly(e, s); }
  }

  /** The enrolment has stored its secret and not consumed its counter yet. */
  predicate Pending(s: State) {
    s.enrolment.Some? && s.enrolment.value.session in s.sessions
    && s.sessions[s.enrolment.value.session] == Enrolled(s.enrolment.value)
  }

  lemma PendingExactly(e: Setting, s: State)
    requires CounterInv(e, s) && EnrolmentInv(e, s) && s.enrolment.Some? && e.user in s.db.totp
    ensures s.db.totp[e.user].lastCounter < s.enrolment.value.counter <==>
      (s.enrolment.value.counter >= 0 && Pending(s)
       && forall k :: 0 <= k < |s.accepted| ==> s.accepted[k].counter < s.enrolment.value.counter)
  {
  }

  /** Once the enrolment's own step was accepted, no session's code for that counter is accepted. */
  lemma EnrolmentCodeOnce(e: Setting, s: State, i: nat)
    requires Ideal(e.lib) && Reached(e, s) && s.enrolment.Some? && s.enrolment.value in s.accepted
    requires MayConsume(s, i) && s.sessions[i].login.counter == s.enrolment.value.counter
    ensures !IsAccepted(e, s, i)
  {
    hide Ideal, Reached, IsAccepted, Step;
    var k :| 0 <= k < |s.accepted| && s.accepted[k] == s.enrolment.value;
    ConsumedOnce(e, s, k, i);
  }

  lemma StoredSecretOpens(key: seq<byte>, nonce: seq<byte>, user: int, secret: string)
    requires secret != ""
    ensures DecryptTOTP(key, user, EncryptTOTP(key, nonce, user, secret)) == Ok(secret)
  {
    hide TotpData;
  }

  /** An enrolment up to the point where its secret is stored. */
  function EnrolmentSteps(i: nat, secret: string, candidate: string, unix: int, nonce: seq<byte>): (r: seq<Action>) {
    [Confirm(i, secret, candidate, unix), Enrol(i, nonce)]
  }

  /** A login that nothing interrupts. */
  function LoginSteps(i: nat, candidate: string, unix: int): (r: seq<Action>) {
    [Prompt(i), Load(i), Check(i, candidate, unix), Consume(i)]
  }

  lemma EnrolmentStores(
    e: Setting, db: Db, secret: string, candidate: string, unix: int, nonce: seq<byte>) returns (s: State)
    requires Ideal(e.lib) && e.user in db.users && nonce != [] && Accepted(e.lib, secret, candidate, unix).Some?
    ensures var login := Login(0, secret, candidate, unix, Accepted(e.lib, secret, candidate, unix).value);
      var row := TotpRow(EncryptTOTP(e.key, nonce, e.user, secret), -1);
      Run(e, Start(db), EnrolmentSteps(0, secret, candidate, unix, nonce)) == Some(s)
      && s == State(db.(totp := db.totp[e.user := row]), map[0 := Enrolled(login)], [], Some(login))
  {
    hide Ideal, Accepted, Run;
    var login := Login(0, secret, candidate, unix, Accepted(e.lib, secret, candidate, unix).value);
    var confirmed := Step(e, Start(db), Confirm(0, secret, candidate, unix)).value;
    assert confirmed == State(db, map[0 := Confirmed(login)], [], None);
    s := Step(e, confirmed, Enrol(0, nonce)).value;
    assert map[0 := Confirmed(login)][0 := Enrolled(login)] == map[0 := Enrolled(login)];
    hide Step, EncryptTOTP;
    RunFirst(e, Start(db), Confirm(0, secret, candidate, unix), [Enrol(0, nonce)]);
    RunLast(e, confirmed, Enrol(0, nonce));
    assert [Confirm(0, secret, candidate, unix)] + [Enrol(0, nonce)]
      == [Confirm(0, secret, candidate, unix), Enrol(0, nonce)];
  }

  lemma RunLast(e: Setting, s: State, a: Action)
    requires Ideal(e.lib)
    ensures Run(e, s, [a]) == Step(e, s, a)
  {
    hide Ideal, Step;
    assert [a] + [] == [a];
    RunFirst(e, s, a, []);
    if Step(e, s, a).Some? { RunNothing(e, Step(e, s, a).value); }
  }

  /** A login between the two steps takes the enrolment's code at the enrolment's counter: it is let in,
      the enrolment's own step then fails, and the user stays enrolled. */
  lemma EnrolmentRace(e: Setting, db: Db, secret: string, candidate: string, unix: int, nonce: seq<byte>)
    returns (stored: State, raced: State)
    requires Ideal(e.lib) && e.user in db.users && secret != "" && nonce != []
    requires Accepted(e.lib, secret, candidate, unix).Some? && Accepted(e.lib, secret, candidate, unix).value >= 0
    ensures Run(e, Start(db), EnrolmentSteps(0, secret, candidate, unix, nonce)) == Some(stored)
    ensures Run(e, stored, LoginSteps(1, candidate, unix)) == Some(raced)
    ensures var counter := Accepted(e.lib, secret, candidate, unix).value;
      stored.enrolment == Some(Login(0, secret, candidate, unix, counter))
      && raced.accepted == [Login(1, secret, candidate, unix, counter)]
      && e.user in raced.db.totp && raced.db.totp[e.user].lastCounter == counter
    ensures MayConsume(raced, 0) && !IsAccepted(e, raced, 0)
      && Step(e, raced, Consume(0)) == Some(raced.(sessions := raced.sessions[0 := Over]))
  {
    stored := EnrolmentStores(e, db, secret, candidate, unix, nonce);
    StoredSecretOpens(e.key, nonce, e.user, secret);
    hide Ideal, Accepted, EncryptTOTP, DecryptTOTP, Run, Step, IsAccepted, EnrolmentSteps, LoginSteps;
    var counter := Accepted(e.lib, secret, candidate, unix).value;
    assert stored.db.totp[e.user] == TotpRow(EncryptTOTP(e.key, nonce, e.user, secret), -1);
    raced := LoginRuns(e, stored, 1, secret, candidate, unix);
    assert [] + [Login(1, secret, candidate, unix, counter)] == [Login(1, secret, candidate, unix, counter)];
    assert e.user in raced.db.totp && raced.db.totp[e.user].lastCounter == counter;
    assert raced.sessions == map[0 := Enrolled(Login(0, secret, candidate, unix, counter))][1 := Over];
    ComesTooLate(e, raced, Login(0, secret, candidate, unix, counter));
  }

  lemma ComesTooLate(e: Setting, s: State, login: Login)
    requires Ideal(e.lib) && s.sessions == map[0 := Enrolled(login)][1 := Over]
    requires e.user in s.db.totp && s.db.totp[e.user].lastCounter == login.counter
    ensures MayConsume(s, 0) && !IsAccepted(e, s, 0)
      && Step(e, s, Consume(0)) == Some(s.(sessions := s.sessions[0 := Over]))
  {
    hide Ideal, Step, IsAccepted;
    assert s.sessions[0] == Enrolled(login);
    ConsumeDecides(e, s, 0);
  }

  /** The steps of a login one after another, when its code is valid for a counter that is not consumed. */
  lemma LoginRuns(e: Setting, s: State, i: nat, secret: string, candidate: string, unix: int) returns (t: State)
    requires Ideal(e.lib) && i !in s.sessions && e.user in s.db.totp
    requires DecryptTOTP(e.key, e.user, s.db.totp[e.user].secret) == Ok(secret)
    requires Accepted(e.lib, secret, candidate, unix).Some?
    requires s.db.totp[e.user].lastCounter < Accepted(e.lib, secret, candidate, unix).value
    ensures var login := Login(i, secret, candidate, unix, Accepted(e.lib, secret, candidate, unix).value);
      Run(e, s, LoginSteps(i, candidate, unix)) == Some(t)
      && t.accepted == s.accepted + [login] && t.sessions == s.sessions[i := Over]
      && t.db == s.db.(totp := s.db.totp[e.user := s.db.totp[e.user].(lastCounter := login.counter)])
  {
    hide Ideal, Accepted, DecryptTOTP, Run;
    var login := Login(i, secret, candidate, unix, Accepted(e.lib, secret, candidate, unix).value);
    var check := Check(i, candidate, unix);
    var one := s.(sessions := s.sessions[i := Prompted]);
    var two := s.(sessions := s.sessions[i := Loaded(secret)]);
    var three := s.(sessions := s.sessions[i := Checked(login)]);
    assert Step(e, s, Prompt(i)) == Some(one);
    assert Step(e, one, Load(i)) == Some(two) by { Overwrites(s.sessions, i, Prompted, Loaded(secret)); }
    assert Step(e, two, check) == Some(three) by { Overwrites(s.sessions, i, Loaded(secret), Checked(login)); }
    Overwrites(s.sessions, i, Checked(login), Over);
    t := Step(e, three, Consume(i)).value;
    hide Step;
    assert [Prompt(i)] + [Load(i), check, Consume(i)] == [Prompt(i), Load(i), check, Consume(i)];
    assert [Load(i)] + [check, Consume(i)] == [Load(i), check, Consume(i)]
      && [check] + [Consume(i)] == [check, Consume(i)];
    RunFirst(e, s, Prompt(i), [Load(i), check, Consume(i)]);
    RunFirst(e, one, Load(i), [check, Consume(i)]);
    RunFirst(e, two, check, [Consume(i)]);
    RunLast(e, three, Consume(i));
  }

  lemma Overwrites(sessions: map<nat, Session>, i: nat, first: Session, second: Session)
    ensures sessions[i := first][i := second] == sessions[i := second]
  {
  }

  // ---------- an undisturbed login ----------

  /** A login that nothing interrupts succeeds exactly if the user is enrolled, the row opens, and the
      least counter of the window with that code is above the last one accepted. */
  lemma UndisturbedLogin(e: Setting, s: State, i: nat, candidate: string, unix: int)
    requires Ideal(e.lib) && i !in s.sessions
    ensures var done := Run(e, s, LoginSteps(i, candidate, unix));
      (done.Some? && |done.value.accepted| > |s.accepted|) <==>
        e.user in s.db.totp && var secret := DecryptTOTP(e.key, e.user, s.db.totp[e.user].secret);
          secret.Ok? && var counter := Accepted(e.lib, secret.value, candidate, unix);
            counter.Some? && s.db.totp[e.user].lastCounter < counter.value
  {
    hide Ideal, Accepted, DecryptTOTP, Run;
    var one := Step(e, s, Prompt(i)).value;
    var two := Step(e, one, Load(i)).value;
    var check := Check(i, candidate, unix);
    assert [Prompt(i)] + [Load(i), check, Consume(i)] == [Prompt(i), Load(i), check, Consume(i)];
    assert [Load(i)] + [check, Consume(i)] == [Load(i), check, Consume(i)]
      && [check] + [Consume(i)] == [check, Consume(i)];
    assert [Consume(i)] + [] == [Consume(i)];
    RunFirst(e, s, Prompt(i), [Load(i), Check(i, candidate, unix), Consume(i)]);
    RunFirst(e, one, Load(i), [Check(i, candidate, unix), Consume(i)]);
    RunFirst(e, two, Check(i, candidate, unix), [Consume(i)]);
    var three := Step(e, two, Check(i, candidate, unix));
    if three.Some? {
      RunFirst(e, three.value, Consume(i), []);
      RunNothing(e, three.value);
      if Step(e, three.value, Consume(i)).Some? { RunNothing(e, Step(e, three.value, Consume(i)).value); }
    }
  }

  lemma RunFirst(e: Setting, s: State, a: Action, rest: seq<Action>)
    requires Ideal(e.lib)
    ensures Run(e, s, [a] + rest) == var next := Step(e, s, a); if next.None? then None else Run(e, next.value, rest)
  {
    hide Step;
    assert ([a] + rest)[1..] == rest;
  }

  lemma RunNothing(e: Setting, s: State)
    requires Ideal(e.lib)
    ensures Run(e, s, []) == Some(s)
  {
  }

  // ---------- the secret that a session read, and the one that is enrolled ----------

  function Opens(secret: string): (r: Result<string, SecretError>) {
    if secret == "" then Err(EmptyTotp) else Ok(secret)
  }

  /** The row has the secret of the latest enrolment or, without one in this run, the record it began with. */
  ghost predicate RecordInv(e: Setting, s: State, first: Option<Sealed>) {
    e.user in s.db.totp ==>
      if s.enrolment.Some?
      then DecryptTOTP(e.key, e.user, s.db.totp[e.user].secret) == Opens(s.enrolment.value.secret)
      else first == Some(s.db.totp[e.user].secret)
  }

  lemma RecordStep(e: Setting, s: State, a: Action, first: Option<Sealed>)
    requires Ideal(e.lib) && RecordInv(e, s, first) && Step(e, s, a).Some?
    ensures RecordInv(e, Step(e, s, a).value, first)
    ensures s.enrolment.Some? ==> Step(e, s, a).value.enrolment.Some?
  {
    hide Ideal, Accepted, EncryptTOTP, DecryptTOTP;
    if a.Enrol? && s.sessions[a.s].login.secret != "" {
      StoredSecretOpens(e.key, a.nonce, e.user, s.sessions[a.s].login.secret);
    } else if a.Enrol? {
      EmptySecretOpens(e.key, a.nonce, e.user);
    }
  }

  lemma EmptySecretOpens(key: seq<byte>, nonce: seq<byte>, user: int)
    ensures DecryptTOTP(key, user, EncryptTOTP(key, nonce, user, "")) == Err(EmptyTotp)
  {
    hide TotpData;
  }

  lemma {:induction false} RecordRun(e: Setting, s: State, actions: seq<Action>, first: Option<Sealed>)
    requires Ideal(e.lib) && RecordInv(e, s, first) && Run(e, s, actions).Some?
    ensures RecordInv(e, Run(e, s, actions).value, first)
    ensures s.enrolment.Some? ==> Run(e, s, actions).value.enrolment.Some?
    decreases |actions|
  {
    hide Ideal, RecordInv, Step;
    if actions == [] {
    } else {
      RecordStep(e, s, actions[0], first);
      RecordRun(e, Step(e, s, actions[0]).value, actions[1..], first);
    }
  }

  /** The session still works with that secret, or it is over. */
  predicate WorksWith(s: State, i: nat, secret: string) {
    i in s.sessions
    && (s.sessions[i].Over? || s.sessions[i] == Loaded(secret)
        || (s.sessions[i].Checked? && s.sessions[i].login.secret == secret))
  }

  lemma WorksOn(e: Setting, s: State, a: Action, i: nat, secret: string)
    requires Ideal(e.lib) && WorksWith(s, i, secret) && Step(e, s, a).Some?
    ensures WorksWith(Step(e, s, a).value, i, secret)
  {
    hide Ideal, Accepted, EncryptTOTP, DecryptTOTP;
  }

  lemma {:induction false} WorksRun(e: Setting, s: State, actions: seq<Action>, i: nat, secret: string)
    requires Ideal(e.lib) && WorksWith(s, i, secret) && Run(e, s, actions).Some?
    ensures WorksWith(Run(e, s, actions).value, i, secret)
    decreases |actions|
  {
    hide Ideal, WorksWith, Step;
    if actions == [] {
    } else {
      WorksOn(e, s, actions[0], i, secret);
      WorksRun(e, Step(e, s, actions[0]).value, actions[1..], i, secret);
    }
  }

  /** Consuming looks at the counter alone. A login that is accepted was checked against the secret that is
      enrolled at that moment if and only if no enrolment stored a secret since the session read it, or the
      latest one stored the same again. */
  lemma SecretIsCurrentExactly(e: Setting, s: State, i: nat, actions: seq<Action>, t: State)
    requires Ideal(e.lib) && Reached(e, s) && Run(e, s, [Load(i)] + actions) == Some(t)
    requires i in t.sessions && t.sessions[i].Checked? && IsAccepted(e, t, i)
    ensures e.user in t.db.totp
    ensures var secret := t.sessions[i].login.secret;
      DecryptTOTP(e.key, e.user, t.db.totp[e.user].secret) == Ok(secret) <==>
        t.enrolment == s.enrolment || (t.enrolment.Some? && t.enrolment.value.secret == secret)
  {
    ConsumeDecides(e, t, i);
    hide Ideal, Step, IsAccepted, DecryptTOTP, RecordInv;
    var first := FirstRecord(e, s);
    hide Reached;
    RunFirst(e, s, Load(i), actions);
    var loaded := Step(e, s, Load(i)).value;
    RecordStep(e, s, Load(i), first);
    RecordRun(e, loaded, actions, first);
    var secret := LoadReads(e, s, i);
    WorksRun(e, loaded, actions, i, secret);
    if loaded.sessions[i].Over? {
      WorksRun(e, loaded, actions, i, t.sessions[i].login.secret + "-");
    } else {
      CurrentExactly(e, s, t, first, secret);
    }
  }

  lemma FirstRecord(e: Setting, s: State) returns (first: Option<Sealed>)
    requires Ideal(e.lib) && Reached(e, s)
    ensures RecordInv(e, s, first)
  {
    hide Ideal, Step;
    var db, before :| Run(e, Start(db), before) == Some(s);
    first := if e.user in db.totp then Some(db.totp[e.user].secret) else None;
    RecordRun(e, Start(db), before, first);
  }

  /** Two moments of a run, at the first of which the record opened to the secret. */
  lemma CurrentExactly(e: Setting, s: State, t: State, first: Option<Sealed>, secret: string)
    requires RecordInv(e, s, first) && RecordInv(e, t, first) && (s.enrolment.Some? ==> t.enrolment.Some?)
    requires e.user in s.db.totp && DecryptTOTP(e.key, e.user, s.db.totp[e.user].secret) == Ok(secret)
    requires e.user in t.db.totp
    ensures DecryptTOTP(e.key, e.user, t.db.totp[e.user].secret) == Ok(secret) <==>
      t.enrolment == s.enrolment || (t.enrolment.Some? && t.enrolment.value.secret == secret)
  {
    NeverEmpty(e.key, e.user, s.db.totp[e.user].secret);
    hide DecryptTOTP;
  }

  lemma NeverEmpty(key: seq<byte>, user: int, sealed: Sealed)
    ensures DecryptTOTP(key, user, sealed) != Ok("")
  {
    hide TotpData;
  }

  lemma LoadReads(e: Setting, s: State, i: nat) returns (secret: string)
    requires Ideal(e.lib) && Step(e, s, Load(i)).Some?
    ensures var next := Step(e, s, Load(i)).value;
      next.enrolment == s.enrolment && next.db == s.db && WorksWith(next, i, secret)
      && (!next.sessions[i].Over? ==>
            e.user in s.db.totp && DecryptTOTP(e.key, e.user, s.db.totp[e.user].secret) == Ok(secret))
  {
    hide Ideal, DecryptTOTP;
    var next := Step(e, s, Load(i)).value;
    secret := if next.sessions[i].Loaded? then next.sessions[i].secret else "";
  }

  /** A session that read the old secret and waits for its code while another is enrolled. */
  function StaleSteps(
    secret: string, confirmation: string, confirmed: int, nonce: seq<byte>, candidate: string, unix: int)
    : (r: seq<Action>)
  {
    [Prompt(1), Load(1), Confirm(0, secret, confirmation, confirmed), Enrol(0, nonce), Check(1, candidate, unix)]
  }

  /** For every old and every new secret and every valid code of the old one: the session is let in with that
      code although the new secret is the one enrolled. */
  lemma StaleSecretAccepted(
    e: Setting, db: Db, former: string, secret: string, confirmation: string, confirmed: int, nonce: seq<byte>,
    candidate: string, unix: int) returns (t: State)
    requires Ideal(e.lib) && e.user in db.users && e.user in db.totp && nonce != []
    requires DecryptTOTP(e.key, e.user, db.totp[e.user].secret) == Ok(former) && secret != "" && secret != former
    requires Accepted(e.lib, secret, confirmation, confirmed).Some?
    requires Accepted(e.lib, former, candidate, unix).Some? && Accepted(e.lib, former, candidate, unix).value >= 0
    ensures Run(e, Start(db), StaleSteps(secret, confirmation, confirmed, nonce, candidate, unix)) == Some(t)
    ensures MayConsume(t, 1) && t.sessions[1].login.secret == former && IsAccepted(e, t, 1)
    ensures e.user in t.db.totp && DecryptTOTP(e.key, e.user, t.db.totp[e.user].secret) == Ok(secret)
  {
    hide Ideal, Accepted, EncryptTOTP, DecryptTOTP, Run, IsAccepted, Step;
    var check, confirm := Check(1, candidate, unix), Confirm(0, secret, confirmation, confirmed);
    var two := ReadsFormer(e, db, former);
    var three := ConfirmsNew(e, two, former, secret, confirmation, confirmed);
    var four := StoresNew(e, three, former, secret, nonce);
    t := ChecksFormer(e, four, former, candidate, unix);
    RunLast(e, four, check);
    RunFirst(e, three, Enrol(0, nonce), [check]);
    assert [Enrol(0, nonce)] + [check] == [Enrol(0, nonce), check];
    RunFirst(e, two, confirm, [Enrol(0, nonce), check]);
    assert [confirm] + [Enrol(0, nonce), check] == [confirm, Enrol(0, nonce), check];
    RunFirst(e, Step(e, Start(db), Prompt(1)).value, Load(1), [confirm, Enrol(0, nonce), check]);
    assert [Load(1)] + [confirm, Enrol(0, nonce), check] == [Load(1), confirm, Enrol(0, nonce), check];
    RunFirst(e, Start(db), Prompt(1), [Load(1), confirm, Enrol(0, nonce), check]);
    assert [Prompt(1)] + [Load(1), confirm, Enrol(0, nonce), check]
      == [Prompt(1), Load(1), confirm, Enrol(0, nonce), check];
  }

  lemma ReadsFormer(e: Setting, db: Db, former: string) returns (s: State)
    requires Ideal(e.lib) && e.user in db.totp && DecryptTOTP(e.key, e.user, db.totp[e.user].secret) == Ok(former)
    ensures var one := Step(e, Start(db), Prompt(1));
      one.Some? && Step(e, one.value, Load(1)) == Some(s) && s.db == db
      && 1 in s.sessions && s.sessions[1] == Loaded(former) && 0 !in s.sessions
  {
    hide Ideal, DecryptTOTP;
    s := Step(e, Step(e, Start(db), Prompt(1)).value, Load(1)).value;
  }

  lemma ConfirmsNew(e: Setting, s: State, former: string, secret: string, confirmation: string, confirmed: int)
    returns (t: State)
    requires Ideal(e.lib) && 1 in s.sessions && s.sessions[1] == Loaded(former) && 0 !in s.sessions
    requires Accepted(e.lib, secret, confirmation, confirmed).Some?
    ensures Step(e, s, Confirm(0, secret, confirmation, confirmed)) == Some(t) && t.db == s.db
    ensures 0 in t.sessions && t.sessions[0].Confirmed? && t.sessions[0].login.secret == secret
    ensures 1 in t.sessions && t.sessions[1] == Loaded(former)
  {
    hide Ideal, Accepted;
    t := Step(e, s, Confirm(0, secret, confirmation, confirmed)).value;
  }

  lemma StoresNew(e: Setting, s: State, former: string, secret: string, nonce: seq<byte>) returns (t: State)
    requires Ideal(e.lib) && e.user in s.db.users && nonce != [] && secret != ""
    requires 0 in s.sessions && s.sessions[0].Confirmed? && s.sessions[0].login.secret == secret
    requires 1 in s.sessions && s.sessions[1] == Loaded(former)
    ensures Step(e, s, Enrol(0, nonce)) == Some(t)
    ensures 1 in t.sessions && t.sessions[1] == Loaded(former)
    ensures e.user in t.db.totp && t.db.totp[e.user].lastCounter == -1
    ensures DecryptTOTP(e.key, e.user, t.db.totp[e.user].secret) == Ok(secret)
  {
    StoredSecretOpens(e.key, nonce, e.user, secret);
    hide Ideal, DecryptTOTP, TotpData;
    var record := EncryptTOTP(e.key, nonce, e.user, secret);
    assert record.nonce != [] && record.box != Forged([]);
    hide EncryptTOTP;
    t := Step(e, s, Enrol(0, nonce)).value;
  }

  lemma ChecksFormer(e: Setting, s: State, former: string, candidate: string, unix: int) returns (t: State)
    requires Ideal(e.lib) && 1 in s.sessions && s.sessions[1] == Loaded(former)
    requires e.user in s.db.totp && s.db.totp[e.user].lastCounter == -1
    requires Accepted(e.lib, former, candidate, unix).Some? && Accepted(e.lib, former, candidate, unix).value >= 0
    ensures Step(e, s, Check(1, candidate, unix)) == Some(t) && t.db == s.db
    ensures MayConsume(t, 1) && t.sessions[1].login.secret == former && IsAccepted(e, t, 1)
  {
    hide Ideal, Accepted;
    t := Step(e, s, Check(1, candidate, unix)).value;
    ConsumeDecides(e, t, 1);
    hide IsAccepted;
  }
}
