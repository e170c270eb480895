/** Audit rows outlive what they refer to: what every call leaves of them, and what pruning removes. */
module AuditTrail {
  import opened Wrappers
  import opened Text
  import Decimal
  import opened Database
  import opened StoreSpec
  import opened StoreInvariants

  // ---------- every call but pruning keeps every audit row ----------

  /** The row with those references kept whose rows still exist. */
  function Redacted(row: AuditRow, keepsActor: bool, keepsTarget: bool): (r: AuditRow) {
    row.(actor := if keepsActor then row.actor else None, targetId := if keepsTarget then row.targetId else None)
  }

  /** Exactly the references to rows that are gone are nulled. */
  ghost predicate RowKept(row: AuditRow, next: Db, a: int) {
    a in next.audit
    && next.audit[a] == Redacted(
      row, row.actor.Some? && row.actor.value in next.users, row.targetId.Some? && row.targetId.value in next.targets)
  }

  predicate Prunes(call: Call) { call.OnAudits? && call.callAudit.DoPruneAudit? }

  lemma GrowingKeepsRow(db: Db, next: Db, a: int)
    requires ForeignKeys(db) && a in db.audit && a in next.audit && next.audit[a] == db.audit[a]
    requires db.users.Keys <= next.users.Keys && db.targets.Keys <= next.targets.Keys
    ensures RowKept(db.audit[a], next, a)
  {
  }

  lemma DeletingUserKeepsRow(db: Db, user: int, a: int)
    requires ForeignKeys(db) && a in db.audit
    ensures RowKept(db.audit[a], DeleteUserRow(db, user), a)
  {
  }

  lemma DeletingTargetKeepsRow(db: Db, target: int, a: int)
    requires ForeignKeys(db) && a in db.audit
    ensures RowKept(db.audit[a], DeleteTargetRow(db, target), a)
  {
  }

  lemma UserCallKeepsRow(db: Db, call: UserCall, a: int)
    requires ForeignKeys(db) && a in db.audit
    ensures RowKept(db.audit[a], ApplyUser(db, call), a)
  {
    hide ForeignKeys, RowKept, DeleteUserRow;
    if call.DoDeleteUser? {
      hide Lower, UserNamed, OtherUsableAdmin;
      GrowingKeepsRow(db, db, a);
      forall u ensures RowKept(db.audit[a], DeleteUserRow(db, u), a) { DeletingUserKeepsRow(db, u, a); }
    } else {
      UsersStay(db, call);
      hide ApplyUser;
      GrowingKeepsRow(db, ApplyUser(db, call), a);
    }
  }

  lemma UsersStay(db: Db, call: UserCall)
    requires !call.DoDeleteUser?
    ensures db.users.Keys <= ApplyUser(db, call).users.Keys
  {
    hide ValidName, ValidRole, Lower, OtherUsableAdmin, HasKey, NextId, UserNamed, KeysOf;
  }

  lemma TargetsStay(db: Db, call: TargetCall)
    requires !call.DoDeleteTarget?
    ensures db.targets.Keys <= ApplyTarget(db, call).targets.Keys
  {
    hide TrimSpace, ValidKind, ValidPort, NextId, TargetNamed;
  }

  lemma TargetCallKeepsRow(db: Db, call: TargetCall, a: int)
    requires ForeignKeys(db) && a in db.audit
    ensures RowKept(db.audit[a], ApplyTarget(db, call), a)
  {
    hide ForeignKeys, RowKept, DeleteTargetRow;
    if call.DoDeleteTarget? {
      hide TargetNamed;
      GrowingKeepsRow(db, db, a);
      forall t ensures RowKept(db.audit[a], DeleteTargetRow(db, t), a) { DeletingTargetKeepsRow(db, t, a); }
    } else {
      TargetsStay(db, call);
      hide ApplyTarget;
      GrowingKeepsRow(db, ApplyTarget(db, call), a);
    }
  }

  lemma EventKeepsRow(db: Db, event: AuditRow, detailsAreJson: bool, a: int)
    requires a in db.audit
    ensures var next := Audit(db, event, detailsAreJson).0; a in next.audit && next.audit[a] == db.audit[a]
  {
    hide Completed, ValidOutcome, NextId;
  }

  lemma CallKeepsRow(db: Db, call: Call, a: int)
    requires ForeignKeys(db) && a in db.audit && !Prunes(call)
    ensures RowKept(db.audit[a], Apply(db, call), a)
  {
    hide ForeignKeys, RowKept, ApplyUser, ApplyLink, ApplyTotp, ApplyGroup, ApplyIdentity, ApplyTarget, ApplyGrant,
      Audit;
    if call.OnUsers? {
      UserCallKeepsRow(db, call.callUser, a);
    } else if call.OnTargets? {
      TargetCallKeepsRow(db, call.callTarget, a);
    } else {
      if call.OnAudits? { EventKeepsRow(db, call.callAudit.event, call.callAudit.detailsAreJson, a); }
      GrowingKeepsRow(db, Apply(db, call), a);
    }
  }

  /** The user has a row in every state of the run; an id that is deleted and given out again does not count. */
  ghost predicate UserSurvives(db: Db, calls: seq<Call>, user: int)
    decreases |calls|
  {
    user in db.users && (calls == [] || UserSurvives(Apply(db, calls[0]), calls[1..], user))
  }

  ghost predicate TargetSurvives(db: Db, calls: seq<Call>, target: int)
    decreases |calls|
  {
    target in db.targets && (calls == [] || TargetSurvives(Apply(db, calls[0]), calls[1..], target))
  }

  /** No run without pruning loses an audit row. Afterwards the row names its actor and its target
      exactly if those were never deleted, and is otherwise as it was written. */
  lemma {:induction false} AuditConserved(db: Db, calls: seq<Call>, a: int)
    requires Consistent(db) && a in db.audit && forall i :: 0 <= i < |calls| ==> !Prunes(calls[i])
    ensures var after, row := ApplyAll(db, calls).audit, db.audit[a];
      a in after
      && after[a] == Redacted(
        row, row.actor.Some? && UserSurvives(db, calls, row.actor.value),
        row.targetId.Some? && TargetSurvives(db, calls, row.targetId.value))
    decreases |calls|
  {
    if calls == [] {
    } else {
      CallKeepsRow(db, calls[0], a);
      ApplyKeeps(db, calls[0]);
      hide Apply;
      AuditConserved(Apply(db, calls[0]), calls[1..], a);
    }
  }

  // ---------- identities in use ----------

  lemma IdentityCallKeepsUsed(db: Db, call: IdentityCall, id: int)
    requires id in db.identities && IdentityUsed(db, id)
    ensures id in ApplyIdentity(db, call).identities
  {
    hide ValidName, TrimSpace, Lower, NextId;
  }

  /** No call deletes an SSH identity that a target uses. */
  lemma UsedIdentityStays(db: Db, call: Call, id: int)
    requires ForeignKeys(db) && IdentityUsed(db, id)
    ensures id in Apply(db, call).identities
  {
    assert id in db.identities;
    hide ForeignKeys, IdentityUsed, ApplyUser, ApplyLink, ApplyTotp, ApplyGroup, ApplyIdentity, ApplyTarget,
      ApplyGrant, ApplyAudit;
    if call.OnIdentities? {
      IdentityCallKeepsUsed(db, call.callIdentity, id);
    } else if call.OnUsers? {
      UsersLeaveIdentities(db, call.callUser);
    }
  }

  lemma UsersLeaveIdentities(db: Db, call: UserCall)
    ensures ApplyUser(db, call).identities == db.identities
  {
    if call.DoDeleteUser? { hide Lower, UserNamed, OtherUsableAdmin; } else { hide ApplyUser; }
  }

  // ---------- pruning ----------

  datatype Moment = Moment(year: nat, month: nat, day: nat, hour: nat, minute: nat, second: nat)

  predicate ValidMoment(m: Moment) {
    m.year < 10000 && m.month < 100 && m.day < 100 && m.hour < 100 && m.minute < 100 && m.second < 100
  }

  function DateText(m: Moment): (r: string) {
    Decimal.Padded(m.year, 4) + "-" + (Decimal.Padded(m.month, 2) + "-" + Decimal.Padded(m.day, 2))
  }

  function TimeText(m: Moment): (r: string) {
    Decimal.Padded(m.hour, 2) + ":" + Decimal.Padded(m.minute, 2) + ":" + Decimal.Padded(m.second, 2)
  }

  /** How SQLite writes the time of an event. */
  function Stored(m: Moment): (r: string) { DateText(m) + (" " + TimeText(m)) }

  /** How the cut-off is written for the comparison. */
  function Cutoff(m: Moment): (r: string) { DateText(m) + ("T" + TimeText(m) + "Z") }

  predicate DateBefore(a: Moment, b: Moment) {
    a.year < b.year || (a.year == b.year && (a.month < b.month || (a.month == b.month && a.day < b.day)))
  }

  predicate SameDate(a: Moment, b: Moment) { a.year == b.year && a.month == b.month && a.day == b.day }

  predicate TimeBefore(a: Moment, b: Moment) {
    a.hour < b.hour || (a.hour == b.hour && (a.minute < b.minute || (a.minute == b.minute && a.second < b.second)))
  }

  predicate Before(a: Moment, b: Moment) { DateBefore(a, b) || (SameDate(a, b) && TimeBefore(a, b)) }

  lemma {:induction false} LessOfConcat(a: string, b: string, s: string, t: string)
    requires |a| == |b|
    ensures Less(a + s, b + t) <==> Less(a, b) || (a == b && Less(s, t))
  {
    if a == "" {
      assert a + s == s && b + t == t;
    } else {
      assert (a + s)[1..] == a[1..] + s && (b + t)[1..] == b[1..] + t;
      LessOfConcat(a[1..], b[1..], s, t);
      assert a == [a[0]] + a[1..] && b == [b[0]] + b[1..];
    }
  }

  lemma LessOne(c: char, d: char)
    ensures Less([c], [d]) <==> c < d
  {
  }

  /** Numbers of the same width compare as text as they do as numbers. */
  lemma {:induction false} LessOfPadded(m: nat, n: nat, width: nat)
    requires m < Decimal.Power10(width) && n < Decimal.Power10(width)
    ensures |Decimal.Padded(m, width)| == |Decimal.Padded(n, width)|
    ensures Less(Decimal.Padded(m, width), Decimal.Padded(n, width)) <==> m < n
    ensures Decimal.Padded(m, width) == Decimal.Padded(n, width) <==> m == n
  {
    Decimal.PaddedSound(m, width);
    Decimal.PaddedSound(n, width);
    if width == 0 {
    } else {
      LessOfPadded(m / 10, n / 10, width - 1);
      var c, d := Decimal.DigitChar(m % 10), Decimal.DigitChar(n % 10);
      LessOfConcat(Decimal.Padded(m / 10, width - 1), Decimal.Padded(n / 10, width - 1), [c], [d]);
      LessOne(c, d);
      assert c < d <==> m % 10 < n % 10;
    }
  }

  lemma DatesCompare(a: Moment, b: Moment)
    requires ValidMoment(a) && ValidMoment(b)
    ensures |DateText(a)| == |DateText(b)|
    ensures Less(DateText(a), DateText(b)) <==> DateBefore(a, b)
    ensures DateText(a) == DateText(b) <==> SameDate(a, b)
  {
    assert Decimal.Power10(2) == 100 && Decimal.Power10(4) == 10000 by {
      assert Decimal.Power10(4) == 100 * Decimal.Power10(2);
    }
    LessOfPadded(a.year, b.year, 4);
    LessOfPadded(a.month, b.month, 2);
    LessOfPadded(a.day, b.day, 2);
    hide Decimal.Padded, Less;
    var month, day := (m: Moment) => Decimal.Padded(m.month, 2), (m: Moment) => Decimal.Padded(m.day, 2);
    var year := (m: Moment) => Decimal.Padded(m.year, 4);
    LessDashed(month(a), month(b), day(a), day(b));
    LessDashed(year(a), year(b), month(a) + "-" + day(a), month(b) + "-" + day(b));
  }

  lemma LessDashed(a: string, b: string, s: string, t: string)
    requires |a| == |b|
    ensures Less(a + "-" + s, b + "-" + t) <==> Less(a, b) || (a == b && Less(s, t))
    ensures a + "-" + s == b + "-" + t <==> a == b && s == t
  {
    assert a + "-" + s == a + ("-" + s) && b + "-" + t == b + ("-" + t);
    LessOfConcat(a, b, "-" + s, "-" + t);
    LessOfConcat("-", "-", s, t);
    LessIrreflexive("-");
    var left, right := a + "-" + s, b + "-" + t;
    assert left[..|a|] == a && right[..|b|] == b && left[|a| + 1..] == s && right[|b| + 1..] == t;
  }

  /** The comparison stops at the letter T, which is greater than the space that SQLite writes there:
      every event of the cut-off day counts as earlier than the cut-off, whatever its time. */
  lemma PrunedByDate(m: Moment, cut: Moment)
    requires ValidMoment(m) && ValidMoment(cut)
    ensures Less(Stored(m), Cutoff(cut)) <==> DateBefore(m, cut) || SameDate(m, cut)
  {
    DatesCompare(m, cut);
    hide DateText, TimeText, Less;
    var s, t := " " + TimeText(m), "T" + TimeText(cut) + "Z";
    LessOfConcat(DateText(m), DateText(cut), s, t);
    SpaceBeforeT(s, t);
  }

  lemma SpaceBeforeT(s: string, t: string)
    requires s != "" && s[0] == ' ' && t != "" && t[0] == 'T'
    ensures Less(s, t)
  {
  }

  /** When each event happened. */
  ghost predicate Timed(db: Db, moments: map<int, Moment>) {
    moments.Keys == db.audit.Keys
    && forall a :: a in db.audit ==> ValidMoment(moments[a]) && db.audit[a].at == Stored(moments[a])
  }

  /** Pruning removes whole days: exactly the events up to and including the day of the cut-off. */
  lemma PrunesWholeDays(db: Db, moments: map<int, Moment>, cut: Moment)
    requires Timed(db, moments) && ValidMoment(cut)
    ensures var next := PruneAudit(db, Cutoff(cut)).0;
      next == db.(audit := next.audit)
      && forall a :: if a in db.audit && DateBefore(cut, moments[a])
        then a in next.audit && next.audit[a] == db.audit[a] else a !in next.audit
  {
    hide Stored, Cutoff, Less;
    forall a | a in db.audit { PrunedByDate(moments[a], cut); }
  }

  /** So it removes exactly the events before the cut-off if and only if no event of the cut-off day
      happened at or after the cut-off. */
  lemma PruneIsExactWhen(db: Db, moments: map<int, Moment>, cut: Moment)
    requires Timed(db, moments) && ValidMoment(cut)
    ensures (forall a :: a in db.audit ==> (a !in PruneAudit(db, Cutoff(cut)).0.audit <==> Before(moments[a], cut)))
      <==> (forall a :: a in db.audit && SameDate(moments[a], cut) ==> TimeBefore(moments[a], cut))
  {
    PrunesWholeDays(db, moments, cut);
    hide PruneAudit, Stored, Cutoff;
    if a :| a in db.audit && SameDate(moments[a], cut) && !TimeBefore(moments[a], cut) {
      assert a !in PruneAudit(db, Cutoff(cut)).0.audit && !Before(moments[a], cut);
    }
  }

  /** The documented midnight cut-off removes all of that day: an event at noon is gone. */
  lemma MidnightTakesTheDay()
    ensures var cut, noon := Moment(2026, 1, 1, 0, 0, 0), Moment(2026, 1, 1, 12, 0, 0);
      Before(cut, noon) && Less(Stored(noon), Cutoff(cut))
  {
    hide Stored, Cutoff, Less;
    PrunedByDate(Moment(2026, 1, 1, 12, 0, 0), Moment(2026, 1, 1, 0, 0, 0));
  }
}
