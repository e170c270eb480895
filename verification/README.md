# SSHGateW: a verified model

SSHGateW is an SSH credential gateway. Users log in with a key, a one-time code or an OIDC account, see a
terminal menu of the targets they may use, and are connected with credentials that they never see. This
project models the parts of the gateway in which mistakes would be silent, and proves what those parts
promise, for every input, every run and every interleaving.

`dafny verify dfyconfig.toml` verifies the whole project.

## How the model is organised

* **The store** (`internal/store/store.go`). `Database` holds the tables as relations with their constraints
  and cascades. `StoreSpec` says what each operation does to them. `Store` is the store itself, a class over
  one database. The operations that are more than one statement are its methods, written as the program
  writes them; each is one atomic step, is proved equal to `StoreSpec`, and promises its caller what
  follows from that. `StoreInvariants` proves that every constraint holds after every sequence of calls.
  On top of it: `Administrators` (the last usable administrator), `KeyLogins` (which key lets whom in),
  `OidcLinks` and `OidcSubjects` (linking and binding external accounts), `Authorization` (the list query,
  the capability query and what grants do), `LiveSessions` (what changing a user means for channels that are
  open), `AuditTrail` and `Deletions` (what deleting and pruning leave
  behind), `Migration` (the script and the six steps that run whenever the file is opened).
* **Secrets** (`Secrets`, `Credentials`). Sealed records are bound to their owner; the administrative commands
  together with the read before a connection refine a map from target to payload.
* **One-time codes** (`Hotp`, `TotpLogin`). Truncation, rendering and the window; and whole runs in which
  sessions read, check and consume codes while anything else happens in the store.
* **The terminal** (`TerminalInput`, `TerminalStream`, `Menu`, `MenuModel`). The incremental input decoder and
  its independence of how the stream is cut; the state of the menu, in which nothing is ever out of range.
* **Sessions** (`Handover`, `Sessions`, `Routing`, `KeepAlive`). The single reader of the SSH channel that menu
  and shell take turns with, in small interleaved steps; the session counters; what the three connection
  handlers ask and do, in order; the keep-alive loop in a model with time.
* **Legacy SCP** (`ShellWords`, `ScpCommand`). A word splitter after section 2.2 of the POSIX Shell Command
  Language and the canonical form of a command, which that splitter reads back exactly.
* `Text`, `Decimal`, `Wrappers`: strings, numbers and results as Go's standard library has them.

The AEAD, HMAC-SHA1, base32 and JSON are ideal functions: a sealed box opens only under the key, nonce and
associated data it was sealed with, HMAC returns 20 bytes, encodings round-trip. Whether a pasted key parses,
what the network answers and when a step fails are parameters. Clock readings are parameters too.

## Where the code and its descriptions disagree

* `audit prune --before T` is documented as removing events before T (docs/operations.md:289). Times are
  compared as text, and the stored form has a space where the cut-off has the letter T, so every event of the
  day of the cut-off is removed, whatever its time. `AuditTrail.PruneIsExactWhen` gives the exact condition
  under which pruning removes what it says, and `AuditTrail.MidnightTakesTheDay` an example.
* One external subject logs in as at most one user only once it is bound. Until then it can be any of the
  users whose mapping waits, one for each provider username it may report.
  `OidcSubjects.OneUserExactly` gives the exact condition, `OidcSubjects.TwoUsersPossible` an example.
* A stream cannot be cut right behind an escape byte that was flushed: `TerminalStream.SplitsCleanlyExactly`.
* The code that confirms an enrolment is meant to be used up by it. But the secret is stored and its counter
  consumed in two steps (internal/tui/menu.go:1139-1156), and a login between them, or after the second one
  was cancelled, is let in with that code. `TotpLogin.EnrolmentRace` is that run,
  `TotpLogin.EnrolmentCodeExactly` the exact condition. Also, a counter is consumed rather than a code:
  see `TotpLogin.AcceptedAgainOnlyByCollision`.
* A step of the migration that replaces the targets table is recorded before its foreign-key check, and a
  recorded step is not checked again. So a start that refuses a file with broken references uses up the check,
  like one that crashes before it, and the third start at the latest accepts the file as it is:
  `Migration.RefusedExactly` and `Migration.RefusedThenAccepted`, for the resulting files
  `Migration.ResumableExactly`.
* A login consumes a counter, whatever secret its code was checked against. A session that read the secret
  before another one was enrolled is let in with a code of the former secret:
  `TotpLogin.SecretIsCurrentExactly` is the exact condition, `TotpLogin.StaleSecretAccepted` the run.

## Model

| member | source | states |
|---|---|---|
| TerminalInput.ParseInput | internal/tui/remote.go:142-234 | the decoding loop computes exactly the round-by-round specification that the lemmas below are about |
| TerminalInput.ParseExtendedKey | internal/tui/remote.go:240-280 | the decoder of CSI-u and modifyOtherKeys sequences agrees with its specification in event, length and incompleteness |
| TerminalInput.RoundStable | internal/tui/remote.go:142-234 | a round that took some bytes takes the same bytes and yields the same events whatever follows |
| TerminalStream.RestWaits | internal/tui/remote.go:142-234 | the rest is a suffix of the input, and decoding it again yields nothing and leaves it as it is |
| TerminalStream.ParseSplit | internal/tui/remote.go:142-234 | unless decoding a ends in the flush of a lone escape, decoding a and then its rest with b gives the events and the rest of a followed by b |
| TerminalStream.SplitsCleanlyExactly | internal/tui/remote.go:142-234 | cutting behind a is harmless for every continuation if and only if decoding a does not end in that flush |
| TerminalStream.FeedIsParse | internal/tui/remote.go:84-88 | the reading loop with its carried-over tail decodes any number of chunks like the whole stream |
| TerminalStream.ChunkingIndependence | internal/tui/remote.go:84-88 | two ways to cut one stream give the same events and the same tail |
| TerminalStream.FlushEndsInEscape | internal/tui/remote.go:145-148 | the flush can only happen when the last byte is an escape, so looking at that byte excludes it |
| TerminalStream.CutsAreClean | internal/tui/remote.go:84-88 | chunks of which none but the last ends in an escape are cut cleanly |
| TerminalStream.PrintParse | internal/tui/remote.go:142-304 | every sequence of keys and pastes, printed as a character, a control byte, a known sequence, a paste, CSI-u (modifiers absent, blank or given, sub-parameters, further fields) or modifyOtherKeys, is decoded to exactly those keys and pastes with nothing left over |
| Handover.NeverTwoReaders | internal/tui/remote.go:45-69 | in every interleaving at most one of all menu readers and the shell's input worker is inside a read |
| Handover.HandedOverWhole | internal/tui/remote.go:96-121 | when the menu has returned a choice no menu reader reads or holds a result, and outside a shell no input worker exists |
| Handover.StreamConservation | internal/gateway/input.go:24-76 | until the session ends, delivered, pending, in-hand, queued and held bytes are together exactly the bytes read, in order; afterwards the delivered bytes are a prefix |
| Handover.FaultComesLast | internal/gateway/input.go:54-75 | a read reports the channel's error only when every byte before it has been delivered, and a closed queue only after the session has ended |
| Handover.CancelledLosesNothing | internal/gateway/input.go:50-76 | however many reads are cancelled in between, also such as had taken a message already, the next bytes a read returns continue the stream exactly where the last ones ended |
| Handover.CancelledAfterTaking | internal/gateway/input.go:50-76 | a call that is cancelled after it took a message leaves that message pending for the next reader, and delivers nothing |
| Handover.RoundIsSteps | internal/gateway/input.go:50-76 | one round of the loop in ReadContext is a sequence of interleaved steps of the machine with the same effect |
| Handover.JoinEnds | internal/downstream/downstream.go:185-212 | while the shell is joined its worker can always move, each move brings its exit closer, nobody else delays it, and at most six moves remain |
| Handover.InteractiveSession.ReadContext | internal/gateway/input.go:50-76 | a read returns a non-empty prefix of what remains, within the buffer, or the fault or closure when nothing remains; what it does not return remains; each round of its loop is the one that RoundIsSteps ties to the interleaved machine |
| ShellWords.JoinReads | internal/downstream/protocols.go:110-122 | splitting the quoted and joined words gives back every list of words, whatever characters they contain |
| ScpCommand.SafeSCPCommand | internal/downstream/protocols.go:82-115 | the method with its mode flag and its quoted array computes the canonical form or the error that the lemmas below characterise |
| ScpCommand.AcceptedExactly | internal/downstream/protocols.go:82-109 | a command is accepted if and only if it has no NUL, CR or LF, splits into scp, options made of the letters ftrpd with exactly one f or t among all, and a path |
| ScpCommand.ForwardsValidated | internal/downstream/protocols.go:110-114 | splitting what is forwarded yields exactly the validated arguments |
| ScpCommand.NoLineBreakComesOut | internal/downstream/protocols.go:82-114 | no NUL, CR or LF is ever forwarded |
| ScpCommand.Fixpoint | internal/downstream/protocols.go:82-114 | a forwarded command is accepted again and forwarded unchanged |
| Hotp.Validate | internal/totp/totp.go:44-57 | the window loop, with its check of the length, finds exactly the accepted counter |
| Hotp.CodeIsSixDigits | internal/totp/totp.go:66-71 | for every MAC of 20 bytes the code has exactly six digits and reads back as the truncated value modulo one million |
| Hotp.AcceptedExactly | internal/totp/totp.go:44-57 | a candidate is accepted for a counter if and only if that is the least of the three counters around the current one whose code it is |
| Hotp.DisplayedIsAccepted | internal/totp/totp.go:38-57 | the code shown at one moment is accepted at every moment at most one period earlier or later |
| Hotp.MessagesDiffer | internal/totp/totp.go:64-67 | different 64-bit counters are authenticated as different messages |
| TotpLogin.CountersIncrease | internal/store/store.go:722-735 | between two enrolments, with sessions, menu and store calls interleaving at will, accepted counters strictly increase, and each was accepted for a code valid at the time of its check |
| TotpLogin.LoginBound | internal/gateway/auth.go:152-179 | between two enrolments at most b/30 - a/30 + 3 codes checked within [a, b] are accepted, over all sessions |
| TotpLogin.OtherCallsLeaveRow | internal/store/store.go:702-735 | no operation of the store but storing a secret and consuming a counter changes the user's row, except by removing it |
| TotpLogin.ConsumedOnce | internal/store/store.go:722-735 | once a counter is consumed, consuming it or an earlier one fails in every session until the next enrolment that succeeds |
| TotpLogin.AcceptedAgainOnlyByCollision | internal/store/store.go:722-735 | two equal codes that were both accepted were accepted for different counters, the second for the later one |
| TotpLogin.EnrolmentCodeExactly | internal/tui/menu.go:1139-1156 | a login with a code for the enrolment's counter is accepted if and only if the row's last counter is below it, that is, while the enrolment has not consumed it yet and no other login has consumed it or a later one |
| TotpLogin.EnrolmentCodeOnce | internal/tui/menu.go:1139-1156 | once the enrolment has consumed its counter, no session's code for that counter is accepted |
| TotpLogin.EnrolmentRace | internal/tui/menu.go:1139-1156 | for every valid code: a login between the two steps of the enrolment is let in with the enrolment's code, the enrolment's own step then fails, and the user stays enrolled |
| TotpLogin.SecretIsCurrentExactly | internal/gateway/auth.go:152-179 | over every run from the moment a session reads the secret: the secret its accepted code was checked against is the enrolled one if and only if no enrolment stored a secret since, or the latest one stored the same |
| TotpLogin.StaleSecretAccepted | internal/gateway/auth.go:152-179 | for every former and new secret and every valid code of the former: a session that read the former one is let in after the new one was enrolled |
| TotpLogin.UndisturbedLogin | internal/gateway/auth.go:152-179 | an uninterrupted login succeeds if and only if the user is enrolled, the record opens, and the least matching counter is above the last one accepted |
| Secrets.DataInjective | internal/secrets/secrets.go:70-80 | associated data determines target and kind, identity or user, for arbitrary kind strings; the three name spaces are disjoint |
| Secrets.OpensOnlyForItsOwner | internal/secrets/secrets.go:82-149 | a sealed record opens under exactly its own key for exactly its own owner, and then yields the payload with the current version |
| Credentials.ExecRefines | internal/tui/menu.go:1532-1615 | every command, wherever it fails, keeps the stored records in step with the map of what was last set, and a failed command leaves the whole database as it was |
| Credentials.LoadReturnsLastSet | internal/gateway/routing.go:36-48 | after any run of commands, loading a target's credential gives the payload last set for it, or its identity's, and the kind is stored_key exactly if the target refers to an identity that exists |
| Credentials.MovedSecretIsRefused | internal/gateway/routing.go:36-48 | a record moved to another target, or whose target gets another kind, is refused |
| Credentials.DeleteUndoesAddIdentity | internal/tui/menu.go:1554-1565 | the compensating deletion of an identity that was just added restores the database |
| Credentials.TargetAdd | cmd/sshgatew/main.go:534-556 | a creation that fails at any point leaves the whole store as it was; one that succeeds adds a target that loads exactly the given payload; every other target loads what it did |
| Credentials.Load | internal/gateway/routing.go:36-48 | whatever map the store refines, loading yields the payload that the map has for the target, or that there is no such target |
| StoreInvariants.ReachableConsistent | internal/store/store.go:72-107 | in every reachable database all references lead to rows and all uniqueness constraints hold |
| StoreInvariants.ApplyKeeps | internal/store/store.go:355-1141 | each single operation, successful or not, keeps all constraints |
| Administrators.InitMakesAdmin | cmd/sshgatew/main.go:153-159 | initialisation with a valid name always succeeds and yields a consistent database with a usable administrator |
| Administrators.AdminAlways | internal/store/store.go:586-638 | no sequence of operations removes the last enabled administrator with a key |
| Administrators.KeyRemains | internal/store/store.go:677-693 | removing one of several keys leaves a key, because a user has each fingerprint once |
| Administrators.AdminCanLogIn | internal/store/store.go:694-700 | a usable administrator is authenticated with some fingerprint, under the name in any case |
| Administrators.SomeAdminCanLogIn | cmd/sshgatew/main.go:153-159 | after initialisation and any sequence of operations some name and key authenticate an enabled administrator |
| KeyLogins.AddedKeyLogsIn | internal/store/store.go:640-654 | an added key lets in exactly its user, if enabled, under the name in any case; no other attempt to log in changes its outcome |
| KeyLogins.RemovedKeyIsRefused | internal/store/store.go:677-693 | a removed key no longer lets its user in; no other attempt to log in changes its outcome |
| KeyLogins.DisabledIsRefused | internal/store/store.go:586-598 | no key lets in a user who was disabled |
| KeyLogins.DeletedIsRefused | internal/store/store.go:615-627 | no key lets in a user who was deleted, and the name is free |
| OidcLinks.LinkSucceedsExactly | internal/store/store.go:448-491 | linking succeeds if and only if the values are valid, the user exists and nobody else owns subject or username; its upsert never violates a constraint |
| OidcLinks.OwnerCheckSuffices | internal/store/store.go:461-486 | the owner check alone excludes every conflict of the upsert |
| OidcLinks.LoginOutcome | internal/store/store.go:493-535 | a failed login changes nothing; a successful one returns the enabled claimed user, binds the subject to it and changes no subject that was set |
| OidcLinks.BoundLogin | internal/store/store.go:504-518 | while a subject is bound, every successful login with it is a login of that user, whatever is claimed or reported |
| OidcLinks.BindingSurvives | internal/store/store.go:428-584 | only remapping, relinking or removing that user's link, or deleting the user, undoes a binding |
| OidcLinks.FirstLoginBindsForever | internal/store/store.go:493-535 | after the first successful login with a subject, over every run without those calls, it never logs in as anyone else, whatever is claimed or reported |
| OidcLinks.LinkingBinds | internal/store/store.go:448-491 | a successful linking binds the subject to the user, as a login does |
| OidcSubjects.ReachableNormal | internal/store/store.go:402-446 | provider usernames are stored trimmed and in lower case in every reachable database |
| OidcSubjects.OneUserExactly | internal/store/store.go:504-530 | a subject can log in as at most one user if and only if it is bound or at most one enabled user's link still waits |
| OidcSubjects.ClaimIsOneUser | internal/store/store.go:504-530 | whichever of the matching rows the two queries return, and whoever is claimed, two logins with the same issuer, subject and reported username are logins of the same user |
| OidcSubjects.LoginsAreThose | internal/store/store.go:493-535 | a login succeeds for a user if and only if some choice of rows lets that user in |
| OidcSubjects.TwoUsersPossible | internal/store/store.go:507-514 | with two waiting links one new subject can log in as either user |
| Store.Store.AuthenticateOIDC | internal/store/store.go:493-535 | the transaction with its updates by user and issuer has the specified effect; a failure changes nothing, and a success binds the subject to the enabled user that was claimed |
| Store.Store.LinkOIDCIdentity | internal/store/store.go:448-491 | the loop over owners and the upsert succeed exactly when nobody else owns subject or username, and then bind the subject; no constraint ever fails |
| Store.ClaimedByUpdate | internal/store/store.go:507-518 | the update by user and issuer writes exactly the claimed link, and fails exactly if that would break a uniqueness constraint |
| Store.ConflictBreaksUniqueness | internal/store/store.go:177 | writing a user's one row for an issuer breaks a constraint if and only if another row has its subject or its username |
| Store.Store.RemoveGatewayKey | internal/store/store.go:677-693 | some administrator stays usable; afterwards exactly that key no longer lets that user in; a refused removal changes nothing |
| Store.Store.AddGatewayKey | internal/store/store.go:640-654 | afterwards the key lets its user in if enabled, and no other attempt to log in changes; a refused addition changes nothing |
| Store.Store.SetUserEnabled | internal/store/store.go:586-598 | some administrator stays usable, and no key lets in a user who was disabled |
| Store.Store.DeleteUser | internal/store/store.go:615-627 | some administrator stays usable; the database only shrinks and the name is gone; a refused deletion changes nothing |
| Store.Store.EnsureOtherUsableAdmin | internal/store/store.go:628-638 | the count over the join is positive exactly if another enabled administrator with a key exists |
| Store.Store.ConsumeTOTPCounter | internal/store/store.go:722-735 | afterwards neither that counter nor an earlier one can be consumed for the user; later ones and other users' can exactly as before |
| Store.Store.AddTarget | internal/store/store.go:875-897 | deleting the target that was added restores the database; a refused addition changes nothing |
| Store.Store.DeleteTarget | internal/store/store.go:954-957 | the database only shrinks and the name is gone; a refused deletion changes nothing |
| Store.Store.CanAccessCapability | internal/store/store.go:1046-1061 | the search of grants and memberships answers as the decision predicate of the lemmas about access |
| Store.Store.PruneAudit | internal/store/store.go:1135-1141 | exactly the rows whose time is less as text are removed, and they are counted |
| Authorization.JoinSelectsExactly | internal/store/store.go:921-926 | the three outer joins select exactly the enabled targets with a direct or a group-mediated grant |
| Authorization.ListAuthorizedTargets | internal/store/store.go:921-949 | the list is in strict name order, so without duplicates, and contains exactly the targets that are selected |
| Authorization.CapabilityImpliesListed | internal/store/store.go:1046-1061 | whatever an enabled user may do with a target, the target is in that user's list |
| Authorization.GrantChangesOnlyItsOwn | internal/store/store.go:996-1026 | setting a grant changes no decision for other targets or for users whom its principal does not cover |
| Authorization.GrantDecides | internal/store/store.go:996-1026 | for a member it covers, it allows what it says and takes away exactly what no other grant allows |
| Authorization.AccessIsGiven | internal/store/store.go:355-1141 | a member gains a capability only by a grant that allows it, by joining a group or by the target being enabled; reused ids give nothing |
| Authorization.NothingGivenNothingGained | internal/store/store.go:355-1141 | over every run without such a call a member never gains the capability |
| Authorization.NewUserHasNothing | internal/store/store.go:355-369 | a user who was just added can access nothing, even under the id of a deleted user |
| LiveSessions.ChannelsSeeChanges | internal/gateway/auth.go:28-38 | a user who was disabled or deleted opens no further channel, and one whose role was changed opens them in the new role |
| LiveSessions.UserCallsLeaveSessions | internal/store/store.go:1046-1061 | disabling a user or changing the role decides nothing anew for a session that is open |
| LiveSessions.DeletingExactly | internal/store/store.go:615-627 | deleting a user takes all access from that user's open sessions, exactly unless they were opened as administrator, and none from others |
| LiveSessions.DeletedStaysOut | internal/store/store.go:1046-1061 | over every run in which nothing is given to the id of a deleted member, that member's open sessions have no access |
| LiveSessions.IdReusedExactly | internal/store/store.go:355-369 | the next user gets the id of a deleted one if and only if it was the greatest and the id below it is in use or it was the only one |
| LiveSessions.ReusedIdInherits | internal/store/store.go:1046-1061 | for every such deletion: an open session of the deleted user may then do what the new user of the id is granted |
| AuditTrail.AuditConserved | internal/store/store.go:102-107 | no run without pruning loses an audit row, and each row keeps its actor and target exactly if those were never deleted |
| AuditTrail.UsedIdentityStays | internal/store/store.go:856-866 | no operation deletes an identity that a target uses |
| AuditTrail.PrunesWholeDays | internal/store/store.go:1135-1141 | pruning removes exactly the events up to and including the day of the cut-off |
| AuditTrail.PruneIsExactWhen | internal/store/store.go:1135-1141 | it removes exactly the events before the cut-off if and only if no event of that day lies at or after it |
| AuditTrail.MidnightTakesTheDay | docs/operations.md:285-292 | with the documented cut-off at midnight an event at noon of that day is removed although it is later |
| Deletions.DeleteUserIsGreatest | internal/store/store.go:615-627 | deleting a user leaves the greatest part of the database without that user in which all references hold, audit rows included |
| Deletions.DeleteTargetIsGreatest | internal/store/store.go:954-957 | the same for deleting a target |
| Deletions.DeleteGroupIsGreatest | internal/store/store.go:745-748 | the same for deleting a group |
| Deletions.DeleteUndoesAddTarget | internal/store/store.go:875-897 | deleting a target that was just added restores the database |
| Deletions.DeleteUndoesAddUser | internal/store/store.go:355-369 | deleting a user who was just added restores the database, unless it is the only administrator that counts, which is refused |
| Migration.Opened.Migrate | internal/store/store.go:70-163 | the script and the sequence of version checks, steps and foreign-key checks end in the specified file and outcome, wherever they crash |
| Migration.StepPreserves | internal/store/store.go:185-343 | no step changes what the file means: rows keep ids and contents, an old grant still means shell, SFTP and SCP without forwarding |
| Migration.MigrationPreserves | internal/store/store.go:70-163 | opening a file, whether it crashes in the script, before a step or before a check, fails or finishes, never changes what it means |
| Migration.VersionsArePrefix | internal/store/store.go:70-163 | the recorded versions are always 1 to n, never fewer than before, and 1 to 7 when it finishes |
| Migration.Resumable | internal/store/store.go:70-163 | unless the references are broken and the opening recorded a step before its check, opening again, wherever the first opening crashed, failed or finished, ends in exactly the file and outcome of one opening |
| Migration.ResumableExactly | internal/store/store.go:280-289 | for every opening, crashed, refused or finished: it does if and only if the references are intact or no such step was recorded |
| Migration.RefusedExactly | internal/store/store.go:332-341 | after any openings, stopped anywhere, a complete opening of a file with broken references is refused if and only if its version and the number of those that got to a transaction add up to less than three |
| Migration.RefusedThenAccepted | internal/store/store.go:280-289 | without any crash a file with broken references is refused twice from version 0 or 1, once from version 2, and then accepted with its references still broken |
| Migration.ConsistentFileMigrates | internal/store/store.go:248-343 | a consistent file of any version always migrates to the latest; the foreign-key check cannot fail |
| Migration.NewFileMigrates | internal/store/store.go:70-111 | a new file becomes the empty database of the latest version |
| Sessions.Server.Acquire | internal/gateway/server.go:81-90 | granted exactly if both the sessions that are held and those of the user are below their limits; the counters stay the numbers of held sessions |
| Sessions.Server.Release | internal/gateway/server.go:91-99 | the user holds one session less, and the counters stay the numbers of held sessions, without an entry at zero |
| Sessions.ReleaseUndoesAcquire | internal/gateway/server.go:81-99 | releasing undoes acquiring, also for a user who had no entry before |
| Sessions.SessionsAccounted | internal/gateway/server.go:81-124 | in every run the counters equal the numbers of live sessions, there are no zero entries, both limits hold, and a handler that is gone has released exactly as often as it acquired, at most once |
| Sessions.RefusedOnlyAtLimit | internal/gateway/routing.go:50-57 | a handler is refused if and only if the live sessions, or those of its user, are at the limit |
| Sessions.AllReleased | internal/gateway/routing.go:156-160 | when no session is live the counters are as at the start |
| Routing.HandleRouted | internal/gateway/routing.go:50-118 | the session is acquired first and released last, or refused and nothing done; in between is nothing without a target of that name, and otherwise one segment that begins with the store's answer, touches that target alone, opens, dials and serves only in that order and only after a yes, and serves it exactly if everything was granted and answered |
| Routing.HandleDirectTCPIP | internal/gateway/routing.go:127-199 | the store is asked for the target and then for the destination, and exactly if both are allowed and the target needs no agent a session is asked for; then only that target is touched and only the requested destination dialled, and the connection is carried exactly if the session was given and everything answered; the session is released exactly if it was acquired |
| Routing.HandleInteractive | internal/gateway/server.go:101-186 | without a terminal or a session nothing is done; otherwise the trace is the acquisition, one segment for each round up to the one in which the menu ends, and the release. Each segment begins with the store's answer at that round about the target chosen in it, touches that target alone, and serves it exactly if it is allowed then, exists, its credential opens, the agent answers and it can be dialled |
| Routing.RuleAllowsItsDestination | internal/store/store.go:1063-1098 | adding a rule allows exactly its own destination in addition, in any case and with any space around it |
| Menu.WindowShowsSelection | internal/tui/menu.go:2101-2120 | the visible window lies within the list, is as large as fits and contains the selection |
| Menu.CyclingBack | internal/tui/menu.go:1286-1299 | turning an option back undoes turning it forward, at both ends |
| Menu.CyclingReaches | internal/tui/menu.go:1286-1299 | turning forward goes through all options in order and then starts again |
| MenuModel.Model.SyncTargetKeyField | internal/tui/menu.go:927-951 | afterwards the extra key field is there exactly when a stored key is chosen and the form's index is on a field |
| MenuModel.Model.SubmitForm | internal/tui/menu.go:960-1079 | every value it reads exists for every kind of form, and the state stays valid |
| MenuModel.Model.SubmitTarget | internal/tui/menu.go:1056-1076 | the host key is scanned if and only if the port is one and, for a stored key, a known one was selected; the sixth value exists whenever it is read |
| MenuModel.Model.SubmitCredential | internal/tui/menu.go:1034-1055 | the stored key is assigned, or the dialog of the chosen kind opened with the kind remembered; the second value exists whenever it is read |
| MenuModel.Model.HandleMoveKey | internal/tui/menu.go:339-361 | each movement key puts the cursor exactly where it should be within the list |
| MenuModel.Model.HandleActionKey | internal/tui/menu.go:710-745 | the action cursor moves exactly one step and never leaves the actions, and esc closes the list |
| MenuModel.FirstMissing | internal/tui/menu.go:962-980 | either the first required blank field is found or all values are there, trimmed |
| MenuModel.Model.HandleKey | internal/tui/menu.go:274-529 | every key keeps cursors, form and pending operation valid; esc leaves every dialog but a deletion's confirmation, which n leaves |
| MenuModel.Model.HandleEnter | internal/tui/menu.go:373-383 | enter chooses exactly the target under the cursor among those the search leaves |
| MenuModel.Model.HandleEvent | internal/tui/remote.go:89-112 | a key and the command it starts, run to its end, leave a valid state in no transient mode |
| MenuModel.RunKeys | internal/tui/remote.go:71-140 | every run of keys, pastes and window changes stays in valid states |
| KeepAlive.SilentPeerIsClosed | internal/downstream/downstream.go:138-167 | a peer that gives no good answer after a moment is no longer waited for one interval and one timeout later |
| KeepAlive.ClosedOnlyForFailure | internal/downstream/downstream.go:150-164 | a connection is closed only for its last request, which got an error or no answer for the whole timeout, after good answers in time to all before |
| KeepAlive.NeverStuck | internal/downstream/downstream.go:143-166 | in every reachable state something can happen or time can pass |
| KeepAlive.Loop | internal/downstream/downstream.go:138-167 | the loop closes between the last good answer and one interval and one timeout later, and takes exactly the answers that are good and in time |

## Left out

* SQL, SQLite locking and WAL, file permissions, time columns other than that of audit events. Each method of the store is one atomic step; in the code a check and its write can be separate statements.
* The operations of the store that are a single statement behind a lookup exist only as functions of `StoreSpec`, not as methods of the class: SetUserTOTP, RemoveUserTOTP, the operations on groups and SSH identities, SetOIDCUsernameMapping, RemoveOIDCIdentity, AddForwardRule, DeleteForwardRule, Audit, and the updates of a target.
* 64-bit overflow of row ids and of the clock.
* `strings.ToLower` and `strings.ToUpper` beyond ASCII letters: other letters are left as they are.
* The AEAD, HMAC-SHA1, base32, JSON and key parsing as algorithms, random generation, host-key comparison, and wiping of buffers.
* go-shlex beyond quoting with space and tab as blanks: nothing is said about words that start with `#` or `~`, other Unicode spaces, or line breaks, which are refused before splitting.
* OIDC discovery and token verification, the SSH transport, SFTP and TCP copying, window sizes and signals of a shell, `AgentConnection`.
* The audit rows that handlers and commands write about themselves; a failing audit after a successful change reports an error and keeps the change.
* Acceptance of a login as a whole (`serverConfig`), parsing of `USER+TARGET` names, configuration, installer and command-line parsing.
* Drawing of the menu, QR codes, status texts, the text of secret inputs, and the command palette that has no key.
* Keys and pastes that follow the one which makes the menu return, in the same chunk of bytes, are dropped by the program; the hand-over is modelled in bytes returned by reads, not in keys handled.
* List queries other than that of authorised targets.
- Credentials.ExecRefines: assumes that the compensating deletion itself succeeds, as the program has no answer to its failure.
- KeepAlive.ClosedOnlyForFailure: an answer that arrives at the very moment of the timeout may go either way, as in the program's select.
* A record whose nonce or ciphertext column is NULL, which no command stores: the model refuses it, while the AEAD of the program panics on a nonce of the wrong length.
- Routing.HandleInteractive: the target's row is read after the check; that the row is still the one that was checked is not part of the statement, because the program reads it in a second query.
- TotpLogin.AcceptedAgainOnlyByCollision: does not exclude that a later counter has the same six digits, which the ideal HMAC cannot exclude.
