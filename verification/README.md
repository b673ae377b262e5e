# Lidza, modelled and verified

Lidza is a Go web framework with packs for accounts, jobs, a cache, a database and billing. Several of
its pieces are small state machines that promise something over whole runs: a session that rotates its
tokens, a role nobody can grant above themselves, a cache that may forget but not lie, migrations that
many nodes start at once. This project models those pieces in Dafny, one module for each, and proves
what they promise.

Every module that changes state has the same two halves. A class has the methods of the Go type, with
loops and updates in place, each tied to its whole new state. Where several calls may meet, a `State`
with one `Step` for each SQL statement (or each transaction or section run under one lock) lets any number
of calls and nodes interleave, and the theorems are about every run (`Exec` of any sequence of steps). The
two halves share the same functions for the statements, so that there is one definition of each.

| module | models |
|---|---|
| `Calendar`, `Cron`, `CronField` | cron schedules: the Gregorian calendar, the search for the next due instant, the reader of expressions |
| `Sessions`, `OneTimeTokens`, `FirstAccount` | refresh sessions, one-time tokens, who the first account is while accounts are deleted |
| `Permissions`, `Workspaces` | the permission order and the workspace routes |
| `Totp`, `SecondFactor`, `OwnerClaim` | authenticator and recovery codes, the lockout, the owner claim |
| `TestGuard` | the guard against weakened tests: pairing within a file and across files |
| `MemoryCache`, `TlsHosts`, `Credentials` | the TTL cache, certificate host verdicts and refusals, the credential store's reloads |
| `Migrator`, `Statements` | migrations and rollbacks under the advisory lock, cutting a script into statements |
| `Billing` | recording Stripe's subscription events, and what an owner may use |
| `Text`, `Grouping`, `Wrappers` | the string operations of Go's library that these need, cutting a sequence into groups, result types and set sizes |

Assumptions, stated once: random ids and tokens are fresh; a token stands for its hash, so hashing loses
nothing; the times of writes to the credentials table strictly increase; sessions are kept in the order
they were created; a SQL statement or a locked transaction is one step, and one that fails changes nothing.
Integers are unbounded but where the width matters (`Text.ParseInt`, the counter of `Incr`, the step of a
cron field).

## Where the code does less than it says

These properties are false of the code as it is. Each has a lemma with an input that shows it, and
a lemma that says exactly when the code does keep it.

- A schedule due only on 29 February is answered "never" (and refused by `Cron`) when the next leap day is
  more than 1830 days off, as from 1 March 2096 (`Cron.LeapDayBeyondTheHorizon`; exactly when:
  `Cron.NeverForTheLeapDay`). For all other schedules "never" means never (`Cron.NeverMeansNeverDue`).
- A cron field with a step near the largest integer, such as `9/9223372036854775807`, makes the loop
  variable wrap below zero and the program stop on an index error instead of refusing it
  (`CronField.HugeStepStops`). A field stops it exactly when the first of its parts that does not read
  overruns (`CronField.ReadField`, `CronField.New`), and `v/n` exactly when v + n passes the largest integer
  (`CronField.HugeStepPanics`). The model returns `IndexPanic` and `Panic` there.
- Issuing a one-time token does not invalidate an earlier one when two calls issue at once
  (`OneTimeTokens.TwoIssuedAtOnce`; exactly when: `OneTimeTokens.EarlierTokenSurvives`).
- The first account passes to someone else when its deletion asked who the first account is before it had
  signed in (`FirstAccount.FirstAccountCanPass`; the one step to blame: `FirstAccount.StepKeepsFirst`).
- Deleting an account can leave a workspace without an owner (`Workspaces.DeletedAccountLeavesNoOwner`;
  exactly when: `Workspaces.StepKeepsOwners`). The workspace routes alone never do.
- An assertion moved word for word to another file counts twice in the test guard, once for the file it left
  and once as a gain of the file it reached, and hides one loss there (`TestGuard.MovedAssertionHidesALoss`).
  A diff without a report loses nothing exactly when no more texts moved than gains were left over from its
  losses (`TestGuard.QuietDiffLoss`), and every loss up to the number of moved texts does occur
  (`TestGuard.EveryLossOccurs`).
- A deleted test file that names a test twice takes two additions for one, and passes as moved
  (`TestGuard.DuplicateNamesPassAsMoved`; exactly when the tests taken as moved were all added:
  `TestGuard.MovedTestsWereAddedIff`).
- A wrong code at the very instant the 15 minutes end makes an eleventh failure
  (`SecondFactor.FailuresAreBounded`, in both directions), and checks under way when the tenth is counted may
  each add one more, no others (`SecondFactor.OnlyChecksUnderWayAdd`).
- Refusals of two minutes that alternate in the log are all logged (`TlsHosts.AlternatingMinutesLogAll`): the
  limit of twenty holds for each run of refusals in one minute, exactly (`TlsHosts.EachRunAddsTwenty`).
- `Rollback` by the number of names a run applied reverts those exactly when no name applied earlier is
  listed after one of them (`Migrator.RollbackUndoesTheRun`, `Migrator.RollbackMissesALateName`).
- `CredentialStore.Load` reads the version and then the rows. A value saved between the two and deleted later
  stays on that node (`Credentials.StaleAfterADelete`; exactly when: `Credentials.CopyWhenSkipped`).
- A billing event that names no owner is dropped exactly when nobody has its customer at the moment it
  arrives (`Billing.DroppedWhenUnknown`), so that its order decides (`Billing.NamelessEventNeedsItsCustomer`);
  of two events of one subscription with the same time the last to be recorded wins. When every event names
  its customer's owner or needs not, order matters exactly when newest events of one subscription disagree
  (`Billing.OrderDoesNotMatter`).

## Model

| member | source | states |
|---|---|---|
| `Calendar.YearStartClosedForm` | packs/jobs/cron.go:180-184 | The days before a year, added year by year, are the leap-year formula: the dates the day fields are looked up by are Gregorian. |
| `Calendar.DateOf` | packs/jobs/cron.go:216-220 | Every day number has a valid date whose day number it is: stepping a day carries over month and year ends. |
| `Calendar.DateOfDayNumber` | packs/jobs/cron.go:216-220 | And every valid date is the date of its day number. |
| `Calendar.DateReturns` | packs/jobs/cron.go:198-201 | A day of a month that common years have comes back within 366 days. |
| `Calendar.WeekdayReturns` | packs/jobs/cron.go:198-201 | Every month has every weekday within 372 days of any day. |
| `Cron.Values` | packs/jobs/cron.go:204-214 | The values a field holds, all of them, ascending. |
| `Cron.EarliestIn` | packs/jobs/cron.go:225-230 | The minute loop keeps the least instant after t of all those seen. |
| `Cron.EarliestOn` | packs/jobs/cron.go:223-234 | The loops over one day give its least instant after t, although later days stop at the first hour that has one. |
| `Cron.LaterHoursAreLater` | packs/jobs/cron.go:231-233 | Why they may stop: on a later day no hour not visited holds an earlier instant after t. |
| `Cron.Next` | packs/jobs/cron.go:179-239 | The answer is the least due instant after t, no later than any admitted time after t of a day that matches either day field; none exactly when no day of the horizon holds one. |
| `Cron.OneFieldDecides` | packs/jobs/cron.go:180-191 | With no day field restricted an admitted time is due exactly when its month is; with one, exactly when that field admits the day too. |
| `Cron.EitherFieldMakesADayDue` | packs/jobs/cron.go:192-193 | With both restricted the due instants are those of either field alone. |
| `Cron.VisitsEveryDueInstant` | packs/jobs/cron.go:197-202 | Running the search from its own results visits every due instant once, in order. |
| `Cron.FixedZoneIsOrdered` | packs/jobs/cron.go:217-226 | A clock with a fixed offset meets the order the search relies on. |
| `Cron.ChangingZoneIsOrdered` | packs/jobs/cron.go:197-226 | So does a clock that goes an hour forward or back at a full hour of any day, midnight too, a skipped time placed as after the change. |
| `Cron.NeverMeansNeverDue` | packs/jobs/cron.go:83-85 | Unless 29 February is its only date, an expression is answered "never" exactly when no date is ever due. |
| `Cron.NeverForTheLeapDay` | packs/jobs/cron.go:83-85 | When it is, exactly when no leap day lies in the horizon and none with a time left is today or tomorrow. |
| `Cron.LeapDayBeyondTheHorizon` | packs/jobs/cron.go:215-238 | In the year before five without a leap day the search says "never" of a date due eight years on. |
| `CronField.RangeWithin` | packs/jobs/cron.go:124-154 | A part that is read stays within the field's bounds, with a step of at least one. |
| `CronField.Mark` | packs/jobs/cron.go:155-157 | The loop adds exactly the values from, from + step, ... up to to, and stops the program exactly when the step overflows. |
| `CronField.ReadPart` | packs/jobs/cron.go:124-157 | One part adds exactly the values it names, is refused exactly when it cannot be read, and stops the program exactly when its step overruns. |
| `CronField.ReadField` | packs/jobs/cron.go:119-163 | A field is read exactly when all its parts are, into exactly the values they name, never none; otherwise it fails as its first part that does not read, a panic exactly when that part overruns. |
| `CronField.OneFailure` | packs/jobs/cron.go:119-163 | A field fails in one way only, and does not read when it does. |
| `CronField.ReadExpression` | packs/jobs/cron.go:50-82 | Five fields are read exactly when each is, Sunday as 0 or 7, with the two "*" marks; otherwise the error is that of the first field that fails. |
| `CronField.OneExpressionFailure` | packs/jobs/cron.go:50-82 | An expression fails in one field and one way, with a panic exactly when the program stops on it. |
| `CronField.OneReading` | packs/jobs/cron.go:50-82 | An expression has one reading only. |
| `CronField.New` | packs/jobs/cron.go:31-87 | Which expressions are accepted and the exact case of each error: alias, number of fields, the first bad field and what is wrong with it, never due; and exactly when the program stops. |
| `CronField.PartRoundTrip` | packs/jobs/cron.go:124-154 | A part written out reads back as what it means. |
| `CronField.FieldRoundTrip` | packs/jobs/cron.go:119-163 | A field written out reads back as exactly the values its parts mean. |
| `CronField.WordsRead` | packs/jobs/cron.go:136-149 | A name, in any case, reads as its number, and two with a dash as the range between them. |
| `CronField.SundayIsZeroOrSeven` | packs/jobs/cron.go:80-82 | Sunday is 0 and 7, every other weekday its number. |
| `CronField.AliasesMean` | packs/jobs/cron.go:89-97 | What each alias stands for, as sets of minutes, hours, days, months and weekdays. |
| `CronField.HugeStepPanics` | packs/jobs/cron.go:155-157 | A single value with a step panics exactly when their sum passes the largest integer. |
| `CronField.HugeStepStops` | packs/jobs/cron.go:155-157 | "9/9223372036854775807" in the minutes stops the program whatever the other fields are. |
| `Sessions.Auth.LoginWith` | packs/auth/auth.go:230-251 | Opens a session that accepts its token for its lifetime; a disabled account opens none. |
| `Sessions.Auth.Refresh` | packs/auth/auth.go:282-322 | Finds the session whose current token, or previous one in the grace, is given; renews it exactly when it is the current one; refuses when every session the token opens has expired or is revoked. |
| `Sessions.Auth.Logout` | packs/auth/auth.go:330-333 | Revokes that session and no other. |
| `Sessions.Auth.RevokeAll` | packs/auth/auth.go:336-339 | Revokes the subject's sessions and no others. |
| `Sessions.StepKeepsInv` | packs/auth/auth.go:230-339 | Every statement keeps the history: each token replaced once, each session's previous token the one its current one replaced. |
| `Sessions.OneRenewalPerToken` | packs/auth/auth.go:299-317 | However calls race, a refresh token is renewed by at most one of them. |
| `Sessions.BurstHasOneWinner` | packs/auth/auth.go:268-281 | Once a call of a burst on the current token has its reply, exactly one has the new token, and it is the session's until renewed itself. |
| `Sessions.AcceptedTokens` | packs/auth/auth.go:288-293 | A session accepts at most its current token and, in the grace, its immediate predecessor, both its own. |
| `Sessions.RevokedForGood` | packs/auth/auth.go:324-339 | After a revocation no lookup finds the session and no request is let in, on any continuation. |
| `Sessions.ExpiryNeverMovesBack` | packs/auth/auth.go:303-310 | Expiry never moves back, and a deleted row does not return. |
| `Sessions.ExpiredIsNeverFound` | packs/auth/auth.go:280-293 | On every run a lookup finds a session only before the end of a lifetime that some login or renewal of it gave. |
| `Sessions.ExpiredIsNeverActive` | packs/auth/auth.go:745-756 | And a request passes on it only before that, while it is not revoked and its account not disabled. |
| `Sessions.SubjectSignedIn` | packs/auth/auth.go:230-251 | A session's subject is the one of its login. |
| `Sessions.EndsExactly` | packs/auth/auth.go:324-339 | Logout, RevokeAll and deletion end exactly the sessions they name, for good, and leave every other as it was. |
| `Sessions.RenewalOpensTheGrace` | packs/auth/auth.go:268-310 | On every continuation, until the session is renewed again or ended, both tokens open it, the old one exactly until the grace ends. |
| `OneTimeTokens.Tokens.IssueToken` | packs/auth/auth.go:352-366 | The new token is the only one its subject can redeem for the purpose. |
| `OneTimeTokens.Tokens.ConsumeToken` | packs/auth/auth.go:371-379 | Redeems exactly an unused token of the purpose in its lifetime, and uses it up. |
| `OneTimeTokens.RedeemedOnceAsIssued` | packs/auth/auth.go:341-379 | On every run a token is redeemed at most once, for the purpose and subject it was issued for, in its lifetime. |
| `OneTimeTokens.UnspentRedeems` | packs/auth/auth.go:371-379 | And an unspent token does redeem in its lifetime, for the purpose and subject it was issued for. |
| `OneTimeTokens.SpentForGood` | packs/auth/auth.go:371-379 | A used or invalidated token is never redeemed later. |
| `OneTimeTokens.IssuingSpendsEarlierTokens` | packs/auth/auth.go:352-366 | Issuing a newer token spends all earlier ones of its purpose and subject. |
| `OneTimeTokens.EarlierTokenSurvives` | packs/auth/auth.go:345-366 | With calls racing, an earlier token stays redeemable beside a newer one exactly when no step between the two inserts spent it. |
| `OneTimeTokens.TwoIssuedAtOnce` | packs/auth/auth.go:352-366 | Two calls that both invalidate first leave two redeemable tokens. |
| `FirstAccount.Auth.FirstSubject` | packs/auth/auth.go:563-588 | The subject of the earliest session, kept once known. |
| `FirstAccount.Auth.DeleteUserTx` | packs/auth/accounts.go:168-228 | What is deleted from each table, and the one session that stays when the account is the first. |
| `FirstAccount.NoTokenIsLeft` | packs/auth/accounts.go:193-211 | No token of the subject, its address or its label is left, and all others are. |
| `FirstAccount.Auth.DropSessions` | packs/auth/accounts.go:201-226 | The sessions left, row for row. |
| `FirstAccount.RemainingRows` | packs/auth/accounts.go:201-226 | A deletion leaves no usable session of its subject, touches no other's, and moves the first account only when it is not told to keep it. |
| `FirstAccount.StepKeepsFirst` | packs/auth/accounts.go:168-228 | A step moves the first account exactly when it deletes it on an answer given before anyone had signed in. |
| `FirstAccount.FirstAccountIsConstant` | packs/auth/auth.go:557-588 | On every run without such a step the first account is constant once set, and every node's answer agrees with the table. |
| `FirstAccount.FirstAccountCanPass` | packs/auth/accounts.go:168-228 | A run with such a step in which it passes to someone else, and two nodes disagree. |
| `Permissions.GrantsMeans` | packs/auth/roles.go:142-150 | "*" covers everything, a name itself, and "stem.*" every name under the stem. |
| `Permissions.GrantsIsTransitive` | packs/auth/roles.go:142-150 | What a permission grants, it grants all of. |
| `Permissions.GrantsIsContainment` | packs/auth/roles.go:142-150 | A permission grants another exactly when it covers everything that one covers. |
| `Permissions.HoldingIsCovering` | packs/auth/teams.go:514-532 | Checking a role's permissions one by one is the same as covering everything the role grants. |
| `Permissions.CanIsClosed` | packs/auth/roles.go:126-139 | Whoever can do something can do all it grants. |
| `Permissions.PatternsReach` | packs/auth/roles.go:126-150 | Who holds "stem.*" in the scope or app-wide can do everything under the stem, who holds "*" everything. |
| `Permissions.PlainNamesOnly` | packs/auth/roles.go:126-150 | Who holds plain names only can do exactly those held in the scope or app-wide. |
| `Workspaces.Teams.Of` | packs/auth/roles.go:103-122 | The roles held in a scope or app-wide that the app's map names. |
| `Workspaces.Teams.Can` | packs/auth/roles.go:126-139 | Whether one of them grants the permission. |
| `Workspaces.Teams.Grantable` | packs/auth/teams.go:516-532 | Refuses an unknown role, and exactly the roles that grant something the actor cannot do. |
| `Workspaces.Teams.Allowed` | packs/auth/teams.go:428-434 | Lets exactly those act who hold the permission in an existing workspace. |
| `Workspaces.Teams.Create` | packs/auth/teams.go:398-420 | A workspace and its creator as owner, nothing else. |
| `Workspaces.Teams.Delete` | packs/auth/teams.go:449-474 | The workspace goes with its members and invitations, exactly for who may delete it. |
| `Workspaces.Teams.SetRole` | packs/auth/teams.go:543-609 | When a role changes hands, into what, that the actor covers both the role given and every role taken, and that it changes nothing else. |
| `Workspaces.SetRoleAllowedExactly` | packs/auth/teams.go:566-594 | A role changes exactly when the subject has one, the actor covers all that it loses, and the workspace keeps an owner. |
| `Workspaces.Teams.RemoveMember` | packs/auth/teams.go:620-683 | When a member goes or leaves, that whoever removes another covers every role taken, and that the last owner does not go. |
| `Workspaces.RemovalAllowedExactly` | packs/auth/teams.go:651-671 | A removal goes through exactly when there is such a member, the actor is that member or covers all its roles, and the workspace keeps an owner. |
| `Workspaces.Teams.InviteMember` | packs/auth/teams.go:714-759 | One open invitation an address, only for a role whose permissions the sender holds. |
| `Workspaces.Teams.Accept` | packs/auth/teams.go:866-896 | An open, unexpired invitation of that address gives its role once; a member keeps the role held. |
| `Workspaces.StepKeepsNobody` | packs/auth/teams.go:514-609 | A step, even one that acts on checks made earlier, gives nobody a permission no member, invitation or check covered. |
| `Workspaces.NoPermissionFromNothing` | packs/auth/teams.go:514-896 | So on every run what nobody in a workspace can do, nobody there ever can. |
| `Workspaces.TakingNeedsStanding` | packs/auth/teams.go:449-683 | Under every interleaving a role is taken from another only by someone who covers it at that moment; otherwise memberships go by leaving, with the workspace or with the account. |
| `Workspaces.MembersComeBy` | packs/auth/teams.go:398-896 | A membership comes from founding the workspace, a role given after its checks, or an open, unexpired invitation to that address, then closed. |
| `Workspaces.InvitationsWork` | packs/auth/teams.go:866-896 | And such an invitation does its work. |
| `Workspaces.StepKeepsOwners` | packs/auth/teams.go:534-683 | Every step of the routes leaves each workspace an owner; deleting an account does exactly when each workspace it owns has another. |
| `Workspaces.EveryWorkspaceHasAnOwner` | packs/auth/teams.go:534-537 | On every run of the routes each existing workspace has an owner. |
| `Workspaces.DeletedAccountLeavesNoOwner` | packs/auth/accounts.go:188-200 | Deleting the only owner's account leaves the workspace without one. |
| `TestGuard.FindPartner` | cmd/lidza/testguard.go:228-251 | The first added line not yet taken that pairs. |
| `TestGuard.PairLines` | cmd/lidza/testguard.go:224-251 | Each removed line's partner in order, the lines left without one, the loosened matchers. |
| `TestGuard.Judge` | cmd/lidza/testguard.go:215-258 | A file's findings, its unpaired removed lines and its unused added ones. |
| `TestGuard.Consume` | cmd/lidza/testguard.go:216-223 | Texts taken out of counts while they last. |
| `TestGuard.PairingIsInjective` | cmd/lidza/testguard.go:224-251 | An added line pairs with at most one removed line. |
| `TestGuard.PairingConserves` | cmd/lidza/testguard.go:211-258 | Unpaired removed less unused added lines is removed less added lines, whatever the order. |
| `TestGuard.PairingIsMaximal` | cmd/lidza/testguard.go:224-251 | No line left over on one side pairs with one left over on the other. |
| `TestGuard.PairsMean` | cmd/lidza/testguard.go:232-242 | A pair has one shape, or a strict matcher gave way to a loose one on one subject and is reported. |
| `TestGuard.LooseningsMean` | cmd/lidza/testguard.go:238-242 | Only pairs of the second kind are reported as loosened. |
| `TestGuard.SurplusCounts` | cmd/lidza/testguard.go:216-223 | A text is left over as often as it occurs beyond its count. |
| `TestGuard.AcrossFile` | cmd/lidza/testguard.go:274-306 | What one file reports and what it takes from the counts. |
| `TestGuard.Across` | cmd/lidza/testguard.go:263-308 | The findings of the pass over all files. |
| `TestGuard.EachTextConsumedOnce` | cmd/lidza/testguard.go:293-300 | Across files each text is consumed exactly as often as both kept and unused have it. |
| `TestGuard.OneFileFindings` | cmd/lidza/testguard.go:301-306 | A diff of one file gets "assertion removed" findings, one for each unpaired line, exactly when it removes more assertions than it adds. |
| `TestGuard.LossIsLossesLessGains` | cmd/lidza/testguard.go:262-308 | What a diff loses is its losses beyond its gains, moved texts not counted. |
| `TestGuard.QuietDiffLoss` | cmd/lidza/testguard.go:262-308 | A diff without such findings loses nothing exactly when no more texts moved than gains were left over from its losses; it never loses more than moved, nothing when no text moved. |
| `TestGuard.MovedAssertionsHideLosses` | cmd/lidza/testguard.go:262-308 | Any assertions can go unreported from the file others moved to, up to as many. |
| `TestGuard.EveryLossOccurs` | cmd/lidza/testguard.go:262-308 | Every loss up to the number of moved texts does occur without a finding. |
| `TestGuard.MovedAssertionHidesALoss` | cmd/lidza/testguard.go:262-308 | Two files that lose an assertion between them and get no finding. |
| `TestGuard.MoveIsBacked` | cmd/lidza/testguard.go:275-287 | Taking a deleted file as moved keeps the counts non-negative exactly when it names no test more often than was added. |
| `TestGuard.MovedTestsWereAddedIff` | cmd/lidza/testguard.go:262-294 | Over the whole pass every test taken as moved was added elsewhere, one addition for each, exactly when no such file names a test more often than its count has left. |
| `TestGuard.MovedTestsWereAdded` | cmd/lidza/testguard.go:262-294 | When deleted files name each test once, every test of a file taken as moved was added elsewhere, once for each. |
| `TestGuard.UnmovedFileIsReported` | cmd/lidza/testguard.go:275-293 | A deleted file without tests, or with one that no file adds, is reported wherever it stands. |
| `TestGuard.CountsOfAdded` | cmd/lidza/testguard.go:264-272 | The counts the pass starts from are zero exactly for the tests no file adds. |
| `TestGuard.DuplicateNamesPassAsMoved` | cmd/lidza/testguard.go:275-287 | Two deleted files with three tests and one test added elsewhere: nothing is reported, and not every test was added. |
| `Totp.Truncate` | packs/auth/totp.go:38-51 | The truncated value lies below a million (section 5.3 of RFC 4226), whatever the keyed hash. |
| `Totp.TruncateKeeps31Bits` | packs/auth/totp.go:47-50 | The value is the 31 low bits of the four bytes at the offset, modulo a million; the sign bit and the other bytes do not count. |
| `Totp.PadIsExact` | packs/auth/totp.go:50 | The six digits determine the value. |
| `Totp.VerifyTOTP` | packs/auth/totp.go:53-71 | The earliest step within one of now, after the last used, whose code is given; none exactly when there is none. |
| `Totp.UseBackupCode` | packs/auth/totp.go:111-119 | Succeeds exactly for a code in the list and takes one occurrence out. |
| `Totp.WithoutOne` | packs/auth/totp.go:111-119 | One code fewer, all others kept. |
| `SecondFactor.Factor.CheckSecondFactor` | packs/auth/stepup.go:158-199 | When a check asks for a code, is locked, passes or fails, and the row after it: never locked with fewer than ten failures or once the window has passed, and a right code passes when it is not. |
| `SecondFactor.Factor.FactorFailed` | packs/auth/stepup.go:201-210 | A failure starts a new count or adds to the one of the window. |
| `SecondFactor.CommitKeepsInv` | packs/auth/stepup.go:174-196 | A conditional update keeps the history of uses free of repeats, whatever was read before it. |
| `SecondFactor.NoCodeWinsTwice` | packs/auth/stepup.go:158-199 | Under any interleaving between enrolments passing time steps strictly increase, within one step of the check's clock, and a recovery code passes once (section 5.2 of RFC 6238). |
| `SecondFactor.FailuresAreBounded` | packs/auth/stepup.go:168-170 | One check after the other: ten failures at most, but for a wrong code at the instant the window ends. |
| `SecondFactor.OnlyChecksUnderWayAdd` | packs/auth/stepup.go:158-210 | Under any interleaving, until the window ends, failures counted and checks under way are together at most ten and the checks under way when the tenth was counted. |
| `SecondFactor.TenFailuresLock` | packs/auth/stepup.go:168-170 | From then on, with none under way, no code is looked at on any run until the window ends. |
| `MemoryCache.Memory.Get` | packs/cache/cache.go:196-205 | A live value, or a miss that drops the entry. |
| `MemoryCache.Memory.Set` | packs/cache/cache.go:207-216 | Stores the entry after making room. |
| `MemoryCache.Memory.PutItem` | packs/cache/cache.go:218-230 | The eviction loop ends with room, and the entry is stored and in the order. |
| `MemoryCache.Memory.Incr` | packs/cache/cache.go:232-251 | Counts from the live value, keeping its expiry, in 64 bits; changes nothing when the value is no number. |
| `MemoryCache.Memory.Delete` | packs/cache/cache.go:253-260 | Drops the given keys only. |
| `MemoryCache.Memory.DeletePrefix` | packs/cache/cache.go:262-271 | Drops the keys with the prefix only. |
| `MemoryCache.EvictMakesRoom` | packs/cache/cache.go:220-230 | At most max entries, each in the order, is enough for the eviction loop to make room, and is kept. |
| `MemoryCache.EvictDropsAPrefix` | packs/cache/cache.go:220-230 | It drops the oldest entries of the order and no more than it must. |
| `MemoryCache.RefinesForgetfulMap` | packs/cache/cache.go:175-281 | Each call does and replies what it would on the unbounded TTL map that may first forget entries, which only a new key at the bound makes it do. |
| `MemoryCache.ExactWithoutPressure` | packs/cache/cache.go:175-281 | On runs where no new key arrives at the bound it replies exactly as the unbounded map. |
| `MemoryCache.HitIsLastWritten` | packs/cache/cache.go:175-281 | On every run a hit is the value last written to the key and not removed since. |
| `MemoryCache.LifetimesDecide` | packs/cache/cache.go:196-251 | By the calls alone, where no new key arrives at the bound: a Get hits exactly while the lifetime lasts that the key's writes gave it, with the value last written; an increment counts on from it, and from 0 afterwards. |
| `Migrator.Retry` | packs/db/migrate.go:236-251 | The first attempt that is not a lock timeout or finds the context over, or the fourth, after waits of 1, 2 and 4 seconds. |
| `Migrator.PendingNames` | packs/db/migrate.go:170-173 | The names not applied, each once. |
| `Migrator.StopIsTheFirst` | packs/db/migrate.go:170-186 | A run gets through every pending name up to the first held or failing. |
| `Migrator.DataLossIsHeld` | packs/db/migrate.go:191-195 | Held that way, a new database takes every script that does not fail, a used one none marked as losing data. |
| `Migrator.Database.Run` | packs/db/migrate.go:229-295 | With every attempt retried: a script in a transaction leaves all its statements and its record, or nothing; one outside leaves exactly those before its first failure. |
| `Migrator.Database.Status` | packs/db/migrate.go:74-92 | The pending names in order, and whether the database is new. |
| `Migrator.Database.MigrateUntil` | packs/db/migrate.go:152-189 | Applies exactly the pending names before the first one held or failing, says which that is, and makes exactly their statements in order, then what the failing script leaves. |
| `Migrator.Database.ApplyAll` | packs/db/migrate.go:170-186 | The loop over them: names recorded and statements made, in order. |
| `Migrator.Database.Rollback` | packs/db/migrate.go:197-225 | Reverts the last applied names of the listing, newest first, up to the first whose script fails, and makes exactly their down scripts' statements, then what that one leaves. |
| `Migrator.RecentIsTheEnd` | packs/db/migrate.go:199-225 | The names a rollback reverts are the end of the applied names, reversed. |
| `Migrator.RollbackUndoesTheRun` | packs/db/migrate.go:197-225 | Rolling back as many names as a run applied reverts those, in reverse, and restores the applied set, exactly when no name applied earlier comes after one of them. |
| `Migrator.RollbackMissesALateName` | packs/db/migrate.go:197-225 | A name applied late is not the one a rollback reverts. |
| `Migrator.LockedRunsAreAlone` | packs/db/migrate.go:337-348 | For any number of nodes a script commits once between two reverts, and no run meets a name another recorded. |
| `Statements.StripComments` | packs/db/migrate.go:327-335 | The script's lines that are no comments. |
| `Statements.CutScript` | packs/db/migrate.go:297-317 | The statements are the kept lines cut after each line that ends one, trimmed. |
| `Grouping.CutsAreCuts` | packs/db/migrate.go:303-316 | The groups in order are the lines; each ends at its first terminator, the last perhaps at none. |
| `Grouping.CutsAreUnique` | packs/db/migrate.go:303-316 | There is only one such way to group them. |
| `Statements.NothingIsLost` | packs/db/migrate.go:297-317 | Up to trimming, the lines of the statements in order are the script's lines that are neither blank nor comments. |
| `Statements.EveryPieceEndsOnce` | packs/db/migrate.go:297-317 | No statement is empty or ends early, and all but the last end at a terminator. |
| `Statements.CuttingTwice` | packs/db/migrate.go:297-317 | Cutting the joined statements again gives the same statements. |
| `Statements.LinesMean` | packs/db/migrate.go:303-335 | Which lines are blank, comments or end a statement, in terms of their text between white space. |
| `TlsHosts.Status.Approve` | tls_hosts.go:118-125 | Adds or renews a host up to the cap. |
| `TlsHosts.Status.Refuse` | tls_hosts.go:127-136 | The refusals shown stay the latest 50 of all, and the host loses approval and expiry. |
| `TlsHosts.Status.Served` | tls_hosts.go:138-144 | Expiry is kept only for approved or listed hosts. |
| `TlsHosts.Policy.Allow` | tls_hosts.go:178-229 | Who is let in, when the hook is asked, what is stored, and what goes when the map is full. |
| `TlsHosts.Policy.MakeRoom` | tls_hosts.go:204-215 | Expired verdicts go; a live one goes only when live ones fill the map, and then one. |
| `TlsHosts.Policy.DropExpired` | tls_hosts.go:205-209 | Exactly the expired verdicts go. |
| `TlsHosts.Policy.LogRefusal` | tls_hosts.go:231-252 | One refusal counted or logged. |
| `TlsHosts.RefusalsAreConserved` | tls_hosts.go:231-252 | On every run lines logged, refusals reported unlogged and those pending add up to the refusals seen. |
| `TlsHosts.AtMostTwentyLines` | tls_hosts.go:231-252 | Refusals that follow each other in one minute get at most twenty lines. |
| `TlsHosts.SlotIsTheMinute` | tls_hosts.go:235-235 | Refusals share a slot exactly when they fall in one minute. |
| `TlsHosts.EachRunAddsTwenty` | tls_hosts.go:231-252 | Exactly: each run of refusals in one minute adds its first twenty lines. |
| `TlsHosts.AlternatingMinutesLogAll` | tls_hosts.go:231-252 | When the minutes alternate, every refusal is logged. |
| `TlsHosts.AnswersAreFresh` | tls_hosts.go:178-229 | With calls racing, an answer for an unlisted host comes from a hook call on that host started less than five minutes before the clock reading, one minute for a refusal, and the map keeps to its cap. |
| `TlsHosts.RevokedWithinFiveMinutes` | tls_hosts.go:178-229 | Once the hook refuses from a time on, no reading five minutes later or more approves. |
| `OwnerClaim.Claim.Start` | packs/auth/owner.go:91-151 | The row after a start, new or not, with or without a token from the platform; it ends. |
| `OwnerClaim.Claim.ClaimOwner` | packs/auth/owner.go:268-314 | Which of its errors a claim gets, and the row and the first account after it. |
| `OwnerClaim.Claim.RotateOwnerToken` | packs/auth/owner.go:316-347 | Replaces the token of an unclaimed row and refuses a claimed one. |
| `OwnerClaim.Claim.FirstSubject` | packs/auth/owner.go:350-360 | The owner, kept once known. |
| `OwnerClaim.StepKeepsInv` | packs/auth/owner.go:95-347 | Every statement of any node keeps the row, the wins and the caches in step. |
| `OwnerClaim.AtMostOneOwner` | packs/auth/owner.go:95-347 | On every run at most one claim succeeds, the hash is empty exactly when the row is claimed, and every node's first account is the owner. |
| `OwnerClaim.OwnerIsForGood` | packs/auth/owner.go:268-347 | The owner never changes. |
| `OwnerClaim.ClaimNeedsTheStoredToken` | packs/auth/owner.go:300-313 | A claim succeeds exactly when its token is the stored one at the update itself. |
| `OwnerClaim.WinnerGaveTheToken` | packs/auth/owner.go:296-306 | On every run who wins made the claim for that subject with the very token the row held when it was taken. |
| `OwnerClaim.RotatedOutForGood` | packs/auth/owner.go:316-347 | A token rotated out never claims, even for a call that read its hash before. |
| `OwnerClaim.RotationRetiresTheOldToken` | packs/auth/owner.go:316-347 | Rotation takes the old token out at once and, on every continuation in which nobody stores it again, for good. |
| `Credentials.CredentialStore.ReadVersion` | packs/db/credentials.go:88-95 | The count and the newest write of the table. |
| `Credentials.CredentialStore.Load` | packs/db/credentials.go:42-86 | The copy is the table's values and the version the table's. |
| `Credentials.CredentialStore.Refresh` | packs/db/credentials.go:97-112 | Reloads exactly when the version moved. |
| `Credentials.CredentialStore.Save` | packs/db/credentials.go:114-132 | The table and this node's copy get the value, with a key only. |
| `Credentials.CredentialStore.Delete` | packs/db/credentials.go:134-144 | Both lose the name. |
| `Credentials.CredentialStore.Ensure` | packs/db/credentials.go:168-197 | The stored value, or the generated one stored first. |
| `Credentials.NewestIsTheMaximum` | packs/db/credentials.go:88-95 | The newest write time is that of some row and of none later. |
| `Credentials.SameVersionSameTable` | packs/db/credentials.go:88-112 | Two states of one run with the same version hold the same rows. |
| `Credentials.SkippedReload` | packs/db/credentials.go:45-112 | A reload is skipped only when the table is as its version was read; the rows read are the table's exactly when the version had not moved between the two reads. |
| `Credentials.CopyWhenSkipped` | packs/db/credentials.go:45-112 | A node that skips its reload keeps the rows it loaded; they are the table's exactly when the version had not moved between its two reads. |
| `Credentials.StaleAfterADelete` | packs/db/credentials.go:45-112 | A load with a save between its reads and a delete after: the node skips its reload and keeps the deleted value. |
| `Credentials.EnsureAgrees` | packs/db/credentials.go:168-197 | All calls for a name on all nodes return one value while nobody saves or deletes it. |
| `Credentials.FirstValueStays` | packs/db/credentials.go:168-197 | Later calls do not replace the first value. |
| `Billing.Billing.Sync` | packs/billing/billing.go:392-425 | Both tables after an event: owner from the metadata or the customer's, price and period from the item, ignored without an owner, refused when the customer is another owner's. |
| `Billing.WhatAnEventSays` | packs/billing/billing.go:403-414 | The first item decides the price and, when it has one, the period. |
| `Billing.Billing.Current` | packs/billing/billing.go:179-193 | The owner's newest granting subscription, none exactly when there is none. |
| `Billing.Billing.Of` | packs/billing/billing.go:195-209 | The plan of its price, the free plan without one, "" for a price no plan has. |
| `Billing.Billing.Has` | packs/billing/billing.go:211-219 | A feature is granted exactly by that plan. |
| `Billing.OneAnswer` | packs/billing/billing.go:179-219 | With distinct prices and event times only one answer can be given. |
| `Billing.NewestWins` | packs/billing/billing.go:392-425 | Every subscription with an event is recorded as one of its newest events has it. |
| `Billing.RecordedExactlyWhen` | packs/billing/billing.go:394-424 | A new subscription is recorded exactly when its event names an owner who may have the customer, or names none and the customer is known. |
| `Billing.CallsAreBegun` | packs/billing/billing.go:394-425 | Every event that arrives has its call, in the order of arrival. |
| `Billing.DroppedWhenUnknown` | packs/billing/billing.go:395-401 | On every run an event is dropped exactly when it names no owner and nobody has its customer as it arrives. |
| `Billing.RefusedWhenTaken` | packs/billing/billing.go:415-417 | And refused exactly when the customer is another owner's at its link. |
| `Billing.FittingEventsGoThrough` | packs/billing/billing.go:395-417 | With one owner for each customer no event is dropped or refused. |
| `Billing.RunKeepsInv` | packs/billing/billing.go:394-425 | Under every interleaving of fitting events no call is dropped, and the table is the events recorded so far, each with its customer's owner. |
| `Billing.EveryEventIsRecorded` | packs/billing/billing.go:392-425 | When no call is open, the events recorded are exactly those that arrived. |
| `Billing.TableIsTheNewestEvents` | packs/billing/billing.go:392-425 | And the table has exactly the subscriptions that have an event, each as one of its newest events has it. |
| `Billing.RunsConverge` | packs/billing/billing.go:392-425 | Any two finished runs that the same events reached end in the same table, whatever the order, repetition and interleaving. |
| `Billing.OrderDoesNotMatter` | packs/billing/billing.go:392-425 | A finished run's table depends only on the set of events that arrived exactly when the newest events of each subscription agree. |
| `Billing.OneAnswerAfterAll` | packs/billing/billing.go:179-219 | Then Current, Of and Has may give only one answer after either run. |
| `Billing.CurrentByTheEvents` | packs/billing/billing.go:179-193 | What Current answers after a finished run, by the events alone: the subscription of the newest among those that let the owner in. |
| `Billing.NamelessEventNeedsItsCustomer` | packs/billing/billing.go:395-401 | The order of an event with and one without an owner decides whether the second is recorded. |

## Left out

- HTTP, cookies, access tokens, hashing, sealing and the keyed hash of codes: ids, tokens and hashes are values, the code of a time step is a given function.
- Time-zone data and which of its choices Go takes for a time that a clock change skips: `Cron.Zone` is any placement of dates and times, and the least-instant result asks that it keep the order of days and hour blocks, but for a skipped first hour placed on the evening before. Zones that skip less than an hour or a whole day are outside it.
- Go's zero time as an answer is None, and instants before the year 1 do not occur in `Cron`.
- The raw diff, the regular expressions and the notes about changed expected texts in the test guard: files start as classified, trimmed lines without numbers, as values and not records changed in place.
- Workspaces.Teams.InviteMember: one open invitation an address, and MaxPendingInvites, hold for calls one after the other only, as in the program; the interleaved model does not count invitations.
- Listing, renaming and switching workspaces, mail and event hooks.
- A check that spans a disabling and a new enrolment of the factor: runs are those between enrolments.
- Migrator.Database.Run: a script outside a transaction is not atomic in the program either; the interleaved model commits such a script and its record as one step.
- Reading and sorting the migration files; SQL text and driver errors other than lock timeouts.
- The owner's token and status files on disk: the token a node would use is given.
- Credentials.CredentialStore.Load: as one step in the class; the node among other writers splits the version from the rows. Two calls on one node that race for its copy of the values are left out.
- Cache keys in Valkey, and Remember, which loads through the cache.
- Host names of certificate orders, and the lower-casing and final dot of a host.
- A completed checkout, which fetches a live snapshot from Stripe; checkout and portal calls.
