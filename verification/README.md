# one-fetch, verified

one-fetch is a self-hosted request relay with a Node and a Cloudflare adapter and a browser administration console.
This project models the components of it that carry real invariants and proves what they are for. It is Dafny 4.11;
`dafny verify dfyconfig.toml` checks all of it.

The components, each in its own modules:

- **Streaming SHA-256** (`Fips180`, `Fips180Constants`, `Sha256`, over `JsNumber` and `Arithmetic`). `Fips180` is the
  standard on 32-bit words. `Sha256.IncrementalSha256` is the class with its carry buffer and in-place schedule,
  computing with JavaScript's signed 32-bit operators, exact sums and `>>> 0`. Bitwise operators are defined bit by
  bit on naturals.
- **Base32** (`Base32`, `Radix`), on a wrapping accumulator that is never masked; upper-casing is a table.
- **Browser refresh** (`ProfileStorage`, `RefreshProtocol`, `RefreshExpiry`, `RefreshOutcomes`). Each call of
  `refreshSession` is a task that takes one storage operation or one await at a time; locks, durable markers, a
  channel that loses and delays messages, refused writes and closed tabs are steps of one state machine, and the
  theorems hold of all its runs.
- **Server sessions** (`AuthDatabase`, `AuthFlows`, `AuthSafety`, `AuthOutcomes`, `Migrations`). The worker runs
  conditional transactions that commit whole or not at all. A request is a flight: it reads, and later commits what it
  read; any number of refreshes, logouts, revocations, logins, password changes and bootstraps interleave between
  their reads and their commits. Two fields of the state only record history: the password hashes in the order they
  were set, and the hash each session was opened with.
- **Quotas** (`QuotaRules`, `QuotaRuns`, `QuotaOutcomes`, `QuotaCoordinator` for Node; `DurableQuota`,
  `DurableOutcomes` for Cloudflare). The Node engine is split in two: the class with the counters that leases share by
  reference, whose methods are the bodies of exclusive sections, and the runs of the promise chain in which sections
  read row by row while calls arrive.
- **Texts that must keep their meaning** (`CanonicalJson`, `CanonicalReading`, `IngressPath`, `IngressOutcomes`, `Ip`,
  `Glob`, `JsonPointer`, `ServerTiming`, `ServerTimingMetrics`, over `Text`, `Numerals` and `Sequences`). Each
  transformation is paired with what the text means, and equality of results is proved to be equality of meanings.
- **Loops over whole runs** (`NodeUpstream`, `CloudflareUpstream`, `RedirectHeaders`, `DatabaseClient`,
  `DatabaseOutcomes`). The network, the resolver and policy are functions of what they are asked; a run is the list of
  requests it sent.

Safety is proved over all runs. The `Outcomes` modules prove the other half: exactly when an operation goes through,
and what it then leaves, in the numbers of the code.

Where the code is a loop or an object that changes, the model is a method or a class proved against a specification
function, and the theorems are about that function and its runs. A parameter named `fault`, `refused`, `readable` or
`postError` stands for an error that the platform may raise at that point.

What is assumed of the outside: digests are injective, drawn identifiers are fresh, locks exclude, transactions are
atomic, a stored refresh token carries one expiry, and the text of each duration that is printed into Server-Timing
reads back as it. The browser protocol has one clock, shared by all tabs, that never goes back, and so has the session
service; the quota engines read theirs anew at each step, and where a clock must not go back a theorem says so.

Two laws end at a boundary that is proved exactly. The cross-tab guarantee lasts until the token expires and no longer
(`RefreshProtocol.AtMostOneCallBeforeExpiry`, `RefreshExpiry.CalledTwice`). The daily byte cap of the Cloudflare quota
is checked at admission only, so a run keeps it exactly when every release fits into its day
(`DurableQuota.CapKeptExactly`). Path normalization is idempotent on every path the code normalizes, all of which are
well escaped; on other texts `IngressPath.IdempotentExactly` says when it is not. Base32 decodes every encoding but
that of no bytes, which it rejects. The code's test of the earliest expiry before it sets an alarm takes zero for
none, which is harmless, as no lease expires at the epoch; `DurableQuota.ScheduledIsGuarded` states the test.

## Model

| member | source | states |
|---|---|---|
| `Sha256.HashInChunks` | packages/core/src/sha256.ts:32-77 | for every way of cutting a message of at most 2^53 bytes into `update` calls, empty ones included, `digestHex` gives the SHA-256 of FIPS 180-4 of the whole message |
| `Sha256.IncrementalSha256.Update` | packages/core/src/sha256.ts:32-55 | the absorbed message grows by exactly the given bytes; a finished object refuses and keeps its message |
| `Sha256.IncrementalSha256.DigestHex` | packages/core/src/sha256.ts:57-77 | the hexadecimal text of the standard digest of everything absorbed, once; a second call is refused |
| `Sha256.IncrementalSha256.TopUp` | packages/core/src/sha256.ts:36-45 | filling the carry buffer, and hashing it when full, keeps hash state and carried bytes those of the message read so far |
| `Sha256.IncrementalSha256.HashWhole` | packages/core/src/sha256.ts:46-49 | hashing whole blocks straight from the argument keeps the same, up to fewer than 64 remaining bytes |
| `Sha256.IncrementalSha256.Finish` | packages/core/src/sha256.ts:60-73 | the in-place padding leaves the standard digest of the message in the state words |
| `Sha256.IncrementalSha256.Transform` | packages/core/src/sha256.ts:79-133 | one block through the in-place schedule and the rounds, on signed intermediates with `>>> 0`, is the compression function of section 6.2.2 of FIPS 180-4 |
| `Sha256.IncrementalSha256.RunRounds` | packages/core/src/sha256.ts:104-129 | the 64 loop iterations compute the eight working variables of the standard |
| `Sha256.RotateRightIsRotr` | packages/core/src/sha256.ts:20-22 | a logical right shift or-ed with a left shift, both on signed 32-bit results, is rotation of the word |
| `Sha256.ScheduleRefines` | packages/core/src/sha256.ts:90-103 | the extended schedule word, an exact sum of signed terms truncated at the end, is the word of section 6.2.2 step 1 |
| `Sha256.RoundRefines` | packages/core/src/sha256.ts:105-128 | one iteration on signed intermediates is one round of section 6.2.2 step 3 |
| `Sha256.PadsInOneBlock` | packages/core/src/sha256.ts:60-73 | with fewer than 56 carried bytes the one tail block is exactly the padding of section 5.1.1 |
| `Sha256.PadsInTwoBlocks` | packages/core/src/sha256.ts:60-73 | with 56 or more the two tail blocks are exactly that padding |
| `Sha256.PaddedHexIsDigits` | packages/core/src/sha256.ts:74-76 | `toString(16).padStart(8, "0")` is the fixed-width hexadecimal text |
| `Fips180Constants.RoundConstants` | packages/core/src/sha256.ts:6-18 | each of the 64 round constants is the first 32 bits after the point of the cube root of its prime, by bounds on cubes of integers |
| `Fips180Constants.InitialWords` | packages/core/src/sha256.ts:1-4 | and each initial word those of the square root of one of the first eight primes |
| `JsNumber.BitsExactly` | packages/core/src/sha256.ts:20-22 | bit by bit the operators are the product, the sum less the product, and the sum without its carry |
| `JsNumber.SignedExactly` | packages/core/src/sha256.ts:20-22 | a signed 32-bit result is the number of the same remainder from -2^31 to below 2^31 |
| `Base32.DecodeUndoesEncode` | packages/core/src/auth.ts:11-51 | the encoded text has ⌈8n/5⌉ letters, and decoding it gives the bytes back for every non-empty sequence, under any upper-casing that is the usual one on ASCII; the empty text is rejected |
| `Base32.EncodeBase32` | packages/core/src/auth.ts:11-25 | the loop over a wrapping, never masked signed 32-bit accumulator writes the base-32 digits of the number that the bytes denote, filled with zero bits to whole letters |
| `Base32.DecodeBase32` | packages/core/src/auth.ts:27-51 | upper-cased by whatever table the platform has, one character into several included, and stripped of padding, the result is the bytes of the number the letters denote without its last partial byte; any other character, or nothing at all, is rejected |
| `Base32.DecodeLetters` | packages/core/src/auth.ts:39-49 | the decoding loop, over the same kind of accumulator |
| `Base32.ShiftIn` | packages/core/src/auth.ts:16 | while at most 12 low bits are live, shifting a group in keeps them, whatever is left above |
| `Base32.TakeTop` | packages/core/src/auth.ts:19 | `>>>` and a mask read the top group of the live bits |
| `Base32.TakeLast` | packages/core/src/auth.ts:23 | the last letter holds the remaining live bits at its top |
| `Base32.DecodeIgnoresCaseAndPadding` | packages/core/src/auth.ts:28-36 | upper-casing a value and appending any number of `=` does not change what it decodes to |
| `RefreshProtocol.AtMostOneCallBeforeExpiry` | apps/admin/src/control/refresh-session.ts:160-280 | with any number of tabs, any interleaving, lost messages, refused storage writes and a crash at any step, a (profile, token) scope reaches the `refresh` callback at most once before the token expires |
| `RefreshProtocol.SamePairForEveryTab` | apps/admin/src/control/refresh-session.ts:226-270 | every pair returned for a scope before that expiry, by the calling tab or by one that joined it, is the one pair that the single call was granted |
| `RefreshExpiry.CalledTwice` | apps/admin/src/control/refresh-session.ts:79-82 | the expiry is the exact end of the guarantee: for every profile and token, and from every moment before the expiry, some run reaches the server twice for the scope, the second time at the expiry |
| `RefreshExpiry.LateTaskCalls` | apps/admin/src/control/refresh-session.ts:79-82 | in whatever state a run has reached, from the expiry on a queued task finds no standing marker and calls |
| `RefreshProtocol.InvKept` | apps/admin/src/control/refresh-session.ts:160-280 | every step of every task, and every crash, keeps mutual exclusion, the markers, the call bound and who has been handed which pair; `RefreshOutcomes` says which token storage holds |
| `RefreshProtocol.BarKept` | apps/admin/src/control/refresh-session.ts:58-98 | a consumed marker, readable or damaged, stands until its token has expired |
| `RefreshProtocol.ExclusiveKept` | apps/admin/src/control/refresh-session.ts:244-246 | at most one task of a scope is between grant and release of the lock |
| `ProfileStorage.ReadAfterStore` | apps/admin/src/control/profile-storage.ts:56-95 | a stored token is read back, from the area it was stored in, until it expires, whatever either area held before |
| `ProfileStorage.OtherProfilesKept` | apps/admin/src/control/profile-storage.ts:85-101 | storing and clearing touch one profile only, and a cleared profile reads as logged out |
| `ProfileStorage.BrowserStorage.ReadRefreshToken` | apps/admin/src/control/profile-storage.ts:56-83 | the tab area first, then the shared one; expired and unreadable records count as absent |
| `ProfileStorage.BrowserStorage.StoreRefreshToken` | apps/admin/src/control/profile-storage.ts:85-95 | the other area is emptied even when the write itself is refused |
| `ProfileStorage.BrowserStorage.ClearRefreshToken` | apps/admin/src/control/profile-storage.ts:97-101 | both areas lose the profile |
| `ProfileStorage.BrowserStorage.WasConsumed` | apps/admin/src/control/refresh-session.ts:58-87 | consumed unless no marker is there or an expired one could be removed; unreadable storage and damaged markers count as consumed |
| `ProfileStorage.BrowserStorage.WriteConsumed` | apps/admin/src/control/refresh-session.ts:89-98 | the marker of the scope is replaced, or the write is refused and nothing changes |
| `RefreshOutcomes.RefreshSucceeds` | apps/admin/src/control/refresh-session.ts:243-260 | from a free lock and an open marker, for every state: a task that is granted a pair returns it after one call, its tab then holds the new token in the area of the old one, the marker says succeeded and the others are told |
| `RefreshOutcomes.OtherTabJoins` | apps/admin/src/control/refresh-session.ts:226-247 | a task that finds the scope consumed and has heard of the success returns the same pair without asking the server, and its tab holds the new token |
| `RefreshOutcomes.NewTokenIsStored` | apps/admin/src/control/refresh-session.ts:252-257 | after the storing step every tab concerned reads the token that was granted, not the one that was spent |
| `RefreshOutcomes.SpentIsCleared` | apps/admin/src/control/refresh-session.ts:249-252 | while the server is asked the tab holds no token |
| `RefreshOutcomes.JoinReturns` | apps/admin/src/control/refresh-session.ts:226-238 | a joiner returns the pair it heard of and holds its token |
| `RefreshOutcomes.JoinFails` | apps/admin/src/control/refresh-session.ts:226-241 | without a success to join, or when its token cannot be stored, a joiner ends in an error |
| `RefreshOutcomes.ThrownHoldsNothing` | apps/admin/src/control/refresh-session.ts:239-275 | whichever step makes a task end in an error, its tab then holds no token for the profile |
| `RefreshOutcomes.OtherProfilesStand` | apps/admin/src/control/refresh-session.ts:229-256 | storing, handing over and clearing are seen by the reads of no other profile, in any tab |
| `RefreshOutcomes.BeginsWithItsToken` | apps/admin/src/control/refresh-session.ts:165-167 | a refresh begins exactly when the tab holds a token, and with that one |
| `RefreshOutcomes.FailureIsTold` | apps/admin/src/control/refresh-session.ts:261-268 | a task whose call failed marks the scope as failed and tells the others, if it can |
| `RefreshOutcomes.TabCloses` | apps/admin/src/control/refresh-session.ts:244-246 | a closed tab stops its own tasks, loses its own area and frees its locks, and nothing else changes |
| `AuthDatabase.CommitsExactlyWhole` | adapters/node/src/database-worker.ts:147-160 | a transaction commits exactly when nothing strikes it and every statement in turn changes the number of rows it expects, and then commits the effect of all of them |
| `AuthDatabase.DatabaseWorker.Transact` | adapters/node/src/database-worker.ts:147-160 | begin, every statement, commit; any error rolls back everything |
| `AuthDatabase.DatabaseWorker.Execute` | adapters/node/src/database-worker.ts:121-145 | one statement and its check of `expectedChanges`, which outside a transaction comes after the write |
| `Migrations.AlwaysAPrefix` | adapters/node/src/database-worker.ts:45-95 | whatever releases open a fresh database in whatever order, interrupted wherever, it holds exactly the first migrations, ledger and scripts alike; an older release refuses, any other finishes with its own migrations or reports the interruption |
| `Migrations.OpenedIsInstalled` | adapters/node/src/database-worker.ts:59-94 | what one opening makes of a database that holds a prefix, and the error it reports, in every case |
| `Migrations.CheckedExactly` | adapters/node/src/database-worker.ts:59-77 | the ledger checks pass exactly when the ledger is that of a prefix of the definitions |
| `Migrations.LongerIsNewer` | adapters/node/src/database-worker.ts:61-65 | a ledger longer than the definitions is reported as newer |
| `Migrations.MigratedDatabase.Open` | adapters/node/src/database-worker.ts:45-119 | definitions checked, ledger checked, the rest applied each in its own transaction; the new database and the error in every case |
| `Migrations.AssertDefinitions` | adapters/node/src/database-schema.ts:23-75 | definitions pass exactly when their versions are 1 to the schema version, no script is blank, and the metadata of each are left out altogether or complete, with a file name that starts with the version and the byte length and digest of the very script |
| `Migrations.CheckedScripts` | adapters/node/src/database-worker.ts:59-77 | when no two scripts share a digest, a database that one release has made passes the ledger checks of another exactly when it was made by the very scripts that release starts with |
| `Migrations.PrefixExactly` | adapters/node/src/database-schema.ts:58-60 | a file name starts with the version in decimal on at least four places, and an underscore |
| `AuthSafety.FamilyIsOneChain` | adapters/node/src/auth-sessions.ts:56-100 | in every reachable state the refresh tokens of a family form one chain of parents; no token has two successors, and at most one of a family is unused or unrevoked |
| `AuthSafety.RevocationIsFinal` | adapters/node/src/auth-sessions.ts:126-154 | once a reuse rejection, a logout or a session revocation has committed, no token of that family and of that session, which are the same tokens, is ever good again, whatever reads, rotations and logins were in flight |
| `AuthSafety.FamilyIsSession` | adapters/node/src/auth-sessions.ts:222-277 | in every reachable state two session tokens share a family exactly when they share a session |
| `AuthSafety.TakesDown` | adapters/node/src/auth-sessions.ts:192-220 | such a commit revokes every token of its family or session at once |
| `AuthSafety.DeadStays` | adapters/node/src/auth-sessions.ts:73-100 | no single step revives a family or session without good tokens: a rotation needs an unrevoked parent |
| `AuthSafety.ChainKept` | adapters/node/src/auth-sessions.ts:222-277 | each kind of change of the token table keeps the chain of every family |
| `AuthSafety.RotatedChain` | adapters/node/src/auth-sessions.ts:74-83 | a rotation can only spend the last token of its chain, and appends one to it |
| `AuthSafety.StepChanges` | adapters/node/src/auth-sessions.ts:56-154 | every step ages rows, opens a session in fresh groups, rotates one live refresh token or issues an execution token, and does nothing else to the table |
| `AuthSafety.RefreshEffect` | adapters/node/src/auth-sessions.ts:73-92 | what a committed rotation did: its token was unused, unrevoked and unexpired, is spent, and two rows of the same family and session follow it |
| `AuthSafety.RevocationAges` | adapters/node/src/auth-sessions.ts:289-297 | a bulk revocation revokes every row it matches and changes nothing else |
| `AuthSafety.PasswordChangeEvicts` | adapters/node/src/auth-administrator.ts:262-289 | after a password change commits, in every later state each good session token belongs to the session that changed it or to one opened with the new or a later password hash, with old logins and rotations in flight |
| `AuthSafety.PasswordChangeRevokes` | adapters/node/src/auth-administrator.ts:262-289 | the commit itself leaves only the kept session |
| `AuthSafety.OpenedSinceStays` | adapters/node/src/auth-administrator.ts:203-221 | no later step readmits a session opened with an older hash: a login commits only on the hash that is still current |
| `AuthSafety.NoLoginWhileLocked` | adapters/node/src/auth-administrator.ts:203-230 | a lock keeps its expiry and no login commits, not even one that had read the administrator before the lock, until the clock has reached it |
| `AuthSafety.LockStays` | adapters/node/src/auth-administrator.ts:301-328 | no step moves or lifts an unexpired lock, and none opens a session |
| `AuthSafety.LoginEffect` | adapters/node/src/auth-administrator.ts:203-221 | what a committed login required of the administrator row and what it wrote |
| `AuthSafety.ChangeEffect` | adapters/node/src/auth-administrator.ts:262-289 | what a committed password change required and wrote |
| `AuthSafety.BootstrappedOnce` | adapters/node/src/auth-administrator.ts:75-142 | with an administrator present the table keeps its one row for good and no bootstrap in flight ever commits |
| `AuthSafety.BootstrapEffect` | adapters/node/src/auth-administrator.ts:115-134 | a bootstrap commits only into an empty administrator table |
| `AuthSafety.StepAdministrators` | adapters/node/src/auth-administrator.ts:203-328 | the administrator table after any step, and the conditions under which its writes commit |
| `AuthSafety.AdministratorStays` | adapters/node/src/auth-administrator.ts:97-100 | there is at most one administrator, whose hash is the last one set |
| `AuthSafety.DepartureKept` | adapters/node/src/auth-sessions.ts:56-66 | what a request remembers when it has read its rows holds of those rows; `AuthOutcomes.RefreshIsRead` and `AuthOutcomes.LoginIsRead` say what it sets out to do |
| `AuthSafety.FlightStays` | adapters/node/src/auth-sessions.ts:73-98 | and keeps holding, up to use and revocation, while others commit |
| `AuthSafety.StepKeepsInv` | adapters/node/src/auth-sessions.ts:56-297 | every step of every request keeps all of this |
| `AuthOutcomes.RefreshIsRead` | adapters/node/src/auth-sessions.ts:57-66 | what the read of a refresh token leads to: a used or revoked one to a rejection, a live one to a rotation, an expired one to nothing |
| `AuthOutcomes.ReuseIsRejected` | adapters/node/src/auth-sessions.ts:61-62 | presenting a used or revoked token takes its family down: the rejection can commit at once, and then no token of the family is good |
| `AuthOutcomes.RotatesExactly` | adapters/node/src/auth-sessions.ts:73-92 | a rotation goes through exactly when its token is unused, unrevoked and unexpired and the drawn identifiers are new; then the token is spent, an access token of 15 minutes and a refresh token of 30 days of the same family and session follow it, and no other row changes |
| `AuthOutcomes.RotationCommits` | adapters/node/src/auth-sessions.ts:73-98 | whatever has interleaved since the read: a token still live is rotated, and one that was spent meanwhile takes its family down |
| `AuthOutcomes.LiveTokenIsRotated` | adapters/node/src/auth-sessions.ts:56-100 | a live refresh token presented at any moment of any run can be read and rotated in that same moment |
| `AuthOutcomes.RejectionTakesDown` | adapters/node/src/auth-sessions.ts:289-297 | a rejection in flight commits, and its family is dead |
| `AuthOutcomes.RevocationCommits` | adapters/node/src/auth-sessions.ts:126-220 | without a fault every rejection, logout and revocation commits |
| `AuthOutcomes.RevokesNoOther` | adapters/node/src/auth-sessions.ts:126-220 | and revokes its own group and no other token |
| `AuthOutcomes.LogsOut` | adapters/node/src/auth-sessions.ts:126-154 | a logout takes down the family of the access token it was asked with |
| `AuthOutcomes.SessionIsRevoked` | adapters/node/src/auth-sessions.ts:192-220 | a session found for its administrator can be revoked at once, and then has no good token |
| `AuthOutcomes.SessionServes` | adapters/node/src/auth-sessions.ts:222-277 | the two tokens of a new session serve until they expire: the one authenticates, the other can be rotated |
| `AuthOutcomes.UseIsRecorded` | adapters/node/src/auth-sessions.ts:102-124 | authenticating records the use of the access token and changes nothing else |
| `AuthOutcomes.LoginIsRead` | adapters/node/src/auth-administrator.ts:150-186 | a right password without a lock sets out for a session, anything else to be counted as a failure |
| `AuthOutcomes.LogsInExactly` | adapters/node/src/auth-administrator.ts:203-221 | a login goes through exactly when the hash is still the verified one, no lock stood and the drawn identifiers are new; it clears the failures |
| `AuthOutcomes.LoginCommits` | adapters/node/src/auth-administrator.ts:203-229 | a login in flight ends in a session, or in one failure more when the row no longer admits it |
| `AuthOutcomes.FailureCounts` | adapters/node/src/auth-administrator.ts:301-328 | a failure is counted once; the eighth locks for fifteen minutes, and a lock that stands is not moved |
| `AuthOutcomes.FailuresAddUp` | adapters/node/src/auth-administrator.ts:301-328 | in every run between two logins the failures add up, whatever interleaves |
| `AuthOutcomes.ChangesExactly` | adapters/node/src/auth-administrator.ts:262-280 | a password change goes through exactly when the hash is still the verified one, revokes the tokens of the other sessions and touches no other |
| `AuthOutcomes.PasswordChanges` | adapters/node/src/auth-administrator.ts:238-298 | read and committed, the new hash stands and the kept session is not touched |
| `AuthOutcomes.BootstrapsExactly` | adapters/node/src/auth-administrator.ts:115-134 | a bootstrap goes through exactly when its token is the issued one, unused and unexpired, and there is no administrator |
| `AuthOutcomes.Bootstraps` | adapters/node/src/auth-administrator.ts:75-142 | a fresh instance is bootstrapped: one administrator and a first session |
| `AuthOutcomes.BootstrapIssued` | adapters/node/src/auth-administrator.ts:51-73 | an issued bootstrap token is taken for exactly thirty minutes |
| `AuthOutcomes.ExecutionIssued` | adapters/node/src/execution-tokens.ts:116-157 | an execution token gets a new identifier and digest and the expiry it was asked for, and belongs to no session |
| `CanonicalJson.CanonicalText` | adapters/cloudflare/src/crypto.ts:78-88 | two values have the same text exactly when they mean the same JSON value, objects read as maps: no other values are confused, and the order of keys does not show |
| `CanonicalJson.SameText` | adapters/cloudflare/src/crypto.ts:78-88 | texts are self-delimiting: equal texts, each followed by something that cannot continue a number, have equal meanings and equal rests |
| `CanonicalJson.SameMeaning` | adapters/cloudflare/src/crypto.ts:83-87 | values of the same meaning print alike, however their objects were built |
| `CanonicalJson.QuotedReadsBack` | adapters/cloudflare/src/crypto.ts:80 | a quoted string read back gives the string and what follows it, whatever it holds: quotes, backslashes, controls, lone surrogates |
| `CanonicalJson.SortSorts` | adapters/cloudflare/src/crypto.ts:85 | sorting puts the keys in ascending order and loses none; `CanonicalReading.BeforeExactly` says which order that is |
| `CanonicalJson.OneOrder` | adapters/cloudflare/src/crypto.ts:85 | a set of keys has one ascending order |
| `CanonicalJson.DefinedKeys` | adapters/cloudflare/src/crypto.ts:84 | exactly the keys with a defined value are kept |
| `CanonicalJson.PrintedKeys` | adapters/cloudflare/src/crypto.ts:83-86 | the printed keys are the defined ones, ascending |
| `CanonicalReading.BeforeExactly` | adapters/cloudflare/src/crypto.ts:85 | one key comes before another exactly when it is a proper prefix of it or is smaller at the first code unit in which they differ |
| `CanonicalReading.CanonicalReadsBack` | adapters/cloudflare/src/crypto.ts:78-88 | the text of every value, read by a reader written from RFC 8259 that allows no white space and demands ascending names, gives the value that was meant |
| `CanonicalReading.ReadsBack` | adapters/cloudflare/src/crypto.ts:78-88 | and so does the text followed by anything that cannot continue a number, which is left over |
| `CanonicalJson.ShortestSpelling` | adapters/cloudflare/src/crypto.ts:80 | of all spellings of a string that section 7 of RFC 8259 reads as it, the printed one is shortest |
| `QuotaRuns.FirstComeMutex` | adapters/node/src/quota.ts:224-236 | the promise chain is a first-come mutex: at most one section runs, calls enter in the order they were made, and after any ending, a throw included, the oldest waiting call may enter |
| `QuotaRuns.SectionsAreAtomic` | adapters/node/src/quota.ts:98-107 | although a section reads its rows one by one while other calls arrive, its commit writes what the whole call would write in one step; nothing else touches a row, so a denied or failed call changes none |
| `QuotaRuns.RateBound` | adapters/node/src/quota.ts:146-163 | from any admission to any later one, for a token and for the instance alike, there are at most burst plus rate times the clock's forward movement between them, whatever rows the run began with |
| `QuotaRuns.IntervalBound` | adapters/node/src/quota.ts:146-163 | with a clock that does not go back, any interval [s, t] admits at most burst + requestsPerMinute (t - s) / 60000 requests of a key |
| `QuotaRuns.LedgerConserved` | adapters/node/src/quota.ts:176-193 | whatever rows the run found, each token row of a day grows by exactly its committed charges and is never charged above the quota, and the same of the instance row; the instance row is the sum of all token rows afterwards exactly when it was before |
| `QuotaRuns.CommitIsAtomic` | adapters/node/src/quota.ts:98-126 | the single step behind atomicity |
| `QuotaRuns.StepKeepsReads` | adapters/node/src/quota.ts:116-126 | what a running section has read stays what the rows say until it ends |
| `QuotaRuns.AdmissionKeepsOpen` | adapters/node/src/quota.ts:155-162 | one admission keeps the token bucket potential: a full bucket is at most the burst, and what was taken is paid for by time |
| `QuotaOutcomes.RateAdmitsExactly` | adapters/node/src/quota.ts:155-163 | a bucket admits a request exactly when the burst is at least one and its tokens with requestsPerMinute / 60000 for each elapsed millisecond come to at least one; it keeps the lesser of burst and refilled bucket less one |
| `QuotaOutcomes.BurstExactly` | adapters/node/src/quota.ts:156-163 | a new key may send exactly its burst at one moment |
| `QuotaOutcomes.SteadyRateIsServed` | adapters/node/src/quota.ts:155-163 | requests spaced by the rate are never refused, however long they go on |
| `QuotaOutcomes.AdmittedExactly` | adapters/node/src/quota.ts:87-107 | a request is admitted exactly when both buckets have a token and both days have room, the instance with 300 requests a minute and 10 GiB a day |
| `QuotaOutcomes.AdmissionLeaves` | adapters/node/src/quota.ts:155-174 | which rate rows an admission writes and what they say |
| `QuotaOutcomes.ChargeAdmittedExactly` | adapters/node/src/quota.ts:181-189 | a charge is admitted exactly when both days have room |
| `QuotaOutcomes.ChargeLeaves` | adapters/node/src/quota.ts:181-193 | a charge adds its bytes to the day of the token and of the instance and to no other row |
| `QuotaOutcomes.RequestIsDecided` | adapters/node/src/quota.ts:66-107 | in every run a request at the head of the queue, left to itself, runs to its end and is admitted exactly when the rows of the moment admit it; refused, it changes nothing |
| `QuotaOutcomes.ChargeIsDecided` | adapters/node/src/quota.ts:113-127 | the same of a charge |
| `QuotaOutcomes.IdleIsNotRefused` | adapters/node/src/quota.ts:155-162 | in every run a key that has been idle for the time of one request, or was never seen, is not refused by the rate |
| `QuotaOutcomes.CallIsQueued` | adapters/node/src/quota.ts:224-230 | a call joins the end of the queue and is at its head when those before it have ended |
| `QuotaOutcomes.EndsAtOnce` | adapters/node/src/quota.ts:71-86 | which calls end as soon as they enter, and how |
| `QuotaCoordinator.QuotaCoordinator.Acquire` | adapters/node/src/quota.ts:66-143 | a lease is granted exactly when the byte count is valid, fewer requests of its kind are active than the quota of the token and the 20 requests or 8 tunnels of the instance allow, both buckets have a token, both days have room and the database does not fail; a refusal says why and changes nothing |
| `QuotaCoordinator.QuotaCoordinator.Release` | adapters/node/src/quota.ts:128-141 | the lease leaves both counters, which stood above zero so that nothing is clipped; releasing again changes nothing |
| `QuotaCoordinator.QuotaCoordinator.ChargeBytes` | adapters/node/src/quota.ts:113-127 | what is charged to the ledgers, and when a charge is refused: the released flag counts as the call found it before it queued |
| `QuotaCoordinator.QuotaCoordinator.Count` | adapters/node/src/quota.ts:109-111 | the shared counters of both levels grow by the lease and all other leases keep sharing the map's objects |
| `QuotaCoordinator.QuotaCoordinator.Drop` | adapters/node/src/quota.ts:132-139 | the counters lose the lease, and the map loses the token exactly when it holds no other |
| `QuotaCoordinator.AgreeGrown` | adapters/node/src/quota.ts:109-111 | counters that equal the numbers of unreleased leases, per token and in all, still do with one lease more |
| `QuotaCoordinator.AgreeShrunk` | adapters/node/src/quota.ts:133-139 | and with one less; both counters of a held lease are above zero |
| `QuotaCoordinator.WithinGrown` | adapters/node/src/quota.ts:77-85 | an admission below both limits keeps every counter within its limit |
| `DurableQuota.WindowBound` | adapters/cloudflare/src/durable-objects/quota.ts:61-80 | for fixed limits, when no acquire falls into a minute that a release has swept, any L ms contain at most (⌊L/60000⌋ + 2) requestsPerMinute admissions, and likewise per second |
| `DurableQuota.CloseIsTimely` | adapters/cloudflare/src/durable-objects/quota.ts:233-243 | clocks that disagree by at most the purge slack, 120 minutes or 120 seconds, keep every acquire out of the windows swept |
| `DurableQuota.ConcurrencyBound` | adapters/cloudflare/src/durable-objects/quota.ts:81-90 | in every run the leases of a class, expired ones still stored included, stay within its limit, and request ids are distinct |
| `DurableQuota.LeaseHasAlarm` | adapters/cloudflare/src/durable-objects/quota.ts:245-253 | in every run of dated leases, whenever a lease exists an alarm is set no later than its expiry |
| `DurableQuota.ScheduledIsGuarded` | adapters/cloudflare/src/durable-objects/quota.ts:251-252 | scheduling guards the leases exactly when the earliest expiry is not zero, which the code takes for none |
| `DurableQuota.RenewNeverRevives` | adapters/cloudflare/src/durable-objects/quota.ts:159-173 | a lease is renewed exactly when one of that id has not expired; an expired one is gone |
| `DurableQuota.AdmittedWithinBytes` | adapters/cloudflare/src/durable-objects/quota.ts:92-99 | the daily byte cap holds at admission |
| `DurableQuota.CapKeptExactly` | adapters/cloudflare/src/durable-objects/quota.ts:92-99 | for every run within the cap at its start: no day is above the cap in any state of the run exactly when every release, at the time it is made, fits into its day; admissions never break it |
| `DurableQuota.StepKeepsCap` | adapters/cloudflare/src/durable-objects/quota.ts:147-154 | one operation keeps every day within the cap exactly when it is no release or what is used that day plus the bytes it charges is at most the cap |
| `DurableQuota.ReleaseMayPassCap` | adapters/cloudflare/src/durable-objects/quota.ts:147-154 | a release that does not fit: a concrete one that ends above the cap |
| `DurableQuota.StepKeepsRow` | adapters/cloudflare/src/durable-objects/quota.ts:102-154 | every operation keeps each unswept row equal to what was recorded for it: a minute and a second to the admissions that fall into it, a day to the bytes that admissions and releases have charged |
| `DurableQuota.StepKeepsLimit` | adapters/cloudflare/src/durable-objects/quota.ts:61-80 | no admission takes a window above its limit |
| `DurableQuota.ReleaseCharges` | adapters/cloudflare/src/durable-objects/quota.ts:147-155 | a release adds its bytes to its own day and otherwise leaves exactly what its sweep leaves |
| `DurableQuota.StepKeepsLeases` | adapters/cloudflare/src/durable-objects/quota.ts:44-189 | every operation keeps the leases distinct and within their limits |
| `DurableQuota.QuotaDurableObject.Acquire` | adapters/cloudflare/src/durable-objects/quota.ts:44-127 | the verdict, its retry time, and the whole new store |
| `DurableQuota.QuotaDurableObject.Release` | adapters/cloudflare/src/durable-objects/quota.ts:129-157 | the whole new store after a release |
| `DurableQuota.QuotaDurableObject.Renew` | adapters/cloudflare/src/durable-objects/quota.ts:159-173 | the answer and the whole new store after a renewal |
| `DurableQuota.QuotaDurableObject.TakeSnapshot` | adapters/cloudflare/src/durable-objects/quota.ts:175-184 | the report, and that only expired leases go |
| `DurableQuota.SnapshotReports` | adapters/cloudflare/src/durable-objects/quota.ts:175-184 | after any run the report counts the admissions of its minute and of its second, the bytes charged to its day, and the leases of each class that have not expired |
| `DurableQuota.QuotaDurableObject.Alarm` | adapters/cloudflare/src/durable-objects/quota.ts:186-189 | the whole new store after an alarm |
| `DurableOutcomes.VerdictExactly` | adapters/cloudflare/src/durable-objects/quota.ts:44-127 | from the stored rows: which requests are admitted and until when, and for which reason each of the others is refused |
| `DurableOutcomes.WaitsExactly` | adapters/cloudflare/src/durable-objects/quota.ts:54-98 | a refused request is told to wait until its id is free, or to the first moment of the next window, or a second |
| `DurableOutcomes.AdmittedByRecord` | adapters/cloudflare/src/durable-objects/quota.ts:44-101 | in every run, as long as the windows of the moment are unswept, a request is admitted exactly when its id is free, the recorded admissions and charges of its minute, second and day are below their limits and there is room among the leases of its kind |
| `DurableOutcomes.RetryIsHeard` | adapters/cloudflare/src/durable-objects/quota.ts:61-98 | in every run a request that waits as it was told is not refused again for its rate, nor for its bytes unless it is above the quota by itself |
| `DurableOutcomes.SweptExactly` | adapters/cloudflare/src/durable-objects/quota.ts:233-243 | a release leaves exactly the rows of the last 120 seconds, 120 minutes and 2 days |
| `DurableOutcomes.AlarmIsFirstExpiry` | adapters/cloudflare/src/durable-objects/quota.ts:245-253 | the alarm is the expiry of the lease that expires first |
| `DurableOutcomes.RenewedUntil` | adapters/cloudflare/src/durable-objects/quota.ts:165-171 | a renewed lease holds until the new time and is otherwise what it was |
| `DurableOutcomes.ReleaseFrees` | adapters/cloudflare/src/durable-objects/quota.ts:143-146 | a release frees the lease of its request and no other |
| `DurableOutcomes.LeasesAfter` | adapters/cloudflare/src/durable-objects/quota.ts:44-189 | the leases after each operation: expired ones are gone, an admission adds one, a renewal moves one, a release takes its own |
| `IngressPath.AcceptedMeansOriginal` | packages/core/src/ingress-path.ts:70-92 | whatever observed spelling is accepted, the original is returned, and observed path and query have the canonical path, the decoded fields and the normalized query of the original |
| `IngressPath.OriginalAccepted` | packages/core/src/ingress-path.ts:74-91 | the original is accepted as its own spelling |
| `IngressPath.PathCanonicalForm` | packages/core/src/ingress-path.ts:27-37 | two well-escaped paths normalize alike exactly when they mean the same by sections 6.2.2.1 and 6.2.2.2 of RFC 3986; normalization absorbs upper-casing of escapes and is idempotent |
| `IngressPath.IdempotentExactly` | packages/core/src/ingress-path.ts:30-37 | on every text normalization is idempotent exactly when no stray percent sign comes to stand before two hexadecimal digits that would then be decoded or upper-cased; well-escaped texts, and the code normalizes no others, have no stray one |
| `IngressPath.StrayPercentIsNotIdempotent` | packages/core/src/ingress-path.ts:30-37 | a text on the failing side: `%%34%31` |
| `IngressPath.CollapseCommutes` | packages/core/src/ingress-path.ts:80 | collapsing runs of slashes commutes with normalization |
| `IngressPath.CollapsedTwice` | packages/core/src/ingress-path.ts:80 | collapsing is idempotent |
| `IngressPath.SpellingsShareForm` | packages/core/src/ingress-path.ts:77-81 | all six accepted spellings of a path have its canonical form |
| `IngressPath.QueryCanonicalForm` | packages/core/src/ingress-path.ts:39-67 | two queries normalize alike exactly when a form decodes them to the same fields in the same order, flags and empty segments included; normalization keeps the fields, absorbs upper-casing and is idempotent |
| `IngressPath.QueryReadsBack` | packages/core/src/ingress-path.ts:54-67 | any list of fields, of any octets, is read back from its normalized text |
| `IngressPath.NormalizedIsQueryText` | packages/core/src/ingress-path.ts:39-67 | the code's normalization of a query is the text of its fields |
| `IngressPath.UpperKeepsFields` | packages/core/src/ingress-path.ts:27-28 | upper-casing escapes keeps the fields |
| `IngressPath.NormalizedIsText` | packages/core/src/ingress-path.ts:30-37 | the code's normalization of a path is the text of its meaning |
| `IngressOutcomes.OriginalExactly` | packages/core/src/ingress-path.ts:5-18 | which paths are taken: from a slash, at most 49152 visible characters without `#` and backslash, every percent sign before two hexadecimal digits, and unchanged by URL parsing |
| `IngressOutcomes.AcceptedExactly` | packages/core/src/ingress-path.ts:70-92 | exactly the three spellings of the path, each with its runs of slashes or without, and the three of the query are accepted, in any combination |
| `IngressOutcomes.NormalPathLooks` | packages/core/src/ingress-path.ts:30-37 | in a normalized path only octets that are no unreserved character of RFC 3986 are escaped, in upper case |
| `IngressOutcomes.NormalQueryLooks` | packages/core/src/ingress-path.ts:39-67 | a normalized query is form text: what is escaped had to be, and what had to be is |
| `IngressOutcomes.UpperLooks` | packages/core/src/ingress-path.ts:27-28 | upper-casing raises the two digits after each percent sign and changes nothing else |
| `Ip.Ipv6Exactly` | packages/core/src/ip.ts:31-69 | a text parses as IPv6 exactly when, in lower case and without its zone, it is a spelling of section 2.2 of RFC 4291 (full, `::` at any zero run, embedded IPv4 tail), and then to the number of its eight groups |
| `Ip.Ipv4Exactly` | packages/core/src/ip.ts:9-20 | a text parses as IPv4 exactly when it is four octets in canonical decimal joined by dots, and then to their number |
| `Ip.CidrIsBlock` | packages/core/src/ip.ts:79-98 | for a prefix coerced to an integer, membership holds exactly when both sides parse, the families agree, the prefix is in range and the address lies in the aligned block of 2^(bits - prefix) addresses |
| `Ip.ShorterPrefixContains` | packages/core/src/ip.ts:96-97 | membership is monotone as the prefix shortens |
| `Ip.ParsedFits` | packages/core/src/ip.ts:9-73 | a parsed value is below 2^bits |
| `Ip.ParseIpv4` | packages/core/src/ip.ts:9-20 | the shift-and-or loop computes the number of the octets, or rejects |
| `Ip.ParseIpv6` | packages/core/src/ip.ts:31-69 | the normalizing steps and the shift-and-or loop compute the number of the groups, or reject |
| `Ip.JoinGroups` | packages/core/src/ip.ts:66-67 | the loop over the eight groups |
| `Ip.SpelledReads` | packages/core/src/ip.ts:41-65 | every spelling without an IPv4 tail is read to its eight groups |
| `Ip.SpelledExpands` | packages/core/src/ip.ts:36-40 | an IPv4 tail is replaced by the two groups it stands for |
| `Ip.TailIsSpelled` | packages/core/src/ip.ts:22-29 | a text read with its tail expanded is spelled with that tail |
| `Ip.BracketsAreOptional` | packages/core/src/ip.ts:71-73 | a literal is read as IPv4, or else as IPv6 with or without brackets |
| `Glob.GlobIsItsDenotation` | packages/core/src/policy-matchers.ts:10-21 | for every pattern the compiled regular expression parses and matches exactly the texts the glob denotes: a star any run without line terminators, every other character itself up to case folding |
| `Glob.CompiledParses` | packages/core/src/policy-matchers.ts:10-19 | escaping first and then replacing stars gives text that parses to one term for each pattern character, backslashes and metacharacters included |
| `Glob.MatchedIsCut` | packages/core/src/policy-matchers.ts:20 | a backtracking match yields a cut of the text into pieces the pattern characters stand for |
| `Glob.CutMatches` | packages/core/src/policy-matchers.ts:20 | and every such cut is found |
| `JsonPointer.Resolve` | packages/core/src/policy-matchers.ts:67-89 | the loop follows the reference tokens one by one and fails at the first that leads nowhere |
| `JsonPointer.PointerFollowsPath` | packages/core/src/policy-matchers.ts:71-88 | a pointer printed as RFC 6901 says leads where its tokens do, whatever slashes and tildes they hold, through arrays by decimal index |
| `JsonPointer.UnescapedEscaped` | packages/core/src/policy-matchers.ts:74 | undoing `~1` before `~0` undoes the escaping; the other order does not |
| `DatabaseClient.SettledExactlyOnce` | adapters/node/src/database.ts:150-274 | in every order of requests, answers, worker error, exit, startup events and close, each request entered is settled exactly once as soon as it is no longer pending and never twice; startup settles at most once, the fatal promise resolves at most once and with the first failure |
| `DatabaseClient.NothingPendingAfterwards` | adapters/node/src/database.ts:150-274 | after a fatal error or a finished close nothing is pending, everything entered has been settled, and no later event enters or settles anything or replaces the error |
| `DatabaseOutcomes.SettledForAReason` | adapters/node/src/database.ts:150-274 | in every order of events a request resolves only with a value that was answered to it, and is rejected only with a failure that was answered to it, because of a close, or with the error that ended the client, which some event brought |
| `DatabaseOutcomes.AnswerSettles` | adapters/node/src/database.ts:232-244 | a value resolves its request, a conditional write that did not apply and any other failure reject it, and no other request is settled |
| `DatabaseOutcomes.StartupSettles` | adapters/node/src/database.ts:208-228 | startup resolves exactly with a worker of schema version 7, if nothing has settled it before |
| `DatabaseClient.StepKeepsInv` | adapters/node/src/database.ts:67-274 | every event keeps the bookkeeping behind both |
| `DatabaseClient.Client.Send` | adapters/node/src/database.ts:179-206 | a request is refused outright or entered under a new number, and a failed post rejects it at once |
| `DatabaseClient.Client.HandleStartup` | adapters/node/src/database.ts:208-228 | the startup message resolves startup once, or is fatal for a foreign schema |
| `DatabaseClient.Client.Resolve` | adapters/node/src/database.ts:232-244 | an answer settles its request if that is pending; late and repeated answers are ignored |
| `DatabaseClient.Client.HandleEnd` | adapters/node/src/database.ts:70-86 | a worker error or exit is fatal, or during a close rejects what is pending |
| `DatabaseClient.Client.Reject` | adapters/node/src/database.ts:246-249 | everything pending is rejected once, in order |
| `DatabaseClient.Client.Fail` | adapters/node/src/database.ts:251-263 | the first failure stands, startup and everything pending are rejected with it |
| `DatabaseClient.Client.BeginClose` | adapters/node/src/database.ts:150-165 | a close happens once; it rejects an open startup and asks the worker only when that is up |
| `DatabaseClient.Client.FinishClosing` | adapters/node/src/database.ts:166-172 | a finished close has rejected what was left |
| `NodeUpstream.ExecuteUpstream` | adapters/node/src/upstream.ts:217-294 | at most 21 requests, each following from the one before by one redirect; how the run ends, in every case |
| `NodeUpstream.SentAsApproved` | adapters/node/src/upstream.ts:123-143 | every request, the first included, has the URL, headers, method, hop count and pinned address that were approved together |
| `NodeUpstream.RequestInClosedForm` | adapters/node/src/upstream.ts:273-283 | each request in terms of the first: headers a subsequence of the originals, without credentials once any hop has left an origin, without body and body headers once any hop has rewritten to GET |
| `NodeUpstream.CredentialsStayStripped` | adapters/node/src/upstream.ts:274-275 | no credential header goes out after the first cross-origin hop |
| `NodeUpstream.BodyStaysDropped` | adapters/node/src/upstream.ts:276-283 | no body or body header goes out after the first rewrite, and the method stays GET |
| `NodeUpstream.ResolveApprovedTarget` | adapters/node/src/upstream.ts:123-143 | the first address that policy approves, or none |
| `NodeUpstream.FirstApprovedIsApproved` | adapters/node/src/upstream.ts:133-142 | which was approved, and no address before it was |
| `NodeUpstream.RequestsTravel` | adapters/node/src/upstream.ts:273-292 | the first request goes to the target, and each other to the place that the answer before it named |
| `NodeUpstream.ReturnedExactly` | adapters/node/src/upstream.ts:240-272 | which answers the caller gets, with their URL and their number of redirects; a redirect past the twentieth is an error |
| `RedirectHeaders.StrippedIsKept` | adapters/node/src/headers.ts:79-95 | stripping is idempotent and the two kinds commute: what is left depends only on which kinds have happened |
| `RedirectHeaders.KeptExactly` | adapters/node/src/headers.ts:79-95 | exactly the headers of the stripped kinds go |
| `CloudflareUpstream.FetchUpstream` | adapters/cloudflare/src/gateway/upstream.ts:34-141 | at most maxRedirects + 1 fetches, the first to the target and each other to the place of the redirect before it, every redirect followed only under its conditions; how the run ends, in every case |
| `CloudflareUpstream.BodySentOnce` | adapters/cloudflare/src/gateway/upstream.ts:90-96 | the body stream is attached to no fetch but the first |
| `CloudflareUpstream.FetchesTravel` | adapters/cloudflare/src/gateway/upstream.ts:133-139 | the first fetch goes to the target, and each other to the place of the redirect followed before it |
| `CloudflareUpstream.FetchInClosedForm` | adapters/cloudflare/src/gateway/upstream.ts:39-46 | every fetch in terms of the input and the redirects followed: its target, method, headers and body |
| `CloudflareUpstream.FollowedAsAsked` | adapters/cloudflare/src/gateway/upstream.ts:78-130 | a redirect that is followed leads where its answer said, over HTTPS, and was asked of the target check and of policy with the method and target that then go out |
| `CloudflareUpstream.ReturnedExactly` | adapters/cloudflare/src/gateway/upstream.ts:47-96 | which answers the caller gets |
| `CloudflareUpstream.ReturnedFromLast` | adapters/cloudflare/src/gateway/upstream.ts:47-48 | with the target of the last fetch, the number of redirects and the credentials removed |
| `CloudflareUpstream.KeptExactly` | adapters/cloudflare/src/gateway/headers.ts:101-150 | which headers a cross-origin redirect and a rewrite to GET leave |
| `CloudflareUpstream.LoopInClosedForm` | adapters/cloudflare/src/gateway/upstream.ts:132-137 | headers, method and body in terms of the input and of the places and statuses of the redirects alone; each credential header is reported removed exactly once |
| `CloudflareUpstream.StripCrossOriginCredentials` | adapters/cloudflare/src/gateway/headers.ts:101-117 | which headers go and which removals are reported |
| `ServerTiming.SplitOutsideQuotes` | packages/core/src/server-timing.ts:13-36 | the flag-driven loop computes the split at delimiters outside of quoted strings |
| `ServerTiming.SplitExactly` | packages/core/src/server-timing.ts:13-36 | the split is the one list that joins back to the text, with no delimiter left bare in a part and every part but the last ending outside quotes |
| `ServerTiming.Unquote` | packages/core/src/server-timing.ts:47-62 | trimming, then dropping the quotes and the backslashes |
| `ServerTiming.UnquotedQuote` | packages/core/src/server-timing.ts:47-62 | unquoting undoes the quoted-string of section 5.6.4 of RFC 9110 |
| `ServerTiming.QuoteIsClosed` | packages/core/src/server-timing.ts:24-28 | a quoted string holds no bare delimiter and ends outside quotes, whatever it quotes |
| `ServerTimingMetrics.ParsedPrinted` | packages/core/src/server-timing.ts:64-99 | parsing undoes printing: any list of at most 128 metrics with valid names, durations of at least zero whose text reads back, and descriptions of at most 512 characters comes back as it was |
| `ServerTimingMetrics.ParseServerTiming` | packages/core/src/server-timing.ts:64-99 | the nested loops collect the metrics of all fields in order and stop at the 128th |
| `ServerTimingMetrics.ParseMetric` | packages/core/src/server-timing.ts:72-94 | one metric: its name checked, later parameters overriding earlier ones, bad durations passed over |
| `ServerTimingMetrics.EnoughMetrics` | packages/core/src/server-timing.ts:95 | stopping at the limit loses nothing that would have been kept |
| `ServerTimingMetrics.ParsedWithinLimits` | packages/core/src/server-timing.ts:64-99 | whatever the fields hold, what is kept is the first 128 of their metrics, each with a name, a description of at most 512 characters and no negative duration |
| `ServerTimingMetrics.NamesExactly` | packages/core/src/server-timing.ts:9 | names are exactly the tokens of RFC 9110 of at most 128 characters |
| `ServerTimingMetrics.KeysIgnoreCase` | packages/core/src/server-timing.ts:38-45 | `dur` and `desc` are recognized in any case |

## Left out

- Messages of more than 2^53 bytes, whose length a JavaScript number does not count exactly.
- The class form of `AdminSessionService` and `AdministratorAuthService`: their reads and commits are separate steps that interleave, so they are steps of `AuthFlows` over the worker's transactions instead of methods.
- The class form of `refreshSession`, for the same reason; its storage operations are methods of `BrowserStorage`.
- Lookup of tokens by digest and of administrators by user name: rows are found by id, and a request for an unknown one changes nothing.
- Second factors, recovery codes, password hashing, device fingerprints, token scopes and the text of audit entries.
- SQL beyond the listed statements, and the tables of execution reports.
- Cloudflare D1 session rotation and Supabase procedures, whose constraints are not part of this model.
- Node configuration updates, whose version check and write are not one conditional step.
- `toUpperCase` and `toLowerCase` beyond ASCII in `Ip`, `NodeUpstream`, `RedirectHeaders` and `ServerTimingMetrics`.
- ServerTimingMetrics.ParsedPrinted: a description is cut by characters, where the code counts UTF-16 units; header values are byte strings, which hold no character that takes two.
- Values that `JSON.stringify` refuses or drops other than `undefined`: big integers, functions, symbols, `toJSON`; a finite number is given by its decimal text.
- `bytesToBase64Url`, `constantTimeTextEqual` and the encryption helpers of the same file: easy loops around the platform's cryptography.
- Rounding of the token bucket: its tokens are real numbers.
- A database commit that succeeds although its answer is lost.
- An execution token whose id is the reserved instance key of the daily ledger.
- WHATWG URL parsing: `IngressPath` takes the serialized path as given, the redirect loops take URLs as records and their resolution as a function.
- The coercion of the text after the slash of a CIDR block to a number, which is a function of `IpInCidr`.
- Regular expression syntax that the glob compiler does not emit, and the case folding table: `Glob` takes any folding that keeps line terminators apart from other characters.
- The other string, header and multipart matchers, which compare or filter and carry no further invariant.
- Timing phases, TLS options, response bodies and the text of problems in the redirect loops; the `Host` and `Content-Length` entries that the Node client adds to what was approved.
- Promise scheduling inside `DatabaseClient` beyond the order of its events, and the termination of the worker thread.
- The computation of a migration script's UTF-8 length and digest: a script comes with both; and metadata of another type than the declared one.
- HTTP servers, routing, CORS, tunnels, the user interface and schema validation: plumbing without an invariant of its own.
