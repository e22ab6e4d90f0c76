# Verification of the TrendsFast limiters, caches, inventories and provisioning

This project models the stateful and text-handling core of TrendsFast and proves what it is relied on for.
`dafny verify dfyconfig.toml` checks all of it.

* **Sliding-window limiters** (`SlidingWindow`, `Admission`, `Buckets`, `Limiters`, `ApiAuthGuard`,
  `OpsLoginGuard`). `SlidingWindow` is a reference limiter that keeps every event for ever. The classes keep
  buckets, filter and delete them, and share them with reservations that outlive the call; their ghost ledger
  is the reference state. They decide as the reference does, so its window theorem is theirs. `Admission` is
  the other half: what it must admit, up to the last place.
* **Turnstile replay cache** (`Turnstile`): any interleaving of the two atomic steps of `verify`.
* **Password rotation** (`RoleRotation`, `RotationProtocol`, `RotationOverlap`): fresh runs, `--resume` runs,
  kills between any two steps, SQL calls that report failure with either outcome, and two runs at once.
* **Inventories** (`Text`, `Dotenv`, `Printer`, `HandWritten`, `HobbyOpsProvenance`): the dotenv reader against
  its two printers and against files written by hand, and the line rewriter as a map update.
* **Attestation** (`HobbyEnvironments`), **grants** (`RoleGrants`), **stored reviews** (`StoredReview`),
  **date fields** (`UtcDateTime`) and **bounded bodies** (`BoundedBody`, `Decimals`).

## What the results rest on

* Times are whole milliseconds. A limiter decides as the reference while the clock of its reservations does
  not go back (`ClockBackOverfills`). The window theorem further needs that a mark is not dated before its own
  reservation (`EarlyMarkOverfills`). `authenticateOpsLoginRequest` guarantees it (`OpsLoginGuard.Finish`).
  The two limiter classes repeat one bucket map in the source; here they share it. Within one synchronous
  call, some updates of `settle` and `reserve` are made in another order.
* Turnstile: the clock does not go back, and the service reports one challenge time per token. The accepted
  map alone can exceed 4096 entries (`CacheFillsUp`); accepted and pending together stay within 2 * 4096 - 1.
* Rotation: `rename` is atomic; the SQL file is one transaction, all or nothing, and a
  reported success is one. The advice to rerun with `--resume` does not hold after the secrets inventory was
  replaced: the freshness check then refuses every later run, the role URLs keep the old passwords and the
  pending record stays (`StuckAfterSecrets`, `KilledAfterSecretsIsNotRepaired`). Nothing is lost:
  the database's passwords are in the secrets inventory. All this is for one run at a time. Nothing in the
  source keeps a second process out, and then they can be lost (`OverlapLoses`).
* Inventories: text is Unicode scalar values. The reader decodes five escapes; the printer, `JSON.stringify`,
  writes more for control characters, so exactly the inventories without them survive. `__proto__` is
  assigned without becoming an own property. Sorting by `localeCompare` is an arbitrary order of the names.
  U+2028 and U+2029 end a line for the expression of the rewriter, and not for the reader.
* Grants: every grant was made by the owner, roles belong to no other role, and the objects the allowlist
  names exist. Whether revoking on a table reaches its columns is a parameter: the results hold either way,
  although a comment in the provisioner says it does not.
* Attestation: JSON texts are trees, URL parsing, `localeCompare` and the checks that do not read the phase
  are parameters, and so is the digest: instead of assuming that it has no collisions, the result names them.

## Model

| member | source | states |
|---|---|---|
| SlidingWindow.SlidingWindowHolds | apps/web/lib/api-auth-guard.ts:36-42 | For every run of reserve, markInvalid and release in any order, and every instant, the marks in the window ending there are at most the limit, per bucket key and in all |
| SlidingWindow.RunKeepsBounded | apps/web/lib/api-auth-guard.ts:75-122 | The invariant behind it holds after every run: marks of a window plus the reservations already taken then, each of which may still become a mark in it, are within the limit |
| SlidingWindow.AdmitKeepsBounded | apps/web/lib/api-auth-guard.ts:82-101 | An admission keeps every window within the limit without any assumption on the clock |
| SlidingWindow.MarkKeepsBounded | apps/web/lib/api-auth-guard.ts:105-117 | Turning a reservation into a mark not dated before it keeps every window within the limit |
| SlidingWindow.ReleaseKeepsBounded | apps/web/lib/api-auth-guard.ts:118-121 | Releasing keeps every window within the limit, also a second time |
| SlidingWindow.StepKeepsBounded | apps/web/lib/ops-login-guard.ts:57-96 | Any single event keeps the invariant |
| SlidingWindow.EarlyMarkOverfills | apps/web/lib/api-auth-guard.ts:118-119 | A run of four events in which a mark dated before its reservation puts two marks into a window whose limit is one |
| SlidingWindow.ClockBackOverfills | apps/web/lib/api-auth-guard.ts:93-98 | When the clock goes back, a filtered list has room where the full history has none, and the window that ends there gets one mark too many |
| SlidingWindow.AgreesFilter | apps/web/lib/api-auth-guard.ts:93-95 | Filtering a list loses nothing a later window can ask for; at the current clock it leaves what filtering the full history would |
| SlidingWindow.AgreesSettled | apps/web/lib/api-auth-guard.ts:105-113 | Settling keeps list and count in agreement with the full history, and the count is at least one, so the clamp at zero never binds |
| SlidingWindow.RecentIsSumOverKeys | apps/web/lib/api-auth-guard.ts:110-113 | The marks of a window over all keys are the sum over the keys |
| SlidingWindow.InFlightIsSumOverKeys | apps/web/lib/api-auth-guard.ts:100-101 | The reservations in flight are the sum over the keys |
| Admission.AdmitsExactly | apps/web/lib/ops-login-guard.ts:18-20 | When nothing is dated in the future, a key is admitted if and only if the load of the window that ends now is below the limit of the key and below the limit in all |
| Admission.WindowFills | apps/web/lib/api-auth-guard.ts:82-113 | Whatever keys ask at one instant, within both limits, all are admitted, and marked they all stand in the window |
| Admission.LimitsAreReached | apps/web/lib/api-auth-guard.ts:82-113 | For all valid limits, a run of one key fills the window up to the limit per key and a run of many up to the limit in all |
| Buckets.BucketTable.Prune | apps/web/lib/api-auth-guard.ts:124-136 | Of the 32 oldest entries exactly the idle ones go, the rest keep their objects and order, and the map still decides as the full history |
| Buckets.BucketTable.PruningDrops | apps/web/lib/api-auth-guard.ts:124-136 | An entry goes if and only if it is among the 32 oldest, has nothing in flight and no attempt after the cutoff |
| Buckets.BucketTable.Select | apps/web/lib/api-auth-guard.ts:83-95 | The bucket of a key, filtered, holds at the current clock exactly the full history's recent marks and reservations of that key, also when it had been deleted |
| Buckets.BucketTable.Take | apps/web/lib/api-auth-guard.ts:100-103 | Storing the bucket at the young end and taking the reservation keeps the memory bound, one object per key, and every older reservation's object under its key |
| Buckets.BucketTable.Close | apps/web/lib/api-auth-guard.ts:105-117 | Settling touches only the reservation's own bucket, which is still the stored one, and deletes it only when nothing is lost |
| Buckets.BucketTable.TotalsAreComplete | apps/web/lib/api-auth-guard.ts:110-116 | The buckets together account for every recent mark and every unsettled reservation of the history |
| Buckets.BucketTable.Quiescent | apps/web/lib/api-auth-guard.ts:114-116 | With every reservation settled, no bucket has anything in flight |
| Limiters.Limiter.Settle | apps/web/lib/api-auth-guard.ts:104-117 | One step of the reference limiter the first time, nothing the second |
| Limiters.Limiter.WindowHolds | apps/web/lib/api-auth-guard.ts:36-42 | The window theorem in every state the two classes reach on a clock that never goes back |
| Limiters.Limiter.FingerprintBounded | apps/web/lib/api-auth-guard.ts:84-87 | Under its own key and the shared one together, no window has more marks of a fingerprint than twice the limit per key |
| Limiters.Limiter.CountersAgree | apps/web/lib/api-auth-guard.ts:83-103 | The global count and recent list are the totals over the buckets, and the map never holds more than `maxFingerprints` entries |
| Limiters.Limiter.NothingLeftInFlight | apps/web/lib/ops-login-guard.ts:171-205 | Once every reservation is settled, global and per-bucket counts are zero |
| ApiAuthGuard.Create | apps/web/lib/api-auth-guard.ts:48-73 | A limiter exists exactly for the accepted options, with the stated limits and no history |
| ApiAuthGuard.Reserve | apps/web/lib/api-auth-guard.ts:75-122 | The key is the fingerprint's own if and only if, after pruning, it has a bucket or two places are free, else the shared one; on a clock that does not go back it admits exactly when the reference limiter does for that key, whatever was filtered or pruned |
| OpsLoginGuard.Create | apps/web/lib/ops-login-guard.ts:30-55 | A limiter exists exactly for the accepted options |
| OpsLoginGuard.Reserve | apps/web/lib/ops-login-guard.ts:57-96 | The same choice of key and the same refinement for the order of checks of this class |
| OpsLoginGuard.Begin | apps/web/lib/ops-login-guard.ts:154-169 | A request that is not JSON is answered 415 without a trace; another is admitted exactly when the reference limiter admits its key, and then holds one fresh unsettled reservation dated `now` |
| OpsLoginGuard.Finish | apps/web/lib/ops-login-guard.ts:171-205 | Every outcome of the body, the secrets and the session has its answer; on every exit the reservation is settled once, recorded as invalid at its own time for 401 and 413, and released for all others |
| OpsLoginGuard.FailuresAreLimited | apps/web/lib/ops-login-guard.ts:143-206 | Over every run of requests that overlap and end in any order, those that came within one window and were answered 401 or 413 are at most the limit, per key and in all |
| Turnstile.AcceptedAgainOnlyAfterEviction | apps/web/lib/turnstile.ts:34-43 | Over every interleaving, between two acceptances of one token at least 4095 other tokens were accepted |
| Turnstile.ReplayAfterEviction | apps/web/lib/turnstile.ts:38-42 | The bound is exact: a run with 4095 others in between accepts the first token again |
| Turnstile.CacheStaysConsistent | apps/web/lib/turnstile.ts:55-58 | Accepted and pending are disjoint, at most one verification per token is past the guard, and both together hold at most 2 * 4096 - 1 |
| Turnstile.AcceptNeedsEviction | apps/web/lib/turnstile.ts:86-97 | A second acceptance means 4095 others were accepted since: while tracked the guard refuses it, and when its entry expires the age check does |
| Turnstile.AcceptsThePassed | apps/web/lib/turnstile.ts:73-97 | Over every run, the acceptances are exactly the verifications that ended with such a verdict, in order |
| Turnstile.AcceptedExactly | apps/web/lib/turnstile.ts:73-97 | A token is accepted in a run if and only if some verification of it ended with a challenge less than five minutes old, an allowed host and the right action |
| Turnstile.StepKeepsInv | apps/web/lib/turnstile.ts:51-103 | Every step of any verification keeps the invariant |
| Turnstile.VisitsFillCache | apps/web/lib/turnstile.ts:56-58 | Distinct fresh tokens are all accepted and tracked in order while they fit |
| Turnstile.CacheFillsUp | apps/web/lib/turnstile.ts:55-58 | The bound on both together is attained by a run, and when all that wait are accepted, the map alone holds 2 * 4096 - 1 |
| Turnstile.TokenCache.PruneAcceptedTokens | apps/web/lib/turnstile.ts:34-43 | Deleting while iterating leaves exactly the unexpired entries in order, then evicts the oldest until one fits |
| Turnstile.TokenCache.Start | apps/web/lib/turnstile.ts:52-58 | Goes on exactly when the pruned cache does not track the digest, it is not pending and fewer than 4096 are, and only then claims it |
| Turnstile.TokenCache.Finish | apps/web/lib/turnstile.ts:70-103 | Gives the claim up in every case, and accepts if and only if the verdict has a challenge less than five minutes old, an allowed host and the right action |
| RotationProtocol.PasswordsStayRecorded | scripts/db/rotate-runtime-role-passwords.ts:419-461 | In every reachable state the passwords the database accepts are on disk, in the secrets inventory or the pending record |
| RotationProtocol.PendingKeptUntilDone | scripts/db/rotate-runtime-role-passwords.ts:421-437 | A pending record never changes until it is unlinked, and then the database has its passwords and all files agree |
| RotationProtocol.UndisturbedRun | scripts/db/rotate-runtime-role-passwords.ts:419-461 | A run that is not killed begins exactly for a record with `--resume` or for none without it, and passwords that can be planned; it ends with database and all files agreeing on them and no pending record. One that is refused changes nothing |
| RotationProtocol.ResumeWorksExactlyBeforeSecrets | scripts/db/rotate-runtime-role-passwords.ts:359-367 | After any history that left a pending record, `--resume` converges to its passwords if and only if the secrets inventory does not hold them yet |
| RotationProtocol.StuckAfterSecrets | scripts/db/rotate-runtime-role-passwords.ts:360-367 | Once it does, no sequence of runs changes anything any more |
| RotationProtocol.KilledAfterSecretsIsNotRepaired | scripts/db/rotate-runtime-role-passwords.ts:457-458 | Killing a successful run after the first inventory write leaves role URLs that no later runs bring into agreement |
| RotationProtocol.QuietMeansAgreement | scripts/db/rotate-runtime-role-passwords.ts:461 | From an agreeing start, whenever there is no pending record, database and all files agree |
| RotationProtocol.StepKeepsInv | scripts/db/rotate-runtime-role-passwords.ts:419-461 | Every step, kill and SQL outcome keeps the invariant |
| RotationProtocol.PlanAgrees | scripts/db/rotate-runtime-role-passwords.ts:340-386 | The planned inventories all carry the new passwords |
| RotationProtocol.RotationsChangeOnlyPasswords | scripts/db/rotate-runtime-role-passwords.ts:370-384 | In every state any run reaches, whatever was killed or failed, the files have the names they had, the role URLs their endpoints, and production every other value |
| RotationOverlap.TakingTurnsIsSafe | scripts/db/rotate-runtime-role-passwords.ts:421-431 | With two processes, the live passwords stay on disk as long as neither begins while the other runs |
| RotationOverlap.LosesExactly | scripts/db/rotate-runtime-role-passwords.ts:435-461 | Of two interleaved runs, a step takes the live passwords off the disk exactly when it applies passwords that are neither recorded nor pending, replaces or removes the only record of the live ones, or writes an inventory without them |
| RotationOverlap.OverlapLoses | scripts/db/rotate-runtime-role-passwords.ts:421-461 | Two runs that begin before either has left a record can both have their transactions succeed, write all their files, and leave a database whose passwords no file holds |
| RotationOverlap.OverlapChangesOnlyPasswords | scripts/db/rotate-runtime-role-passwords.ts:370-460 | The same for every interleaving of two runs, also one that loses the live passwords |
| RotationProtocol.Workspace.Rotate | scripts/db/rotate-runtime-role-passwords.ts:396-462 | The program's effect is the run of the protocol it stands for, it ends normally exactly when it began and SQL reported success, and the files differ in passwords only |
| RotationProtocol.ParsePending | scripts/db/rotate-runtime-role-passwords.ts:172-205 | Accepts exactly a record of one password of 64 base64url characters per role, all different |
| RoleRotation.PlansExactly | scripts/db/rotate-runtime-role-passwords.ts:340-367 | A rotation is planned if and only if the three private files hold the variables of the roles and no other, no password is blank, every URL and its copy in production is the role's own, and the new passwords are unique and fresh |
| RoleRotation.PlanChangesPasswordsOnly | scripts/db/rotate-runtime-role-passwords.ts:368-386 | The plan has the new password in every variable of its role, keeps the names of all four files and the endpoint of every URL, and every other value of production |
| RoleRotation.MaterializePlannedInventories | scripts/db/rotate-runtime-role-passwords.ts:340-386 | The loops and refusals come to that plan, and production keeps its names and all values but the role URLs |
| RoleRotation.AreFreshAndUnique | scripts/db/rotate-runtime-role-passwords.ts:359-367 | Comparing the number of different values with the number of roles is uniqueness; freshness is exact |
| RoleRotation.ValuesCountKeys | scripts/db/rotate-runtime-role-passwords.ts:361 | As many values as keys if and only if no two keys share a value |
| RoleRotation.ReplaceUrls | scripts/db/rotate-runtime-role-passwords.ts:371-379 | Succeeds exactly when both copies of every URL are pinned; both then hold the same URL with the role's password and nothing else changes |
| RoleRotation.RequireCurrentRoleSecrets | scripts/db/rotate-runtime-role-passwords.ts:319-325 | Accepts exactly when every role has a password that is not blank |
| Printer.ReadsBackExactly | scripts/staged-production-env.ts:291-327 | Reading what either printer wrote gives the inventory back, names in order, if and only if the names are identifiers but `__proto__` and no value has a control character other than newline, carriage return and tab |
| Printer.PrintedSurvives | scripts/db/rotate-runtime-role-passwords.ts:150-155 | The same for any number of comments before the assignments |
| Printer.InventoryIsPrinted | scripts/prepare-hobby-inventory.ts:143-148 | The printed text is the heading, the assignments a line each and a final newline, also when there are none |
| Printer.DecodeEscape | scripts/staged-production-env.ts:238-258 | Decoding what was escaped gives the value back if and only if all its characters survive |
| Printer.EscapeIsJson | scripts/db/rotate-runtime-role-passwords.ts:150-155 | By the rules of section 7 of RFC 8259, every printed value reads as the value it was, also those the inventory reader does not give back |
| Printer.ReadsLines | scripts/staged-production-env.ts:271-283 | Printed assignments with anything after their closing quotes are read back if each of these tails is blank or a comment, and refused otherwise |
| Printer.ReadNames | scripts/staged-production-env.ts:303-309 | The reader never gives a name that is no identifier, is `__proto__`, or does not begin one of the lines |
| Dotenv.ClosingIsFirstUnescaped | scripts/staged-production-env.ts:224-236 | The quote found is the first one preceded by an even number of backslashes (any, for single quotes), and none is found only if there is none |
| Dotenv.ClosingStable | scripts/staged-production-env.ts:271-286 | Text that follows does not move a quote that was found |
| Dotenv.ScanIsScanOfWhole | scripts/staged-production-env.ts:260-288 | Scanning line by line finds the closing quote of the whole remaining text |
| Dotenv.FindClosingQuote | scripts/staged-production-env.ts:224-236 | The loop finds that quote |
| Dotenv.DecodeDoubleQuotedValue | scripts/staged-production-env.ts:238-258 | The loop decodes every escape pair once, left to right |
| Dotenv.ParseQuotedValue | scripts/staged-production-env.ts:260-288 | The loop ends, and gives the scanned value and its last line or refuses |
| Dotenv.ParseProductionInventory | scripts/staged-production-env.ts:291-327 | The nested loops end and read every line once, or refuse as specified |
| HandWritten.ReadsExactly | scripts/staged-production-env.ts:291-327 | For every file of blank lines, comments and assignments, bare, in single quotes over any number of lines, or in double quotes, with any space around the parts, comments behind them and any of three line ends: it is refused if and only if a name is assigned twice, and else reads as its names in order with the values that were written |
| HandWritten.MeantAsWritten | scripts/staged-production-env.ts:311-315 | A value in single quotes over several lines is read as written if and only if its first line ends in no space |
| HandWritten.NoAssignmentIsRefused | scripts/staged-production-env.ts:299-304 | After any readable lines, a line that is neither blank nor a comment and has no equals sign is refused |
| HandWritten.BadNameIsRefused | scripts/staged-production-env.ts:303-308 | So is a line whose text before the first equals sign, without surrounding space, is no identifier |
| HandWritten.TextAfterQuoteIsRefused | scripts/staged-production-env.ts:273-277 | So is anything but a comment behind the closing quote of either kind |
| HandWritten.UnclosedIsRefused | scripts/staged-production-env.ts:284-286 | So is a quote that nothing in the rest of the file closes |
| HobbyOpsProvenance.RenderSucceedsExactly | scripts/update-hobby-ops-provenance.ts:43-78 | For every printed inventory, the rewrite succeeds if and only if host and ID are well formed, both names are there, no piece of a value behind U+2028 or U+2029 assigns one of them, and what the old values leave behind such a separator is passed over; read back, the result is the map with those two values replaced |
| HobbyOpsProvenance.RenderIsMapUpdate | scripts/update-hobby-ops-provenance.ts:43-78 | For the text of either printer, the result is the print of the updated map if and only if, besides, neither old value has such a separator |
| HobbyOpsProvenance.RenderKeepsTheRest | scripts/update-hobby-ops-provenance.ts:65-77 | For the text of either printer of an inventory that survives reading, it succeeds under exactly that condition, and read back exactly those two values changed |
| HobbyOpsProvenance.ReplacesOne | scripts/update-hobby-ops-provenance.ts:34-41 | With the name there and no `$` in the new value, one replacement is refused exactly when a piece of a value matches too; else only the line of the name changes, and keeps what followed the first separator in it |
| HobbyOpsProvenance.MissingNameFails | scripts/update-hobby-ops-provenance.ts:65-76 | If one of the names is missing the rewrite fails, also when a piece of another value matches in its place |
| HobbyOpsProvenance.PlantedAssignmentIsRefused | scripts/update-hobby-ops-provenance.ts:35-39 | An input for which it is no update: a value that assigns the host behind U+2028 |
| HobbyOpsProvenance.TextIsLeft | scripts/update-hobby-ops-provenance.ts:40 | A separator in a replaced value with text behind it makes the result unreadable |
| HobbyOpsProvenance.CommentIsLeft | scripts/update-hobby-ops-provenance.ts:40 | With a comment behind it the result is read, though it is not the print of the updated map |
| HobbyOpsProvenance.MatchesExactly | scripts/update-hobby-ops-provenance.ts:35 | The scan matches exactly the lines of the expression: the name between tabs and spaces, then an equals sign |
| HobbyOpsProvenance.OneLineOfText | scripts/update-hobby-ops-provenance.ts:35 | Text without newline, carriage return, U+2028 and U+2029 is one line for the expression, replaced as a whole or not at all |
| HobbyOpsProvenance.HostsAre | scripts/update-hobby-ops-provenance.ts:48-50 | The accepted hosts are the domain behind any number of labels, each with a dot |
| HobbyOpsProvenance.IdsAre | scripts/update-hobby-ops-provenance.ts:51-53 | The accepted IDs are the prefix and at least one letter or digit |
| HobbyEnvironments.AttestationBinds | scripts/hobby-environments.ts:1086-1106 | An attestation is verified for exactly the plan and metadata it was made from, or for a valid plan of other variables whose proof material is another of the same digest |
| HobbyEnvironments.ParsedIsAttested | scripts/hobby-environments.ts:1070-1106 | From the listing on: for a valid plan that a parsed listing matches, an attestation is created, parsed and verified, and verified for nothing else but a collision of the digest |
| HobbyEnvironments.OnePhase | scripts/hobby-environments.ts:888-900 | Two valid plans of one surface with the same variables are the same plan: the values determine the phase, which is not in the digest |
| HobbyEnvironments.CreatedParses | scripts/hobby-environments.ts:1028-1084 | A created attestation can be parsed if and only if the metadata is complete, without repeated names and in strict order, and then gives back what it was made from |
| HobbyEnvironments.ParsedIsInOrder | scripts/hobby-environments.ts:830-834 | Parsed metadata that matches a plan is in strict order when the locale order tells the allowed names apart |
| HobbyEnvironments.ParseRemoteEnvironment | scripts/hobby-environments.ts:746-835 | Accepts exactly a complete single page of well-formed production entries with distinct names, and returns all of them and nothing else, sorted |
| HobbyEnvironments.CompleteExactly | scripts/hobby-environments.ts:757-787 | The complete listings are those of some entries with nothing hidden, and either no pagination or one that counts them all and has no next and no previous page |
| HobbyEnvironments.EntryExactly | scripts/hobby-environments.ts:789-829 | An entry is taken if and only if it has a name, an identifier and a revision, is encrypted or sensitive and not decrypted, and is for production and no branch, configuration or custom environment |
| HobbyEnvironments.CreatesExactly | scripts/hobby-environments.ts:853-900 | For a listing of distinct names, an attestation is created if and only if the plan's values are those of its phase and surface, and the listing is of its project, with exactly its names, all allowed and each of the kind its sensitivity asks for |
| HobbyEnvironments.ReadsOnlyWritten | scripts/hobby-environments.ts:981-1068 | Parsing accepts exactly the texts that are written for some surface, project, proof of 64 hexadecimal digits and complete variables in strict order, and gives back just those |
| HobbyEnvironments.VerifiesExactly | scripts/hobby-environments.ts:1086-1106 | For a plan and a listing of distinct names, verification accepts one attestation and no other: what would be created from them, when they match and it can be read |
| RoleGrants.Database.Provision | scripts/db/provision-runtime-roles.ts:271-371 | The statements, one by one, come to `Provisioned` |
| RoleGrants.ProvisionedIsExact | scripts/db/provision-runtime-roles.ts:271-371 | From any earlier grants, the runtime roles hold on application objects exactly the allowlist, PUBLIC and the Data API roles nothing, all other grants are as they were, and provisioning again changes nothing |
| RoleGrants.Database.ClearColumns | scripts/db/provision-runtime-roles.ts:233-256 | Over all tables and grantees, exactly the column privileges on existing columns go |
| RoleGrants.Database.RevokeBaseline | scripts/db/provision-runtime-roles.ts:271-301 | PUBLIC and exactly the existing Data API roles lose everything on application tables, columns and functions |
| RoleGrants.Database.ApplyRuntimeGrants | scripts/db/provision-runtime-roles.ts:320-371 | Clears every runtime role and then adds the allowlist of each |
| RoleGrants.ReviewedTables | scripts/db/provision-runtime-roles.ts:340-348 | What the table grant loops give is what some role's rules say |
| RoleGrants.ReviewedColumns | scripts/db/provision-runtime-roles.ts:349-353 | What the column grant loops give is what some role's rules say |
| RoleGrants.ReviewedExecutes | scripts/db/provision-runtime-roles.ts:364-369 | What the function grant loop gives is what the functions' execute roles say |
| RoleGrants.Database.VerifyTables | scripts/db/verify-runtime-roles.ts:637-649 | The loops that stop at the first mismatch accept exactly when all effective table privileges agree |
| RoleGrants.AcceptedIsExact | scripts/db/verify-runtime-roles.ts:637-770 | The verifier's table and column comparisons, on effective and explicit privileges, accept if and only if the grants are the allowlist, for the four table privileges it compares and all column privileges, and browser roles have none |
| RoleGrants.AcceptedExactlyWhenReviewed | scripts/db/verify-runtime-roles.ts:637-729 | After provisioning any state, those comparisons accept if and only if the column rules name application tables |
| StoredReview.OrderIndependentExactly | apps/web/lib/stored-review-recompute.ts:91-102 | The rejected signals are the same for every order of the evidence history if and only if receipts that tie for a signal's highest version agree on rejection |
| StoredReview.LatestEvidence | apps/web/lib/stored-review-recompute.ts:91-97 | The fold has an entry exactly for the signals with a receipt: the first one of the signal's highest version |
| StoredReview.DecidesFromExactly | apps/web/lib/stored-review-recompute.ts:103-111 | A stored row is decided from, as often and in the order it is stored, exactly when its run succeeded, also by the list of runs, and the first receipt of its signal's highest version, if there is one, is no rejection |
| StoredReview.SnapshotsOfEligible | apps/web/lib/stored-review-recompute.ts:112-121 | A metric snapshot is used, in order, exactly when some eligible row has its signal |
| StoredReview.BoundedValidity | apps/web/lib/stored-review-recompute.ts:145-151 | The resulting validity is the earlier of the draft's and the stored one |
| UtcDateTime.UtcDateTimeValueToIso | apps/web/lib/utc-datetime.ts:9-35 | Accepts exactly a matching string that names an existing date and time; the result is the string with omitted seconds and milliseconds and the `Z` added |
| UtcDateTime.AcceptsExactlyRealInstants | apps/web/lib/utc-datetime.ts:21-34 | For every string, setting, comparing and printing a Date answers as the calendar rules do |
| UtcDateTime.AcceptsAbbreviations | apps/web/lib/utc-datetime.ts:1-35 | The accepted strings are the existing dates and times of the years 0 to 9999, in full or without seconds, milliseconds or their last zeros, and the result is the same in full |
| UtcDateTime.SetThenCompare | apps/web/lib/utc-datetime.ts:20-31 | Fields set on a Date read back unchanged if and only if month lengths, leap years and ranges allow them |
| UtcDateTime.NeverClipped | apps/web/lib/utc-datetime.ts:20-22 | No matched fields, real or not, reach the limits of a time value |
| UtcDateTime.RoundTripsExactlyInFourDigitYears | apps/web/lib/utc-datetime.ts:3-7 | A time shown and accepted again is unchanged if and only if its year is 0 to 9999 |
| UtcDateTime.ShownExactly | apps/web/lib/utc-datetime.ts:3-7 | A time is shown in full for the years 0 to 9999, and else with a sign and six digits for its year, cut to 23 characters |
| UtcDateTime.AcceptedStringsRoundTrip | apps/web/lib/utc-datetime.ts:3-35 | An accepted string names one time; shown, that is the string completed, which is accepted with the same result, and is the string itself if it had all 23 characters |
| UtcDateTime.TimeReadsBack | apps/web/lib/utc-datetime.ts:20-22 | Setting what the getters read gives the same time |
| UtcDateTime.KnownTimes | apps/web/lib/utc-datetime.ts:20-22 | Time 0 is the beginning of 1970, and a leap day of 2000 is where it is |
| BoundedBody.ReadBoundedBodyBytes | apps/web/lib/bounded-json.ts:23-62 | For every limit, header and stream: the concatenation exactly when neither the header nor the bytes before a failure exceed the limit and nothing failed; too many bytes win over a later failure |
| BoundedBody.ReadStream | apps/web/lib/bounded-json.ts:39-60 | The reading loop decides by the bytes that arrived before any failure, stops at the first chunk that is too much, and never keeps more than the limit |
| BoundedBody.Assemble | apps/web/lib/bounded-json.ts:50-55 | Copying chunk after chunk into one buffer gives their concatenation |
| BoundedBody.ShortcutIsExact | apps/web/lib/bounded-json.ts:11-20 | The digit-count shortcut is the decimal comparison if and only if the declared number is not between 10^12 and the limit, so for every limit below 10^12 |
| BoundedBody.HeaderDecides | apps/web/lib/bounded-json.ts:11-20 | A header rejects if and only if, trimmed, it is a number in decimal digits that is at least 10^12 or exceeds the limit |

## Left out

- The rest of `apps/web`: pages, components, HTTP handling, `fetch`, request fingerprints, sessions. That every `/v1` path settles its reservation is not claimed.
- Hashing, HMAC and random bytes: digests are compared as what they are digests of, or are parameters.
- Scoring, orchestration, providers, schemas and the database repositories.
- File modes, git and link checks, temporary files, and a kill inside `writePrivateAtomic` before its `rename`.
- RotationProtocol.Workspace.Rotate: inventories are their parsed values; `Printer.ReadsBackExactly` is the step to text.
- RotationOverlap.OverlapLoses: more than two runs at once.
- RoleRotation.MaterializePlannedInventories: works on values instead of updating four records in place, because a refusal ends the program and its partial updates are never seen.
- Dotenv.ParseProductionInventory: the reasons for a refusal do not name the line or the variable.
- HandWritten.ReadsExactly: in double quotes, values are written with the escapes `JSON.stringify` uses and on one line; one line end is used throughout a file.
- HobbyEnvironments.OnePhase: of the checks of a plan, the ones that do not read its phase are one parameter.
- HobbyEnvironments.ParseRemoteEnvironment: all refusals give one reason.
- Building a plan from an inventory, importing it, `mergeNonempty` and `applyReviewedHobbyEnvironmentPhase`: field mapping.
- RoleGrants.Database.Provision: role attributes, ownership, schema, type and default privileges, and the failure and rollback of a statement that names a missing object.
- RoleGrants.AcceptedIsExact: the comparisons on tables and columns, not those on roles, functions and defaults.
- StoredReview.DecidesFromExactly: the decision itself.
- UtcDateTime.RoundTripsExactlyInFourDigitYears: parsing the text of an instant is the `Date` constructor's; the function is modelled from its time value on.
- Decoding a bounded body as JSON or a form.
- Summary counters, catalogue differences, retry-after parsing, origin checks and redaction expressions: easy members or expression detail.
