# Verification of ledger-grade parts of a procurement system

This project models, in Dafny, the parts of a procurement system whose results have to be exactly right,
and proves what they are for:

* **The tenant audit chain** (`Audit*.dfy`, `SeedAudit.dfy`). Every audit row carries the hash of its
  predecessor and of itself. The model has the UUID spellings and lock keys, the JSON payload under the hash,
  the verifier, the two appending operations on mutable tables, the same operations cut into single statements
  that concurrent transactions interleave under advisory locks, what a request achieves in such an interleaving,
  the batched backfill of legacy rows, the rollout in which batches, appends and an old release's rows follow one
  another, and the seeding writer. Time counts microseconds, while the code reads the previous row's time in
  milliseconds.
  The digest and the database's text of a timestamp are parameters (`Env`); where a result needs the digest
  not to collide, it says "or the rows at hand collide".
* **Exact decimal arithmetic** (`Decimals.dfy`, `DecimalText.dfy`, `WebMoney.dfy`, `CurrencySumLaws.dfy`,
  `CurrencyFormat.dfy`, `SharedMoney.dfy`, `MoneyLaws.dfy`, `RecurringPo.dfy`). Three implementations, one on
  digit strings and two on big integers, are each related to exact real arithmetic and to one another.
* **Resumable migrations** (`BetterAuthMigration.dfy`, `BetterAuthOutcome.dfy`, `BetterAuthLimits.dfy`,
  `BetterAuthDatabase.dfy`, `LegacyConnections.dfy`). The account migration is a machine with one step per
  statement, in which runs are cut off anywhere, other transactions write and hold locks; a class executes the
  same statements and records the machine's trace.
* **Recognisers and allocations** (`MigrationHistory.dfy`, `ReleaseVersion.dfy`, `SeedAllocation.dfy`,
  `Sorting.dfy`, `Trimming.dfy`).

Code that works step by step is modelled by methods with loops and by classes whose methods change fields,
each proved equal to a function of the old state or to a closed statement; the laws are lemmas about those
functions. Some laws turned out to hold only under a condition; the exact condition is then a lemma, with an
input that fails it beside it:

* `AuditBackfill.BackfillSucceedsExactlyWhenRecoverable` and `UnhashedRowIsAbsorbedExactlyWhen`, with
  `StrandedRowsStayBroken`;
* `AuditRollout.LateRowIsAbsorbedExactlyWhen`, with the same input;
* `AuditStore.SwallowedErrorPoisonsTheKey`, with `UnhashedRowPoisonsAKey`;
* `BetterAuthLimits.CheckIsDroppedExactlyWhen`, with `CrashLeavesTheCheck`;
* `BetterAuthMigration.OnlyLockedRowsAreLeft`, with `BetterAuthLimits.LockedExpiriesStayBehind`;
* `BetterAuthLimits.AccountIsMislabelledExactlyWhen`, with `AccountSlipsInBeforeTheFence`;
* `MoneyLaws.AmountsAreReadAlikeExactlyWhen`, with `SpacedOne`;
* `SeedAllocation.LastLineIsNonNegativeExactlyWhen`; the generator's documents always meet its condition
  (`GeneratedTaxesAreNonNegative`).

`dafny verify dfyconfig.toml` checks everything.

## Model

| member | source | states |
|---|---|---|
| AuditUuid.NormalFormIsFixed | packages/db/src/audit-integrity.ts:9-35 | the normal form of a UUID is a spelling of the same UUID and its own normal form |
| AuditUuid.NormalFormLayout | packages/db/src/audit-integrity.ts:9-35 | the normal form is the lower-case digits in groups of eight, four, four, four and twelve; what is no UUID is left as it is, or refused where one is required |
| AuditUuid.SpellingsAgree | packages/db/src/audit-integrity.ts:9-35 | 32 digits in either case, with a dash put in anywhere and wrapped in braces or not, name one tenant |
| AuditUuid.SpellingsAgreeExactlyWhen | packages/db/src/audit-integrity.ts:9-35 | a text is a spelling exactly when 32 hexadecimal digits are left without braces, dashes and letter case, and two spellings name the same tenant exactly when those digits agree |
| AuditUuid.LockKeysAreStable | packages/db/src/audit-integrity.ts:38-46 | lock keys depend on the UUID and not on its spelling, fit 32-bit signed arguments, are the numbers of the first and last eight digits modulo 2^32, and two tenants share them exactly when the first and last eight digits agree |
| AuditUuid.SampleHex | packages/db/src/audit-integrity.ts:44-46 | what some hexadecimal texts stand for, most significant digit first |
| AuditPayload.EscapeIsPrefixCode | packages/db/src/audit-integrity.ts:116-130 | JSON string escapes (section 7 of RFC 8259) form a prefix code in which nothing reads like a closing quote |
| AuditPayload.QuoteCancel | packages/db/src/audit-integrity.ts:116-130 | a quoted string followed by anything determines both the string and what follows |
| AuditPayload.MembersInjective | packages/db/src/audit-integrity.ts:116-130 | two member lists with the same text have the same names and values, null kept apart from text |
| AuditPayload.CanonicalPayloadInjective | packages/db/src/audit-integrity.ts:116-130 | no two different entries have the same payload, whatever text their fields hold |
| AuditReader.PayloadReads | packages/db/src/audit-integrity.ts:116-130 | a JSON reader (sections 4 and 7 of RFC 8259) gets each of the ten fields back from the payload under its own name |
| AuditReader.HashedTextReads | packages/db/src/audit-integrity.ts:116-137 | the text hashed for a row is an object holding each of the row's columns, except its own hash, under its name |
| AuditChain.VerifyAuditChain | packages/db/src/audit-integrity.ts:310-346 | valid exactly when every row in range links to its predecessor's stored hash and carries its own; otherwise the earliest unsound row in range is reported with the right reason and values, and exactly the rows in range up to it are counted |
| AuditChain.RangeTakesIn | packages/db/src/audit-integrity.ts:318-325 | a range of milliseconds takes in every microsecond of its first and its last one |
| AuditChain.FullRangeIsStrongest | packages/db/src/audit-integrity.ts:310-346 | validity over the full range is validity of all rows and implies validity of every sub-range |
| AuditChain.ChainIsDeterminedByItsTip | packages/db/src/audit-integrity.ts:132-137 | two verified chains ending in the same entry hash agree row by row, or two of their rows collide |
| AuditChain.TamperingIsNoticed | packages/db/src/audit-integrity.ts:310-346 | editing, dropping, adding or reordering rows before an untouched tip fails verification, or two rows collide |
| AuditChain.ChainIsUnforked | packages/db/src/audit-integrity.ts:310-346 | in a verified chain no two rows continue the same row |
| AuditAppend.NewRowContinues | packages/db/src/audit-integrity.ts:158-206 | an appended row links to the tip, is hashed, and is strictly later in microseconds although the tip is read in milliseconds |
| AuditAppend.ContinuedStaysSorted | packages/db/src/audit-integrity.ts:160-173 | the continued chain stays strictly ordered by (created_at, id), so the latest row is the appended one |
| AuditAppend.ContinuedStaysSound | packages/db/src/audit-integrity.ts:158-206 | the continued chain verifies if it did before |
| AuditAppend.LastIsGreatest | packages/db/src/audit-integrity.ts:158-164 | in an ordered chain the row selected as latest is the last one |
| AuditAppend.AppendSucceedsExactlyWhen | packages/db/src/audit-integrity.ts:146-208 | an append fails for the first of: a malformed tenant, an unhashed tip, an invalid time, a value without JSON text, a malformed UUID, an id in use; otherwise the row stores the entry's type, action, changes and metadata as given and its UUIDs in normal spelling, at the first millisecond that is neither before the requested time nor at or before the tip |
| AuditStore.Store.AppendAuditLog | packages/db/src/audit-integrity.ts:146-208 | the table grows by exactly the returned row, which stores the entry, or, on the first obstacle, not at all; the claims stay as they are |
| AuditStore.Store.AppendAuditLogIfAbsent | packages/db/src/audit-integrity.ts:211-276 | the whole new state and result in every branch: a fresh key or id leads to one row that stores the entry and to its settled claim, or to the first obstacle; for any other the tables stay and the row appended before is returned |
| AuditStore.FreshIsAppended | packages/db/src/audit-integrity.ts:211-276 | the same for every call, as a law of the specification the method is proved equal to |
| AuditStore.CallKeepsConsistent | packages/db/src/audit-integrity.ts:211-276 | a committed call keeps ids unique, every claim answered by a hashed row of its tenant and action, all earlier rows and claims |
| AuditStore.RunKeepsConsistent | packages/db/src/audit-integrity.ts:211-276 | the same between any two points of a whole run of calls |
| AuditStore.RetriesReturnTheSameRow | packages/db/src/audit-integrity.ts:219-254 | after a keyed call has succeeded, every later call with that tenant (in any spelling), action and key returns that row and changes nothing |
| AuditStore.RetriesByIdReturnTheSameRow | packages/db/src/audit-integrity.ts:257-275 | the same for calls that name the row's id, in any spelling |
| AuditStore.AppendThrowsExactlyWhen | packages/db/src/audit-integrity.ts:158-187 | an append throws before the database refuses anything exactly when the tenant's latest row is unhashed, the time is no date, or a value cannot be written as JSON |
| AuditStore.SwallowedErrorPoisonsTheKey | packages/db/src/audit-integrity.ts:233-252 | on a fresh key, a caller that swallows the error and commits leaves an incomplete claim, which every retry then trips over, exactly when the latest row is unhashed, the time is no date, or a value cannot be written as JSON; errors of the database roll the claim back |
| AuditStore.UnhashedRowPoisonsAKey | packages/db/src/audit-integrity.ts:163-166 | such an input: consistent tables whose only row was written without a hash |
| AuditConcurrency.StepKeepsInv | packages/db/src/audit-integrity.ts:146-281 | every single statement of every concurrent transaction, commit and abort included, keeps the invariant |
| AuditConcurrency.RunKeepsInv | packages/db/src/audit-integrity.ts:146-281 | the invariant holds at every point of every interleaving |
| AuditConcurrency.CommittedChainIsSound | packages/db/src/audit-integrity.ts:146-281 | in every interleaving, with aborts, several appends per transaction and tenants sharing a lock, each tenant's committed rows extend its starting rows, are strictly later one after the other, and verify if the start did |
| AuditConcurrency.CommittedChainIsUnforked | packages/db/src/audit-integrity.ts:146-281 | no two committed rows of a tenant share a previous hash, or rows of that tenant collide |
| AuditConcurrency.KeyedAtMostOnce | packages/db/src/audit-integrity.ts:211-281 | in every interleaving at most one row is ever committed per (tenant, action, key), and every committed claim points to a hashed row of its tenant and action; that one is appended at all is AuditProgress.RequestIsCarriedOut |
| AuditConcurrency.CommittedStaysCommitted | packages/db/src/audit-integrity.ts:146-281 | committed rows and claims stay as they are through the rest of any interleaving |
| AuditConcurrency.CommittedClaimAnswersAlike | packages/db/src/audit-integrity.ts:219-242 | once a claim is committed, every later lookup of it, on the committed tables or inside any transaction, answers with the same row |
| AuditProgress.InterleavedIsSequential | packages/db/src/audit-integrity.ts:146-281 | in every interleaving, a request that has come to its end succeeds alone on the tables its transaction saw when it took the lock, and the transaction's writes since then are exactly that call's |
| AuditProgress.RequestIsCarriedOut | packages/db/src/audit-integrity.ts:146-281 | in every interleaving, a request that has come to its end was carried out: a new entry as one row that stores it, with its claim settled, any other by finding the row appended before |
| AuditProgress.RequestCanFinish | packages/db/src/audit-integrity.ts:146-281 | a request whose call succeeds alone is never stuck: wherever its transaction stands, at most five statements of its own end it, unless another row took its id |
| AuditBackfill.BatchFillsHoles | packages/db/src/migrate.ts:178-258 | a batch hashes the first unhashed row and opens none, so the set of unhashed rows strictly shrinks |
| AuditBackfill.AuditTable.BackfillAuditOrganizationBatch | packages/db/src/migrate.ts:178-258 | chains exactly one window from the first hole on, touches no other tenant, reports whether there was one, and never raises the broken-prefix error |
| AuditBackfill.AuditTable.EnsureAuditHashChain | packages/db/src/migrate.ts:285-303 | terminates without error, leaving every tenant's rows as batches until exhaustion leave them |
| AuditBackfill.BackfillPatches | packages/db/src/migrate.ts:241-256 | in the end a row in some batch links to its final predecessor and carries its hash, every other row is untouched, and none is unhashed |
| AuditBackfill.BackfillSucceedsExactlyWhenRecoverable | packages/db/src/migrate.ts:178-303 | the result verifies if and only if the rows before the first hole are valid and each later row outside all batches already is what one pass would make it; then batches and one unbatched pass give the same chain |
| AuditBackfill.UnhashedSuffixIsChained | packages/db/src/migrate.ts:178-303 | a valid hashed prefix followed by unhashed rows of any number ends as one unbatched pass and verifies |
| AuditBackfill.OneBatchIsEnough | packages/db/src/migrate.ts:178-303 | so do rows with holes anywhere, if everything from the first hole on fits into one batch |
| AuditBackfill.BackfillTouchesHashesOnly | packages/db/src/migrate.ts:241-256 | rows before the first hole stay as they are, elsewhere only the two hashes change, and no hash is missing |
| AuditBackfill.UnhashedRowIsAbsorbedExactlyWhen | packages/db/src/migrate.ts:192-236 | one unhashed row slipped into a valid chain at any place: the backfill restores a valid chain if and only if fewer than a batch of rows come after it, unless hashes collide |
| AuditBackfill.StrandedRowsStayBroken | packages/db/src/migrate.ts:192-236 | such rows, a chain of 500 to 998 behind an unhashed row: one tenant, distinct UUIDs, increasing times, all but the first a chain that verifies |
| AuditBackfill.UnlinkedRowsStayBroken | packages/db/src/migrate.ts:192-236 | behind one unhashed row, 500 rows hashed but never linked stay broken whatever the digest |
| AuditRollout.EveryRowHasItsPlace | packages/db/src/schema/audit.ts:6-17 | every row whose time and id differ from the others' has a place in the order, so an old release's row may land anywhere |
| AuditRollout.BatchRestores | packages/db/src/migrate.ts:178-258 | one batch turns a table with no hashed row a batch or more behind the first unhashed one into a valid chain followed by unhashed rows, leaving the rows before the first hole alone |
| AuditRollout.WriteStaysReady | packages/db/src/migrate.ts:178-258 | wherever an old release's row lands, everything before it and before the first hole stays valid and unchanged; a valid chain followed by unhashed rows remains one if and only if the row lands behind the chain |
| AuditRollout.LateRowIsAbsorbedExactlyWhen | packages/db/src/migrate.ts:178-303 | at any moment of a rollout and for any place of one more such row, the remaining batches still end in a valid chain if and only if it lands behind the chain or less than a batch before its end, unless hashes collide |
| AuditRollout.EventStaysInRollout | packages/db/src/migrate.ts:178-258 | a batch, an append and a row of an old release keep a valid chain followed by unhashed rows exactly when the row does not land among chained rows, and then no chained row changes |
| AuditRollout.RolloutKeepsChains | packages/db/src/migrate.ts:178-303 | over any succession of the three in which no row lands among chained ones, chained rows never change again, the shape stays, and the rollout can be finished at every moment |
| AuditRollout.RolloutCanAlwaysFinish | packages/db/src/migrate.ts:285-303 | over any succession of the three, wherever rows land: if no batch met a hashed row a batch or more behind the first unhashed one, and there is none now, the remaining batches end in a chain that verifies, the one a single pass would give |
| Sorting.SortIsStable | packages/db/src/random-seed-persist.ts:122-125 | sorting keeps exactly the given elements, orders them, and keeps elements that compare equal in their order |
| SeedAudit.ComparatorIsOrder | packages/db/src/random-seed-persist.ts:122-125 | comparing by time, then by id in the locale's order, is a total preorder |
| SeedAudit.InsertAuditRows | packages/db/src/random-seed-persist.ts:114-135 | the table changes exactly by appending the sorted entries in turn, each by id or plainly; the first error is the result |
| SeedAudit.SeedingExtendsEveryChain | packages/db/src/random-seed-persist.ts:127-134 | for every tenant among the entries, its chain grows by one row per added entry, at the times of the least schedule, stays ordered, and stays valid |
| SeedAudit.LeastTimesAreASchedule | packages/db/src/audit-integrity.ts:171-173 | the times are strictly increasing, later than the head, and never earlier than requested |
| SeedAudit.NoScheduleIsEarlier | packages/db/src/audit-integrity.ts:171-173 | no other such sequence is earlier at any place |
| SeedAudit.RequestedInOrder | packages/db/src/random-seed-persist.ts:122-134 | each tenant's entries are added in the order of their requested times |
| SeedAudit.SeedingIsLeastInOrder | packages/db/src/random-seed-persist.ts:114-135 | from the caller's values to the tables: entries are stably sorted by time and id, each tenant's chain grows in that order, stays valid, and no schedule respecting requests and head is earlier anywhere |
| SeedAudit.EveryValueIsCarriedOut | packages/db/src/random-seed-persist.ts:114-135 | when seeding succeeds, each of the caller's values has led, at its place in the order, to a new row that stores it at the caller's time, or now where it names none, or to the row with its id that was there before; the row is there in the end |
| SeedAudit.SeedingAgainChangesNothing | packages/db/src/random-seed-persist.ts:127-134 | seeding again entries that were all named and seeded before, in any order and after other appends, succeeds and changes nothing |
| DecimalText.MatchIsInverseOfText | apps/web/src/lib/money.ts:1 | the decimal pattern matches exactly the texts of digit pairs, and yields that pair |
| WebMoney.NormalizedInteger | apps/web/src/lib/money.ts:16-23 | canonical digits of the same number, zero never negative |
| WebMoney.Increment | apps/web/src/lib/money.ts:25-38 | the digits of the number plus one, with carries through nines |
| WebMoney.CompareIsOrder | apps/web/src/lib/money.ts:40-43 | on canonical digits the comparison is the order of the numbers |
| WebMoney.AddIntegerStrings | apps/web/src/lib/money.ts:45-62 | the digits of the sum |
| WebMoney.SubtractIntegerStrings | apps/web/src/lib/money.ts:64-84 | the canonical digits of the difference when it is not negative |
| WebMoney.AddSignedIntegers | apps/web/src/lib/money.ts:86-97 | the normalised signed sum |
| WebMoney.ParsedAmountIsExact | apps/web/src/lib/money.ts:99-106 | the parsed digits and scale stand for exactly the number written, and for zero when the text is no decimal |
| WebMoney.RoundToMinorUnits | apps/web/src/lib/money.ts:109-120 | the nearest minor unit of the exact number, halves away from zero, for every source scale and currency |
| WebMoney.AmountsRead | apps/web/src/lib/money.ts:1 | what "-12.34", "12.34", "7" and " 7" stand for: the last is no decimal and counts as zero |
| WebMoney.SumCurrencyAmounts | apps/web/src/lib/money.ts:123-134 | the text, read as an amount, is the exact signed sum in minor units, rounded once; it has no leading zeros and zero has no sign |
| WebMoney.SumReadsBack | apps/web/src/lib/money.ts:123-134 | the same as a law of the specified text, so the printed sign and digits are those of the exact sum |
| CurrencySumLaws.OrderIndependent | apps/web/src/lib/money.ts:123-134 | permuting the amounts does not change the sum |
| CurrencySumLaws.TrailingZerosIgnored | apps/web/src/lib/money.ts:123-134 | appending zeros to an amount's fraction does not change the sum |
| CurrencySumLaws.NegationNegatesSum | apps/web/src/lib/money.ts:123-134 | negating every amount negates the sum |
| CurrencySumLaws.NeverNegativeZero | apps/web/src/lib/money.ts:123-134 | the sum is never "-0" |
| CurrencyFormat.GroupIsGrouped | apps/web/src/lib/money.ts:149 | the grouping expression puts separators exactly where counting three digits from the right does, for every digit count |
| CurrencyFormat.FormattingLosesNothing | apps/web/src/lib/money.ts:137-159 | the text is the padded amount cut so that exactly the currency's fraction digits come last, grouped in threes and decorated, and its digits are those of the padded amount |
| CurrencyFormat.MinusIsShownExactlyWhenNegative | apps/web/src/lib/money.ts:139-158 | where only the template for negative amounts shows a minus sign, the text has one exactly for negative amounts |
| CurrencyFormat.FormattingIsInjective | apps/web/src/lib/money.ts:137-159 | equal texts come from the same canonical amount, sign included |
| CurrencySumLaws.SumsShownAlikeAreEqual | apps/web/src/lib/money.ts:122-159 | two sums that are displayed alike are the same number of minor units |
| SharedMoney.UnitsAreRounded | packages/shared/src/money.ts:30-41 | reading at a scale is one rounding, half up, of the exact number, at any fraction length |
| SharedMoney.ReadsWhatItPrints | packages/shared/src/money.ts:43-46 | reading a printed amount gives its units back |
| MoneyLaws.NormalizeRounds | packages/shared/src/money.ts:8-10 | accepts exactly trimmed unsigned decimals and is within half a cent of them |
| MoneyLaws.NormalizeIsIdempotent | packages/shared/src/money.ts:8-10 | normalising twice is normalising once |
| MoneyLaws.NormalizeIsMonotone | packages/shared/src/money.ts:8-10 | a larger decimal never normalises to a smaller amount |
| MoneyLaws.LineIsRoundedProduct | packages/shared/src/money.ts:13-18 | a product of two texts is refused exactly when one is no trimmed decimal; otherwise it is the product of the two amounts, each rounded to hundredths, rounded half up and within half a cent |
| MoneyLaws.SumOfPartialSums | packages/shared/src/money.ts:21-24 | the sum of a concatenation is the sum of the two partial sums |
| MoneyLaws.SumsAgree | packages/shared/src/money.ts:21-41 | on n plain decimals the numbers of cents printed by the digit-string sum and by the big-integer sum, both read back from the text, differ by at most (n+1)/2, and not at all when no amount has more than two fraction digits |
| MoneyLaws.AmountsAreReadAlikeExactlyWhen | packages/shared/src/money.ts:30-33 | every text the shared code accepts is read alike by both implementations if and only if trimming leaves it alone or it stands for zero |
| MoneyLaws.SpacedAmountsDisagree | packages/shared/src/money.ts:30-33 | with a leading space the digit-string code reads zero, so they agree on zero only |
| MoneyLaws.SpacedOne | packages/shared/src/money.ts:30-33 | " 1" is a hundred cents to one and nothing to the other |
| RecurringPo.ExactDecimal | packages/shared/src/schemas/recurring-po.ts:13-20 | accepted decimals are read exactly, and alike by both big-integer codecs |
| RecurringPo.FieldAccepts | packages/shared/src/schemas/recurring-po.ts:27-49 | a field is accepted exactly for decimals in range with at most two fraction digits, positive where required |
| RecurringPo.FieldIsNormalizing | packages/shared/src/schemas/recurring-po.ts:27-49 | the stored text is accepted again and unchanged |
| RecurringPo.SchemaLineIsValid | packages/shared/src/schemas/recurring-po.ts:51-58 | a line from the schema has a positive quantity and a price in range, and can be calculated unless it is too large |
| RecurringPo.CalculateRecurringPoAmounts | packages/shared/src/schemas/recurring-po.ts:160-184 | succeeds exactly when all lines are valid and the exact sum of rounded lines is in range; then prints that sum and every line; otherwise names the fault of some line |
| RecurringPo.OrderIndependent | packages/shared/src/schemas/recurring-po.ts:160-184 | neither the total nor validity depends on the order of the lines |
| RecurringPo.LineIsMultiplyMoney | packages/shared/src/schemas/recurring-po.ts:169-177 | each line total is what multiplyMoney gives |
| RecurringPo.SubtotalIsSumMoney | packages/shared/src/schemas/recurring-po.ts:180-183 | the subtotal is what sumMoney gives for the printed line totals |
| RecurringPo.TotalMatchesLines | packages/shared/src/schemas/recurring-po.ts:96-122 | no issue exactly when the lines are in range and the stated total, if any, is their subtotal |
| RecurringPo.MatchingTextIsMatchingAmount | packages/shared/src/schemas/recurring-po.ts:115-117 | on normalised totals comparing texts compares amounts |
| BetterAuthMigration.EveryExecutionIsSafe | packages/db/src/better-auth-migration.ts:171-249 | with other writers, locked rows and runs cut off after any statement or inside an index build, a null issuer never exists under NOT NULL or a validated check, SET NOT NULL never fails, and a finished run leaves both indexes valid and identities unique |
| BetterAuthMigration.PreflightSurvives | packages/db/src/better-auth-migration.ts:201-240 | after any partial backfill identities collide exactly if they did before, and accounts that pass preflight still do |
| BetterAuthMigration.BatchesComeToAnEnd | packages/db/src/better-auth-migration.ts:143-168 | a batch removes exactly its rows from those to do, so full batches run out |
| BetterAuthMigration.OnlyLockedRowsAreLeft | packages/db/src/better-auth-migration.ts:145-166 | when the loop ends, the rows left to do are exactly those others held locked |
| BetterAuthMigration.QuietExecutionsMigrate | packages/db/src/better-auth-migration.ts:171-249 | without other writers and locks, once preflight passes no run fails, however often runs are cut off, and whenever one ends every account is migrated and the schema complete |
| BetterAuthMigration.FirstRunIsOnCourse | packages/db/src/better-auth-migration.ts:171-200 | the previous result covers every start with a nullable column, distinct emails and no foreign index |
| BetterAuthMigration.MigratedAccount | packages/db/src/better-auth-migration.ts:155-161 | a migrated account has the local issuer only if it had none and is a credential account, carries its legacy expiry over unless it had one, and keeps all other fields |
| BetterAuthMigration.RowsAreMigratedWhole | packages/db/src/better-auth-migration.ts:143-168 | with rows locked by others, at every point each row is as at first or fully migrated |
| BetterAuthOutcome.RunEndsAsFound | packages/db/src/better-auth-migration.ts:171-249 | every run without other writers ends as the database it finds says: with the first fault of emails, accounts or indexes in the program's order, an account fault leaving all accounts alone; otherwise only a locked row without issuer or a foreign index keeps it from completing, and without locks all accounts are migrated |
| BetterAuthOutcome.FailedPreflightStopsRun | packages/db/src/better-auth-migration.ts:201-240 | on a nullable column no run completes unless preflight holds, one that finds it violated changes no account, and each of the three preflight errors is raised exactly for its kind of account, when no earlier fault is found |
| BetterAuthLimits.LockedExpiriesStayBehind | packages/db/src/better-auth-migration.ts:153-166 | from every start that passes preflight with no foreign index and distinct emails, for every account with an issuer and an expiry to carry over: if it is held locked, a whole run completes, migrates the other accounts and leaves this one as it was |
| BetterAuthLimits.LaterRunsTouchNoAccount | packages/db/src/better-auth-migration.ts:195-199 | once the column is NOT NULL no later run touches an account, whatever is locked and wherever runs are cut off, so the expiry is lost for good unless somebody else moves it |
| BetterAuthLimits.MislabelledWasThereAtTheFence | packages/db/src/better-auth-migration.ts:126-168 | whatever others write or lock, an account given the local issuer without being a credential account stood there, without issuer and with an expiry to move, when the fence was applied |
| BetterAuthLimits.AccountIsMislabelledExactlyWhen | packages/db/src/better-auth-migration.ts:126-168 | without locks, the backfill mislabels an account if and only if it was at risk at the fence and nobody changed it first |
| BetterAuthLimits.OnlyCredentialsAreLabelled | packages/db/src/better-auth-migration.ts:126-168 | with no writers after the fence, some account is mislabelled if and only if one was at risk at the fence; none is if preflight holds there |
| BetterAuthLimits.AccountSlipsInBeforeTheFence | packages/db/src/better-auth-migration.ts:201-242 | an execution that starts with preflight passing and completes with a mislabelled account, added by another writer just before the fence |
| BetterAuthLimits.CheckIsDroppedExactlyWhen | packages/db/src/better-auth-migration.ts:195-199 | a completed run leaves no check constraint if and only if it found the column nullable or found no check, so a crash between SET NOT NULL and the drop leaves it behind |
| BetterAuthLimits.CrashLeavesTheCheck | packages/db/src/better-auth-migration.ts:195-199 | an execution in which the first run dies before the drop and the second completes with the check still there |
| BetterAuthDatabase.AuthDatabase.BackfillAccounts | packages/db/src/better-auth-migration.ts:143-168 | terminates for any pattern of locked rows, and every batch is a step of the machine |
| BetterAuthDatabase.AuthDatabase.AddIssuerWriteFence | packages/db/src/better-auth-migration.ts:126-141 | the fence is a step of the machine and changes nothing but the check |
| BetterAuthDatabase.AuthDatabase.EnsureAccountIdentityIndex | packages/db/src/better-auth-migration.ts:60-84 | keeps, rejects, or drops and rebuilds the index in steps of the machine, changing no other part of the database |
| BetterAuthDatabase.AuthDatabase.MigrateBetterAuthAccounts | packages/db/src/better-auth-migration.ts:171-249 | every run is one uninterrupted execution of the machine from the present state and ends as the faults of the database it finds say: it succeeds on a nullable column only after preflight, changes no account if preflight fails, is safe, and without locks and with nothing in the way migrates every account |
| LegacyConnections.IntegrationTables.MigrateLegacyConnections | packages/db/src/migrate.ts:996-1087 | the loops over rows, organizations and providers leave settings, connections and sync records exactly as specified, and every tenant's credentials in the columns they belong to |
| LegacyConnections.LegacyRowsAreRemoved | packages/db/src/migrate.ts:1056-1064 | exactly the ten legacy keys are gone, every other setting is as it was |
| LegacyConnections.LegacyKeysByName | packages/db/src/migrate.ts:1056-1064 | the settings that are removed are the ten named ones |
| LegacyConnections.ConnectionsAreComplete | packages/db/src/migrate.ts:1037-1052 | there is a connection exactly where there was one or a legacy row, one per tenant and provider, and existing ones are untouched |
| LegacyConnections.CredentialsAreMoved | packages/db/src/migrate.ts:1010-1052 | a connection is created exactly where one of a provider's five named settings is found and none existed; its tokens are the encrypted values of that provider's token settings, present only when it is active, its realm, expiry and status come from that provider's own settings, and its scopes are that provider's |
| LegacyConnections.ActiveNeedsRealmAndToken | packages/db/src/migrate.ts:1022-1034 | a connection is created active exactly for a connected tenant with a realm and a token, and tokens are kept only then |
| LegacyConnections.RecordsAreLinked | packages/db/src/migrate.ts:1066-1085 | unlinked sync records get the connection of their own tenant and provider if legacy rows were found, and nothing else changes |
| LegacyConnections.SecondRunIsNoOp | packages/db/src/migrate.ts:996-1087 | running the migration again changes nothing |
| LegacyConnections.PrefixTellsProvider | packages/db/src/migrate.ts:1017-1020 | among the legacy keys, having a provider's prefix is belonging to that provider |
| MigrationHistory.CheckJournal | packages/db/src/validate-migration-history.ts:36-44 | accepts exactly journals numbered from zero with strictly later times, and otherwise names what is wrong with the first entry out of sequence |
| MigrationHistory.WalkFromRoot | packages/db/src/validate-migration-history.ts:72-90 | terminates, and succeeds exactly when the snapshots are one chain from the root; a cycle is reported only if some id is the root's |
| MigrationHistory.ValidateSnapshots | packages/db/src/validate-migration-history.ts:55-90 | the id, parent, child and reachability checks together accept exactly the linear chains, and each error says what it means |
| MigrationHistory.Validate | packages/db/src/validate-migration-history.ts:30-97 | the history is accepted exactly when files match the journal, the journal is in sequence and not empty, the snapshots are a chain and the latest one has its file |
| MigrationHistory.TagsOfListing | packages/db/src/validate-migration-history.ts:30-35 | the tags compared with the journal are the names of the listed .sql files, each as often as it is listed |
| MigrationHistory.LastTagDecides | packages/db/src/validate-migration-history.ts:91-97 | the last journal entry's tag, up to its first underscore, names the snapshot that must exist |
| MigrationHistory.CycleGoesThroughRoot | packages/db/src/validate-migration-history.ts:79-81 | meeting a snapshot again means that the last one met has the root's id |
| MigrationHistory.ChainIsUnique | packages/db/src/validate-migration-history.ts:72-90 | snapshots can be read as a chain in at most one order |
| ReleaseVersion.IsValidPrereleaseIdentifier | packages/shared/src/release-version.ts:12-24 | accepts exactly non-empty identifiers of letters, digits and hyphens that are not numbers with leading zeros |
| ReleaseVersion.LettersByName | packages/shared/src/release-version.ts:17-18 | the letters of an identifier are the fifty-two of the alphabet in both cases |
| ReleaseVersion.RecogniserIsExact | packages/shared/src/release-version.ts:26-36 | accepts exactly the renderings, of at most 127 characters, of versions in the sense of clauses 2 and 9 of Semantic Versioning 2.0.0 |
| ReleaseVersion.RenderIsInjective | packages/shared/src/release-version.ts:26-36 | an accepted text is the rendering of one version only |
| ReleaseVersion.ShaTagShape | packages/shared/src/release-version.ts:1 | a commit tag is "sha-", in any case, followed by 7 to 64 hexadecimal digits |
| ReleaseVersion.NormalizeIsIdempotent | packages/shared/src/release-version.ts:39-47 | a normalised value normalises to itself |
| ReleaseVersion.NormalizeAccepts | packages/shared/src/release-version.ts:39-47 | the result is the text after one leading "v" where that makes a version, the trimmed text itself where it is a version or a commit tag, and otherwise there is none |
| Trimming.MiddleIsTrim | packages/shared/src/release-version.ts:39-41 | trimming leaves the one part of a text that neither starts nor ends with white space and has only white space around it |
| Trimming.SpacesByCode | packages/shared/src/release-version.ts:40 | the white space that is trimmed is that of ECMAScript, listed by code point |
| SeedAllocation.AllocateTax | packages/db/src/random-seed.ts:1187-1198 | the line taxes add up to the document's tax, and every line but the last gets its rounded share |
| SeedAllocation.AllocationIsFair | packages/db/src/random-seed.ts:1897-1905 | every line but the last is within half a cent of its exact share, the last within half a cent for each other line |
| SeedAllocation.LastLineIsNonNegativeExactlyWhen | packages/db/src/random-seed.ts:1194-1197 | the last line's tax is not negative if and only if the rounded shares of the other lines do not exceed the tax |
| SeedAllocation.LargeLastShareIsEnough | packages/db/src/random-seed.ts:1194-1197 | no line's tax is negative when the last share is at least half a cent for each other line |
| SeedAllocation.GeneratedTaxesAreNonNegative | packages/db/src/random-seed.ts:1045-1051 | on the generator's documents, up to three lines of at least 12.50 at its three tax rates, no line's tax is negative |
| SeedAllocation.CreatePaymentRuns | packages/db/src/random-seed.ts:2190-2229 | the runs hold the payable invoices in order, each exactly once, twenty to a run but for the last, each with its total and its paid mark |
| SeedAllocation.RunTotalsAddUp | packages/db/src/random-seed.ts:2201-2204 | the totals of the runs add up to the total of their invoices |
| SeedAllocation.PayableIsSorted | packages/db/src/random-seed.ts:2190-2196 | the payable invoices are exactly the approved and paid ones, each as often as it occurs, the paid ones first and either kind by index |
| SeedAllocation.AtMostOneMixedRun | packages/db/src/random-seed.ts:2190-2213 | at most one run has both paid and unpaid invoices |

## Left out

- Text: strings are sequences of characters; lone UTF-16 surrogates, which `JSON.stringify` escapes, and the difference between code units and characters are not modelled.
- AuditPayload.CanonicalPayloadInjective: `changes` and `metadata` are the database's canonical JSON text; the projection of a JavaScript value to `jsonb` text is taken as given.
- AuditChain.TamperingIsNoticed: the digest is an arbitrary function and the conclusion is "or the rows collide", since SHA-256 itself is not modelled; the database's text of a timestamp is assumed to tell timestamps apart.
- AuditConcurrency: statements are atomic under READ COMMITTED, which is what the database gives by default; lock timeouts, deadlocks and waiting are a step not being enabled, and an insert whose id another open transaction holds is not enabled either.
- AuditProgress.RequestCanFinish: that a request can end, not that a scheduler lets it; how long a transaction waits for the lock is the database's.
- AuditBackfill.AuditTable.EnsureAuditHashChain: the loop itself runs without other writers; what they do between batches is in AuditRollout, for one tenant, whose lock makes batches and appends atomic. A stored hash is never the empty string, since the columns only ever hold digests.
- AuditRollout.RolloutCanAlwaysFinish: an old release's row that is committed between the statements of an append, which does not see it, is the event of that row after the append's.
- SeedAudit.InsertAuditRows: the rollback of a failed insertion is the caller's transaction; entry times are valid dates.
- CurrencyFormat.FormattingLosesNothing: templates and fraction digits are parameters in place of `Intl` data.
- AuditStore.SwallowedErrorPoisonsTheKey: database errors are an id in use and a malformed UUID; savepoints around a call, other constraints of the table, values PostgreSQL refuses as `jsonb`, and times beyond the range of a JavaScript date are not modelled.
- WebMoney.SumCurrencyAmounts: `localeCompare` on digit strings of equal length is digit order.
- SharedMoney: JavaScript numbers as input, which are first turned into text; printing is modelled at the scale of two digits that all callers use.
- RecurringPo.DecimalField: the message texts of the schema, and the other fields of a recurring order (dates, enumerations, limits on the number of lines).
- RecurringPo.CalculateRecurringPoAmounts: quantities and prices are fields of two digits each; both scales are the source's constants.
- BetterAuthMigration: an index build is one step, or leaves an invalid index when interrupted, and an index is absent, invalid, valid or valid with another definition; catalogue queries, other `CREATE INDEX CONCURRENTLY` internals and a second concurrent runner are not modelled, and `lower(email)` is part of the stored value.
- BetterAuthDatabase.AuthDatabase.MigrateBetterAuthAccounts: the class has no other writers; executions with other writers are in the machine.
- BetterAuthDatabase.AuthDatabase.BackfillAccounts: a batch is any selection of the right size; `ORDER BY id` only decides which rows come first.
- LegacyConnections.IntegrationTables.MigrateLegacyConnections: encryption, the reading of an expiry and new ids are parameters; the encryption's random nonce is not modelled.
- MigrationHistory.Validate: reading and parsing the files; two files of a directory have different names, and the text of an error beyond its kind is dropped.
- ReleaseVersion: `resolveReleaseVersion`, a fallback between two values.
- SeedAllocation: `Math.round` on exact rationals in place of floating point; conversion to base currency happened before, and the generator's other rows are data.
- The rest of the repository: user interface, API services, route and permission tables, other migrations' one-branch checks, and the workflow and budget services, which are not part of this model.
