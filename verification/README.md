# Verified models of the identity, telemetry, filtering and blob code

A Dafny 4.11 project beside a Python service. It models the parts of the service whose correctness rests on
state, interleaving or parsing, and proves what they promise. Verify everything with

    dafny verify dfyconfig.toml

Nothing here executes the Python code; hashing, code generation, HTTP, Pillow and the wire are parameters.

## How it is organised

| Files | What they model |
|---|---|
| `OtpTable`, `Accounts`, `OtpSession` | one-time-code rows, account columns, and the repository, unit of work, service and handlers as one request runs them |
| `OtpProtocol`, `OtpSafety` | the same code as interleaved READ COMMITTED transactions, and what every interleaving keeps |
| `OtpAccounts`, `OtpLifetimes` | every account column along any run, whose hash a password is, and how long a code lives on the clock |
| `OtpSerial` | what holds when issues of one key do not overlap, and what breaks when they do |
| `OtpRefinement`, `OtpAlone` | a transaction's own steps reach the handler's result; every way it can run alone ends in a result the handler allows |
| `Lines`, `TailReader`, `TailGenerations`, `TailFiles` | newline splitting, the tail reader's cursors, rotation and truncation of a file, and one file among many |
| `TelemetryWriter`, `WriterRuns` | the bounded queue and batching consumer, and their interleavings |
| `RateLimit`, `TelegramSender` | the token bucket in real arithmetic, and the two buckets of the Telegram writer |
| `Text`, `Filters`, `FilterSql` | from a raw query value to a where-expression under SQL's three-valued logic |
| `FilterAccepts`, `FilterHandlers` | what each kind of filter accepts, read off the request; which handler or column every filter compiles to |
| `ScopeDispatch`, `Ordering` | handler dispatch by method name; the ordering parameter |
| `BlobStorage`, `BlobHandlers`, `BlobRuns` | files on disk against rows in a table, one request at a time and interleaved |
| `BlobRefinement`, `BlobAlone` | a request's own steps reach the handler's result; every way it can run alone, failures included, ends in a result the handler allows |
| `Masking`, `Uuid7`, `ReturnTypes` | secret masking, the UUIDv7 layout, return-type compatibility |

Each state machine is a `State`, a `Step`, `Enabled` and `Apply`; its claims are about every valid run.
Where the source mutates objects, a class with the same fields and loops is proved against the functions
the machine uses. Two kinds of lemmas connect a machine to its handlers: some run of a request's own steps
reaches the handler's result (`OtpRefinement`, `BlobRefinement`), and every such run ends in a result the
handler allows (`OtpAlone`, `BlobAlone`).

## Assumptions

- PostgreSQL READ COMMITTED with autoflush off: a statement reads the committed rows; an UPDATE takes the row
  lock and re-evaluates its guard. One clock, in microseconds, never runs backwards; an epoch is that clock in
  whole seconds, truncated.
- The cooldown is checked against the transaction's start, which is what `func.now()` is in PostgreSQL. A new row's
  `created_at` is the clock at the flush that inserts it: a mapper listener sets it
  (`src/app/data_access/orm/event_listeners.py:53-54`).
- Rows and file stems get fresh ids. Codes are arbitrary strings and may repeat.
- `issue` looks for a recent code and then acts without a lock
  (`src/app/application/identity/services/user_confirmation_service.py:110`; the `_for_update` repository
  methods the handlers call do not lock). Everything in `OtpSerial` therefore assumes that issues of one key
  do not overlap; `OtpSerial.OverlapIsReachable` shows the assumption is needed. `OtpSafety` has no such
  assumption.
- Users in a run sign up themselves. An account's write takes effect with its commit.
- The tail reader sees no I/O error inside a scan and inodes are not reused; a scan's `stat` and `open` see the
  same file. `TailGenerations.RotationBeforeOpen` says exactly what happens otherwise.
- Token buckets use reals, not floats, the loop's clock never runs backwards, and a sleep never ends early.
- Rates of the Telegram writer are at least one: its buckets hold `rate` tokens, and `RateLimit.ReturnsExactlyWhen`
  shows that asking a smaller bucket for one token never returns.
- Filter values come with one order shared by Python and the database, and coercion of text to a base type is
  an arbitrary partial function.
- Masking's two regular expressions are arbitrary predicates, except that a data URI starts with a `d` or `D`.
- Class, field and lookup names used in dispatch have no double and no edge underscore.
- A file name's extension is put in lower case for its ASCII letters; other characters stay as they are.

## Where code and documentation disagree

- `register` says that `is_active` and `status` never disagree
  (`src/app/domain/identity/aggregates/user_aggregate.py:46`); `confirm_email` writes only the first
  (`Accounts.StatusAgreesAfterConfirmIff`).
- The tail reader says that rotation and truncation are detected structurally. They are, exactly under the
  condition of `TailGenerations.RestartsExactlyWhen`; a file refilled to the cursor between two scans is not
  noticed.
- The validator treats a list of nulls as an absent value, the compiler turns it into `IN (NULL)`, which
  selects nothing (`FilterSql.NullListSelectsNothing`).
- The `Awaitable` branch of the return-type relation is dead: a subscripted alias has the runtime class as its
  origin.
- Boolean filters declare the texts `true` and `false` as choices while the coerced value is a boolean, so they
  refuse every supplied text (`Filters.BooleanFiltersRefuseAll`); when a scalar filter does so in general is
  `Filters.RefusesAllExactlyWhen`.

## Model

| member | source | states |
|---|---|---|
| `OtpTable.NewestMatchExists` | src/app/data_access/orm/identity/repositories/otp_orm_repository.py:78-99 | the lookup by owner, kind and code finds a newest matching row exactly when one matches |
| `OtpSession.OrmUnitOfWork.Exit` | src/app/data_access/orm/unit_of_work.py:31-38 | leaving the block commits exactly when no exception passes and the commit succeeds; otherwise the committed state is untouched |
| `OtpSession.OtpRepository.Create` | src/app/data_access/orm/identity/repositories/otp_orm_repository.py:45-56 | adds one row and changes no other row and no account |
| `OtpSession.OtpRepository.FindActiveForContent` | src/app/data_access/orm/identity/repositories/otp_orm_repository.py:78-99 | returns a row of that owner, kind and code with none stamped later, or nothing when there is none |
| `OtpSession.OtpRepository.ConsumeById` | src/app/data_access/orm/identity/repositories/otp_orm_repository.py:101-116 | true exactly when the row was unused and not past its expiry; then it alone changes, to used at that epoch and verified |
| `OtpSession.OtpRepository.HasRecentIssue` | src/app/data_access/orm/identity/repositories/otp_orm_repository.py:118-137 | no exactly when every row of the key, used or not, is more than 60 seconds older than the transaction |
| `OtpSession.OtpRepository.InvalidatePending` | src/app/data_access/orm/identity/repositories/otp_orm_repository.py:139-164 | row by row: an unused row of the key becomes used at the epoch and nothing else of it changes, every other row and account stays, and none of the key's codes can be spent afterwards |
| `OtpSession.UserConfirmationService.Issue` | src/app/application/identity/services/user_confirmation_service.py:99-141 | refused exactly within a minute of another code, then changing nothing; otherwise burns the key's unused codes and adds the new one, written out field by field: expiring 900 seconds after the reading, spendable for 900 seconds of clock and not after 901 |
| `OtpSession.UserConfirmationService.Confirm` | src/app/application/identity/services/user_confirmation_service.py:143-188 | succeeds only by consuming the newest matching row; each refusal names the guard that failed and changes nothing |
| `OtpSession.UserAggregate.ConfirmEmail` | src/app/domain/identity/aggregates/user_aggregate.py:126-130 | sets the confirmed and active flags of this account and nothing else of it, and no other account |
| `OtpSession.UserAggregate.SetPassword` | src/app/domain/identity/aggregates/user_aggregate.py:121-124 | this account's password is the hash afterwards; its other columns and every other account stay |
| `OtpSession.ConfirmEmailCommandHandler.Call` | src/app/application/identity/handlers/auth_handlers.py:86-117 | success commits together a row that was unused, unexpired and carried the code, now used and verified, and the account with its two flags set; every other outcome commits nothing |
| `OtpSession.ForgotPasswordStep2CommandHandler.Call` | src/app/application/identity/handlers/forgot_password_handlers.py:105-137 | accepts a code exactly when step 3 could spend it at that reading, and spends nothing |
| `OtpSession.ForgotPasswordStep3CommandHandler.Call` | src/app/application/identity/handlers/forgot_password_handlers.py:161-208 | success commits together a row that was unused, unexpired and carried the code, now used and verified, and the account with the new hash, its other columns kept; every other outcome commits nothing |
| `Accounts.StatusAgreesAfterConfirmIff` | src/app/domain/identity/aggregates/user_aggregate.py:37-71 | after confirmation the active flag and the status agree exactly when the status was active before, so never for a self-registered account |
| `OtpSafety.RunKeepsInv` | src/app/data_access/orm/identity/repositories/otp_orm_repository.py:101-164 | over any interleaving of any transactions: committed rows are only added or used once, and ledger, locks and accounts stay consistent |
| `OtpSafety.OneWinPerCode` | src/app/data_access/orm/identity/repositories/otp_orm_repository.py:101-116 | in every reachable state a row was won at most once; the won rows are exactly the verified ones, each used by its expiry |
| `OtpSafety.UsedRowsAreFrozen` | src/app/data_access/orm/identity/repositories/otp_orm_repository.py:101-164 | once a committed row carries a use, no later step of any run changes it |
| `OtpSafety.RivalsSettle` | src/app/application/identity/services/user_confirmation_service.py:173-178 | a second attempt on a row held by a winner waits; it wins if the winner aborts and the row is unexpired, and is refused if the winner commits |
| `OtpSafety.RefusalChangesNothing` | src/app/application/identity/handlers/auth_handlers.py:111-113 | a refused or aborted request leaves every row, account and win as they were |
| `OtpSafety.AdvisoryChecksAreSound` | src/app/application/identity/services/user_confirmation_service.py:164-171 | a code that the checks before the update turn away can never be spent later in any run |
| `OtpSafety.AdvisoryChecksMean` | src/app/application/identity/services/user_confirmation_service.py:164-171 | in every reachable state they turn a request away exactly when its copy of the row is past its expiry or, when confirming an address, used |
| `OtpSafety.AccountsFollowTheLedger` | src/app/application/identity/services/auth_service.py:44-65 | an account is confirmed exactly when it owns a verified confirmation row, its resets equal its verified reset rows, and a login is let in exactly with a verified password, an active account and a won confirmation code |
| `OtpSafety.AttemptFollowsTheRow` | src/app/application/identity/services/user_confirmation_service.py:157-188 | from the lookup on, against anything that interleaves: won only if the row was usable at the update's reading, refused only once it no longer is |
| `OtpAccounts.StepOnAccount` | src/app/domain/identity/aggregates/user_aggregate.py:121-130 | whatever interleaves, a step leaves an account as it was except: the toggle flips the two activity columns, a spent confirmation code sets the two flags, a spent reset code stores its hash |
| `OtpAccounts.StepOnNewcomer` | src/app/domain/identity/aggregates/user_aggregate.py:37-71 | an account appears exactly by a committed registration, with the address and hash given, unconfirmed, inactive, status 0 |
| `OtpAccounts.SpendingStampsItsRow` | src/app/data_access/orm/identity/repositories/otp_orm_repository.py:101-116 | a committed spending won a row of its key that carried the presented code, unused and unexpired at its reading, and changes that row alone |
| `OtpAccounts.PasswordIsTheLastSet` | src/app/application/identity/handlers/forgot_password_handlers.py:161-208 | in every reachable state a password is the hash of the account's last committed reset, or its signup hash if there was none |
| `OtpAccounts.PasswordChangeSpendsACode` | src/app/application/identity/handlers/forgot_password_handlers.py:161-208 | over any stretch of any run a password changes only if a reset code of its owner became verified in it |
| `OtpLifetimes.UnusedCodesLive` | src/app/application/identity/services/user_confirmation_service.py:118-139 | every unused code of every reachable state can be spent for 900 seconds from a reading no later than its flush, and at no time from 901 seconds on |
| `OtpLifetimes.FiledCodeLives` | src/app/application/identity/services/user_confirmation_service.py:118-139 | what a request is about to commit: an unused code of the key and target it asked for, dated since the request began and good for as long |
| `OtpLifetimes.ReadingsAreLater` | src/app/application/identity/services/user_confirmation_service.py:157-178 | a request that has yet to read the clock, through every continuation: what it wins expires no earlier than now, what it files lives at least fifteen minutes from now |
| `OtpSerial.OneLiveCode` | src/app/application/identity/services/user_confirmation_service.py:99-141 | with issues of a key serialised, at most one unused code per key, and it is the key's newest row |
| `OtpSerial.LastIssuedCodeResolves` | src/app/data_access/orm/identity/repositories/otp_orm_repository.py:93-97 | the code issued last resolves to its own row even when older rows share its digits |
| `OtpSerial.LastIssuedCodeOutcome` | src/app/application/identity/services/user_confirmation_service.py:143-188 | presenting the code issued last: through every continuation it wins only while its row is usable and is refused only once it is not |
| `OtpSerial.SpendDecides` | src/app/application/identity/services/user_confirmation_service.py:157-178 | for the code issued last, after any continuation: the update aims at its own row, never waits for a row it cannot take, and wins exactly when that committed row is then unused and unexpired |
| `OtpSerial.IssuesAreSpaced` | src/app/data_access/orm/identity/repositories/otp_orm_repository.py:118-137 | with issues serialised, the stamps of any two codes of one key are more than 60 seconds apart |
| `OtpSerial.CooldownBoundsIssues` | src/app/data_access/orm/identity/repositories/otp_orm_repository.py:118-137 | with issues serialised, at most w / 60 s + 1 codes of one key were stamped in a window of length w |
| `OtpSerial.RequestsInTurnAreSerial` | src/app/application/identity/services/user_confirmation_service.py:99-141 | requests made one after another, by whatever steps, meet the hypothesis of the serial claims |
| `OtpSerial.OverlapBreaksOneLiveCode` | src/app/application/identity/services/user_confirmation_service.py:106-139 | from any state where two issues of a key have finished sweeping, both can commit and leave two unused codes, stamped at their flushes any time apart, so the one flushed last is the newer |
| `OtpSerial.OverlapIsReachable` | src/app/application/identity/services/user_confirmation_service.py:106-139 | such an overlap is reachable for every user and kind, with any time between the two codes, so serialisation is needed |
| `OtpRefinement.SpendingAloneIsTheHandler` | src/app/application/identity/handlers/forgot_password_handlers.py:161-208 | an accepted code: the request's own steps, and no others, reach the handler's committed state |
| `OtpRefinement.RefusingAloneIsTheHandler` | src/app/application/identity/handlers/forgot_password_handlers.py:179-199 | an unusable code: the request's own steps, and no others, end with nothing changed |
| `OtpRefinement.IssuingAloneIsTheService` | src/app/application/identity/services/user_confirmation_service.py:99-141 | no cooldown running: the request's own steps, and no others, reach the service's table |
| `OtpRefinement.CoolingDownAloneIsTheService` | src/app/application/identity/services/user_confirmation_service.py:106-116 | a request while cooling down: its own steps, and no others, end with nothing changed |
| `OtpRefinement.RegisteringAloneIsTheHandler` | src/app/application/identity/handlers/auth_handlers.py:50-70 | a registration's own steps, and no others, reach the table with one new confirmation code and the new account, both written out |
| `OtpAlone.SpendingAlone` | src/app/application/identity/handlers/auth_handlers.py:86-117 | from any reachable state, whatever the request's steps and the clock do until it commits: the handler's database for some accepted row and reading in between, or an unchanged one because the code was unusable |
| `OtpAlone.IssuingAlone` | src/app/application/identity/services/user_confirmation_service.py:99-141 | likewise for a resend, a reset's first step and a registration: unchanged when cooling down, otherwise the service's table with one new code, its expiry dated and then its row stamped between start and end, and the new account of a registration |
| `Lines.SplitSpells` | src/app/modules/telemetry/reader/filesystem.py:75 | lines with their newlines and the remainder spell the data, and none contains a newline |
| `Lines.SplitCarries` | src/app/modules/telemetry/reader/filesystem.py:74-75 | splitting in two goes equals splitting at once when the remainder is carried over |
| `TailReader.Poller.Place` | src/app/modules/telemetry/reader/filesystem.py:52-63 | a new, rotated or truncated file restarts, skipping history only on first sight from the end; other cursors stay |
| `TailReader.Poller.Visit` | src/app/modules/telemetry/reader/filesystem.py:46-75 | one file's visit advances only its own cursor, as the specification on values says |
| `TailReader.Poller.Collect` | src/app/modules/telemetry/reader/filesystem.py:41-80 | cursors and events of a scan are those of the file-by-file specification; of the lines read at each path, each read alone, every one that parses is delivered exactly once, in listing and line order |
| `TailReader.ParseLines` | src/app/modules/telemetry/reader/filesystem.py:75-97 | every line that parses gives its event exactly once, in line order, and no other line gives one |
| `TailReader.ScanDelivers` | src/app/modules/telemetry/reader/filesystem.py:75-79 | the events of a scan sit at strictly increasing places, file by file and line by line, and no line that parses is missed |
| `TailReader.FilesAreIndependent` | src/app/modules/telemetry/reader/filesystem.py:46-75 | a scan's events are, in listing order, those of every file read alone from the cursor it had before the scan, and so are the cursors left |
| `TailReader.FileSystemLogReader.Next` | src/app/modules/telemetry/reader/filesystem.py:118-132 | what is handed out and what stays queued are the old queue followed by everything the scans made produced |
| `TailReader.FileSystemLogReader.Fill` | src/app/modules/telemetry/reader/filesystem.py:118-130 | scans until one produces something, losing nothing |
| `TailGenerations.ReaderRefinesSplitting` | src/app/modules/telemetry/reader/filesystem.py:52-79 | under any schedule of appends, scans, rotations and detectable truncations the output is the one-shot split of disjoint byte ranges, generation by generation |
| `TailGenerations.EachGenerationIsAPrefix` | src/app/modules/telemetry/reader/filesystem.py:52-75 | what one generation contributed is a prefix of its complete lines from its start offset |
| `TailGenerations.AppendOnlyIsOneSplit` | src/app/modules/telemetry/reader/filesystem.py:52-79 | for an append-only file every schedule of appends and scans can run, and all lines plus the kept partial line are the split of the bytes from start offset to cursor |
| `TailGenerations.RestartsExactlyWhen` | src/app/modules/telemetry/reader/filesystem.py:54-63 | a scan reads a file as new whatever it holds exactly when the inode differs, the size is below the offset or the offset is zero |
| `TailGenerations.ReplacementsAreReadInFull` | src/app/modules/telemetry/reader/filesystem.py:54-63 | after a rotation, or a truncation below the cursor, the next scan reads the whole new content from its first byte |
| `TailGenerations.RefilledTruncationJoins` | src/app/modules/telemetry/reader/filesystem.py:60-66 | a truncation refilled between scans yields a line no generation contains |
| `TailGenerations.RotationBeforeOpen` | src/app/modules/telemetry/reader/filesystem.py:48-72 | a rotation between stat and open, for any cursor and contents: the old partial line is joined to the new file, which the next scan reads again in full; the two scans give exactly the new file's lines if and only if the first read no newline |
| `TailFiles.EventsOfOneFile` | src/app/modules/telemetry/reader/filesystem.py:41-80 | over any number of scans of any files, one file's events are those of the lines of its own run, each line that parses once and in order, to which the claims about generations apply |
| `TelemetryWriter.AbstractWriter.Submit` | src/app/modules/telemetry/writers/base.py:44-49 | with no bound or fewer than `maxsize` queued the event goes to the end; with `maxsize` queued it is dropped and counted; the bound is kept |
| `TelemetryWriter.AbstractWriter.FillBatch` | src/app/modules/telemetry/writers/base.py:76-85 | takes events off the head up to the batch size, the queue's end or a sentinel, in order, and leaves the rest |
| `WriterRuns.ConservationAndOrder` | src/app/modules/telemetry/writers/base.py:44-90 | over any interleaving the accepted events are, in order, batches, batch in hand and queue; submitted = handled + failed + dropped + in hand + queued; every batch has 1 to batch_size events |
| `WriterRuns.DropsAreOverflows` | src/app/modules/telemetry/writers/base.py:44-49 | in every reachable state a bounded queue holds at most `maxsize`, and exactly the submissions that met a full queue were dropped; an unbounded one drops nothing |
| `WriterRuns.SubmissionOutcome` | src/app/modules/telemetry/writers/base.py:44-49 | one submission at any point of any run: with room it is queued last and accepted, at `maxsize` queued it is dropped and the queue stays |
| `WriterRuns.FillsUp` | src/app/modules/telemetry/writers/base.py:76-85 | a batch is closed only when it is full, when nothing is queued, or at a sentinel |
| `WriterRuns.StopsAfterTheDueEvents` | src/app/modules/telemetry/writers/base.py:57-90 | a stopped consumer handled exactly the events accepted before the sentinel |
| `WriterRuns.ShutdownProgress` | src/app/modules/telemetry/writers/base.py:57-90 | after the sentinel a consumer step is always possible, each brings the stop closer and no producer delays it |
| `WriterRuns.ClosingHandlesEverything` | src/app/modules/telemetry/writers/base.py:57-90 | at any point of any run with room for the sentinel: putting it and letting the consumer step leads to its stop, with everything accepted handled in order |
| `RateLimit.TokenBucket.TryTake` | src/app/modules/telemetry/writers/rate_limit.py:20-27 | one pass of the loop: refill from the clock, grant exactly when enough is there, keep every bound |
| `RateLimit.TokenBucket.Acquire` | src/app/modules/telemetry/writers/rate_limit.py:16-29 | a request within capacity returns after at most one sleep, none exactly when the tokens are there, with exactly one grant |
| `RateLimit.GrantKeeps` | src/app/modules/telemetry/writers/rate_limit.py:25-27 | taking tokens that are there keeps every stretch of grants within burst plus rate |
| `RateLimit.WindowBound` | src/app/modules/telemetry/writers/rate_limit.py:16-29 | in any window of length w at most the capacity and what accrues over w, capacity + rate * w, tokens are granted |
| `RateLimit.SleepSuffices` | src/app/modules/telemetry/writers/rate_limit.py:28-29 | sleeping off the deficit is enough |
| `RateLimit.ReturnsExactlyWhen` | src/app/modules/telemetry/writers/rate_limit.py:16-29 | some readings of a forward clock let the request return exactly when it fits the capacity |
| `TelegramSender.Sender.BucketFor` | src/app/modules/telemetry/writers/telegram.py:151-157 | the destination's own bucket, made once; all other buckets and their histories stay |
| `TelegramSender.Sender.Attempt` | src/app/modules/telemetry/writers/telegram.py:164-177 | one attempt takes one global and one destination token and makes one post |
| `TelegramSender.Sender.Send` | src/app/modules/telemetry/writers/telegram.py:159-191 | one message makes at most three posts, all to its destination, a retry only after a throttled reply and the delay that reply asked for; none while not connected |
| `TelegramSender.KeysAreDistinct` | src/app/modules/telemetry/writers/telegram.py:50-56 | chats whose ids hold no `#`, and their topics, have buckets of their own |
| `TelegramSender.PostsAreLimited` | src/app/modules/telemetry/writers/telegram.py:151-165 | any window holds at most rate + rate * w posts to a destination and at most one more than that bound in all |
| `TelegramSender.ExtraPostIsMade` | src/app/modules/telemetry/writers/telegram.py:159-165 | the one extra post is made: a history both kinds of buckets grant, with three posts at one moment under a global rate of two |
| `Text.SplitJoin` | src/app/modules/filtering/meta.py:50-69 | splitting the join of separator-free parts gives the parts back, so a split is unique |
| `Text.JoinSplit` | src/app/modules/filtering/meta.py:50-69 | joining a split gives the text back |
| `Text.PartsArePieces` | src/app/modules/filtering/meta.py:63-69 | the parts of a split are exactly the maximal separator-free pieces |
| `Filters.ValidateBounds` | src/app/modules/filtering/validator.py:151-163 | one detail per broken bound, in order; none exactly when the value is in bounds |
| `Filters.ValidateScalar` | src/app/modules/filtering/validator.py:46-57 | passes exactly the acceptable scalars; otherwise all bound, length and choice details |
| `Filters.ValidateRange` | src/app/modules/filtering/validator.py:60-91 | passes exactly the acceptable pairs; an empty range raises; otherwise order and end details |
| `Filters.ValidateCollection` | src/app/modules/filtering/validator.py:94-129 | passes exactly the acceptable tuples; otherwise required, invalid, or all value details with the set of repeated values |
| `Filters.ScanCollection` | src/app/modules/filtering/validator.py:112-124 | the loop collects all details and exactly the values that occur twice |
| `Filters.Validate` | src/app/modules/filtering/validator.py:26-43 | passes exactly the acceptable values; undefined exactly for the comparison and search lookups |
| `Filters.Bind` | src/app/modules/filtering/meta.py:105-137 | a request field binds exactly when it is absent and optional, or coerced and acceptable |
| `Filters.RefusesAllExactlyWhen` | src/app/modules/filtering/validator.py:46-57 | a scalar filter refuses every text exactly when no text that is otherwise fine coerces to one of its choices |
| `Filters.BooleanFiltersRefuseAll` | src/app/modules/filtering/types.py:302-314 | a filter of the boolean shape, texts as choices and booleans as values, refuses every text |
| `Filters.Parse` | src/app/modules/filtering/parser.py:34-59 | one container for each filter field that carries a value, in declaration order and each once, with its lookup and its declared column or the name up to the first double underscore |
| `FilterAccepts.ScalarAccepted` | src/app/modules/filtering/validator.py:46-57 | an equality filter accepts exactly the texts that coerce to a value within bounds, choices and length, and binds that value |
| `FilterAccepts.RangeAccepted` | src/app/modules/filtering/meta.py:50-60 | a range filter accepts exactly two ends around one comma, blank ends open, at least one given, in order, each allowed |
| `FilterAccepts.CollectionAccepted` | src/app/modules/filtering/validator.py:94-129 | a collection filter accepts exactly lists whose pieces all coerce, are allowed and differ; nothing but nulls counts as absent |
| `FilterAccepts.JsonAccepted` | src/app/modules/filtering/validator.py:132-149 | a JSON filter accepts exactly decodable lists without nulls of a legal length, and binds their objects |
| `FilterAccepts.OthersRefused` | src/app/modules/filtering/validator.py:26-43 | the comparison and search lookups accept no supplied value |
| `FilterSql.FilterMeans` | src/app/data_access/orm/adapters/filter_compilers.py:236-288 | an accepted filter compiles, and its predicate is true of a cell exactly when the raw text or list asks for it; NULL never matches a constraint |
| `FilterSql.NullListSelectsNothing` | src/app/modules/filtering/validator.py:100-103 | predicate and meaning agree on every cell exactly when the value is not a non-empty list of nulls; that list selects no row |
| `FilterSql.CompileFailsExactly` | src/app/data_access/orm/adapters/filter_compilers.py:206-288 | for accepted filters compilation fails exactly on dispatch errors, an unhandled JSON filter or a missing column, never on a boundless range or an unknown lookup |
| `FilterSql.QueryMeans` | src/app/data_access/orm/adapters/filter_compilers.py:163-183 | for every accepted set of filters on the generic path, compilation succeeds and a row is selected exactly when every supplied constraint holds |
| `FilterHandlers.HandlerIsCalled` | src/app/data_access/orm/adapters/filter_compilers.py:206-266 | a container compiles to the active scope's declared method for its field and lookup, else, unless its field depends on the scope, to the shared one, each named letter by letter, else to its column |
| `FilterHandlers.QueryCompiles` | src/app/data_access/orm/adapters/filter_compilers.py:163-183 | a query compiles to one predicate for each container that constrains something, in order, or fails with the first failing container's error or for an undeclared scope |
| `FilterHandlers.HandlersAreUsed` | src/app/data_access/orm/adapters/filter_compilers.py:206-266 | in every query that compiles, a scope-dependent field goes to the active scope's own method and every other container with a method to that method |
| `FilterHandlers.UndeclaredGoesToItsColumn` | src/app/data_access/orm/adapters/filter_compilers.py:259-288 | an accepted filter with a column and no method is one that the query theorem covers |
| `FilterHandlers.ComparisonsMean` | src/app/data_access/orm/adapters/filter_compilers.py:276-286 | the four comparison lookups compare in the right direction, strictly or not, and are never true of NULL |
| `ScopeDispatch.NamesAreDistinct` | src/app/data_access/orm/adapters/filter_compilers.py:211-234 | distinct (scope, field, lookup) triples of clean names have distinct method names |
| `ScopeDispatch.EdgeUnderscoreIsAmbiguous` | src/app/data_access/orm/adapters/filter_compilers.py:211-214 | with an edge underscore two different handlers share a name |
| `ScopeDispatch.ResolveIsDispatch` | src/app/data_access/orm/adapters/filter_compilers.py:206-234 | looking a method up by name is dispatch on the declared triples |
| `ScopeDispatch.ScopedFieldsStayScoped` | src/app/data_access/orm/adapters/filter_compilers.py:219-232 | a scope-dependent field resolves to the active scope's own handler or raises, never to anything else |
| `ScopeDispatch.ClassCheckMeans` | src/app/data_access/orm/adapters/filter_compilers.py:122-158 | the class check passes exactly when every scope has a handler of its own for every scope-dependent field |
| `Ordering.ScanParts` | src/app/shared_kernel/params/ordering.py:11 | the pattern's automaton reads a text part by part |
| `Ordering.ParsePrint` | src/app/shared_kernel/params/ordering.py:31-48 | printing what was parsed gives the text back exactly when no part starts with two dashes |
| `Ordering.AcceptedRoundTrip` | src/app/shared_kernel/params/ordering.py:10-48 | parsing then printing is the identity on every text the pattern accepts |
| `Ordering.PrintParse` | src/app/shared_kernel/params/ordering.py:21-48 | printing then parsing is the identity on every non-empty list of valid items, and the print is accepted |
| `Ordering.AcceptedItemsAreValid` | src/app/shared_kernel/params/ordering.py:10-48 | every accepted text parses to items with valid field names |
| `Ordering.DashMeansDescending` | src/app/shared_kernel/params/ordering.py:31-48 | each part of an accepted text is one item in order, descending behind a dash and ascending without one |
| `Ordering.AcceptMeans` | src/app/shared_kernel/params/ordering.py:10-66 | a raw parameter is accepted exactly when, stripped, it is a comma separated list of letters and underscores with optional dashes, at most 100 characters |
| `Ordering.Accept` | src/app/shared_kernel/params/ordering.py:56-66 | what reaches the parser is stripped, at most 100 characters and matched up to its very end |
| `BlobStorage.StripRootKeeps` | src/app/infra/adapters/local_blob_storage.py:132-139 | stripping the root leaves a path alone exactly when it starts with neither a slash nor the media directory |
| `BlobStorage.StripRootDrops` | src/app/infra/adapters/local_blob_storage.py:132-139 | a path with the media root in front, leading slash or not, becomes the rest of it |
| `BlobStorage.ExtensionMeans` | src/app/infra/adapters/local_blob_storage.py:56 | the extension is what follows the last dot, in lower case, and `bin` without a dot |
| `BlobStorage.PathsNameTheirStem` | src/app/infra/adapters/local_blob_storage.py:56-66 | uploads with different stems never write the same file, nor an original over a variant |
| `BlobStorage.LocalBlobStorage.Write` | src/app/infra/adapters/local_blob_storage.py:113-123 | adds the one named file and returns its relative path, or raises |
| `BlobStorage.LocalBlobStorage.MakeImageVariants` | src/app/infra/adapters/local_blob_storage.py:77-111 | records a path for exactly the variants fully built and written; a failing variant is recorded as missing |
| `BlobStorage.LocalBlobStorage.StoreSync` | src/app/infra/adapters/local_blob_storage.py:53-75 | returns exactly the paths on disk, or raises when the original cannot be written |
| `BlobStorage.LocalBlobStorage.DeleteSync` | src/app/infra/adapters/local_blob_storage.py:125-130 | removes exactly the files of the non-empty paths unless an unlink fails |
| `BlobHandlers.BlobUploadCommandHandler.Call` | src/app/application/blob/handlers/blob_handlers.py:42-81 | success commits a row whose files are all on disk; a failing insertion leaves disk and table as they were; no other file is lost |
| `BlobHandlers.BlobDeleteCommandHandler.Call` | src/app/application/blob/handlers/blob_handlers.py:97-111 | files go only after the row is gone for good, and on success exactly that row's files |
| `BlobRuns.RunKeepsInv` | src/app/application/blob/handlers/blob_handlers.py:42-111 | over any interleaving with failures anywhere, rows, requests and files stay consistent |
| `BlobRuns.NoDanglingRows` | src/app/application/blob/handlers/blob_handlers.py:42-111 | in every reachable state every file of every committed row is on disk |
| `BlobRuns.FilesAreAccountedFor` | src/app/application/blob/handlers/blob_handlers.py:52-81 | while no upload's commit and no storage step failed and nothing was cut off, every file belongs to a row or a request under way |
| `BlobRuns.DiskIsTheTable` | src/app/application/blob/handlers/blob_handlers.py:42-111 | then, at rest, the disk holds exactly the files of the committed rows |
| `BlobRuns.FailedCommitLeavesAFile` | src/app/application/blob/handlers/blob_handlers.py:52-81 | a run in which an upload's commit fails ends with a file nobody owns |
| `BlobRuns.TroubleMeans` | src/app/application/blob/handlers/blob_handlers.py:42-111 | a run had trouble exactly when an upload's commit failed, a write was cut short, an unlink failed or a request was cut off |
| `BlobRefinement.FilesArePaths` | src/app/infra/adapters/local_blob_storage.py:53-139 | the machine's files are paths: unlinking a stored path hits that file and no other |
| `BlobRefinement.UploadAlone` | src/app/application/blob/handlers/blob_handlers.py:42-81 | after any run, an upload's own steps and no others commit the row of exactly the paths the handler stores and leave exactly those files; a failing insertion leaves none, a failing commit leaves them without a row |
| `BlobRefinement.DeleteAlone` | src/app/application/blob/handlers/blob_handlers.py:97-111 | after any run, a deletion's own steps and no others remove the row and exactly its files, or nothing when deleting the row or committing fails |
| `BlobAlone.UploadAlways` | src/app/application/blob/handlers/blob_handlers.py:42-81 | after any run, however an upload's own steps and failures end: no row and without trouble no file, or a row the handler stores under some faults with its files and without trouble no others |
| `BlobAlone.DeleteAlways` | src/app/application/blob/handlers/blob_handlers.py:97-111 | after any run, however a deletion's own steps and failures end: nothing happened, or the row is gone, only its files went and without trouble all of them |
| `Masking.MaskObject` | src/app/modules/telemetry/logging/masking.py:50-72 | the routine that fills new dicts and lists computes the recursive mask |
| `Masking.MasksAgree` | src/app/modules/telemetry/logging/masking.py:38-72 | two trees have the same mask exactly when they differ only in hidden places, depth limit included |
| `Masking.NonInterference` | src/app/modules/telemetry/logging/masking.py:38-72 | trees of height at most 32 that differ only under sensitive keys or in binary content mask alike |
| `Masking.HeightBoundIsTight` | src/app/modules/telemetry/logging/masking.py:52-53 | under n lists a binary value is hidden if and only if the tree's height is at most 32 |
| `Masking.ClearPlacesShow` | src/app/modules/telemetry/logging/masking.py:50-72 | every place at most 32 steps down that no secret name covers: bytes, data URIs and texts over 4096 characters show `<omitted>`, other scalars themselves, dicts their keys, sequences their length |
| `Masking.SecretsAreRedacted` | src/app/modules/telemetry/logging/masking.py:55-60 | every value under a secret name at most 33 steps down, none above it, shows `***` |
| `Masking.MaskIsMasked` | src/app/modules/telemetry/logging/masking.py:55-72 | the result has every secret redacted and every blob omitted, down to the depth limit |
| `Masking.MaskFixes` | src/app/modules/telemetry/logging/masking.py:50-72 | masking changes a tree exactly when there is something to mask |
| `Masking.Idempotent` | src/app/modules/telemetry/logging/masking.py:50-72 | masking twice is masking once, for trees of any height |
| `Masking.ShapeKept` | src/app/modules/telemetry/logging/masking.py:55-67 | dict keys in order and sequence lengths are preserved |
| `Uuid7.Fallback` | src/app/shared_kernel/utils/functions/uuid_funcs.py:20-34 | the successive updates build the layout of section 5.7 of RFC 9562 |
| `Uuid7.FieldsDecode` | src/app/shared_kernel/utils/functions/uuid_funcs.py:24-32 | version 7, variant binary 10, the 48-bit time and the 12 and 62 random bits decode back |
| `Uuid7.LayoutOfFields` | src/app/shared_kernel/utils/functions/uuid_funcs.py:28-32 | every id of that version and variant is the layout of its own fields |
| `Uuid7.CollideExactlyWhen` | src/app/shared_kernel/utils/functions/uuid_funcs.py:20-34 | two ids are equal exactly when times agree on 48 bits and random values on their low 74 |
| `Uuid7.EarlierIsSmaller` | src/app/shared_kernel/utils/functions/uuid_funcs.py:28 | below 2^48 an earlier millisecond gives a strictly smaller id |
| `Uuid7.WrapsAt48Bits` | src/app/shared_kernel/utils/functions/uuid_funcs.py:28 | at 2^48 the order breaks |
| `ReturnTypes.Sound` | src/app/shared_kernel/utils/static_analys/assertion_funcs.py:127-209 | acceptance implies the target's values are among the base's |
| `ReturnTypes.SoundExactlyWhen` | src/app/shared_kernel/utils/static_analys/assertion_funcs.py:25-26 | the relation is sound on all pairs exactly when annotations that print alike mean alike |
| `ReturnTypes.EqualReprIsUnsound` | src/app/shared_kernel/utils/static_analys/assertion_funcs.py:25-26 | two classes with the same printed form and different values are accepted for one another |
| `ReturnTypes.Reflexive` | src/app/shared_kernel/utils/static_analys/assertion_funcs.py:140-145 | every annotation is compatible with itself |
| `ReturnTypes.OpenBasesAcceptAll` | src/app/shared_kernel/utils/static_analys/assertion_funcs.py:127-152 | a base without annotation accepts every target, `Any` and a type variable every annotated one |
| `ReturnTypes.PlainBasesCompare` | src/app/shared_kernel/utils/static_analys/assertion_funcs.py:188-209 | a plain base accepts an annotated target exactly when they are equal, or print alike and the target is not optional |
| `ReturnTypes.OptionalBases` | src/app/shared_kernel/utils/static_analys/assertion_funcs.py:160-187 | an optional base accepts what one of its options accepts, and the same made optional |
| `ReturnTypes.AcceptsOptions` | src/app/shared_kernel/utils/static_analys/assertion_funcs.py:140-202 | a union accepts each of its options other than NoneType and nested optional unions |
| `ReturnTypes.NarrowerUnionIsRefused` | src/app/shared_kernel/utils/static_analys/assertion_funcs.py:200-202 | the relation is not complete: a union of two options is refused where three are declared |

## Left out

- HTTP controllers, middlewares, OpenAPI schemas, dependency injection, bootstrap and configuration: wiring.
- SMTP, Redis, asyncpg inserts, Pillow, bcrypt, JWT, AES and HMAC: foreign calls; here parameters or oracles.
- `mask_text` and log formatting: regular-expression substitution on free text.
- `refresh` of `AuthService`: branches over a decoded token, with no state of its own.
- Changing e-mail or password from inside an account, and administrators creating users: not part of the
  one-time-code runs, which start from self-registered users.
- `find_active_by_otp`: no flow in the modelled handlers calls it.
- Mail delivery: the event bus appears only as a publication that may fail before the commit.
- The mid-file disappearance of a log file between `stat` and `open`: an I/O error, assumed absent.
- `start`, `_on_start` and `_on_close` of the writers, and the message text of the Telegram writer.
- `parse_destination_map`, `_route` and `_format` of the Telegram writer: lookups and string building; a thread
  id enters as its decimal spelling, so a chat id holding `#` may share a bucket with a topic.
- Filter values decoded from a request body for scalar filters; query text and decoded lists are modelled.
- Handlers written by hand for a field (`Custom` predicates): opaque; the query theorem is about the columns.
- The per-function cache of which handlers accept request context: it changes which arguments a hand-written
  handler receives, not which handler is chosen.
- `ensure_isimplementation` beyond return types: attribute and parameter comparisons that only log and raise.
- The entity-source graph: the deployed map has no related entities.
- Blob listing and detail queries: reads. Name and signature validation of uploads enters as accepted or not.
- The order in which one deletion unlinks its files is free in `BlobRuns`; `BlobStorage` has the source's order.
- RateLimit.TokenBucket.Acquire: has no contract for requests above the capacity, because those never return
  (RateLimit.ReturnsExactlyWhen).
- TelegramSender.PostsAreLimited: allows one post above the global bound, because a message takes its global token
  before it waits for its destination; TelegramSender.ExtraPostIsMade shows that it happens.
