# Verified models of the BitCadence core

A Dafny 4.11 project that models the parts of BitCadence whose state has to survive every run, and proves what
they promise. `dafny verify dfyconfig.toml` checks all of it.

**The embedded job board** (`Values`, `Select`, `Agreement`, `SelectLaws`, `Store`, `StoreLaws`, `Ledger`,
`History`, `StoreEffects`, `Constraints`, `Transactions`, `LocalStore`). Tables are rows in rowid order; SQLite
is a relation with three-valued NULL logic, 64-bit integers and the doubles it reads larger ones as. `Store`
states each write as a function from database to database that keeps what was written before an error, because
only the outermost block undoes anything. `LocalStore` is the class with the committed and the uncommitted data,
the depth, the lock owner and the per-thread level, and its methods follow the loops of the source. The laws are
about every run of blocks and writes by any number of threads: the evidence log replays to the job table,
append-only tables only grow, unique keys and event numbers hold, a block is all or nothing, a retried query
takes effect at most once, and the pushed-down select agrees with the simple one.

**The scheduler** (`Calendar`, `Cron`, `CronFields`, `CronParts`, `CronSearch`, `CronMatches`, `Scheduler`,
`Launcher`, `LoopRuns`, `DaemonRuns`, `TickAborts`). Cron parsing on text, the Gregorian calendar, the
day-skipping search against the plain scan, the due rule, one tick as a method over saved states, guarantees
over whole runs of one schedule with any clock, answers and failures, the loop of ticks, in which every schedule
goes through exactly such a run, and when one schedule's search ends the ticks of all.

**Small protocols** (`Waker`, `RateLimit`, `LocalLogin`). Each is a state machine with laws over its runs, and a
class whose methods take the steps.

**Transformations** (`PlanGraph`, `AskPlan`, `PlanObjects`; `Phrases`, `PhraseWords`, `PhraseText`,
`PhraseReading`, `PhraseDays`, `PlainWords`, `WordsRoundTrip`, `Switching`, `SwitchingText`, `SwitchingFiles`;
`Slugs`, `Fleet`; `Lcs`). Removing plan steps keeps the waiting of the rest; plain words mean the minutes their
cron text matches and survive the round trip, and a phrase is read as what its words say; switching a schedule
edits one line; reconciliation leaves the configured services; the table of the planner benchmark computes the
longest common subsequence.

`Decimal`, `Strings` and `Options` hold the text functions and the option type they share.

## Where the code and its promises part

The model follows the code. Each of these is a proved statement.

- An update that changes the key of a row in a constrained table leaves the old row behind, so two rows can
  share a unique tuple (`Constraints.RekeyedExactly`, `Constraints.TwoGrantsForOneDigest`).
- An append-only row is erased by an insert whose key is another value with the same text, such as 1 and
  "1" (`Constraints.InsertAppendsExactly`, `Constraints.NumberKeyErasesEvent`).
- A nested block that raises and is caught keeps its partial writes (`Transactions.CaughtFailureKept`).
- The pushed-down select differs from the simple one when ordering by 0, a boolean or an integer outside 64
  bits, for a negative limit, for filters of unlike type, and it raises for integers it cannot bind
  (`Agreement.OrderValueExactly`, `Agreement.OrderByZeroSwaps`, `Agreement.WindowSelectExactly`,
  `Agreement.FilterSelectExactly`). A write that looks such an integer up raises too (`StoreLaws.FindIsComplete`).
- Where SQLite's json_extract ends a text at a NUL, as release 3.40 does, the duplicate checks never find such a
  text (`StoreLaws.TakenExact`), and a second event under such a key erases the first
  (`Constraints.NulKeyErasesEvent`).
- An event that its caller numbers further ahead than the next number stops the store from numbering events:
  every later insert without a number is refused once the count gets there (`Constraints.InsertNumbers`,
  `Constraints.NumberTwoSticks`, `Constraints.AllAcceptedExactly`, `Transactions.RunStuck`).
- Reading events by `order("seq")` puts event 10 before event 2 (`Constraints.OrderBySeqExactly`,
  `Constraints.FilteredBySeqExactly`).
- The cron search covers five years although its error says "within a year", and a leap-day expression fails
  from the end of February 2096 (`CronSearch.LeapDaysFail`, `CronSearch.LeapDayText`); its error then ends every
  tick, so that no schedule at all runs for almost three years (`TickAborts.OneSilencesAll`).
- A cron schedule without a recorded run is never due (`LoopRuns.CronNeverStarts`).
- A loop bounded by `until` alone whose interval rounds to zero microseconds is accepted and has no bound
  (`LoopRuns.LoopsFiniteExactly`).
- An empty inbox drops a trigger that landed during its read (`Waker.LateTriggerLost`, `Waker.LostTrigger`).
- Collection of idle buckets, as its comment describes it, never happens: a bucket that served a call is
  never stored full, so only a bucket made in the same call is dropped (`RateLimit.SweepDropsNothingStored`).
- Workers whose role and instance have the same words, spread differently, share their services, and lose one
  (`Fleet.SameNameExactly`, `Fleet.CollisionLosesService`).
- A phrase names a day by the first three letters of a word alone, so "every month", "every mon-fri" and "every
  monday to friday" are all read as Mondays (`PhraseReading.ItemRead`, `PhraseReading.TakenForMonday`), and a
  comma before the last "and" makes it refuse the phrase (`PhraseReading.OxfordRefused`).
- The sentence "Every hour, 15 minutes past" is not understood by the phrase parser
  (`WordsRoundTrip.HourlyReadBackExactly`).
- Switching a schedule does nothing, without an error, when the next entry is named "enabled"; it leaves an entry
  that cannot be read when the entry has no switch and its last line is indented unlike its fields, when the
  switch has its value on the next line, and when the fields are a flow mapping; it leaves the schedule as it was
  when its switch stands below a comment in the first column or has its name in quotes; and it edits a field of
  an earlier entry that has the schedule's name (`Switching.SwitchTakesExactly` has the exact condition,
  `SwitchingText.SearchExactly` and `SwitchingText.EditExactly` say what search and edit do, and `SwitchingFiles`
  has a file for each).

## Model

| member | source | states |
|---|---|---|
| Select.FilterAgreement | src/mco/localstore.py:384-415 | For one row and one filter that SQLite can take, the parameters can be bound and three-valued SQL gives the verdict of the Python test (and neither raises) exactly when every integer looked for has 64 bits, the value types match, and no integer cell outside 64 bits, text cut at a NUL or nested cell reads as a value looked for, or stops reading as one. |
| Agreement.SortOrders | src/mco/localstore.py:349-351 | Python's stable sort by one key, ascending or reversed, is an ordering of the same rows by (key, rowid). |
| Agreement.OrderingUnique | src/mco/localstore.py:436-441 | Two orderings of the same rows by (key, rowid) are one sequence, so ORDER BY with the rowid tie-break leaves SQLite no freedom. |
| Agreement.WindowAgreement | src/mco/localstore.py:352-356 | Python slicing and LIMIT/OFFSET give the same window exactly when the limit is absent, not negative, or the offset is past the end. |
| Agreement.OrderKeyAgreement | src/mco/localstore.py:434-437 | On one cell that is not nested the Python and the SQL order key agree exactly for text that reads back, an absent value, and 64-bit numbers other than 0; booleans, 0, larger numbers and texts cut at a NUL part. |
| Agreement.PushDownAgrees | src/mco/localstore.py:370-452 | Every answer SQLite may give to a pushed-down select is the rows of the simple Python form in the same order, NULLs, ties, limit and offset included, for filters of matching type whose values can be bound, order cells that sort alike, and a limit that is not negative. |
| Agreement.FilterSelectExactly | src/mco/localstore.py:384-415 | A select of one row by one filter agrees with the Python form if and only if the filter can be bound and the cell has a type it can be pushed down for. |
| Agreement.WindowSelectExactly | src/mco/localstore.py:352-356 | A select of a window agrees with the Python form if and only if limit and offset have 64 bits and the limit is absent, not negative, or the offset is past the end. |
| Agreement.OrderSelectExactly | src/mco/localstore.py:429-441 | A select of any table ordered by a column agrees with the Python form if and only if the two order keys put every two rows the same way. |
| Agreement.OrderValueExactly | src/mco/localstore.py:434-437 | Of the values that are not nested, exactly the booleans, 0, integers outside 64 bits and texts cut at a NUL break the agreement of ordered selects over tables that hold text that reads back, nothing, or that value. |
| Agreement.OrderByZeroSwaps | src/mco/localstore.py:434-437 | A concrete table of two rows, one with 0 and one without the column, that the Python form leaves alone and SQLite swaps. |
| Agreement.PagesConcatenate | src/mco/localstore.py:442-449 | Any answers to consecutive page queries of any sizes concatenate to one slice of any answer to the unpaged query, whatever the cells hold: no row is skipped or repeated; a pushed-down page whose size or offset cannot be bound raises instead. |
| Agreement.AnswerExists | src/mco/localstore.py:417-452 | There always is an answer the SQL relation allows, so the agreement is about something. |
| SelectLaws.PySelectInOrder | src/mco/localstore.py:349-351 | The rows of an ordered select in the simple form rise by the text of the order column, or fall when the order is descending; equal texts keep their stored order. |
| SelectLaws.AnswerInOrder | src/mco/localstore.py:429-441 | Every answer SQLite may give to an ordered select rises, or falls when descending, by the text of its own order cells; equal texts keep their stored order. |
| SelectLaws.PyFilterExactly | src/mco/localstore.py:475-484 | The simple form keeps exactly the rows whose cells equal the value, are one of the values, or lie above the value, as numbers or as texts, for every filter. |
| SelectLaws.SelectsExactly | src/mco/localstore.py:370-452 | An unwindowed select of matching types, pushed down or not, returns exactly the rows that pass every filter. |
| SelectLaws.SelectFailsExactly | src/mco/localstore.py:370-452 | Any select raises for unlike types exactly when a filter or order keeps it from SQLite and a row fails a comparison that the filters before it let through, and for an integer outside 64 bits exactly when it is sent to SQLite with one. |
| StoreLaws.FindIsComplete | src/mco/localstore.py:364-368 | The indexed lookup by equal columns raises exactly when an asked integer cannot be bound; otherwise it returns only stored rows, and a row whose columns equal the asked ones by Python equality exactly when no asked text is cut at a NUL. |
| StoreLaws.TakenExact | src/mco/localstore.py:580-588 | The duplicate check, when it can be run, refuses a row exactly when the table holds a row that blocks it and no checked text is cut at a NUL. |
| StoreLaws.DefaultsRespectRow | src/mco/localstore.py:494-542 | Defaults fill gaps only: every value of a row stays, except a falsy key or time stamp. |
| StoreLaws.DefaultsOnce | src/mco/localstore.py:494-542 | A row that has been given its defaults is left as it is by a second pass at any later time. |
| StoreLaws.PutRowOk | src/mco/localstore.py:460-463 | INSERT OR REPLACE keeps rowids rising, keys distinct, and every row filed under the text of its own key, in every table. |
| StoreLaws.SameKeyText | src/mco/localstore.py:454-461 | Two keys that are not nested are filed under one text if and only if they are equal or one is the text the other is printed as. |
| StoreEffects.InsertFiles | src/mco/localstore.py:576-592 | A successful insert files one row under the text of its own key, with every column of the payload and the defaults elsewhere, leaves every other row, and returns what it filed. |
| StoreEffects.InsertFailsAs | src/mco/localstore.py:576-588 | Which error an insert raises, if any: a key too wide to look up, then a stored row found to have its key, then a tuple too wide or found to be taken, then a missing key. |
| StoreEffects.UpsertFiles | src/mco/localstore.py:593-613 | A successful upsert files one row under the text of its own key and leaves every other row; where stored rows of the payload's key are found, it has the payload's value in every payload column and the value of the first of those rows in every other, and otherwise the defaults; it returns what it filed. |
| StoreEffects.UpsertFailsAs | src/mco/localstore.py:593-610 | Which error an upsert raises, if any: a history table, then a key too wide to look up, then a tuple too wide or found in a row of another key, then a missing key. |
| StoreEffects.DeleteLeaves | src/mco/localstore.py:637-656 | A successful delete leaves exactly the rows that were not found or do not pass the filters, in their old order, and returns the others' documents in theirs. |
| StoreEffects.DeleteAcceptedExactly | src/mco/localstore.py:637-644 | A delete succeeds exactly when the table's history may change, its filters can be looked up, and no found row holds a cell that cannot be compared. |
| StoreEffects.LookupFailsAs | src/mco/localstore.py:612-644 | An update or a delete whose filters cannot be looked up fails with the error of that lookup and changes nothing. |
| StoreEffects.HistoryRefusesExactly | src/mco/localstore.py:570-639 | Exactly the updates, upserts and deletes of the seven history tables are refused as rewriting history, and they change nothing and return nothing. |
| StoreEffects.UpdateRewrites | src/mco/localstore.py:614-636 | A successful update writes, for exactly the found rows that pass the filters and in their order, the row with the payload and the completion stamp over it, and returns what it wrote; each key holds the last document written under it, and rows under other keys are as before. |
| StoreEffects.UpdateInPlace | src/mco/localstore.py:614-636 | When the payload leaves the key alone, exactly the found rows that pass carry the payload, each under its own key, and the others are unchanged. |
| StoreEffects.UpdateStepExactly | src/mco/localstore.py:619-632 | One row's turn in an update goes through exactly when the row does not pass the filters, or its new form has a key and a unique tuple that no row of another key is found to have at that moment. |
| StoreEffects.ChosenExactly | src/mco/localstore.py:619-620 | For filters of matching type that can be bound, the rows an update or a delete acts on are exactly the stored rows that pass them. |
| StoreEffects.WriteIsRecorded | src/mco/localstore.py:464-473 | Writing a job puts one evidence row behind the others, an INSERT of a job not stored under its key or an UPDATE of the one that was, with the job before and after. |
| StoreEffects.DeleteIsRecorded | src/mco/localstore.py:645-653 | Deleting a job puts one DELETE behind the others, with the job before. |
| Ledger.WriteJobKeepsLedger | src/mco/localstore.py:454-473 | Writing a job together with its evidence row keeps the log replaying to the job table, each `before` the last `after`, and only grows the outbox. |
| Ledger.DeleteJobKeepsLedger | src/mco/localstore.py:645-654 | Recording and then deleting a stored job keeps the log and the table in step in the same way. |
| History.AppendsExactly | src/mco/localstore.py:460-463 | A write leaves all earlier rows of a table in place in front exactly when no stored row is filed under the same key text. |
| History.ApplyKeeps | src/mco/localstore.py:566-656 | One operation, completed or cut short by any of its errors, keeps keys, the evidence log and typed keys, only grows append-only tables, and changes no table but its own and the outbox. |
| Constraints.ApplyUnique | src/mco/localstore.py:583-588 | Every operation, completed or cut short, keeps every multi-column unique constraint for tuples without a text cut at a NUL, provided updates of constrained tables do not touch the key column. |
| Constraints.RekeyedExactly | src/mco/localstore.py:619-632 | An accepted update of one row keeps the constraint exactly when the row stays under its key, its unique tuple changes, or the constraint does not see the tuple; otherwise the old row stays behind under the old key. |
| Constraints.TwoGrantsForOneDigest | src/mco/localstore.py:614-635 | A concrete store with one grant in which an accepted update of the key leaves two that share the unique tuple. |
| Constraints.InsertAppendsExactly | src/mco/localstore.py:576-591 | An accepted insert into an append-only table keeps all earlier rows exactly when no stored row is filed under the text of the new key. |
| Constraints.NumberKeyErasesEvent | src/mco/localstore.py:576-591 | A concrete insert with the key 1 is accepted and erases the audit event filed under "1". |
| Constraints.NulKeyErasesEvent | src/mco/localstore.py:576-591 | Where json_extract ends texts at a NUL, a second insert under one key with a NUL is accepted and erases the first event. |
| Constraints.InsertNumbers | src/mco/localstore.py:499-500 | An event inserted without a number is accepted if and only if no stored event has the number one above the count of events and that number has 64 bits; a refused insert leaves the data alone. |
| Constraints.NumberTwoSticks | src/mco/localstore.py:499-500 | One event that its caller numbered 2 is accepted by an empty store, and every event without a number is refused as a duplicate from then on. |
| Constraints.AllAcceptedExactly | src/mco/localstore.py:499-500 | Any number k of inserts without a number, one after another, are all accepted if and only if no stored event has one of the k numbers above the count. |
| Constraints.OrderBySeqExactly | src/mco/localstore.py:434-437 | Events numbered 1..n, read in the order of their number, come back in their stored order if and only if there are at most nine: the order is that of the decimal texts. |
| Constraints.FilteredBySeqExactly | src/mco/orchestrator/score_adapters.py:215-220 | Of a store of events numbered 1..n, the events that pass the filters, such as those of one task, come back in their stored order if and only if the decimal texts of their numbers rise. |
| Transactions.RunSound | src/mco/localstore.py:238-264 | After any interleaving of blocks, nested blocks, writes, commits and rollbacks by any threads, committed and uncommitted data both satisfy the key, evidence and history invariants, and what is committed of an append-only table is never rewritten. |
| Transactions.ReplayGivesJobs | src/mco/localstore.py:464-473 | In whatever a thread can see after any run from an empty file, replaying the evidence rows in order gives exactly the job table, and each row's `before` is the last `after` recorded for that job, or none. |
| Transactions.RunUnique | src/mco/localstore.py:77-86 | Unique constraints hold in every reachable state when updates leave constrained keys alone. |
| Transactions.RunNumbers | src/mco/localstore.py:499-500 | Where callers leave event numbers to the store, they are exactly 1..n in every reachable state, rollbacks included. |
| Transactions.RunStuck | src/mco/localstore.py:499-500 | Once the number one above the count is used, no run of writes that leave numbers to the store ever adds an event. |
| Transactions.RunLocked | src/mco/localstore.py:244-264 | In every reachable state the depth is zero exactly when nobody holds the lock, nothing uncommitted is left at depth zero, and only the owner counts levels. |
| Transactions.InsideCommitsNothing | src/mco/localstore.py:252-264 | While an outermost block stays open, nothing is committed, and the uncommitted data is all writes applied in order, whatever the nested blocks did: there are no savepoints. |
| Transactions.OutermostBlock | src/mco/localstore.py:238-264 | If the outermost block returns, all its writes commit together in order; if it raises, the data is what it was at the start; depth and lock return to their entry values; at every moment until then the thread reads exactly what it has written so far and every other thread the old data. |
| Transactions.CaughtFailureKept | src/mco/localstore.py:244-264 | A block inside a block is possible, and one that raises and is caught loses nothing: what it wrote is committed when the outer block returns. |
| Transactions.RunGoesOn | src/mco/localstore.py:244-264 | In every reachable state the lock's owner can open another block or leave one, and a thread can open a block when nobody owns the lock. |
| LocalStore.LocalStore.Enter | src/mco/localstore.py:244-251 | Entering a block takes the lock, and at depth zero starts from the committed data; the new state is the step of the transaction machine. |
| LocalStore.LocalStore.Leave | src/mco/localstore.py:252-264 | Leaving a block commits or rolls back at the outermost level only and restores depth and lock. |
| LocalStore.LocalStore.ReadConnection | src/mco/localstore.py:285-302 | A thread inside its own block reads the uncommitted data, any other thread the committed data. |
| LocalStore.LocalStore.Replace | src/mco/localstore.py:460-463 | The row loop of INSERT OR REPLACE: the old row under the key goes and the new one takes the next rowid at the end. |
| LocalStore.LocalStore.WriteOne | src/mco/localstore.py:454-473 | Writes the row and, for a job, its evidence; a row without its key column changes nothing and fails. |
| LocalStore.LocalStore.InsertOne | src/mco/localstore.py:576-591 | Duplicate key, duplicate tuple or missing key refuse the row and leave the data alone; otherwise it is written with its defaults. |
| LocalStore.LocalStore.UpsertOne | src/mco/localstore.py:593-612 | Computes the specified upsert, whose row `StoreEffects.UpsertFiles` describes column by column, refusing tuples held under another key. |
| LocalStore.LocalStore.UpdateFound | src/mco/localstore.py:614-635 | The update loop equals the row-by-row specification, each row checked against the table as the earlier rows left it, and stops at the first error. |
| LocalStore.LocalStore.DeleteRemoved | src/mco/localstore.py:637-656 | The delete loop writes the evidence of each job before it drops the row. |
| LocalStore.LocalStore.Body | src/mco/localstore.py:566-658 | The write branches together compute the operation of the specification, its failure included; what that leaves in the table is `StoreEffects`. |
| LocalStore.LocalStore.RunOnce | src/mco/localstore.py:566-569 | One query in its own, possibly nested, block: at the outermost level its effect is committed exactly when it succeeds; inside a block it joins the uncommitted data. |
| LocalStore.LocalStore.Execute | src/mco/localstore.py:545-564 | Under any pattern of lock refusals and other faults over at most eight tries, an outermost query takes effect at most once, and exactly when it returns a success; nested, the same holds when the refusals come before the first write. |
| Calendar.OrdinalOfDate | src/mco/scheduler.py:248-257 | Counting days from 1 January of year 1 gives, for each day number, a valid Gregorian date with that ordinal. |
| Calendar.DateOfOrdinal | src/mco/scheduler.py:248-257 | Every valid date is reached at its own ordinal: the calendar is a bijection. |
| Calendar.CountedDate | src/mco/scheduler.py:248-257 | The date found by counting days is the one whose day number, by a closed form without counting, is the number of days counted. |
| Cron.ParseField | src/mco/scheduler.py:142-170 | The loop over comma-separated parts computes the specified set, or refuses the field. |
| Cron.FieldMeaning | src/mco/scheduler.py:142-170 | A field is refused exactly when one of its parts is; otherwise it denotes a non-empty set within range, of exactly the numbers its parts denote; what each part denotes is `CronParts`. |
| Cron.ParsedIsWellFormed | src/mco/scheduler.py:221-238 | A parsed expression has non-empty fields within range, and when the two day fields are not combined by "or" one of them holds every day. |
| CronParts.PieceField | src/mco/scheduler.py:142-170 | A number, a range or a star, with a step or without, is accepted exactly when the step is positive and the numbers rise within the field's range, and then denotes from the first number on every step-th one up to the last. |
| CronParts.ListField | src/mco/scheduler.py:142-170 | A comma list of such parts is accepted exactly when each of them is, and denotes exactly what any of them denotes. |
| CronParts.SteppedRange | src/mco/scheduler.py:150-167 | For digit texts, `a-b/k` is accepted exactly when k is positive and a to b rises within the range, and denotes every k-th number from a to b. |
| CronParts.SteppedStar | src/mco/scheduler.py:150-167 | A star with the step k is accepted exactly when k is positive, and denotes every k-th number of the field's range from its lowest on. |
| CronParts.AcceptedExactly | src/mco/scheduler.py:142-170 | A field text without white space is accepted if and only if it is a comma list of numbers, ranges and stars, with or without a positive step, that rise within the range; so nothing else is. |
| CronMatches.ParsedMatches | src/mco/scheduler.py:193-238 | A parsed expression matches a date and time exactly when its fields name the minute, the hour and the month, and, of day and weekday, one when both fields are restricted and otherwise both; Sunday is 0 and 7. |
| CronMatches.ShortcutMatches | src/mco/scheduler.py:81-89 | Each shortcut is accepted and matches exactly the first minute of the year, month, week, day or hour, the week beginning on Sunday. |
| CronMatches.CronAcceptedExactly | src/mco/scheduler.py:207-238 | An expression is accepted if and only if, in any letter case, it is one of the seven shortcuts, or it has five fields that are each such a list within the range of its place. |
| Cron.NextMatchIsLeast | src/mco/scheduler.py:241-260 | The search result is the least later minute that matches, and there is none exactly when no minute of the five-year window matches. |
| Cron.NextCronTime | src/mco/scheduler.py:241-260 | The loop that skips whole days returns the same as the plain minute-by-minute scan. |
| CronSearch.YearlyResolves | src/mco/scheduler.py:241-260 | An expression that names a day every year has, or combines two restricted day fields, resolves from every moment. |
| CronSearch.LeapDaysFail | src/mco/scheduler.py:258-260 | An expression whose only day is 29 February finds nothing from the end of 29 February 2096, five years being too few. |
| CronSearch.SearchFailsInGap | src/mco/scheduler.py:258-260 | Such an expression finds nothing from any minute between then and five years before 29 February 2104. |
| CronSearch.AlwaysResolvesExactly | src/mco/scheduler.py:241-260 | A parsed expression resolves from every moment if and only if it names a day every year has or combines two restricted day fields. |
| CronSearch.PlainDateExactly | src/mco/scheduler.py:241-260 | A numeric date and time on any weekday is accepted, and resolves from every moment if and only if every year has that date. |
| CronSearch.LeapDayText | src/mco/scheduler.py:207-260 | The text "0 0 29 2 *" is accepted and finds nothing from the end of 29 February 2096. |
| CronSearch.LeapDayResolves | src/mco/scheduler.py:241-260 | A leap-day expression resolves whenever one of the next four years is a leap year. |
| Scheduler.CronDueExactly | src/mco/scheduler.py:690-751 | With a recorded run, a cron schedule is due exactly when it is live, the minute of `now` matches, and the last run lies in an earlier minute. |
| Scheduler.CronWithoutRunNeverDue | src/mco/scheduler.py:707-709 | With no recorded run a cron schedule is never due. |
| Scheduler.EveryDueExactly | src/mco/scheduler.py:710-721 | An interval schedule is due exactly when it is live and either has no recorded run or its interval has passed. |
| Scheduler.DueExactly | src/mco/scheduler.py:690-760 | A schedule is due exactly when it is on, has no recorded completion, is within `until` and its iterations, and its trigger says so. |
| Scheduler.ParsedExactly | src/mco/scheduler.py:613-680 | An entry is accepted exactly when it has one readable trigger, a known overlap rule, a positive iteration count if any, and, for a loop, something that ends it; the schedule has what the entry says. |
| Scheduler.ToMicrosNearest | src/mco/scheduler.py:711 | An interval is kept to the nearest microsecond, and one that lies halfway to the even one. |
| Launcher.Daemon.HasActiveJobs | src/mco/launcher.py:254-278 | True exactly when the board could be read and one of the given jobs is in flight. |
| Launcher.Daemon.QueueIsEmpty | src/mco/launcher.py:281-298 | None when the board cannot be read; otherwise whether the role has no unfinished job. |
| Launcher.Daemon.HandleDue | src/mco/launcher.py:320-395 | The branches for one due schedule compute the specified state and report row; it completes exactly when its queue's board was read and has no unfinished job of its role, and fires exactly when it goes on, no job of its last fire is unfinished on a board that was read, it is no dry run and the launch succeeds. |
| Launcher.Daemon.Tick | src/mco/launcher.py:301-402 | One pass gives every configured schedule its specified new state, which completes it exactly when it is due and its queue is drained, and counts and records a fire exactly when it is due, goes on, is not held up and launches; it reports exactly the due ones in order, leaves other names' states alone, and changes nothing when the cron search of any schedule raises. |
| Launcher.PassIsPointwise | src/mco/launcher.py:320-402 | After a pass every schedule has the state of its own pass, whatever the others did, and no other state changed. |
| Launcher.LineExactly | src/mco/launcher.py:320-395 | A schedule gets a report row exactly when it is due, and the row says complete, skipped or fired exactly under the conditions on the boards and the launch. |
| DaemonRuns.DaemonIsRun | src/mco/launcher.py:405-435 | After any number of daemon ticks, raising ones included, each schedule's saved state is the state of that schedule's own run, the run all the laws below are about. |
| DaemonRuns.ReportedExactly | src/mco/launcher.py:387-395 | A tick reports a schedule as fired exactly when the schedule's own run has a fire at that tick. |
| DaemonRuns.RunForever | src/mco/launcher.py:405-435 | The loop of ticks leaves the specified states and gives the specified reports in order. |
| TickAborts.YearlyNeverAborts | src/mco/launcher.py:315-320 | No tick is aborted, in any states, when every cron expression in use names a day every year has. |
| TickAborts.NeverAbortsExactly | src/mco/launcher.py:315-320 | For schedules still running in March 2096, no tick is ever aborted if and only if every cron expression in use names a day every year has. |
| TickAborts.OneSilencesAll | src/mco/launcher.py:405-435 | Any ticks within the gap abort and change nothing, whatever else is configured, while one live schedule has a cron expression that only names leap days. |
| LoopRuns.LoopBound | src/mco/launcher.py:379-386 | Over every run of ticks, `iterations` counts exactly the successful fires, and `max_iterations` is never exceeded. |
| LoopRuns.CompletionIsSticky | src/mco/scheduler.py:731-735 | Once a completion is recorded, no later tick fires or changes the state. |
| LoopRuns.NothingAfterUntil | src/mco/scheduler.py:736-737 | Nothing fires after `until`. |
| LoopRuns.FiresSpaced | src/mco/scheduler.py:710-717 | Consecutive fires of an interval schedule are at least the interval apart, on any clock. |
| LoopRuns.FiresInWindow | src/mco/scheduler.py:710-717 | A window of length T holds at most T / interval + 1 fires. |
| LoopRuns.CronOncePerMinute | src/mco/scheduler.py:690-751 | A cron schedule fires only in matching minutes, each later than the one before, over every run. |
| LoopRuns.CronNeverStarts | src/mco/scheduler.py:707-709 | A cron schedule without a recorded run never fires, however many ticks there are. |
| LoopRuns.LoopsAreFinite | src/mco/scheduler.py:637-662 | The number of fires of every accepted loop is bounded by a number computed from its configuration, unless it is bounded by `until` alone and its interval rounds to zero microseconds. |
| LoopRuns.ZeroIntervalFiresForever | src/mco/scheduler.py:710-717 | Such a loop fires at every one of any number of ticks within one instant. |
| LoopRuns.TinyIntervalRoundsToZero | src/mco/scheduler.py:637-662 | An interval of 0.0000001 seconds is accepted and rounds to zero microseconds. |
| LoopRuns.LoopsFiniteExactly | src/mco/scheduler.py:637-662 | An accepted, enabled loop has a bound on its fires if and only if it counts iterations, runs on cron, or has an interval of at least one microsecond. |
| LoopRuns.NoOverlap | src/mco/launcher.py:342-349 | Under `overlap: skip`, with boards that answer truly and finished jobs that stay finished, every job of every earlier fire has left flight when a new one happens. |
| LoopRuns.FiresAsOftenAsItSays | src/mco/launcher.py:379-386 | An interval schedule that nothing keeps from firing, ticked at least its interval apart, fires at every tick until its iterations are used up. |
| Waker.OneWorkerSpacedApart | src/mco/waker.py:361-384 | After any interleaving at most one worker command runs, and recorded spawn starts are at least the minimum interval apart. |
| Waker.NoLostWakeUp | src/mco/waker.py:349-373 | After every trigger a later inbox read starts, or the drain still owes one, unless the wake-up was dropped by an empty read or a raise. |
| Waker.DroppedExactly | src/mco/waker.py:361-373 | A drain is cut short before any read that starts after a trigger exactly when, from the trigger up to an empty inbox or a raise, there are only triggers, inboxes with jobs and woken sleepers. |
| Waker.LostExactly | src/mco/waker.py:361-373 | When the waker has come to rest after its last trigger, no read started after that trigger if and only if the events after it are inboxes with jobs and woken sleepers up to an empty inbox or a raise. |
| Waker.EmptyInboxDropsExactly | src/mco/waker.py:363-367 | An empty inbox drops a trigger if and only if the trigger landed during the read it answers, with nothing but triggers in between. |
| Waker.LateTriggerLost | src/mco/waker.py:364-367 | A trigger during a read that comes back empty is lost: the waker is at rest and no read has started since. |
| Waker.LostTrigger | src/mco/waker.py:349-367 | A concrete run of four events that loses its second trigger. |
| Waker.SpawnsCounted | src/mco/waker.py:361-384 | Over every run, the worker was started once for each inbox read that found jobs, less one for a task that still sleeps and one for each sleeping task that a raise ended. |
| Waker.StartsOrSleeps | src/mco/waker.py:374-379 | When jobs are found the worker starts in the same step if the interval since its last start has passed, and otherwise the task sleeps until exactly then. |
| Waker.WokenStarts | src/mco/waker.py:374-384 | A woken sleeper starts the worker, at least the interval after its last start. |
| Waker.ReadsWhenSaid | src/mco/waker.py:361-372 | Exactly a beginning drain and a finished worker with the flag set turn to reading the inbox, and they clear the flag. |
| Waker.DrainGoesOn | src/mco/waker.py:361-384 | After any run, a drain that is not over can take a next step of its own. |
| Waker.TriggerStartsOrMarks | src/mco/waker.py:349-354 | In any run, a trigger starts a drain when none is running and otherwise marks the running one dirty. |
| Waker.Waker.TriggerDrain | src/mco/waker.py:349-354 | Marks a running drain dirty or starts one. |
| Waker.Waker.StartRead | src/mco/waker.py:362-364 | Clears the flag and starts the read. |
| Waker.Waker.InboxAnswered | src/mco/waker.py:365-380 | An empty inbox ends the drain; with jobs the worker starts at once or the task sleeps out the rest of the minimum interval, as `Waker.StartsOrSleeps` says of every run. |
| Waker.Waker.ExecFinished | src/mco/waker.py:369-373 | Ends the drain, or reads again when the flag is set. |
| RateLimit.SweepDropsNothingStored | src/mco/ratelimit.py:74-90 | Over one call, collection drops no bucket stored by an earlier call; it can only drop the bucket the same call made. |
| RateLimit.WindowBound | src/mco/ratelimit.py:45-90 | After any earlier traffic, an identity is allowed at most capacity + 1 + pace * T calls in any window of length T. |
| RateLimit.FactoryPace | src/mco/ratelimit.py:156-163 | For every limit the factory builds the pace is the refill rate itself. |
| RateLimit.ExtraRequestHappens | src/mco/ratelimit.py:74-90 | The extra call is real: with capacity one, two calls in one instant are allowed. |
| RateLimit.SpacedNeverRefused | src/mco/ratelimit.py:45-59 | A call at least 1 / rate after every earlier one of its identity is allowed, whatever the others do. |
| RateLimit.KeepsGetting | src/mco/ratelimit.py:47-61 | An identity that keeps calling is allowed at least one call for each share of tokens refilled between its first and its last call, whatever the others do; for a capacity of two or more and gaps of at most one token that is one call for every token. |
| RateLimit.Bucket.Consume | src/mco/ratelimit.py:45-59 | Refills up to the capacity and takes one token exactly when there is one. |
| RateLimit.Limiter.Sweep | src/mco/ratelimit.py:80-90 | Once a minute drops exactly the buckets stored full. |
| RateLimit.Limiter.IsAllowed | src/mco/ratelimit.py:74-78 | Fetches or creates, collects, then charges the fetched bucket object, collected or not; the table after it is the specified one. |
| LocalLogin.AtMostEight | src/mco/local_login.py:61-68 | At most eight codes are pending at any time of any run. |
| LocalLogin.YieldsWhatWasMinted | src/mco/local_login.py:72-79 | A code yields only the token and page it was minted with, less than a minute after its minting. |
| LocalLogin.YieldsOnce | src/mco/local_login.py:75-79 | A code that yielded once never yields again. |
| LocalLogin.WorksUntilUsed | src/mco/local_login.py:56-79 | While fewer than eight mintings have followed, a presented code yields if and only if its minute is not over and it was not presented before. |
| LocalLogin.LoginCodes.Mint | src/mco/local_login.py:56-69 | Drops the expired codes, the oldest of eight, and appends the new one; an unknown page changes nothing. |
| LocalLogin.LoginCodes.Redeem | src/mco/local_login.py:72-79 | Removes the presented code and yields its token unless it has expired. |
| PlanGraph.RemovalKeepsWaiting | src/mco/ask_plan.py:136-141 | On any dependency graph, for two kept steps one must wait for the other after the removal exactly when it had to before. |
| PlanGraph.WithoutAllExactly | src/mco/ask_plan.py:191-192 | After removing several steps, a kept step depends on exactly the kept steps it reached through removed ones alone. |
| PlanGraph.OrderIrrelevant | src/mco/ask_plan.py:191-192 | Removing a set of steps in any order leaves the same dependency sets. |
| AskPlan.RemovalWellFormed | src/mco/ask_plan.py:129-142 | Removing a step keeps ids unique and every dependency pointing to an earlier step. |
| AskPlan.RemovalGraph | src/mco/ask_plan.py:136-142 | The rewiring of the dependency lists is the removal of a node from the graph. |
| AskPlan.RemoveStepKeepsWaiting | src/mco/ask_plan.py:129-142 | Among the kept steps of a plan, exactly the waiting there was. |
| AskPlan.RemovalsSucceed | src/mco/ask_plan.py:188-192 | A list of removals succeeds if and only if it names different steps of the plan and not all of them. |
| AskPlan.RemovalsLeave | src/mco/ask_plan.py:188-192 | What several removals leave is well formed and is the graph without those nodes. |
| AskPlan.RemovalFailsAs | src/mco/ask_plan.py:129-142 | A removal is refused as unknown exactly for an id of no step, and as the last step exactly for the only one. |
| AskPlan.RemovalOrderIrrelevant | src/mco/ask_plan.py:188-192 | The same removals in another order succeed just as well and leave the same steps with the same dependencies. |
| PlanObjects.ChainWellFormed | src/mco/ask_plan.py:106-126 | A drafted plan has one step for each clause, a gate where the clause is one, with unique ids, and each step waits for exactly the one before it. |
| PlanObjects.AskAtEndKeeps | src/mco/ask_plan.py:145-155 | Asking at the end appends a gate with a new id that waits for exactly the last step, unless the last step is a gate already; it keeps the plan well formed and as a prefix, and changes nothing the second time. |
| PlanObjects.DraftPlan | src/mco/ask_plan.py:104-126 | The loop that appends step objects and rewires the last one builds the chain of the first eight clauses. |
| PlanObjects.RemoveInPlace | src/mco/ask_plan.py:129-142 | The in-place removal returns the specified plan or error, changes the kept step objects' dependencies, and leaves the removed step's alone. |
| PlanObjects.Rewire | src/mco/ask_plan.py:138-141 | The inner loop replaces the removed id by what it depended on and drops repeats, first occurrence first. |
| AskPlan.DedupeKeepsFirst | src/mco/ask_plan.py:141 | Dropping repeats keeps each id once, in the order in which the ids first came. |
| PlanObjects.StepJob | src/mco/ask_plan.py:216-232 | Fails exactly when a dependency has no job yet; otherwise the job depends on the jobs of the steps its step depends on, and waits exactly for a gate or an awaited first step. |
| PlanObjects.SubmitPlan | src/mco/ask_plan.py:235-250 | For a well-formed plan no lookup ever misses, and jobs are made one per step, depending on each other as the steps do; a failed send stops the rest. |
| Slugs.SlugIsWords | src/mco/service.py:95-97 | A slug is the runs of letters and digits of the text in lower case with single dashes between them, or default when there is none. |
| Fleet.SameNameExactly | src/mco/service.py:104-115 | Two services have the same name if and only if they are of one kind and the words of role and instance together are the same, however they are spread over the two. |
| Fleet.WorkerServiceExactly | src/mco/fleet.py:270-278 | A service name is taken for a worker if and only if its words are bitcadence, then wake or poll, then something more. |
| Fleet.ConfiguredRecognised | src/mco/service.py:95-115 | For every role and instance text, the two service names of a worker differ and both are recognised as worker services. |
| Fleet.ReconciledExactly | src/mco/fleet.py:139-192 | From any starting set, the worker services left are exactly the active ones of the configuration if and only if no active service is named by a later worker that does not want it. |
| Fleet.ReconciledWithoutCollisions | src/mco/fleet.py:139-192 | When no two workers share a service name, a run that does not fail leaves exactly the configured services. |
| Fleet.ReconciledByMode | src/mco/fleet.py:158-186 | When no two workers share a service name, each worker is left with its wake service exactly in waker mode and its poll service exactly in poll mode. |
| Fleet.CollisionLosesService | src/mco/service.py:104-108 | Two concrete workers whose slugs run together share a name, and the configured service is lost. |
| Fleet.SecondRunQuiet | src/mco/fleet.py:158-191 | From the configured services a second run takes nothing down. |
| Fleet.Machine.UninstallIfPresent | src/mco/fleet.py:281-291 | Takes down exactly the named services that are installed, or stops at the first refusal. |
| Fleet.Machine.ApplyFleet | src/mco/fleet.py:139-192 | A run that does not fail leaves the reconciled worker services, and takes nothing down exactly when every turn is quiet and nothing is left over; no run, failed ones included, touches any other service, and it fails only when the system refuses. |
| PhraseText.ClockReadBack | src/mco/schedules_plain.py:46-70 | Every clock that is shown is parsed back as the same hour and minute. |
| PhraseText.TimeReadExactly | src/mco/schedules_plain.py:46-70 | Every text of an hour, perhaps minutes, spaces, a or p, and dots and an m in their places, is read as the time it means, in either half of the day or on the 24-hour clock, and refused when it means none or is longer than 16 characters. |
| Phrases.PickDays | src/mco/schedules_plain.py:182-189 | The loop over the words of a phrase refuses it exactly when a word names no day, and otherwise gives the days named, sorted. |
| PhraseWords.WordsDecide | src/mco/schedules_plain.py:158-162 | Two phrases of the same words are read alike, whatever their letter case and white space. |
| PhraseReading.WordDayExactly | src/mco/schedules_plain.py:184-188 | A word of a list names a day if and only if its first three letters do; the longer keys and the cutting of a plural s change nothing. |
| PhraseReading.HourRead | src/mco/schedules_plain.py:167-169 | In any case and spacing, `every hour at` a time is the hour choice at the minutes of that time, or refused when the time is. |
| PhraseReading.HourReadAlone | src/mco/schedules_plain.py:167-169 | In any case and spacing, `every hour` or `each hour` is the hour choice on the hour. |
| PhraseReading.DayRead | src/mco/schedules_plain.py:170-181 | In any case and spacing, `every day at` or `every weekday at` a time is that choice at the time it means, or refused when the time is. |
| PhraseReading.ShortRead | src/mco/schedules_plain.py:161-181 | So are `daily at` and `weekdays at` a time. |
| PhraseReading.ListRead | src/mco/schedules_plain.py:182-189 | Any items between commas, ampersands and the word and, in any spacing, with no at, daily or weekdays among them, are read as the set of days that the first three letters of the items name, at the time meant, and the phrase is refused if and only if the time means none or an item names no day. |
| PhraseReading.ItemRead | src/mco/schedules_plain.py:182-189 | Such an item on its own is read as the one day its first three letters name, whatever comes behind them. |
| PhraseReading.TakenForMonday | src/mco/schedules_plain.py:182-189 | Three concrete phrases, of a month, of mon-fri and of monday to friday, that are read as Mondays. |
| PhraseReading.OxfordRefused | src/mco/schedules_plain.py:182-188 | Every phrase with a comma right before an and, and no at, daily or weekdays before its time, is refused. |
| PhraseReading.NoTimeRefused | src/mco/schedules_plain.py:165-171 | Every phrase without a time, and without daily or weekdays, is refused, but the one of the hour. |
| PhraseDays.DaysReadBack | src/mco/schedules_plain.py:155-189 | A sentence that lists any days in any order at any valid time is parsed back as exactly those days at that time. |
| PhraseDays.WordReadBack | src/mco/schedules_plain.py:162-181 | The sentence for every day, or every weekday, at any valid time is parsed back as that choice. |
| CronFields.DigitsField | src/mco/scheduler.py:161-163 | A plain number denotes itself and is refused outside the range of its field. |
| PlainWords.DayListField | src/mco/schedules_plain.py:134-135 | A text of single digits 0 to 7 and commas denotes the listed weekdays, 7 being Sunday. |
| PlainWords.ReadingSays | src/mco/schedules_plain.py:115-139 | A cron text with a sentence other than the custom one is accepted exactly when its hour and minute exist, and then has exactly the fields the sentence speaks of. |
| PlainWords.SentenceIsTrue | src/mco/schedules_plain.py:115-139 | For every accepted cron text, any sentence but the custom one is true of exactly the minutes the expression matches. |
| PlainWords.CustomExactly | src/mco/schedules_plain.py:115-139 | A cron text gets the custom sentence if and only if it has not five fields with any day and month, a plain minute, and either any hour of any day or a plain hour of any day, of 1-5 or of single digits 0 to 7 between commas. |
| WordsRoundTrip.BuildWrites | src/mco/schedules_plain.py:93-105 | The cron text for a choice has five fields with the minute, hour and days chosen; only an empty pick of days is refused. |
| WordsRoundTrip.ChoiceIsShown | src/mco/schedules_plain.py:192-200 | For every valid choice the scheduler accepts the text built, the sentence shown is the one for that choice, and the fields are what it says. |
| WordsRoundTrip.WordsRoundTrip | src/mco/schedules_plain.py:93-189 | For every accepted cron text described as daily, weekday or certain days, describing, parsing and building again gives an expression with the same parsed fields. |
| WordsRoundTrip.HourlyReadBackExactly | src/mco/schedules_plain.py:124-127 | An hourly sentence can be parsed back if and only if it is on the hour. |
| Switching.SetEnabled | src/mco/schedules_plain.py:315-342 | The search loop and the cursor loop together compute the specified edit of the lines, or find no entry. |
| Switching.WritesOneLine | src/mco/schedules_plain.py:329-342 | The edit replaces the first switch line of the entry's block or inserts one right below the entry, and keeps every other line. |
| Switching.FoundExactly | src/mco/schedules_plain.py:315-328 | The search settles on line k if and only if k is the first line in either section, at any depth, that is the name and a colon. |
| SwitchingText.SearchExactly | src/mco/schedules_plain.py:315-328 | On the characters: the search settles on the first line that is the name, colons and white space, not in the first column, and below a line schedules: or loops: in the first column with only white lines, comments and indented lines between. |
| SwitchingText.EditExactly | src/mco/schedules_plain.py:331-345 | On the characters: a line that starts with enabled: deeper than the entry, before any line that is not white and no deeper, is rewritten in its own column; if the line that ends the block starts so, nothing changes; otherwise the new line goes right below the entry, in the column of the last line of the block that is not white, or two behind the name. |
| SwitchingText.EditDescribed | src/mco/schedules_plain.py:331-345 | Every entry has the columns and the line that this description speaks of. |
| Switching.EditedValue | src/mco/schedules_plain.py:329-342 | For an entry written as fields, or as one flow mapping or alias on a line, the edited entry says what was asked for when the edited line is the field that counts, what it said before when the edit leaves that field alone, and otherwise nothing that can be read. |
| Switching.SwitchTakesExactly | src/mco/schedules_plain.py:305-342 | The entry is found at the same line after the edit, and the switch works both ways if and only if the entry is written as fields and the first switch met is the last field of that name, quoted ones included, with its value on its line, or no field has that name and the last line of the block that is not blank is indented like the fields. |
| SwitchingFiles.BrokenFile | src/mco/schedules_plain.py:333-342 | A concrete file whose entry ends in a value on a deeper line: the new line is indented like that value, and the entry can no longer be read. |
| SwitchingFiles.MissedFile | src/mco/schedules_plain.py:341-342 | A concrete file, with an entry named "enabled" after the one switched, that the edit leaves as it was. |
| SwitchingFiles.HiddenFile | src/mco/schedules_plain.py:331-342 | A concrete file whose switch stands below a comment in the first column: the entry stays on however it is turned. |
| SwitchingFiles.SplitFile | src/mco/schedules_plain.py:335-337 | A concrete file whose switch has its value on the next line: the old value is left over below the new one. |
| SwitchingFiles.FlowFile | src/mco/schedules_plain.py:338-342 | A concrete file whose entry is a flow mapping on one line: the new line goes above it, and the entry can no longer be read. |
| SwitchingFiles.QuotedFile | src/mco/schedules_plain.py:335-342 | A concrete file whose last field is the switch with its name in quotes: the entry stays off however it is turned. |
| SwitchingFiles.WrongEntryFile | src/mco/schedules_plain.py:325-327 | A concrete file with an entry named "cron" for which the search takes the cron field of the entry before it. |
| Switching.LastTurnWins | src/mco/schedules_plain.py:329-342 | Turning a switch twice gives the same lines as the second turn alone. |
| Lcs.Table | bench/planner/analyze.py:14-19 | The table filled row by row holds the value of the recursion for every pair of prefixes, and its last cell is returned. |
| Lcs.LengthIsLongest | bench/planner/analyze.py:14-19 | The value is the length of some common subsequence, and no common subsequence is longer. |
| Lcs.ScoreIs | bench/planner/analyze.py:22-27 | The score is 0 for an empty answer, a division by zero for an answer to an empty expectation, and otherwise twice the length of the longest common subsequence over the sum of the lengths. |
| Lcs.F1Range | bench/planner/analyze.py:22-27 | For two non-empty sequences the score lies between 0 and 1, and is 1 exactly when they are equal. |

## Left out

- Transactions.ReplayGivesJobs: assumes the uuids drawn for evidence are new, and that callers give
  append-only rows text keys that are not cut at a NUL (numbers for events) and do not write rows posing as the
  store's evidence; without that the outbox can be overwritten, as `Constraints.InsertAppendsExactly` says exactly.
- Agreement.PushDownAgrees: an unordered SQLite result is taken in rowid order, as the source expects of a
  table scan; SQLite itself promises no order there, and the column projection is not modelled.
- LocalStore.LocalStore.Execute: waiting between tries is not modelled; which try is refused is an input.
- RateLimit.WindowBound: calls are sequential and the clock is read once per call; threads racing for one
  bucket are not modelled.
- Launcher.Daemon.Tick: the configuration is unchanged over a run and given in name order, launching is an
  input that succeeds with job ids or fails, and jobs a failed launch already made are not tracked.
- PlanObjects.DraftPlan: the clauses arrive as a list saying which are gates; splitting and wording the
  request, with its length checks, is not modelled.
- Rounding: `RateLimit`, `Waker` and `Lcs.F1` compute with exact numbers where the source has floating-point
  ones, so a caller spaced exactly 1 / rate apart can still be refused by a rounding error.
- Switching.SwitchTakesExactly: an entry is read line by line, fields being the lines indented like its first
  one, with a key that is a word, bare or in quotes, or the merge key; or it is a single line with a flow mapping
  or an alias. Anchors, tags and escapes on keys, explicit `?` keys, lists indented like the fields, flow mappings
  and quoted text over several lines, and two entries of one name are not modelled.
- Waker.OneWorkerSpacedApart: the code between two awaits is one step; cancelling tasks is not modelled.
- Store values: floating-point numbers are not modelled (the cost weight 1.0 is the integer 1), nor integers too
  long for Python to print; how Python prints, and SQLite writes, a nested value, and the double SQLite reads a
  larger integer as, are parameters; ordering lists counts as raising; equality of nested values is structural.
- A table that was never created reads as an empty one, so the model raises for an integer that cannot be bound
  even there, where the source returns no rows; SQLite's limits on parameters, statement and nesting depth.
- SQLite's engine, WAL files, indexes and connections; `close`, `rpc`, the lease call and seeding.
- Time zones, daylight saving, and the end of the calendar in the year 9999; cron times are wall-clock minutes.
- Text beyond ASCII: digits, spaces and letter case of other scripts.
- Reading configuration files: YAML and TOML parsing, field checks of launchers, duration texts and time stamps.
- The state file of the daemon: a crash or a damaged file resets counts on purpose.
- Web sockets, tokens, subprocesses and the timer in the waker; a timer re-check is one more trigger.
- Service installation itself, missing-token warnings and the summaries of the fleet command.
- `parse_repeat`, `make_repeat`, `describe_every`, `next_run_words` and `add_schedule`: wording and lookups
  beside the modelled round trip.
- The command line, wizard, dashboard, demo, capture and key-handling modules.
