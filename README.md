# marryme — a verified model of the marriage-and-babies game core

marryme is a group-chat bot game. Members propose to each other with an
@-mention, accept or reject proposals, divorce, and "have babies". Running
totals of babies are shown with crown/sun/moon/star symbols. This project
models the game's core in Dafny and proves properties of it:

- **The gestation registry** (`SessionManager.py`, module `Sessions`). This
  is an in-memory map of running gestations, keyed by the sorted pair of
  user ids. The module also holds the pure helpers beside it:
  - the order-independent key;
  - the draw-to-count thresholds;
  - the place-value count formatter and the display line.
- **The relationship ledger** (`MarriageManager.py`, module `Ledger`). The
  class `Ledger.MarriageManager` holds three tables as sequences: marriage
  requests, marriages and baby records. Each database transaction is one
  method. Every method is proved against query functions on the tables.
- **The logic inside the command handlers** (`__init__.py`, modules
  `Commands` and `Listing`). This covers:
  - the hour window;
  - collecting @-targets;
  - choosing which proposal to accept and rejecting all the others;
  - merging baby records per couple;
  - the page-number argument and pagination.

Shared pieces:

- `Wrappers`: Option and Result.
- `Text`: Python's string order, `str(int)` and decimal parsing.
- `Queries`: the SQL `WHERE` filter and `ORDER BY created_at DESC`.
- `Models`: the table rows from `models.py`.

Modelling choices:

- The clock is a parameter `now` in integer seconds.
- `random.random()` becomes a per-mille draw, `draw` in 0..999. It is
  compared against 500/800/900/950.
- A day starts at `now - now % 86400`.
- A request's `request_id` and a marriage's `marriage_id` are unique
  columns. The primary key, an autoincrement `id`, is not modelled. Their
  uniqueness is part of `MarriageManager.Valid()`. An insert that
  would break it returns an error and changes nothing, as the rolled-back
  transaction does.
- `scalar_one_or_none` finding several rows is the error
  `MultipleResultsFound`.

## Model

| member | source | states |
|---|---|---|
| Sessions.KeyOf | SessionManager.py:19-22 | the key is the pair's two ids with the smaller one (Python string order) first |
| Sessions.KeyOfSymmetric | SessionManager.py:19-22 | the key does not depend on the order in which the pair is given |
| Sessions.KeyOfSamePair | SessionManager.py:19-22 | two pairs share a key iff they are the same unordered pair |
| Sessions.KeyOfSameIds | SessionManager.py:19-22 | the key holds exactly the two ids it was built from, neither lost nor repeated |
| Sessions.AtMostOnePerPair | SessionManager.py:38-54 | in a registry where every process sits under its own pair's key, one unordered pair has at most one process |
| Sessions.BabyProcessManager.StartBabyProcess | SessionManager.py:24-68 | starts iff the pair's key is absent; then inserts exactly that key with the given group, start time and duration; otherwise the registry is unchanged |
| Sessions.SwappedSecondStartFails | SessionManager.py:38-43 | a second start for the same pair given in the other order returns false; the registry ends exactly as the first start left it: the first process added under the pair's key if the key was absent, else unchanged |
| Sessions.BabyProcessManager.CompleteBabyProcess | SessionManager.py:70-77 | removes the pair's key and returns its process; a missing key returns none and leaves the registry unchanged |
| Sessions.BabyProcessManager.IsInBabyProcess | SessionManager.py:143-146 | true iff some process runs for the unordered pair |
| Sessions.BabyProcessManager.GetRemainingTime | SessionManager.py:148-160 | 0 when the pair has no process; otherwise the process's time left, whichever order the pair is given in |
| Sessions.Remaining | SessionManager.py:155-160 | time left is never negative, is 0 exactly when the elapsed time has reached the duration, and otherwise elapsed plus left is the duration |
| Sessions.RemainingShrinks | SessionManager.py:155-160 | time left is between 0 and the duration, never grows as time passes, and is 0 exactly once the duration has elapsed |
| Sessions.BabyProcessManager.Cleanup | SessionManager.py:214-223 | the registry ends empty |
| Sessions.RealisticBabyCount | SessionManager.py:127-141 | the count is at most 4 |
| Sessions.BabyCountMonotone | SessionManager.py:127-141 | a larger draw never gives fewer babies |
| Sessions.BabyCountBand | SessionManager.py:127-141 | count c is drawn exactly on its band of per-mille draws (0-499, 500-799, 800-899, 900-949, 950-999) |
| Sessions.TallyBand | SessionManager.py:127-141 | counting the draws below any bound that give c yields the overlap of that bound with c's band |
| Sessions.BabyCountFrequency | SessionManager.py:127-141 | of the 1000 draws, c babies come from exactly the width of c's band (500/300/100/50/50) |
| Sessions.ValueAppend | SessionManager.py:171-193 | the value of concatenated symbol parts is the sum of their values |
| Sessions.LevelsAppend | SessionManager.py:171-193 | the symbol levels of concatenated parts are the union of their levels |
| Sessions.AssembleLevels | SessionManager.py:179-191 | a part is emitted for a level exactly when its digit is non-zero, or as the single star part when all digits are zero |
| Sessions.CountParts | SessionManager.py:171-193 | each part carries its level's digit; a level appears iff its digit is non-zero; 0 gives the single part star×0 |
| Sessions.DigitsBelowCrown | SessionManager.py:174-177 | the sun, moon and star digits are each below 10 |
| Sessions.AssembleValue | SessionManager.py:179-193 | assembled parts are worth 1000·crowns + 100·suns + 10·moons + stars |
| Sessions.DigitsRecompose | SessionManager.py:174-177 | crowns·1000 + suns·100 + moons·10 + stars equals the count |
| Sessions.CountPartsValue | SessionManager.py:162-193 | the parts of a count are worth exactly that count |
| Sessions.FormatBabyCountSymbols | SessionManager.py:162-193 | the glyph runs of the count's parts, highest level first; its contract lives in CountParts, CountPartsValue and FormatInjective |
| Sessions.AssembleRoundTrip | SessionManager.py:162-193 | decomposing 1000c+100s+10m+t with s, m, t below 10 gives back exactly c, s, m, t |
| Sessions.FormatZero | SessionManager.py:189-191 | 0 is rendered as `🌟x0` |
| Sessions.FormatTwelveThousandThirtyFour | SessionManager.py:162-193 | 12034 is rendered as crown×12, moon×3, star×4, with no sun part |
| Sessions.FormatInjective | SessionManager.py:162-193 | two different counts never render to the same symbol string |
| Sessions.RenderInjective | SessionManager.py:171-193 | rendering (level, digit) parts is injective: equal glyph strings come from equal part lists |
| Sessions.DisplayDeterminesCount | SessionManager.py:195-212 | for the same names, date and index, two display lines are equal only when the counts are equal |
| Sessions.FormatBabyDisplay | SessionManager.py:195-212 | `[index. ]p1 和 p2 的宝宝 <symbols> - date`; DisplayDeterminesCount states what the line determines |
| Text.LexLeTotal | SessionManager.py:21 | any two ids are ordered one way or the other |
| Text.LexLeAntisymmetric | SessionManager.py:21 | ids ordered both ways are equal |
| Text.DecimalString | __init__.py:599-623 | `str(n)` is non-empty, all digits, and has no leading zero |
| Text.DecimalRoundTrip | __init__.py:599-623 | `int(str(n)) == n` |
| Text.DecimalStringInjective | __init__.py:599-623 | different numbers have different decimal strings |
| Text.IntStringInjective | MarriageManager.py:30-32 | different ints, negative ones included, have different `str` forms |
| Queries.Where | MarriageManager.py:50-67 | a filter keeps exactly the rows satisfying the condition, drawn from the table |
| Queries.WhereCounts | MarriageManager.py:50-67 | a filter keeps every copy of a matching row and no copy of another: each row occurs in the result as often as in the table if it matches, else never |
| Queries.OrderNewestFirst | MarriageManager.py:59-63 | `ORDER BY created_at DESC` gives a newest-first permutation of the rows |
| Queries.OrderedMembers | MarriageManager.py:59-63 | ordering neither adds nor drops a row: a row is in the ordered result iff it is in the input |
| Ledger.FindPending | MarriageManager.py:94-104 | locates a pending row with the id, or there is none |
| Ledger.RequestIdFor | MarriageManager.py:30-32 | `proposer_target_group_timestamp`; RequestIdDistinctTimes states when two ids clash |
| Ledger.MarriageIdFor | MarriageManager.py:132 | `marriage_proposer_target`; MarriageIdNamesTarget states that it names the target |
| Ledger.RequestIdDistinctTimes | MarriageManager.py:30-32 | two requests of the same proposer to the same target in the same group share an id only when made in the same second |
| Ledger.CanProposeToday | MarriageManager.py:278-301 | true iff no pending or accepted request of the proposer was created on the calendar day (day number `t // 86400`) of `now` |
| Ledger.MarriageIdNamesTarget | MarriageManager.py:132 | for one proposer, different targets give different marriage ids |
| Ledger.GetPendingRequestById | MarriageManager.py:94-104 | returns a pending row with that id; none iff no such row |
| Ledger.GetPendingRequest | MarriageManager.py:50-67 | none iff no pending request for the target in the group; otherwise such a request, and the newest of them |
| Ledger.PendingIdLocates | MarriageManager.py:94-104 | with unique ids, a pending row is found at its own index |
| Ledger.UpdateStatus | MarriageManager.py:145-166 | an UPDATE … WHERE changes the status of exactly the matching rows and nothing else |
| Ledger.UpdateStatusOneRow | MarriageManager.py:158-168 | with unique ids, an update by the id of a pending row changes only that row |
| Ledger.ExpireAll | MarriageManager.py:220-233 | every row is expired exactly when it is pending and older than the cutoff; other rows are unchanged |
| Ledger.SweepIdempotent | MarriageManager.py:216-236 | after a sweep no stale row is left, and a second sweep changes nothing |
| Ledger.CountStaleBounds | MarriageManager.py:216-236 | the number of expired rows is at most the table size, and is 0 iff no row is stale |
| Ledger.GetUserMarriages | MarriageManager.py:183-193 | exactly the married rows in which the user is proposer or target, each as many times as it occurs in the table |
| Ledger.GetUserMarriage | MarriageManager.py:171-181 | none iff the user has no marriage; the unique marriage if there is one; MultipleResultsFound with two distinct witness rows otherwise |
| Ledger.DivorceWhere | MarriageManager.py:206-212 | exactly the rows with the marriage's id become divorced |
| Ledger.DivorceOneRow | MarriageManager.py:206-212 | with unique marriage ids, divorcing by the id of row i changes only row i, and ids stay unique |
| Ledger.GetTotalBabies | MarriageManager.py:405-437 | never more than the user's own total, and 0 when no record names the user |
| Ledger.UserTotal | MarriageManager.py:428-437 | `SUM(baby_count)` over the records naming the user as either parent; its properties are the lemmas below |
| Ledger.PairTotal | MarriageManager.py:416-426 | `SUM(baby_count)` over the couple's records in either parent order; its properties are the lemmas below |
| Ledger.PairTotalSymmetric | MarriageManager.py:416-426 | a couple's total does not depend on which partner is asked about |
| Ledger.PairTotalAtMostUserTotal | MarriageManager.py:416-433 | a couple's total is at most either partner's own total |
| Ledger.NoRecordsNoBabies | MarriageManager.py:428-437 | a user named in no record has no babies |
| Ledger.TotalsAfterAppend | MarriageManager.py:303-403 | a new record adds its count to the totals of exactly the users and couples it names |
| Ledger.BirthRecord | MarriageManager.py:322-340 | the record carries the marriage id and the count; when the user is in the marriage, the user is parent 1 and the two parents are the marriage's two partners |
| Ledger.GetBabyRecords | MarriageManager.py:439-454 | exactly the records naming the user, each as many times as it occurs in the table, newest first |
| Ledger.KeepFirstPerProposer | MarriageManager.py:80-90 | on newest-first rows: every kept row is one of the given rows, no two kept rows share a proposer, the kept rows stay newest first, and each given row is represented by a kept row of the same proposer at least as new |
| Ledger.MarriageManager.CreateMarriageRequest | MarriageManager.py:18-48 | refused with AlreadyProposedToday if the proposer already proposed today; refused with DuplicateRequestId if the id is taken; otherwise exactly one pending request with id `proposer_target_group_timestamp` is appended |
| Ledger.MarriageManager.GetPendingRequests | MarriageManager.py:69-92 | the target's pending requests in the group; one per proposer, newest first; each proposer's kept request is at least as new as all of theirs |
| Ledger.ListingIdsUnique | MarriageManager.py:69-92 | the pending listing has no two requests with one id |
| Ledger.ListingHeadNewest | MarriageManager.py:69-92 | the first request of a non-empty listing is at least as new as every pending request to the user in the group |
| Ledger.MarriageManager.AcceptMarriageRequest | MarriageManager.py:106-153 | no pending row: false and nothing changes; otherwise the request is accepted and exactly one married marriage `marriage_{proposer}_{target}` with its names and group is appended; existing marriages are not checked |
| Ledger.MarriageManager.RejectMarriageRequest | MarriageManager.py:155-169 | true iff a pending row had the id; only that row becomes rejected |
| Ledger.MarriageManager.Divorce | MarriageManager.py:195-214 | no marriage: false and nothing changes; several: MultipleResultsFound; otherwise that marriage's rows become divorced |
| Ledger.MarriageManager.CleanupExpiredRequests | MarriageManager.py:216-236 | exactly the pending requests created before now − 120 s become expired; their number is returned |
| Ledger.MarriageManager.DailyResetAllData | MarriageManager.py:238-251 | requests and marriages end empty, and baby records are untouched |
| Ledger.MarriageManager.HaveBaby | MarriageManager.py:303-350 | NotMarried iff the user has no marriage; otherwise one record with the user as parent 1 is appended, and the total reported is the one before it |
| Ledger.MarriageManager.HaveBabyWithSpouse | MarriageManager.py:352-403 | NotMarried iff no married row joins the two, in either order; otherwise exactly one record with parent 1 = user and parent 2 = spouse is appended |
| Ledger.MarriageManager.CompleteBabyProcess | SessionManager.py:70-125 | pops the pair's process; NotRunning iff there was none, and then no record is added; the error is swallowed iff a process ran but the pair is not married, and then no record is added; otherwise `RealisticBabyCount(draw)` babies are recorded in the process's group for the pair, with the user as parent 1, and the reported total is the couple's new total |
| Ledger.SecondProposalSameDayRefused | MarriageManager.py:278-301 | once a proposal is recorded, its proposer cannot propose again that day, to anyone |
| Listing.FindCouple | __init__.py:576-591 | locates the couple's merged entry, or there is none |
| Listing.MergeOne | __init__.py:576-591 | merging one record adds at most one entry |
| Listing.Merge | __init__.py:564-591 | the merge has at most one entry per record |
| Listing.MergeByCouple | __init__.py:573-591 | the dictionary loop computes exactly the merge by unordered couple |
| Listing.FoldIn | __init__.py:580-591 | one step of the dictionary loop computes exactly the merge of one record into the entries so far |
| Listing.MergeDistinct | __init__.py:579-587 | each unordered couple appears once after merging |
| Listing.MergeListsAll | __init__.py:573-591 | every couple of the records has an entry, and every entry is a couple of the records |
| Listing.MergeCounts | __init__.py:583-588 | a couple's merged count is the sum of its records' counts |
| Listing.MergeDates | __init__.py:583-591 | a couple's latest date is the maximum `created_at` of its records |
| Listing.MergeNames | __init__.py:583-587 | a couple's names are those of its first record |
| Listing.MergeConserves | __init__.py:573-591 | merging loses and invents no babies: the merged counts sum to the records' total |
| Listing.TotalPages | __init__.py:608-610 | the page count is ⌈records / 5⌉ |
| Listing.PageOf | __init__.py:620-623 | page p holds entries (p−1)·5 onwards, at most 5 of them; it is non-empty up to the last page and full before it |
| Listing.PagesCover | __init__.py:606-623 | pages 1..n laid end to end are the entries' first 5n, and all the entries once n reaches the page count |
| Listing.PagesPrefix | __init__.py:620-623 | pages 1..n laid end to end are exactly the entries before position min(5n, number of entries) |
| Listing.ParseInt | __init__.py:600 | a parse only succeeds on non-empty text |
| Listing.AfterDot | __init__.py:599 | the text after the dot is shorter than the argument |
| Listing.ResolvePageAsWritten | __init__.py:596-616 | the handler as written: one or two replies when the page is refused |
| Listing.PageZeroRepliesTwice | __init__.py:600-603 | `.0` draws both the "must be above 0" and the "must be a number" replies |
| Listing.ResolvePage | __init__.py:596-616 | a shown page is between 1 and the page count; a refusal is one reply; it differs from the as-written handler only where that one replies twice |
| Listing.DotPageShown | __init__.py:596-616 | `.p` with p between 1 and the page count shows page p |
| Listing.DotCodeShown | __init__.py:596-616 | a dot followed by digits whose value is a page that exists shows that page, leading zeros included |
| Listing.ParseDigits | __init__.py:599 | `int()` of a non-empty run of ASCII digits succeeds with their decimal value |
| Commands.WindowIsArc | __init__.py:418-427 | an hour is allowed iff it lies on the clock arc from start (included) to end (excluded), for both plain and wrap-around windows |
| Commands.InAllowedHours | __init__.py:418-427 | the plain test when start ≤ end and the wrap-around test otherwise; WindowIsArc proves both are the arc from start to end |
| Commands.CheckTimeRestriction | __init__.py:418-447 | InWindow iff the hour is allowed; Bypassed iff it is not and the bypass draw succeeded; OutOfWindow otherwise |
| Commands.NightWindow | __init__.py:395-430 | with the default 21–5 window and no bypass, exactly hours ≥ 21 or < 5 pass |
| Commands.CollectAtTargets | __init__.py:57-62 | the segment loop collects exactly the mentions, in message order |
| Commands.Mentions | __init__.py:57-62 | the collected ids are at most one per segment, and none is empty or `all` |
| Commands.MentionsSound | __init__.py:57-62 | every collected target is the qq of some `at` segment with a non-empty qq other than `all` |
| Commands.MentionsComplete | __init__.py:203-208 | every such segment's qq is collected |
| Commands.MentionsAppend | __init__.py:57-62 | collection over a concatenated message is the concatenation of the collections |
| Commands.ProposalTarget | __init__.py:64-74 | succeeds iff there is exactly one target and it is not the proposer; no target and too many targets are refused |
| Commands.ProposalTargetIsMention | __init__.py:57-74 | an accepted proposal target was mentioned in the message |
| Commands.SelectRequest | __init__.py:212-237 | no target: the first request; with a target: the first request whose proposer is the target, or no match iff none is |
| Commands.Others | __init__.py:240-246 | the ids to reject never include the selected one and are no more than the pending requests |
| Commands.OthersFromPending | __init__.py:240-246 | every id to reject is the id of one of the pending requests |
| Commands.OthersComplete | __init__.py:240-246 | every pending request whose id is not the selected one is to be rejected |
| Commands.RejectListed | __init__.py:240-250 | rejecting the others of a listing turns exactly the listed requests other than the chosen one into rejected rows, and leaves every other row as it was |
| Commands.OthersCount | __init__.py:240-250 | with unique ids and the selected id among them, the number of ids to reject is len(pending) − 1 |
| Commands.NoneOthers | __init__.py:240-250 | when no request has the selected id, every request is rejected |
| Commands.RejectEachEffect | __init__.py:240-250 | rejecting a list of ids turns exactly the pending rows with those ids into rejected |
| Commands.RejectOthers | __init__.py:240-250 | the loop leaves the requests as rejecting all the others would; the count is the number of others; marriages and babies are untouched |
| Commands.SettleChosen | __init__.py:239-275 | the reject loop then the accept: the count is len(listing) − 1; the others become rejected; the chosen request becomes accepted with its marriage appended iff the marriage id was free, and otherwise stays pending with the marriages unchanged |
| Commands.SelectedSurvives | __init__.py:240-250 | a request whose id is not rejected keeps its row |
| Commands.HandleAccept | __init__.py:182-275 | the listing is `get_pending_requests` for the accepter; nothing pending or no match for the @-target: no table changes; otherwise the chosen request is the @-target's, or the newest pending one when there is no target; on a wedding, every other listed request is rejected, the chosen one accepted, all other rows unchanged, reject_count = len(pending) − 1, and exactly that marriage appended; when the marriage id is taken, the others are still rejected, the chosen one stays pending and no marriage is added |
| Commands.RemainingMinutes | __init__.py:515 | at least 1 minute; otherwise the whole minutes of the remaining seconds |

## Left out

- Chat I/O is not modelled. This covers sending and finishing replies,
  building message segments, the randomly chosen reply texts and logging.
  It has no effect on the game's state.
- Locks, the job scheduler and background timing are not modelled. This
  covers:
  - `asyncio.Lock`;
  - `scheduler.add_job` and `remove_job`;
  - the `create_task` sleep-120 expiry in `handle_marry`;
  - the cron and interval jobs and scheduler shutdown.
  Every call is one sequential atomic step, and expiry is the explicit
  `CleanupExpiredRequests(now)`.
- Clocks and randomness are inputs:
  - `now` is in integer seconds;
  - the baby draw is a per-mille integer;
  - the bypass in `check_time_restriction` is a boolean `bypass`;
  - the random gestation duration is a parameter.
  Floats, time zones and daylight-saving changes are not modelled. Timestamps
  compared as ISO strings are compared as integers.
- The avatar download (`download_avatar_as_image`) is network I/O.
- User preferences and `divorce_with_spouse` are not part of this model.
  The handlers that call them are left out with them: the divorce handler
  (a second function named `handle_marry`, registered on the divorce
  command at `__init__.py:697-698`) and `handle_preference`.
- `handle_reject` and `handle_check_marriage` are not modelled as
  handlers. Beyond reply formatting and chat I/O they only call ledger
  operations that are modelled: `handle_reject` calls
  `Ledger.GetPendingRequest` and then
  `Ledger.MarriageManager.RejectMarriageRequest`, and
  `handle_check_marriage` calls `Ledger.GetUserMarriages`.
- The group member lookup in `handle_marry` is bot I/O.
- The `handle_have_baby` handler itself is left out: it reads preferences,
  looks up the spouse and schedules the completion job. The model has the
  pieces it calls instead: the registry's start and running check
  (`Sessions.BabyProcessManager`), the remaining-minutes text
  (`Commands.RemainingMinutes`) and the completion
  (`Ledger.MarriageManager.CompleteBabyProcess`).
- Sessions.KeyOf: the key is the ordered pair, not the `"a&b"` string the
  merge in `handle_check_babies` uses. The string form can collide when an
  id contains `&`. Chat ids are digit strings, so the pair is used
  throughout.
- Queries.OrderNewestFirst: rows with equal `created_at` may come out in
  any order. The database's tie order is not specified.
- Listing.ParseInt: models `int()` on an optional sign followed by ASCII
  digits. It does not accept surrounding whitespace, `_` separators or
  non-ASCII digits.
- Ledger.MarriageManager.CompleteBabyProcess: the completion message goes
  to the chat and is not modelled. The outcome carries the count, the
  symbol display and the total that message is built from.
- Sessions.FormatBabyCountSymbols: the glyph strings are fixed. The
  proofs are about the (level, digit) parts behind them.
- Sessions.FormatBabyCountSymbols: the count is a `nat`. The source takes
  any `int`; a negative count would be floor-divided into digits. Counts
  are sums of non-negative draws, so no caller passes one.
- Sessions.FormatBabyDisplay: the index is an `Option<nat>`. The source
  takes any `int` and would print a negative one as `-1. `. The listing
  numbers entries from 1, so no caller passes one.

## Findings

| source | as written | input that shows it | evidently intended | confidence | as-written member | corrected member |
|---|---|---|---|---|---|---|
| __init__.py:600-603 | `finish("页码必须大于0！")` runs inside `try … except Exception`. The finish exception derives from `Exception`, so the handler catches it and sends a second reply, `.后面必须跟数字页码！`. | the argument `.0` (any page below 1) | a single reply saying the page must be above 0 | medium, not executed | Listing.PageZeroRepliesTwice | Listing.ResolvePage |
