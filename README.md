# Ambassador points ledger, modelled in Dafny

This project models the scoring and ledger engine of the ambassador points
program. Administrators mark three daily activities per ambassador: a story
("S"), a post ("P") and a product purchase ("U"). The server turns the marks
into points, keeps manual point adjustments, and ranks the ambassadors on a
leaderboard.

Two versions of the server are modelled:

- `server/index.js`, the current version. Story, post and product weigh
  50, 100 and 150 points. Manual adjustments are stored next to the day
  logs.
- `api/index.js`, the older version. The weights are 100, 150 and 300, and
  there are no adjustments.

Modules:

- `Seqs` (seqs.dfy): the array operations the handlers are built from.
  These are `find`/`findIndex` (the first match), `filter`, `reduce` with
  `+`, and `splice(i, 1)`. Lemmas cover sums over filtered sequences.
- `Text` (text.dfy): the string operations.
  - `trim`, over the full set of JavaScript white space.
  - `toLowerCase`, on ASCII letters.
  - `slice(0, n)` and `startsWith`.
  - The order that `localeCompare` gives on date strings.
- `Ranking` (ranking.dfy): `Array.prototype.sort` with a comparator.
  - The sort is stable, so for a consistent comparator its result is fixed.
    `Sort` defines that result by insertion.
  - The lemmas prove the result sorted, a permutation, and stable.
  - `SortInPlace` is an in-place insertion sort on an array, proved equal
    to `Sort`.
- `Ledger` (ledger.dfy): the parts shared by both versions.
  - The records, the day score, the lookups and `ensureDayLog`.
  - The derived totals, the delete cascade and the invariants.
  - The leaderboard entries, their comparators, and the facts about the
    sorted leaderboard.
- `DayLogMachine` (daylog.dfy): mark and unmark, which are identical in both
  versions. Each is a function from the state before a request to the reply
  and the new logs. The lemmas state the replies, which flags change, the
  points and the invariants, along with round trips across several requests.
- `Server` (server.dfy) and `Api` (api.dfy): one per version.
  - The in-memory document `db.data` is a class `Db`, and each route
    handler is a method on it.
  - The mutating handlers keep the invariant `Valid()` and state their new
    state exactly.
  - The read-only handlers build an array and sort it in place, as the
    source does.
  - Validation that is a single expression in the source is a function. It
    comes with lemmas about what it answers.

Parameters stand in for the clock and the random or time-based ids: `today`,
which is `todayStr()`, and `freshId`. Writing the document to disk
(`db.write()`) changes no state the model sees, so it is omitted.

Three behaviours of the code that the model keeps as written:

- **Adjustment delta of 0.** Adjust rejects only a delta that is not finite
  or whose magnitude exceeds 50000, so it accepts a delta of 0
  (`server/index.js:206-207`). `Server.Db.Adjust` accepts it too.
- **Rejected marks can still add a log.** A mark with an unknown type still
  runs `ensureDayLog` before it answers 400, so the 400 reply can leave a new
  empty log behind (`server/index.js:163`, `174`). `DayLogMachine.MarkedLogs`
  states this, and `DayLogMachine.MarkedPoints` shows that the extra log
  scores nothing.
- **Ids may collide.** Ids come from `Math.random` or `Date.now`, so two
  records can share one. The model takes the id as a parameter and does not
  assume it is unused. `DeleteAdjustment` removes the first adjustment with
  the id, as `findIndex` does.

## Model

| member | source | states |
|---|---|---|
| Ledger.DayOf | server/index.js:158 | A missing or empty date means today. Server.Db.Mark and Server.Db.Unmark state their effect on DayOf of the given date |
| Ledger.DayScore | server/index.js:51 | scoreOf under given weights: at most the sum of the three weights, 0 when nothing is marked and the full sum when everything is. WithFlagScore states what each flag adds |
| Server.ScoreOf | server/index.js:50-51 | A day scores a multiple of 50 between 0 and 300: 0 exactly when no activity is marked, 300 exactly when all three are |
| Api.ScoreOf | api/index.js:28 | A day scores one of 0, 100, 150, 250, 300, 400, 450 and 550: 0 exactly when nothing is marked, 550 exactly when all three are |
| Ledger.WithFlag | server/index.js:165-174 | Setting one activity flag sets that flag and keeps the other two flags, the id, the ambassador and the date |
| Ledger.WithFlagScore | server/index.js:50-51 | Setting or clearing one flag moves the day's score by exactly that activity's weight |
| Ledger.FindAmbassador | server/index.js:160 | The lookup returns the first ambassador with the id; it returns nothing exactly when no stored ambassador has that id |
| Ledger.FindLog | server/index.js:54 | The log lookup returns the first log with that ambassador and date; it returns nothing exactly when there is none |
| Ledger.FindLogUpdate | server/index.js:167-173 | Rewriting a log's flags leaves every (ambassador, date) lookup where it was |
| Ledger.FindLogAppend | server/index.js:56-57 | Appending a log keeps every existing lookup; a lookup that found nothing now finds the new log exactly when it has that key |
| Ledger.EnsureDay | server/index.js:53-59 | Returns a log with the key. It appends exactly one all-false log with id ambassadorId-date when none existed. Otherwise it changes nothing. The old logs stay a prefix |
| Ledger.EnsureDayKeepsKeysUnique | server/index.js:53-59 | ensureDayLog keeps at most one log per (ambassador, date) |
| Ledger.EnsureDayPoints | server/index.js:56-57 | ensureDayLog changes nobody's points |
| Server.Db.EnsureDayLog | server/index.js:53-59 | Pushes onto the logs exactly as EnsureDay says and leaves the other collections alone |
| Api.Db.EnsureDayLog | api/index.js:30-36 | The same per-day log creation in the older version |
| Ledger.Roster | server/index.js:101-112 | One row per ambassador in stored order, each with that day's stored flags, or all false when the day has no log |
| Ledger.LogPoints | server/index.js:221-223 | An ambassador's day points, the sum of scoreOf over that ambassador's logs. LogPointsBounds, UpdatePoints and EnsureDayPoints state its bounds and how it moves |
| Ledger.LogPointsBounds | server/index.js:221-223 | An ambassador's day points are at least 0 and at most the number of their logs times the sum of the weights |
| Ledger.UpdatePoints | server/index.js:167-173 | Rewriting one log's flags changes only its owner's points, by the change in that day's score |
| Ledger.AdjustmentPoints | server/index.js:60-63 | sumAdjustments, the sum of one ambassador's deltas. AppendAdjustmentPoints and RemoveAdjustmentPoints state how it moves when adjustments are added or deleted |
| Ledger.Total | server/index.js:221-225 | An ambassador's total: day points plus adjustment points, always recomputed from the collections. CascadeTotal, Server.Db.Adjust and Server.Db.DeleteAdjustment state how it changes |
| Ledger.AppendAdjustmentPoints | server/index.js:60-63 | Appending an adjustment adds its delta to its owner's adjustment sum and to nobody else's |
| Ledger.RemoveAdjustmentPoints | server/index.js:60-63 | Removing an adjustment takes its delta off its owner's adjustment sum and nobody else's |
| DayLogMachine.EnsureDayFlags | server/index.js:163 | ensureDayLog changes no flag that the admin listing shows |
| DayLogMachine.FlagUpdate | server/index.js:165-173 | Rewriting one flag of a found log changes that flag of that day and nothing else the listing shows |
| DayLogMachine.MarkedReply | server/index.js:156-178 | Mark answers 404 exactly for an unknown ambassador, 400 exactly for an unknown type, 409 exactly when the flag is already set, and success otherwise |
| DayLogMachine.MarkedLogs | server/index.js:160-174 | A 404 or 409 leaves the logs unchanged. A 400 leaves them unchanged or with one empty log appended. A success returns the stored log of that day |
| DayLogMachine.MarkedFlags | server/index.js:165-173 | A successful mark sets exactly the targeted flag of that day. Every other flag of every day reads as before, as does every flag after a refused mark |
| DayLogMachine.MarkedPoints | server/index.js:163-173 | A successful mark adds the activity's weight to that ambassador's points. No other outcome, and no other ambassador, gains anything |
| DayLogMachine.MarkedInvariant | server/index.js:163 | Mark keeps one log per (ambassador, date) and adds logs only for stored ambassadors |
| DayLogMachine.UpdateKeepsInvariant | server/index.js:167-173 | Rewriting a log's flags keeps both log invariants |
| DayLogMachine.UnmarkedReply | server/index.js:180-197 | Unmark answers 404 exactly for an unknown ambassador or a day without a log and 400 exactly for an unknown type. It never answers 409 |
| DayLogMachine.UnmarkedFlags | server/index.js:187-192 | A successful unmark clears exactly the targeted flag of that day, whatever its value was. Every other flag reads as before. A refused unmark changes nothing |
| DayLogMachine.UnmarkIdempotent | server/index.js:190-192 | Unmarking twice gives the same logs and reply as unmarking once |
| DayLogMachine.UnmarkedPoints | server/index.js:190-192 | A successful unmark takes the weight off that ambassador's points when the flag was set, and changes nobody else's |
| DayLogMachine.UnmarkedInvariant | server/index.js:187-192 | Unmark keeps both log invariants |
| DayLogMachine.MarkTwiceConflicts | server/index.js:165-173 | Marking the same activity of the same day again after a success answers 409 |
| DayLogMachine.MarkUnmarkMark | server/index.js:156-197 | Mark, then unmark, then mark of the same activity and day all succeed |
| DayLogMachine.MarkTwoActivities | server/index.js:165-173 | Two marks of different activities on one day both succeed and leave both flags set |
| DayLogMachine.Marked | server/index.js:156-178 | The mark transition adds at most one log, and a success returns a log for that ambassador and day that is stored. MarkedReply, MarkedLogs, MarkedFlags, MarkedPoints and MarkedInvariant state the rest |
| DayLogMachine.Unmarked | server/index.js:180-197 | The unmark transition never adds a log and never answers 409, and a success returns the stored log of that ambassador and day. UnmarkedReply, UnmarkedFlags, UnmarkedPoints and UnmarkedInvariant state the rest |
| Server.Db.Mark | server/index.js:156-178 | The handler computes exactly Marked on the current state, with a missing date meaning today, and keeps the invariant |
| Server.Db.Unmark | server/index.js:180-197 | The handler computes exactly Unmarked on the current state, with a missing date meaning today, and keeps the invariant |
| Api.Db.Mark | api/index.js:151-175 | The older handler computes the same Marked transition and keeps the invariant |
| Api.Db.Unmark | api/index.js:178-195 | The older handler computes the same Unmarked transition and keeps the invariant |
| Server.KeptAvatar | server/index.js:131-133 | An avatar is kept when it is empty, starts with http:// or https:// in any case, or starts with data:image/. Anything else becomes empty |
| Server.Added | server/index.js:116-136 | Creation never answers 404, and a created ambassador has the fresh id and non-empty name, username and pin. AddedReply states each reply exactly |
| Server.AddedReply | server/index.js:116-136 | Creation answers 400 exactly when a trimmed name, username or pin is empty, and 409 exactly when the trimmed username is taken ignoring case. Otherwise it stores the trimmed fields under the fresh id, with the avatar passed through the avatar filter |
| Server.AddedKeepsUsernamesDistinct | server/index.js:126-129 | A successful creation keeps usernames distinct ignoring case |
| Server.RemoveKeepsUsernamesDistinct | server/index.js:150 | Removing an ambassador keeps usernames distinct |
| Server.Db.AddAmbassador | server/index.js:115-140 | Replies as Added and appends the new ambassador only on success. Logs and adjustments are unchanged and the invariant is kept |
| Server.Login | server/index.js:76-83 | Login finds the first ambassador whose lower-cased username equals the trimmed, lower-cased input and whose pin equals the trimmed pin. It finds none exactly when no ambassador matches |
| Server.AddedThenLogin | server/index.js:77-80 | A newly created ambassador can log in with their username and pin in any case and with surrounding white space |
| Api.Added | api/index.js:101-120 | Creation never answers 404, and a created ambassador has the fresh id and non-empty name, username and pin. AddedReply states each reply exactly |
| Api.AddedReply | api/index.js:101-120 | Creation answers 400 exactly when a trimmed required field is empty, and 409 exactly when a stored trimmed username matches ignoring case. Otherwise it stores exactly the trimmed fields |
| Api.AddedKeepsUsernamesDistinct | api/index.js:110-112 | A successful creation keeps trimmed usernames distinct ignoring case |
| Api.RemoveKeepsUsernamesDistinct | api/index.js:139 | Removing an ambassador keeps usernames distinct |
| Api.Db.AddAmbassador | api/index.js:87-129 | Replies as Added and appends the new ambassador only on success, keeping the invariant |
| Api.Login | api/index.js:49-59 | Login compares trimmed, lower-cased usernames and trimmed pins, and finds the first match or none |
| Api.AddedThenLogin | api/index.js:50-56 | A newly created ambassador can log in with the username and pin given at creation |
| Ledger.WithoutLogsOf | server/index.js:147 | After the cascade, the logs are exactly the old logs of every other ambassador |
| Ledger.WithoutAdjustmentsOf | server/index.js:148 | After the cascade, the adjustments are exactly the old adjustments of every other ambassador |
| Ledger.WithoutLogsOfLogs | server/index.js:147 | After the cascade the removed ambassador owns no logs. Every other ambassador owns the same logs in the same order |
| Ledger.WithoutAdjustmentsOfAdjustments | server/index.js:148 | After the cascade the removed ambassador has no adjustments. Everyone else's adjustments are unchanged |
| Ledger.CascadeTotal | server/index.js:147-148 | The cascade brings the removed ambassador's total to 0 and leaves every other total unchanged |
| Ledger.KnownAfterRemove | server/index.js:150 | Removing one ambassador leaves every other id as known as before |
| Ledger.AppendKeepsOwnership | server/index.js:137 | Adding an ambassador keeps every log and adjustment owned by a stored ambassador |
| Ledger.CascadeKeepsOwnership | server/index.js:147-150 | After the cascade every remaining log and adjustment still belongs to a stored ambassador |
| Ledger.FilterKeepsKeysUnique | server/index.js:147 | Filtering the logs keeps at most one log per (ambassador, date) |
| Ledger.WithoutLogsKeepsKeysUnique | server/index.js:147 | The cascade keeps at most one log per (ambassador, date) |
| Server.CascadeKeepsConsistent | server/index.js:142-153 | Deleting an ambassador with the cascade keeps the whole document invariant |
| Server.Db.DeleteAmbassador | server/index.js:142-153 | 404 with no change exactly for an unknown id. Otherwise it removes the first ambassador with the id and all of that id's logs and adjustments; that id's total becomes 0 and every other total is unchanged |
| Api.CascadeKeepsConsistent | api/index.js:132-148 | Deleting an ambassador and that ambassador's logs keeps the invariant |
| Api.Db.DeleteAmbassador | api/index.js:132-148 | 404 with no change exactly for an unknown id. Otherwise it removes the ambassador and every log of that id; everyone else keeps their logs |
| Server.NewAdjustment | server/index.js:211-217 | The stored adjustment keeps the delta. Its note is the first 300 elements of the input, or all of it when shorter. Its date is today when none is given, otherwise the first 10 elements of the given date, or all of it when shorter. Elements are characters, not UTF-16 code units, as "## Left out" records |
| Server.DeltaAccepted | server/index.js:206-207 | A delta is accepted when it is finite and at most 50000 in magnitude, 0 included. Server.Db.Adjust answers 400 exactly when it is not |
| Server.Db.Adjust | server/index.js:200-231 | 404 exactly for an unknown ambassador and 400 exactly for a delta that is not finite or exceeds 50000 in magnitude; 0 is accepted. A success appends the adjustment and returns the recomputed total, which is the old total plus the delta |
| Server.AppendAdjustmentKeepsConsistent | server/index.js:211-218 | Appending an adjustment whose owner is a stored ambassador keeps the invariant |
| Server.Selected | server/index.js:234-237 | Without an ambassador id the listing is every stored adjustment. With one it is exactly the stored adjustments of that ambassador, none missing and no other |
| Server.Db.ListAdjustments | server/index.js:233-240 | The listing is sorted by date and is a permutation of the selected adjustments. Adjustments with equal dates keep their stored order |
| Server.FindAdjustment | server/index.js:244 | Finds the first adjustment with the id, or none exactly when no adjustment has it |
| Server.RemoveAdjustmentKeepsConsistent | server/index.js:246 | Removing an adjustment keeps the invariant |
| Server.Db.DeleteAdjustment | server/index.js:242-249 | 404 with no change exactly when no adjustment has the id. Otherwise it removes the first such adjustment, and its owner's total drops by exactly its delta while nobody else's moves |
| Ledger.Standings | server/index.js:253-258 | One entry per ambassador in stored order, carrying that ambassador's total |
| Ledger.HigherOrEqualPreorder | server/index.js:259 | The comparator (x, y) => y.total - x.total is consistent: total and transitive |
| Ledger.RankedOrder | server/index.js:259 | The sorted leaderboard never increases in total down the list and is a permutation of the entries |
| Ledger.RankedEntries | server/index.js:253-259 | Every leaderboard entry is a stored ambassador with that ambassador's total |
| Ledger.RankedStable | server/index.js:259 | Entries with equal totals keep the stored order of the ambassadors |
| Server.Db.Leaderboard | server/index.js:252-261 | Returns the stable sort of the entries by total. It is non-increasing, a permutation, and each entry has its ambassador's logs score plus adjustments |
| Api.TotalOf | api/index.js:199-202 | An ambassador's total in the older version counts day scores only, lies between 0 and 550 per log, and equals the shared total with no adjustments |
| Api.Db.Leaderboard | api/index.js:198-206 | The older leaderboard is sorted non-increasing and is a permutation of the entries. Each total is the logs-only total |
| Ledger.LogNotLaterPreorder | server/index.js:315 | Ordering logs by date string is consistent: total and transitive |
| Ledger.AdjustmentNotLaterPreorder | server/index.js:238 | Ordering adjustments by date string is consistent: total and transitive |
| Ledger.LogsByDate | server/index.js:315-316 | One ambassador's sorted logs are in date order and are exactly that ambassador's logs. Summing their scores gives that ambassador's day points |
| Server.Db.AmbassadorLogs | server/index.js:310-321 | 404 exactly for an unknown id. Otherwise it returns the ambassador and that ambassador's logs sorted by date, and a total equal to the ambassador's logs score plus adjustments |
| Api.Db.AmbassadorLogs | api/index.js:209-220 | 404 exactly for an unknown id. Otherwise it returns that ambassador's logs sorted by date, and the sum of their scores |
| Server.Db.constructor | server/index.js:43-46 | The document starts empty and consistent |
| Api.Db.constructor | api/index.js:22-24 | The document starts empty and consistent |
| Ranking.Insert | server/index.js:259 | Insertion adds exactly the one element |
| Ranking.Sort | server/index.js:259 | The sort keeps exactly the same elements |
| Ranking.InsertSorted | server/index.js:259 | Inserting into a sorted sequence under a consistent comparator keeps it sorted |
| Ranking.SortSorted | server/index.js:259 | The sort's result is ordered by a consistent comparator |
| Ranking.InsertTied | server/index.js:259 | Insertion places the new element last among the elements tied with it |
| Ranking.SortStable | server/index.js:259 | The sort is stable: every class of tied elements keeps its input order |
| Ranking.SumInsert | server/index.js:316 | Inserting an element adds exactly its term to a sum |
| Ranking.SumSort | server/index.js:316 | Summing the sorted sequence gives the same sum |
| Ranking.InsertAt | server/index.js:259 | When every element from position j on may not stay ahead of x and the one before j may, Insert puts x exactly at j |
| Ranking.ShiftPast | server/index.js:259 | The inner loop of the in-place sort shifts right exactly the trailing elements that may not stay ahead of x, stops behind one that may, and leaves the rest of the array alone |
| Ranking.InsertInPlace | server/index.js:259 | Moving one element left into a sorted prefix of an array yields Insert of the prefix and leaves the rest of the array alone |
| Ranking.SortInPlace | server/index.js:259 | The in-place sort leaves the array equal to Sort of its old contents |
| Seqs.FirstIndex | server/index.js:144 | findIndex: the first position that matches, with no match before it, or none exactly when nothing matches |
| Seqs.Filter | server/index.js:147 | filter keeps only elements of the input that satisfy the predicate |
| Seqs.FilterKeepsAll | server/index.js:147 | filter keeps every element of the input that satisfies the predicate |
| Seqs.FilterNarrow | server/index.js:147 | Filtering by "not the removed ambassador" and then by another ambassador gives that ambassador's records |
| Seqs.FilterExclusive | server/index.js:147 | Filtering by "not the removed ambassador" and then by the removed ambassador gives nothing |
| Seqs.RemoveAt | server/index.js:150 | splice(i, 1) drops exactly the element at i and shifts the rest down |
| Seqs.SumFilterUpdate | server/index.js:167-173 | Replacing one element changes a filtered sum by exactly the change at that element |
| Seqs.SumFilterRemoveAt | server/index.js:60-63 | Removing one element lowers a filtered sum by exactly that element's share |
| Seqs.SumFilterAppend | server/index.js:60-63 | Appending one element raises a filtered sum by exactly its share |
| Text.TrimStart | server/index.js:117-120 | Drops exactly the leading white space |
| Text.TrimEnd | server/index.js:117-120 | Drops exactly the trailing white space |
| Text.Trim | server/index.js:117-120 | The result is a window of the input with only white space before and after it, and it neither starts nor ends with white space |
| Text.TrimWindow | server/index.js:117-120 | Trimming the end of what TrimStart leaves removes exactly the leading and the trailing white space and keeps the window between |
| Text.TrimIdempotent | server/index.js:117-122 | Trimming twice gives the same as trimming once |
| Text.TrimEmpty | server/index.js:122 | A field is empty after trimming exactly when it is all white space |
| Text.Lower | server/index.js:126 | Lower-casing keeps the length, maps each ASCII capital to its small letter at the same position, keeps every other character, and leaves no ASCII capital |
| Text.LowerIdempotent | server/index.js:77-80 | Lower-casing twice gives the same as lower-casing once |
| Text.Take | server/index.js:214-216 | slice(0, n) is the prefix of exactly n elements, or the whole string when it is shorter. Elements are characters here and UTF-16 code units in the source, as "## Left out" records |
| Text.NotAfterTotal | server/index.js:238 | Any two date strings are comparable |
| Text.NotAfterTransitive | server/index.js:238 | The date order is transitive |
| Text.NotAfterAntisymmetric | server/index.js:238 | Dates ordered both ways are equal |

## Left out

- HTTP routing, CORS, body parsing, the health route and the HTML pages
  are left out. The HTML leaderboard sorts exactly as the JSON one does.
- The admin password branch of login is left out, because it is
  authentication and not ledger logic. So are the end-date configuration
  routes, which only store a value.
- Persistence with lowdb (`db.read`, `db.write`) is file I/O and is left out.
  Each handler's change to the in-memory document is modelled.
- Request fields are modelled as strings. JSON values of other types are
  left out, and so are the exceptions they cause and the 500 replies of the
  try/catch blocks. For example, `(username ?? "").trim()` throws for a
  numeric username (`server/index.js:77`). A numeric `date` in a mark is
  stored as a number (`server/index.js:158`), after which `localeCompare`
  throws in the logs listing (`server/index.js:315`).
- The clock and id generation are left out. `todayStr()` is the parameter
  `today`; `Math.random` and `Date.now` ids are the parameter `freshId`.
  Their uniqueness is not assumed.
- Server.Db.Adjust: the delta is what `Number(delta)` gives. `None` stands
  for NaN or an infinity, and `Some(d)` for an integer. Fractional deltas
  are not modelled, since the ledger treats scores as integers.
- Text.Lower: `toLowerCase` is modelled on ASCII letters only, because
  full Unicode case mapping is out of scope. For usernames outside ASCII,
  the case-insensitive comparisons are therefore stricter than the
  source's.
- Text.NotAfter: `localeCompare` is modelled as code-point order of the
  characters, which is how it orders ISO date strings. Locale-specific
  collation of other strings is not modelled.
- Text.Take: strings are sequences of Unicode characters, and JavaScript
  strings are sequences of UTF-16 code units. `slice(0, n)` counts code
  units, so a cut inside a surrogate pair keeps the whole character in the
  model and only its high surrogate in the source. Trimming is not affected,
  since every white-space character lies in the Basic Multilingual Plane.
- Server.NewAdjustment: the note is cut at 300 characters and the date at 10
  characters, not at 300 and 10 UTF-16 code units as in the source. A note
  with a character outside the Basic Multilingual Plane across position 300
  keeps that whole character in the model and half of it in the source.
- Server.Db.Adjust, Server.Db.Mark, Server.Db.Unmark, Api.Db.Mark and
  Api.Db.Unmark: each handler is modelled as one atomic step. In the source
  the handler builds its reply only after `await db.write()`
  (`server/index.js:176-177`, `195-196`, `219-226`; `api/index.js:173-174`,
  `193-194`). Another request can run during that wait and change the log or
  the total that the source then returns. For example, a delete of the same
  ambassador during an adjust's write makes the adjust answer total 0. The
  model answers the old total plus the delta.
- Logs are values in a sequence. The handlers' in-place update of a log
  object is an update at that log's position, which is observably the same,
  because each log object is referenced only from the collection.
- Server.Db.AddAmbassador and Api.Db.AddAmbassador return the reply of the
  pure validation `Added` and push the new ambassador. The trimming and
  the duplicate check are single expressions in the source.
- Status codes 200 and 201 are both `Ok`, and the replies' `ok` flags and
  error messages are not modelled.
- The client code (React pages, countdown, podium and API wrapper) is not
  part of this model.
