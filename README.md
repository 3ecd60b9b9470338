# Premier League Match Predictor — a Dafny model of its core

Users sign up with a username and a PIN. They predict the outcome (`HOME`,
`AWAY` or `DRAW`) of upcoming Premier League matches and later ask the
service to evaluate those predictions against finished results. Each
correct prediction adds one point to the user's score. The leaderboard ranks
users by winning rate, which is score divided by number of predictions.

This project models the service's core in Dafny 4.11 and proves properties
of that model. It has one module per part of the program:

| module | file | models |
|---|---|---|
| `Wrappers` | `wrappers.dfy` | `Option` and `Result` |
| `Text` | `text.dfy` | the Python string operations the core relies on: `str(int)`, `upper`, `lower`, `",".join`, `split`, string `<` |
| `Store` | `store.dfy` | a DynamoDB table: scan order, rows keyed by the key schema, paged filtered `scan`, unconditional `put_item`, upserting `update_item`, `get_item`, and the `dynamo_error_handler` decorator |
| `Leaderboard` | `leaderboard.dfy` | the `heapq` top-`limit` selection and the final sort of `fetch_top_users` |
| `UsersTable` | `users.dfy` | `db/users_table_manager.py`: the class `UserManager` over a `Store.Table` |
| `PredictionsTable` | `predictions.dfy` | `db/predictions_table_manager.py`: the class `PredictionsManager` over a `Store.Table` |
| `FootballApi` | `football.dfy` | `football_api_model.py`: the `TIMED` filter, the tagging of upcoming matches with the user's predictions, the `ids` parameter |
| `App` | `app.dfy` | `main.py`: the handlers `auth`, `get_matches`, `post_matches` and `evaluate_user_score`, as the class `Service` over the two repositories |

The repositories and handlers are classes whose methods change the tables
in place. Each such method is proved against a function of the tables'
contents before the call:

- `Store.AfterPut` and `Store.AfterUpdate` describe single writes.
- `PredictionsTable.ScanLoop` and `PredictionsTable.Drain` describe the scan
  loops.
- `Leaderboard.Heap` describes the heap loop.
- `App.Evaluation` is the reference definition of the whole
  `evaluate_user_score` handler.

The lemmas about these functions state what the service promises:

- where a submission is stored, and that resubmitting replaces it;
- that only well-formed, pending, own records are evaluated;
- what the nested evaluation loop writes, and which outcome each record ends up
  with;
- that the new score is the stored score plus the correct predictions, and
  that a failed read of the user makes a write overwrite the stored score;
- that the leaderboard is a top-`limit` selection, sorted by rate.

The environment is modelled explicitly:

- Each table has two constant sets of keys on which the store raises:
  `failing` for puts and updates and `readFailing` for gets. They are
  independent, so a read of a row can fail while the write that follows it
  succeeds. Each table also has a `pageSize`, the number of rows one scan page
  examines.
- The access token's user id, the provider's answers, the id that
  `uuid.uuid4()` draws and the password hash functions are all parameters.

Where the code does something other than its own comments and branches
suggest, the model follows what the code does:

- **Only the last scan page is returned.** `get_records_to_evaluate` loops
  "to fetch all uncounted records" (its comment at
  `db/predictions_table_manager.py:79`). In `_scan_with_filter`, though, the items of every page go into a list that is
  thrown away, and only the last page scanned is returned (`response["Items"]`).
  A page the loop skips because its cursor belongs to another user is lost
  (`PredictionsTable.SkippedPageIsLost`). Only on a table that fits in one
  page is the drain complete (`PredictionsTable.SinglePageDrain`).
- **A failed update does not abort.** `evaluate_user_score` has a branch
  `if not response: return jsonify("Failed")` after each update
  (`main.py:137-138`). But `update_record` is wrapped by `dynamo_error_handler`,
  so it always returns a non-empty dictionary, and `if not response` never
  fires. The `"Failed"` response is therefore unreachable, and a failing
  write does not stop the evaluation or the score update (`App.EvalResponse`
  has no such case).
- **`score <= prediction_counts` is not enforced.** Nothing enforces it:
  resubmitting a prediction for the same match replaces the record
  (`App.ResubmissionReplaces`) but counts it again. The rate lies in
  `[0, 1]` only when the invariant happens to hold
  (`UsersTable.WinningRateIsQuotient`).
- **`check_if_user_exists` reads one scan page.** On a table larger than one
  page a user can be missed, and a second account can be created for the same
  name. Completeness is proved for a one-page table only
  (`UsersTable.CheckIfUserExistsOnOnePage`).
- **A non-string `match_id` raises.** A stored `match_id` that is not a
  string makes `",".join` raise, so the handler fails (`App.MatchIds`).
- **`update_record` upserts.** On a missing key it creates a row holding the
  key and the new attributes, as DynamoDB's `update_item` does
  (`Store.AfterUpdate`).
- **A failed read of the user loses the stored counter.** `get_user` answers a
  failed read with an error dictionary, and `.get('score', 0)` and
  `.get('prediction_counts', 0)` read 0 from it. When the write that follows
  succeeds, the evaluation overwrites the stored score with the bare
  increment (`App.LostReadOverwritesScore`), and a submission resets
  `prediction_counts` to 1 (`App.LostReadResetsCount`). Likewise
  `create_user` can store the new row and still answer an error when its
  read-back fails, and `auth` then fails (`UsersTable.UserManager.CreateUser`).
- **Resubmission counts again.** A resubmission also adds one to
  `prediction_counts` again (`App.Service.PostMatches`).

## Model

| member | source | states |
|---|---|---|
| Store.Handled | dynamo_error_handler.py:1-9 | an operation that raises comes back as an error value, a successful one passes its result through unchanged |
| Store.Attr | db/predictions_table_manager.py:31 | definition of `item.get(attr)`: the stored value, `Null` for a missing attribute |
| Store.ScanPage | db/predictions_table_manager.py:22 | definition of the page one `table.scan` call returns from a position: the filtered rows of the next `pageSize` in scan order, and the key of the last row examined as cursor unless the page reaches the end (its properties: `ScanAdvances`, `FilterMembers`) |
| Store.PyStr | main.py:129 | `str(v)`: a string is itself, a number its decimal digits |
| Store.IntOf | db/users_table_manager.py:40 | definition of the integer arithmetic sees: a number itself, a boolean 0 or 1, nothing for a string or null |
| Store.AfterPut | db/predictions_table_manager.py:38-41 | an accepted put stores the item under its own key, replacing any row there, and adds no other key; rows under other keys are unchanged, and a rejected put keeps every row; keyed, duplicate-free tables stay so |
| Store.AfterUpdate | db/predictions_table_manager.py:43-59 | an update keeps the table keyed and duplicate-free |
| Store.UpdateEffect | db/users_table_manager.py:66-75 | an accepted update sets exactly the given attributes on the row at the key (creating the row when absent), keeps the row's other attributes and every other row; a rejected one changes nothing |
| Store.Table.Scan | db/predictions_table_manager.py:22 | a scan page holds only items that satisfy the filter, and its cursor is the key of a stored row |
| Store.Table.GetItem | db/users_table_manager.py:58 | the row under the key, `None` when absent, an error exactly when the key is malformed or the store fails on it |
| Store.Table.PutItem | db/predictions_table_manager.py:40 | the table becomes `AfterPut` of its old contents; an error exactly when the put is rejected |
| Store.Table.UpdateItem | db/predictions_table_manager.py:51-58 | the table becomes `AfterUpdate` of its old contents; an error exactly when the update is rejected |
| Store.ScanAdvances | db/predictions_table_manager.py:22-28 | a page either reaches the end of the table and has no cursor, or its cursor is a row key and the next scan starts strictly later |
| Store.FilterMembers | db/predictions_table_manager.py:14-16 | a filtered scan keeps exactly the items that satisfy the filter |
| Store.ListingValues | db/users_table_manager.py:18-21 | the scan listing holds exactly the stored rows |
| Text.IntToDecimalInjective | main.py:129 | two integer ids print alike exactly when they are equal |
| Text.IntToDecimal | main.py:129 | definition of `str(n)` for an integer: never empty |
| Text.Upper | main.py:101 | definition of `str.upper()` on ASCII letters: keeps the length |
| Text.Lower | db/users_table_manager.py:48 | definition of `str.lower()` on ASCII letters: keeps the length |
| Text.Join | football_api_model.py:96 | definition of `",".join(parts)` |
| Text.UpperIdempotent | main.py:101 | normalising a prediction twice is the same as once |
| Text.UpperHasNoLowerCase | main.py:101 | an upper-cased prediction holds no lower-case letter |
| Text.LowerIdempotent | db/users_table_manager.py:48 | a stored (lower-cased) user name lower-cases to itself, so the name lookup finds it |
| Text.LowerIgnoresUpper | db/users_table_manager.py:63 | names that differ only in case look up the same user |
| Text.SplitJoin | football_api_model.py:96 | splitting the joined id list gives the ids back when none contains a comma |
| Text.StrLtTotal | db/users_table_manager.py:25-27 | string order, the tie-break of leaderboard tuples, is total |
| Text.StrLtTransitive | db/users_table_manager.py:25-27 | string order is transitive |
| Leaderboard.EntryLtTotal | db/users_table_manager.py:25-27 | tuple order on `(rate, username)` is total |
| Leaderboard.EntryLtTransitive | db/users_table_manager.py:25-27 | tuple order is transitive |
| Text.StrLt | db/users_table_manager.py:25-27 | definition of Python's string `<`, lexicographic by code point, which breaks ties between equal rates in the tuple comparison (its properties: `StrLtTotal`, `StrLtTransitive`) |
| Leaderboard.EntryLt | db/users_table_manager.py:25-27 | definition of tuple `<` on `(rate, username)`: by rate, then by name |
| Leaderboard.Offer | db/users_table_manager.py:24-27 | definition of one offered tuple: `heappush` while fewer than `limit` are kept, `heappushpop` after |
| Leaderboard.Heap | db/users_table_manager.py:17-34 | definition of the heap after offering every tuple in scan order, from empty (its properties: `HeapIsTopK`) |
| Leaderboard.MinIndex | db/users_table_manager.py:27 | the position of a least entry, the `heap[0]` that `heappushpop` compares with |
| Leaderboard.PushPop | db/users_table_manager.py:27 | `heappushpop` keeps the heap's size, loses and invents nothing (multiset), and returns an entry no greater than any kept |
| Leaderboard.OfferKeepsSplit | db/users_table_manager.py:24-27 | one offered tuple (push while there is room, push-pop when full) keeps the heap and the discarded tuples a top-`limit` split of what was offered |
| Leaderboard.PushKeepsSplit | db/users_table_manager.py:24-25 | a push while there is room keeps the split |
| Leaderboard.PushPopKeepsSplit | db/users_table_manager.py:26-27 | a push-pop on a full heap keeps the split; the popped tuple joins the discarded ones |
| Leaderboard.KeptDroppedIsTopK | db/users_table_manager.py:21-27 | a split is a top-`limit` selection: `min(limit, n)` entries of what was seen, none of the left-out ones greater than a kept one |
| Leaderboard.HeapSplitsSeen | db/users_table_manager.py:17-34 | the heap and the discarded tuples split every tuple offered |
| Leaderboard.HeapIsTopK | db/users_table_manager.py:17-34 | the heap the loop ends with is a top-`limit` selection of all users' tuples |
| Leaderboard.InsertByRate | db/users_table_manager.py:37 | inserting keeps the entries (multiset) |
| Leaderboard.InsertByRateSorted | db/users_table_manager.py:37 | inserting into a rate-descending list keeps it rate-descending |
| Leaderboard.SortByRateDesc | db/users_table_manager.py:37 | `sorted(..., key=rate, reverse=True)` is a permutation with non-increasing rates |
| Leaderboard.Take | db/users_table_manager.py:37 | `[:limit]` is the whole list when `limit` reaches its length, and never longer |
| Leaderboard.TopKPermutation | db/users_table_manager.py:37 | reordering a top-`limit` selection (the sort) keeps it one |
| Leaderboard.TopKKeepsMaximum | db/users_table_manager.py:12-37 | with `limit > 0` a greatest tuple seen is on the leaderboard |
| UsersTable.UserKey | db/users_table_manager.py:58 | the key names exactly the key attribute `user_id` |
| UsersTable.WinningRate | db/users_table_manager.py:39-40 | defined exactly when `prediction_counts` is a number or a boolean and, for a positive count, so is `score` (never read otherwise); 0 for a count of zero or less |
| UsersTable.WinningRateIsQuotient | db/users_table_manager.py:40 | with a positive count, rate times count is the score; the rate lies in [0, 1] when `0 <= score <= prediction_counts` |
| UsersTable.EntryOf | db/users_table_manager.py:22-25 | for a user whose `username` is a string, the pushed tuple is `(winning rate, username)`, defined exactly when the rate can be computed; a non-string username is refused (see "## Left out") |
| UsersTable.RankPage | db/users_table_manager.py:21-27 | the loop over one page succeeds exactly when every user on it can be ranked, and leaves the heap of all tuples offered so far |
| UsersTable.PageRanked | db/users_table_manager.py:17-34 | ranking one more page extends the ranked prefix; an unrankable page makes the whole table unrankable |
| UsersTable.UserManager.RankTable | db/users_table_manager.py:17-34 | the paging loop succeeds exactly when every stored user can be ranked, and then yields the heap of all users' tuples in scan order |
| UsersTable.UserManager.FetchTopUsers | db/users_table_manager.py:11-37 | succeeds exactly when every user can be ranked; the result is a top-`limit` selection of all users sorted by non-increasing rate |
| UsersTable.NewUser | db/users_table_manager.py:45-53 | the new row is keyed by the fresh id, holds the lower-cased name and the pin hash, zero counts and a zero rate |
| UsersTable.UserManager.CreateUser | db/users_table_manager.py:42-54 | puts the new row whatever the read-back answers; returns the row, or an error exactly when the put or the read-back of the new key fails |
| UsersTable.UserManager.GetUser | db/users_table_manager.py:56-59 | the user's row, `None` when absent, an error exactly when the store fails to read the key |
| UsersTable.UserManager.CheckIfUserExists | db/users_table_manager.py:61-64 | the rows of the first scan page whose username is the lower-cased name, in scan order |
| UsersTable.CheckIfUserExistsOnOnePage | db/users_table_manager.py:63-64 | on a one-page table the lookup finds every user with that name |
| UsersTable.FirstPageMatches | db/users_table_manager.py:63-64 | definition of the first scan page's rows whose username is the lower-cased name |
| UsersTable.CreatedUserIsFound | db/users_table_manager.py:42-64 | on a one-page table a user created under a name is found by every spelling that lower-cases alike, its stored and its upper-cased form among them |
| UsersTable.UserManager.UpdateUser | db/users_table_manager.py:66-75 | the users table becomes `AfterUpdate` on `{'user_id': user_id}`; an error exactly when rejected |
| PredictionsTable.RecordKey | db/predictions_table_manager.py:46-55 | the key names exactly `match_id` (as a string) and `user_id` |
| PredictionsTable.UserFilter | db/predictions_table_manager.py:65 | definition of `Attr('user_id').eq(user_id)` |
| PredictionsTable.UncountedFilter | db/predictions_table_manager.py:83 | definition of `Attr('counted').eq(False) & Attr('user_id').eq(user_id)` |
| PredictionsTable.Truthy | db/predictions_table_manager.py:29 | definition of a cursor's truthiness: present and not an empty dictionary |
| PredictionsTable.KeepScanning | db/predictions_table_manager.py:29-33 | definition of the `continue` test: a truthy cursor whose `user_id` is not the user's |
| PredictionsTable.EntryPos | db/predictions_table_manager.py:19-20 | where the first scan begins: a falsy start key is ignored; within the table |
| PredictionsTable.ScanLoop | db/predictions_table_manager.py:18-36 | definition of the page and cursor the loop returns from a position (its properties: `ScanLoopReturnsFinalPage`, `ScanLoopExit`, `ScanLoopItems`, `SkippedPageIsLost`) |
| PredictionsTable.Drain | db/predictions_table_manager.py:80-91 | definition of what the loop of `get_records_to_evaluate` collects (its properties: `DrainIsFiltered`, `DrainIsUncounted`, `SinglePageDrain`) |
| PredictionsTable.RecordKeyOfString | db/predictions_table_manager.py:46 | two match ids that print alike address the same record |
| PredictionsTable.CreateRecordReplaces | db/predictions_table_manager.py:38-41 | a second put under the same key keeps the row's place in the scan order and leaves only the newer item |
| PredictionsTable.ScanLoopReturnsFinalPage | db/predictions_table_manager.py:18-36 | `_scan_with_filter` returns exactly the last page it scanned |
| PredictionsTable.ScanLoopExit | db/predictions_table_manager.py:28-34 | the loop stops only when the cursor is absent (or falsy) or belongs to the filtered user |
| PredictionsTable.ScanLoopItems | db/predictions_table_manager.py:22-36 | every returned item satisfies the filter and lies at or after the start; a returned cursor is a row key from which the next scan starts further on |
| PredictionsTable.SkippedPageIsLost | db/predictions_table_manager.py:25-36 | no row of a page the loop skips is returned, even one matching the filter |
| PredictionsTable.DrainIsFiltered | db/predictions_table_manager.py:80-91 | every record returned is a stored row at or after the start that passes the uncounted filter |
| PredictionsTable.DrainIsUncounted | db/predictions_table_manager.py:83 | every record returned is stored, uncounted and the user's own |
| PredictionsTable.DrainStep | db/predictions_table_manager.py:80-89 | one turn of the loop: the final page when the cursor is falsy, else that page followed by the drain from the cursor, which lies strictly later |
| PredictionsTable.DrainLoopStep | db/predictions_table_manager.py:80-89 | the loop's invariant (collected records plus the rest of the drain is the total) survives a turn |
| PredictionsTable.SinglePageDrain | db/predictions_table_manager.py:74-91 | on a one-page table the result is every uncounted record of the user in scan order |
| PredictionsTable.PredictionsManager.ScanWithFilter | db/predictions_table_manager.py:9-36 | returns the page and cursor `ScanLoop` gives from the start position |
| PredictionsTable.PredictionsManager.CreateRecord | db/predictions_table_manager.py:38-41 | the table becomes `AfterPut` of the item; an error exactly when the put is rejected |
| PredictionsTable.PredictionsManager.UpdateRecord | db/predictions_table_manager.py:43-59 | the table becomes `AfterUpdate` on `(str(match_id), user_id)`; an error exactly when rejected |
| PredictionsTable.PredictionsManager.GetRecordsByUser | db/predictions_table_manager.py:61-72 | one filtered scan loop: only the user's records, and a cursor that is absent or the user's |
| PredictionsTable.PredictionsManager.GetRecordsToEvaluate | db/predictions_table_manager.py:74-91 | returns `Drain` of the table; every record is stored, uncounted and the user's |
| FootballApi.TimedMatches | football_api_model.py:51 | the kept matches are `TIMED` and no more than the input |
| FootballApi.TimedMatchesMembers | football_api_model.py:51 | a match is kept exactly when it is in the input and `TIMED` |
| FootballApi.TimedMatchesAppend | football_api_model.py:51 | the filter keeps input order (it distributes over concatenation) |
| FootballApi.HasStatus | football_api_model.py:88-89 | definition of `filter_matches_by_status` |
| FootballApi.Usable | football_api_model.py:72 | definition of a record that enters the lookup: a dictionary holding `match_id` and `prediction` |
| FootballApi.LookupKey | football_api_model.py:73 | definition of a usable record's lookup key: `str(record["match_id"])` |
| FootballApi.Lookup | football_api_model.py:70-75 | definition of `predicted_matches`: each well-formed record in order writes its prediction under `str(match_id)` (its properties: `LookupKeys`, `LookupLastWins`) |
| FootballApi.TagFor | football_api_model.py:78-83 | definition of the `prediction` tag of a match (its meaning: `TagMeaning`) |
| FootballApi.LookupKeys | football_api_model.py:70-75 | a key is in `predicted_matches` exactly when some well-formed record carries it |
| FootballApi.LookupLastWins | football_api_model.py:71-73 | for duplicate ids the last well-formed record's prediction wins |
| FootballApi.BuildLookup | football_api_model.py:70-75 | the loop builds `Lookup` of the records |
| FootballApi.GetMatchesToDisplay | football_api_model.py:61-85 | `[]` for a non-list argument; otherwise the `TIMED` matches in order, each unchanged but for its tag |
| FootballApi.TagMeaning | football_api_model.py:78-83 | a match is tagged predicted exactly when a well-formed record names its id; the winner is then the last such record's prediction, and `None` otherwise |
| FootballApi.IdsParam | football_api_model.py:96 | splitting the `ids` parameter at commas recovers the ids when none contains a comma |
| App.Outcome | main.py:126 | `HOME` exactly for a home win, `AWAY` exactly for an away win, `DRAW` otherwise (a null winner included); already upper-case |
| App.MatchIds | main.py:118 | defined exactly when every record's `match_id` is a string; then the ids in record order |
| App.SameMatch | main.py:129 | definition of `str(record['match_id']) == str(match["id"])` |
| App.Crashes | main.py:129-130 | definition of a turn that raises: the ids match and the record has no `prediction` |
| App.Correct | main.py:129-131 | definition of a turn that earns a point: the ids match and the prediction is the outcome |
| App.Row | main.py:128 | definition of the turns of the inner loop for one match, one per record in order |
| App.Pairs | main.py:125-128 | definition of all turns, matches outside and records inside |
| App.Hits | main.py:124-131 | definition of `score_increment` after some turns (its bounds: `HitsAtMostWrites`) |
| App.WriteKey | main.py:132-134 | definition of the key `update_record(match_id=match["id"], user_id=user_id)` addresses: `(str(match["id"]), user_id)` (its property: `WriteAddressesRecord`) |
| App.Writes | main.py:132-136 | definition of the number of `update_record` calls some turns make |
| App.FirstCrash | main.py:128-130 | the index of the first turn that raises (record names the match but has no `prediction`), or the number of turns |
| App.HitsAtMostWrites | main.py:128-136 | the increment is at most the number of updates, which is at most the number of turns |
| App.HitsOfOneRecord | main.py:129-131 | for one match and one record, the increment is 1 exactly when the ids match and the prediction is the outcome |
| App.EvalAttrs | main.py:135 | the evaluation sets exactly `counted`, `actual_outcome` and `isFinished` |
| App.Written | main.py:132-136 | the updates keep the predictions table keyed and duplicate-free |
| App.WrittenUntouched | main.py:128-136 | a row no turn writes is unchanged, and no row appears under its key |
| App.WrittenCounted | main.py:132-136 | a written key's row is counted with the outcome of the last turn that wrote it, unless the store fails on that key |
| App.WrittenKeepsOthers | main.py:132-136 | an existing record keeps every attribute the evaluation does not set |
| App.WriteAddressesRecord | main.py:129-134 | the key a turn writes is the key of the record it came from |
| App.EvaluatedRecordIsCounted | main.py:128-136 | a record that names a finished match ends up counted, with the outcome of the last turn that wrote it, unless the store fails on its key |
| App.EarlyExitWritesNothing | main.py:113-122 | the "no uncounted" answer comes exactly when there is no pending record; both early exits leave both tables untouched, and the pending records stay pending |
| App.CompletedEvaluationScore | main.py:118-144 | on success no turn raised, the new score is the stored score (0 when absent) plus the correct turns, the increment is at most the updates, the predictions table is what the loop wrote, and the users table gets one `SET score` |
| App.ScoringCompleted | main.py:124-144 | the same, once the finished matches are known |
| App.CreditedUpdated | main.py:140-142 | a credited score is the stored score plus the increment, written with one `SET score` |
| App.Evaluation | main.py:108-144 | reference definition of the whole handler on table contents (its properties: `EarlyExitWritesNothing`, `CompletedEvaluationScore`) |
| App.Reconciliation | main.py:115-122 | definition of the handler once the pending records are known: the two early exits and the id check |
| App.Scoring | main.py:124-144 | definition of the nested loop up to the first raising turn and the score update after it |
| App.Credited | main.py:140-144 | definition of the score update: the score read (0 when absent or unreadable) plus the increment, an error for a missing user or a non-number |
| App.CounterBase | main.py:104-105 | definition of `user_record.get(attr, 0)` as the number `+` sees: 0 for an error dictionary or a missing attribute, nothing for a missing user or a non-number |
| App.LostReadOverwritesScore | main.py:140-142 | when the read of the user fails and the write goes through, the stored score becomes the bare increment and nothing else on the row changes |
| App.LostReadResetsCount | main.py:104-105 | when the read of the user fails and the write goes through, `prediction_counts` becomes 1 and nothing else on the row changes |
| App.CountedUsers | main.py:104-105 | definition of the users table after counting a submission: `prediction_counts` set to the value read plus one |
| App.Counter | main.py:105 | definition of the `SET` list: it holds exactly the one attribute and its number |
| App.CounterUpdate | main.py:142 | `update_user` with one counter sets it on an existing user, changes nothing else on the row and leaves every other user's row |
| App.SubmissionCounted | main.py:104-105 | counting a submission of a stored user adds one to `prediction_counts` and changes nothing else |
| App.SubmissionItem | main.py:90-102 | built exactly when `match_id`, a string `prediction` and the match details are present; stores the id as a string, the user, the upper-cased prediction, `counted = False`, no outcome, `isFinished` defaulting to False |
| App.SubmissionFields | main.py:90-102 | the record holds exactly the copied match details, unchanged, and the fields the handler sets; its prediction holds no lower-case letter and upper-casing it again changes nothing |
| App.SubmissionKey | main.py:90-103 | the submission is stored under the key `update_record` addresses for the same match id |
| App.SubmissionIsEvaluated | main.py:90-131 | a stored submission is pending for its user, yields a string id, and a finished match with that id (for a numeric id: exactly the match whose id it is) writes this very record and scores exactly when the upper-cased prediction is the outcome |
| App.ResubmissionReplaces | main.py:103 | resubmitting for the same match keeps the record's scan position and leaves only the newer record under the key |
| App.PinHash | main.py:59 | definition of the stored pin hash: the stored pin, exactly when it is a string |
| App.AsRecords | main.py:80-81 | definition of the records handed to the tagging are the stored rows, one for one |
| App.Service.EvaluateUserScore | main.py:108-144 | the response and both tables afterwards are `Evaluation` of the tables before the call |
| App.Service.CreditScore | main.py:140-144 | the response and the users table are `Credited` of the user as read: `SET score` to the stored score (0 when absent or when the read failed) plus the increment, an error when the user is missing or the score is not a number |
| App.Service.ScoreTurns | main.py:124-138 | the table is what the turns before the first raising turn write; raised exactly when some turn raises; otherwise the increment counts the correct turns |
| App.Service.ScoreMatch | main.py:128-138 | the same for the inner loop over one finished match |
| App.Service.ScoreRecord | main.py:129-138 | a turn raises exactly when its record names the match but has no prediction; scores exactly when correct; writes the evaluation attributes exactly when the ids match |
| App.Service.PostMatches | main.py:84-106 | a malformed body writes nothing; otherwise the record is put, the count updated as `CountedUsers` says, and the submission succeeds exactly when the count read was a number |
| App.Service.CountSubmission | main.py:104-105 | writes `prediction_counts + 1` for the value read (0 when absent or when the read failed); fails exactly when the read yields no number |
| App.Service.Auth | main.py:45-62 | no user with that name: a new user is put and returned (an error when the store fails); a user found: nothing written, login exactly when the pin checks against the stored hash, "Invalid Pin" otherwise; a missing username or pin is an error |
| App.Service.GetMatches | main.py:76-82 | the `TIMED` matches, each tagged from the user's pending records |

## Left out

- The Flask application, CORS, JWT issuing and checking, and the blueprints
  are not modelled (`main.py:1-43`). The user id from the access token is a
  parameter of every handler.
- `logout`, `auth_check`, `user_predictions` and `get_top_users` do no more
  than call a repository and serialise the result, so they are not modelled.
  The repository calls themselves are modelled.
- JSON bodies and HTTP status codes are not modelled. Each response is a
  datatype case (`App.EvalResponse`, `App.PostResponse`, `App.AuthResponse`),
  and an exception that reaches Flask is an error case.
- `generate_password_hash` and `check_password_hash` are function parameters
  of `App.Service.Auth`. `uuid.uuid4()` is the parameter `freshId`.
- The HTTP calls to the football data provider are not modelled. The
  `TIMED` matches' source is the parameter `scheduled`. The finished matches
  come from the parameter `finishedFor`, applied to the `ids` string. A
  non-200 answer is the provider returning `[]`.
- The date range, the date parsing and the clock are not modelled
  (`calculate_date_range`, `transform_match_date_into_datetime`). They
  only choose the window of the scheduled matches.
- A provider match always carries `id`, `status` and a (possibly null)
  `score.winner`. A provider answer without them is not modelled.
- Store failures are not modelled on scans. Only `put_item` and
  `update_item` (through the `failing` key set) and `get_item` (through the
  `readFailing` key set) can fail. So the paths where
  a failing scan's error dictionary flows into the handlers are not modelled.
  Examples are `get_matches_to_display` receiving a non-list from
  `get_records_to_evaluate`, which `FootballApi.GetMatchesToDisplay` does
  model on its own, and `fetch_top_users` failing mid-scan.
- A scan whose `ExclusiveStartKey` names no stored row is modelled as
  starting at the end of the table: an empty page and no cursor
  (`Store.StartPos`). DynamoDB would go on from the position that key would
  occupy. This matters only for `get_records_by_user`, which passes a
  client's `last_evaluated_key` through unchanged
  (`PredictionsTable.PredictionsManager.GetRecordsByUser`). The handlers' own
  loops only pass cursors that the store returned.
- UsersTable.EntryOf: a user whose `username` is not a string is refused, and
  then `fetch_top_users` fails for the whole table. Python would build the
  tuple `(winning_rate, username)` anyway and raise only when `heapq` compares
  it with a tuple holding a string username at an equal rate. The program
  itself only ever stores string usernames (`create_user`), so this case
  arises only for rows written outside it.
- Store.Placed: a new key is appended to the end of the scan order. DynamoDB
  places an item by the hash of its partition key, so a new row can land on
  any page. No contract depends on where the new key goes, only on the order
  staying a duplicate-free list of the stored keys.
- UsersTable.WinningRate: the rate is the exact rational quotient. Floating
  point division and the `round(..., 2)` are not modelled, so ties that
  rounding would create are not modelled either.
- Leaderboard.SortByRateDesc: states a permutation with non-increasing rates.
  It does not model the order among equal rates, which in Python depends on
  the heap's array layout and on the stable sort. The heap is modelled as a
  multiset held in a sequence, not as `heapq`'s array.
- UsersTable.UserManager.FetchTopUsers: states the top-`limit` selection and
  the rate order. It does not state the order among equal rates, for the same
  reason.
- `str.upper` and `str.lower` are modelled on ASCII letters only. Other
  Unicode case mappings are not modelled.
- Attribute values are strings, integers, booleans and null. DynamoDB
  `Decimal` fractions, lists and maps are not modelled. When a counter is
  read, `+`, `/` and `>` count a boolean as 0 or 1, and any other non-number
  raises (`Store.IntOf`, used by `App.CounterBase` and
  `UsersTable.WinningRate`).
- Exception messages are not modelled; an error is identified by where it
  arises.
- Concurrency between requests is not modelled, nor are DynamoDB's
  consistency semantics. Each handler runs alone on the tables.
- The configuration and the client factory are not part of this model
  (`config.py`, `db/db_client.py`). They only read environment variables and
  build the boto3 resources.
- Repeated evaluation is not stated as a lemma of its own. The lemmas state
  that every written record is counted (unless its key fails), and that only
  uncounted records are picked up.
