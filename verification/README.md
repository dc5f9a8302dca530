# PvPGN: matchmaking, attribute cache, digit code, accounts, friends and aliases

A Dafny model of five components of PvPGN, with proofs of what they promise over every input and every run. One
module stands for one component or one layer of it; `dafny verify dfyconfig.toml` checks them all.

**Anonymous matchmaking** (`LevelSweep`, `MapMask`, `QueueTypes`, `Matchmaking`, `Unqueueing`, `Picking`, `OneOnOne`,
`LineUp`, `Seats`, `MapChoice`, `MatchQueue`, `GameResults`). Players wait in one list per level. A search appends its own entry, then
visits the levels outwards, narrowing a level window and a map mask with every entry it accepts; on success it sorts
and reorders the players, removes them from the lists and picks a map. `Matchmaking` says with functions on values what
one search is: a greedy hunt over the candidates in sweep order. `MatchQueue` is the imperative code and is proved
equal to it. `Picking` says, without the loop, who is picked for any size of match: first come, first served, among
those who suit the searcher and all earlier picks. `OneOnOne` proves the invariant that no single step shows: in the 1v1 queue no two waiting players could
ever be matched with each other. `GameResults` goes from the clients' reports to the ladder.

**Write-back attribute cache** (`AttrTable`, `AttrCache`, `CacheRuns`). A group of attributes is loaded on first use, re-entering
its own set operation for every stored line; lookups reorder the list; changed groups are saved later and unloaded
again. `AttrCache` proves that none of this can be told from a plain map, that no write is lost, and that the flags and
the two global lists always agree; `CacheRuns` takes this to whole runs of gets, sets, saves and flushes on any number
of groups. `AttrTable` defines the maps that lists, storages and keys stand for.

**Digit arithmetic** (`DecimalText`, `FixedWidth`, `DecimalFormatter`, `CountDigits`, `FormatDecimal`, `FpMultiply`,
`ParseInt`). `DecimalText` defines decimal notation; the fixed-point printer, the digit count from the bit length, the
grouped writer, the integer formatter and the overflow-checked parser are proved against it, on 32- and 64-bit integers
whose operators must not overflow.

**Accounts** (`AccountNames`, `AccountHash`, `StrToUint`, `AccountIndex`, `AccountList`). Two hash tables, by name and
by uid, hold the same accounts; hashed look-ups equal full scans; the duplicate check that is skipped above `maxuserid`
is not needed there.

**Friend lists** (`FriendLists`, `FriendBook`). Stored slots, the list in memory and the mutual flags on both sides
stay consistent through adding, removing, loading and unloading.

**Aliases** (`AliasOffsets`, `AliasTemplate`, `AliasReplace`). The expansion of a template, character by character into
a buffer that is regrown by hand, is the substitution of its pieces, and reading a template undoes writing it.

## Findings

Where the code does not do what it seems to promise, the model follows the code, and a lemma gives the exact condition.

- The sweep's bound test is `>` instead of `>=`: level 100 is visited, outside the array, exactly when the searcher's
  level plus the difference reaches 100 (`LevelSweep.SweepInArray`).
- A sorted 3v3 line-up always ends up in the same order: the second round compares two totals that are always 0. Giving
  the last two players to the other teams would be more even exactly when the first team is weaker without them and
  they differ (`LineUp.ThreeVersusThree`).
- Three of the 24 branches that reorder four teams, 1243, 2314 and 2341, do not give weaker teams the stronger players
  (`LineUp.PlanCompensatesIff` says for which totals, `LineUp.WrongBranch` gives some). No line-up has such totals: the
  first round always takes the first branch, and later rounds do not compare totals at all but memory behind them
  (`LineUp.FourTeamsNeverMisled`).
- A 1v1 player who searches again while still queued is matched with itself, no compatible pair having waited before,
  exactly when its old and its new entry are compatible and nobody compatible stands before it on its level (`OneOnOne.RepeatedSearchIff`); with unchanged
  preferences that is always so (`OneOnOne.RepeatedSearchPairsWithSelf`). It then leaves the queue altogether
  (`Unqueueing.TwiceQueuedGone`).
- A slot of the map mask in which no map is registered leads to the first of all map names, whatever queue that map was
  meant for (`MapChoice.GetMapFromPrefs`).
- The staging buffer of the iterator form of `format_decimal` holds a separated 32-bit number exactly when it is below
  10^9 and a 64-bit number exactly when it is below 10^16 (`FormatDecimal.StagingFits`, `FormatDecimal.StagingOverflows`).
- An account whose name reads as a number with a leading blank, tab or plus sign is never looked up by its name in
  memory, unless accounts are saved by name (`AccountIndex.NameSearchedIff`). Such a name is acceptable only if
  `account_allowed_symbols` lists that character, which its default does not (`AccountIndex.AcceptableIsSearched`);
  otherwise it can only come from a stored account written by hand.
- Creating an account fails for good once `maxuserid` is the largest 32-bit number (`AccountIndex.CreatedIff`).
- Adding a friend reads the number of slots before it loads the list. If loading drops a uid that no longer names an
  account, and only then, the slots and the list in memory disagree afterwards (`FriendBook.Book.AddFriend`).
- Removing a friend cannot clear the freed last slot, because uid 0 is refused; it keeps its old value
  (`FriendBook.Book.RemoveFriend`).

## Model

| member | source | states |
|---|---|---|
| LevelSweep.SweepVisits | src/bnetd/anongame.cpp:821-903 | the outward sweep terminates and visits every level within reach exactly once, never nearer than before, the higher level first on ties |
| LevelSweep.SweepFrom | src/bnetd/anongame.cpp:889-902 | from any offset on, the sign-flipping update with both boundary cases still reaches exactly the levels that are not better than the current one |
| LevelSweep.SweepInArray | src/bnetd/anongame.cpp:889-902 | all visited levels are rows of the array if and only if level + difference is below 100 |
| MapMask.SlotsAnd | src/bnetd/anongame.cpp:834-839 | and-ing two masks intersects their map slots, and the result is non-zero exactly when they share one |
| MapMask.SlotsBelow32 | src/bnetd/anongame.cpp:255-259 | a mask names slots 0 to 31 only, all of which the choice loop inspects |
| MapMask.SlotIs | src/bnetd/anongame.cpp:255-259 | slot k belongs to a mask exactly when its bit k is set |
| QueueTypes.QueuesWellSized | src/bnetd/anongame.cpp:308-375 | every queue's player count fits the array and divides into its teams, whatever the tournament configuration |
| QueueTypes.TablesMatchNames | src/bnetd/anongame.cpp:308-375 | players, teams and arrangement of a queue are what its configured name, such as at2v2v2, says: as many players as its sides have together |
| QueueTypes.OtherTables | src/bnetd/anongame.cpp:308-375 | small free-for-all is four single players, team free-for-all four pairs, the tournament two teams of the configured size |
| Matchmaking.EnqueuedWellQueued | src/bnetd/anongame.cpp:516-543 | queueing keeps every connection in the list of its level and at most once, and adds exactly this one |
| Matchmaking.WithoutWellQueued | src/bnetd/anongame.cpp:1054-1106 | unqueueing keeps that too and removes exactly the named connections |
| Matchmaking.GreedySuited | src/bnetd/anongame.cpp:829-849 | every accepted entry narrows window and mask so that all picks stay pairwise near, share the tag and share a map |
| Matchmaking.MatchIsSuited | src/bnetd/anongame.cpp:804-907 | whatever waits, also a connection twice, the picks are waiting entries pairwise within the level difference, all with the searcher's tag, with a non-empty common mask |
| Matchmaking.MatchIsFair | src/bnetd/anongame.cpp:804-907 | any completed match, for any size, consists of distinct waiting entries pairwise within the level difference, all with the searcher's tag, with a non-empty common mask |
| Matchmaking.MatchLeavesRest | src/bnetd/anongame.cpp:858-886 | a completed match takes exactly its members out of the lists and keeps the others in order |
| Picking.SearchServes | src/bnetd/anongame.cpp:817-907 | for every size of match: a waiting entry is picked if and only if the match is not complete before it in the sweep, it has the searcher's tag, it is within the difference of the searcher and of every earlier pick, and some map is common to it, the searcher and all of these |
| Picking.MapsAskedByAll | src/bnetd/anongame.cpp:817-907 | the maps left at the end are exactly those that the searcher and every pick asked for |
| Picking.NoMatchNobodySuits | src/bnetd/anongame.cpp:817-907 | a search that ends without a match leaves nobody waiting who would suit the searcher and all picks |
| Unqueueing.OrderIsFree | src/bnetd/anongame.cpp:880-882 | the order in which the members are unqueued does not matter, so sorting and reordering them first does not |
| Unqueueing.UnqueuedAllIsWithout | src/bnetd/anongame.cpp:1054-1106 | one call per member leaves exactly the lists without the members when nobody waits twice |
| Unqueueing.TwiceQueuedGone | src/bnetd/anongame.cpp:499-512 | a waiting connection that searched again and was matched with itself is gone from the lists |
| OneOnOne.SearchPairsFirst | src/bnetd/anongame.cpp:821-886 | in saturated lists the searcher is paired with the first compatible candidate of the sweep, and with nobody if there is none |
| OneOnOne.SearchPairsBest | src/bnetd/anongame.cpp:516-543 | that partner is the nearest compatible waiter, the higher level first on ties, then the earliest queued |
| OneOnOne.SearchKeepsSaturated | src/bnetd/anongame.cpp:804-907 | a search leaves no two compatible waiters behind |
| OneOnOne.LeaveKeepsSaturated | src/bnetd/anongame.cpp:1054-1106 | neither does leaving the queue |
| OneOnOne.LegalExtends | src/bnetd/anongame.cpp:804-907 | which runs are meant: any run goes on with anybody leaving, and with a search exactly when the searcher is not waiting |
| OneOnOne.RunStaysSaturated | src/bnetd/anongame.cpp:804-907 | both invariants hold after every run of searches and leaves |
| OneOnOne.NoCompatiblePairEverWaits | src/bnetd/anongame.cpp:804-907 | from the empty queue on, no two waiting players are ever compatible |
| OneOnOne.RepeatedSearchIff | src/bnetd/anongame.cpp:499-543 | exactly when a second search of a waiting player pairs it with its own old entry, whatever its new preferences |
| OneOnOne.RepeatedSearchPairsWithSelf | src/bnetd/anongame.cpp:499-543 | with the same entry it always does |
| LineUp.SortByLevel | src/bnetd/anongame.cpp:545-554 | the comparison sorts by descending level, permuting the players and nothing else |
| LineUp.SortSorted | src/bnetd/anongame.cpp:545-554 | the reference sort is descending and a permutation |
| LineUp.PlanCompensatesIff | src/bnetd/anongame.cpp:573-798 | a branch of the reorder table gives weaker teams the stronger players if and only if the totals avoid the three faulty branches |
| LineUp.WrongBranch | src/bnetd/anongame.cpp:688-693 | totals for which the table does the opposite |
| LineUp.FourTeamsNeverMisled | src/bnetd/anongame.cpp:567-799 | for sorted line-ups round 0 always takes the first branch, and every later round compares memory outside level[], so no totals select a faulty branch |
| LineUp.OrderQueue | src/bnetd/anongame.cpp:556-802 | reordering in place is the row-by-row reassignment, whatever the reads outside level[] return |
| LineUp.OrderRows | src/bnetd/anongame.cpp:564-799 | its loop is that many turns, each at i * ppt and i * teams |
| LineUp.OrderRow | src/bnetd/anongame.cpp:567-799 | one turn: totals, then one row handed out by the table, the row being inside the line-up |
| LineUp.ReorderedPermutes | src/bnetd/anongame.cpp:556-802 | for line-ups of any length every branch only permutes the players |
| LineUp.NoTeamsKept | src/bnetd/anongame.cpp:558-558 | without teams the sorted order is final |
| LineUp.FirstTwoRows | src/bnetd/anongame.cpp:567-799 | a sorted line-up with any number of rows keeps its first row and has its second reversed |
| LineUp.TwoTeamsThirdRow | src/bnetd/anongame.cpp:572-583 | with two teams the third row is always swapped, whatever the totals |
| LineUp.ThreeVersusThree | src/bnetd/anongame.cpp:572-583 | the one final order of 3v3, its total difference, and exactly when the last two players sit on the wrong side |
| LineUp.TwoRowsTotal | src/bnetd/anongame.cpp:567-799 | with two players per team, team j's total is that of the j-th strongest and the j-th weakest player |
| LineUp.TwoRowsBalanced | src/bnetd/anongame.cpp:877-879 | no two teams' totals differ by more than the larger of the two rows' own gaps |
| LineUp.TwoVersusTwoMostEven | src/bnetd/anongame.cpp:877-879 | for 2v2 no assignment of the same four players is more even |
| Seats.SeatOfPlayer | src/bnetd/anongame.cpp:850-856 | arranged players get distinct places inside the line-up, team and number recoverable from the place |
| Seats.PlayerOfSeat | src/bnetd/anongame.cpp:850-856 | every place is somebody's seat |
| Seats.AddOpponents | src/bnetd/anongame.cpp:1279-1285 | the inner loop adds one row of other teams' players and steps over the teammate |
| Seats.SumOpponents | src/bnetd/anongame.cpp:1277-1285 | going round the table visits each player of another team exactly once and no teammate |
| Seats.OpponentLevel | src/bnetd/anongame.cpp:1277-1286 | the result is the mean level over exactly those players, rounded down |
| Seats.OthersCounted | src/bnetd/anongame.cpp:1286-1286 | the divisor is the number of players summed |
| Seats.OthersByLevel | src/bnetd/anongame.cpp:1279-1285 | the sum depends on each level by that level alone, and only if its player is in another team |
| MapChoice.MapTable.AddMap | src/bnetd/anongame_maplists.cpp:86-190 | adding appends the map, known or new, to its queue unless that is full and changes no other queue |
| MapChoice.MapTable.Intern | src/bnetd/anongame_maplists.cpp:102-110 | a name is stored once, and known names keep their index, also when the array is full |
| MapChoice.MapTable.Register | src/bnetd/anongame_maplists.cpp:112-120 | a queue's index list grows at its end, up to 32 maps |
| MapChoice.MapTable.GetIs | src/bnetd/anongame_maplists.cpp:341-347 | slot k leads to the k-th map registered for the queue, an unregistered slot to the first name of all |
| MapChoice.GetMapFromPrefs | src/bnetd/anongame.cpp:233-269 | with j bits set in the mask, j is at least 1 and the random number selects the (rand % j)-th set bit s: the result is the s-th map registered for the queue, or the first name of all when there is none |
| MapChoice.ChosenIsRegistered | src/bnetd/anongame_maplists.cpp:341-356 | if the mask names registered slots only, the chosen map is the one registered in one of them |
| MatchQueue.MatchQueue.Queue | src/bnetd/anongame.cpp:516-543 | appends the entry to its level's list |
| MatchQueue.MatchQueue.Unqueue | src/bnetd/anongame.cpp:1054-1106 | removes the first entry of this connection, wherever it waits; the result tells whether it waited, except in arranged queues |
| MatchQueue.MatchQueue.AssignTeam | src/bnetd/anongame.cpp:453-473 | every member of an arranged team, its leader included, has the whole team, and nobody else's team changes |
| MatchQueue.MatchQueue.TakeSeats | src/bnetd/anongame.cpp:850-856 | an accepted team fills its own seats and disturbs no other team |
| MatchQueue.MatchQueue.Accept | src/bnetd/anongame.cpp:835-875 | window, mask, player count and line-up follow the accepted entry |
| MatchQueue.MatchQueue.ScanLevel | src/bnetd/anongame.cpp:829-849 | scanning one level's list is the greedy selection from it, stopped when the match is complete |
| MatchQueue.MatchQueue.LineUpPlayers | src/bnetd/anongame.cpp:877-879 | the line-up is a reordered descending sort of exactly the picks |
| MatchQueue.MatchQueue.SoloDescending | src/bnetd/anongame.cpp:877-879 | 1v1 and small free-for-all line-ups stay in descending order |
| MatchQueue.MatchQueue.ArrangedLineUp | src/bnetd/anongame.cpp:850-856 | who sits at each place of an arranged match |
| MatchQueue.MatchQueue.Complete | src/bnetd/anongame.cpp:858-886 | on success the members leave the lists and the map is one all of them chose |
| MatchQueue.MatchQueue.Match | src/bnetd/anongame.cpp:804-907 | the imperative search equals the greedy hunt over the whole sweep, with its effect on lists, line-up and map |
| MatchQueue.MatchQueue.Search | src/bnetd/anongame.cpp:499-512 | queue, then match, also for a leader who is still waiting: the picks are first come, first served, suit each other and leave the lists, and play the map of a slot that all of them asked for; they are different connections if nobody waited twice, and then the 1v1 queue stays saturated |
| GameResults.EvaluateResults | src/bnetd/anongame.cpp:1124-1169 | a player has won exactly when more reports say so than deny it; otherwise the result is a loss |
| GameResults.VotedIff | src/bnetd/anongame.cpp:1138-1150 | a player has a vote for a result exactly when some report line says so of this player's number |
| GameResults.VotesAdd | src/bnetd/anongame.cpp:1138-1150 | each report adds as many votes as it has such lines |
| GameResults.UnanimousWinner | src/bnetd/anongame.cpp:1124-1169 | when only one player is reported to have won, and nobody denies it, exactly that player wins |
| GameResults.LadderOfGame | src/bnetd/anongame.cpp:1294-1337 | which ladder a game counts for: solo for 1v1, its own for small free-for-all, team for the team games that were not arranged |
| GameResults.Ladder.SaveAll | src/bnetd/anongame.cpp:1290-1340 | on the right ladder every account gains as many wins and losses as it has such results, an undecided one counting as a loss, and nothing else changes |
| GameResults.Ladder.Record | src/bnetd/anongame.cpp:1192-1227 | which games are recorded, and what each adds to every account |
| GameResults.RecordedGame | src/bnetd/anongame.cpp:1290-1340 | a recorded game adds exactly one win or one loss per player, with at least one win, exactly one in small FFA, and otherwise no more wins than losses |
| GameResults.Stats | src/bnetd/anongame.cpp:1171-1345 | evaluation and recording together: each player's own tally moves by its own result |
| AttrTable.CanonIs | src/bnetd/attrgroup.cpp:364-398 | the meaning of a key: case does not matter, DynKey becomes Record |
| AttrTable.KeyIs | src/bnetd/attrgroup.cpp:364-398 | what every key is written as and named: DynKey becomes Record, Star becomes STAR, nothing else changes but the case of the name |
| AttrTable.SameName | src/bnetd/attrgroup.cpp:364-398 | two raw keys name the same attribute if and only if they are equal up to case, a leading DynKey counting as Record |
| AttrTable.EscapeTwice | src/bnetd/attrgroup.cpp:364-398 | escaping an escaped key changes nothing |
| AttrTable.KeySurvivesStorage | src/bnetd/attrgroup.cpp:271-295 | a key written to storage and loaded again names the same attribute |
| AttrTable.PromoteKeeps | src/common/elist.h:272-279 | promotion changes no visible value |
| AttrTable.WrittenHolds | src/bnetd/attrgroup.cpp:206-209 | writing a list leaves the storage with exactly its visible attributes |
| AttrTable.GetShowsLastSet | src/bnetd/attrgroup.cpp:450-529 | after any run of sets, a get shows the last value set, else the stored one, else the default group's |
| AttrCache.LoadStep | src/bnetd/attrgroup.cpp:271-295 | the callback that sets a stored line without marking it dirty extends the loaded table by that line |
| AttrCache.FetchComplete | src/bnetd/attrgroup.cpp:439-443 | a loaded group never has to ask the storage for a single attribute |
| AttrCache.AttrGroup.Search | src/bnetd/attrgroup.cpp:425-443 | the list traversal finds the key if and only if the table holds it |
| AttrCache.AttrGroup.PromoteAt | src/common/elist.h:272-279 | the found attribute swaps with its predecessor and no other moves |
| AttrCache.AttrGroup.Store | src/bnetd/attrgroup.cpp:503-524 | a set changes its own attribute, marks it only if the value differs, and keeps the list a map |
| AttrCache.AttrLayer.Load | src/bnetd/attrgroup.cpp:297-331 | loading through the re-entrant callback caches every stored attribute, clean, and terminates |
| AttrCache.AttrLayer.FindAttr | src/bnetd/attrgroup.cpp:401-448 | a look-up loads on demand, marks the access and never changes a visible value |
| AttrCache.AttrLayer.SetAccessed | src/bnetd/attrlayer.cpp:197-202 | the accessed group moves to the end of the loaded list |
| AttrCache.AttrLayer.SetDirty | src/bnetd/attrgroup.cpp:61-68 | the DIRTY flag, its time and the dirty list change together, and only the first time |
| AttrCache.AttrLayer.ClearDirty | src/bnetd/attrgroup.cpp:70-85 | group and attributes become clean, the group leaves the dirty list |
| AttrCache.AttrLayer.Set | src/bnetd/attrgroup.cpp:488-529 | set changes exactly one case-insensitive, escaped key of the group's map, and makes the group dirty if and only if the value is a new one |
| AttrCache.AttrLayer.GetLow | src/bnetd/attrgroup.cpp:450-471 | the own value, else the default group's; no map changes |
| AttrCache.AttrLayer.Get | src/bnetd/attrgroup.cpp:473-486 | get is a look-up in the plain map |
| AttrCache.AttrLayer.Save | src/bnetd/attrgroup.cpp:190-212 | when saving happens, and that then the storage equals the map and the group is clean; a forced save always ends so |
| AttrCache.AttrLayer.Flush | src/bnetd/attrgroup.cpp:214-269 | which of the three results is returned, a group being kept for a connected user exactly when the name that a get shows is online; flushing changes no visible value; a flushed group is unloaded and its storage holds the whole map |
| AttrCache.AttrLayer.CleanGroup | src/bnetd/attrgroup.cpp:190-212 | a group that is not dirty shows exactly its storage |
| CacheRuns.Play | src/bnetd/attrgroup.cpp:190-529 | every run of gets, sets, saves and flushes on any number of groups, with time passing, gives the answers of plain maps that only sets change, and ends with groups showing those maps; a group that was written back by force after its last set has all of it in its storage |
| CacheRuns.RunIsChanges | src/bnetd/attrgroup.cpp:488-529 | each group's map after a run is its old map changed by its own sets, in order |
| CacheRuns.GetAfterRun | src/bnetd/attrgroup.cpp:450-486 | so a get after any run shows the last value set in that group, else what was there, else the default group's value after the same run |
| DecimalText.ValueOfDecimal | lib/fmt/format.h:1075-1099 | the reference notation denotes its number |
| DecimalText.CountFromBounds | lib/fmt/format.h:926-933 | the digit count is determined by the powers of ten around the number |
| DecimalFormatter.DigitsTable | lib/fmt/format-inl.h:238-243 | entry k of the table is the two digits of k |
| DecimalFormatter.Start | lib/fmt/format.h:998-1002 | the fixed-point product starts with the leading digits in its upper half and the others in its fraction, for every number in range, without 64-bit overflow |
| DecimalFormatter.NextPair | lib/fmt/format.h:1003-1006 | every extracted pair is exact |
| DecimalFormatter.LastDigit | lib/fmt/format.h:1007-1010 | so is the odd last digit |
| DecimalFormatter.On | lib/fmt/format.h:990-1013 | exactly the N + 1 decimal digits are written |
| DecimalFormatter.Lg | lib/fmt/format.h:964-976 | for every 32-bit number, lg picks the N with which exactly its digits are printed |
| CountDigits.EstimateCorrected | lib/fmt/format.h:929-934 | 1233/4096 of the bit length, corrected by one comparison, is the digit count, with the table index in range |
| CountDigits.CorrectedIsCount | lib/fmt/format.h:929-934 | so for every number up to 64 bits, also 0 |
| CountDigits.Count64 | lib/fmt/format.h:929-934 | the 64-bit form counts the digits |
| CountDigits.Count32 | lib/fmt/format.h:1030-1033 | the 32-bit form does with the short table |
| CountDigits.CountLoop | lib/fmt/format.h:937-951 | the loop that divides by 10000 counts the same |
| FpMultiply.RoundedSum | lib/fmt/format-inl.h:320-323 | the four partial products with the rounded middle divide the full product by 2^64, to nearest |
| FpMultiply.Multiply | lib/fmt/format-inl.h:315-324 | the product of two 64-bit significands, rounded to nearest, with no 64-bit intermediate overflowing |
| FormatDecimal.GroupedLength | lib/fmt/format.h:2591-2597 | the text takes num_digits + (num_digits - 1) / 3 separators, as on_num reserves |
| FormatDecimal.GroupedErased | lib/fmt/format.h:1046-1067 | erasing the separators leaves the decimal digits |
| FormatDecimal.GroupedPlaces | lib/fmt/format.h:1059-1061 | a separator stands after every third digit from the right and nowhere else |
| FormatDecimal.SeparatorPlaces | lib/fmt/format.h:1059-1061 | so every fourth place from the right, and no other, holds the separator |
| FormatDecimal.GroupedLeads | lib/fmt/format.h:1059-1061 | a separator never leads |
| FormatDecimal.PlainIsDecimal | lib/fmt/format.h:1037-1043 | without a separator the text is the decimal notation |
| FormatDecimal.Format | lib/fmt/format.h:1075-1099 | exactly the reserved characters are written, ending at the buffer start |
| FormatDecimal.StagingFits | lib/fmt/format.h:1102-1110 | the buffer of the iterator form, 11 characters for 32-bit and 21 for 64-bit numbers, fits every plain number, and a separated one if and only if it is below 10^9 or 10^16 |
| FormatDecimal.StagingOverflows | lib/fmt/format.h:900-905 | the first number of each width that does not fit, with its length |
| FormatDecimal.Magnitude | lib/fmt/format.h:3049-3060 | unsigned negation gives the absolute value, also of the smallest number |
| FormatDecimal.SignedReadsBack | lib/fmt/format.h:3049-3064 | the text of a signed number reads back as its magnitude, with a minus sign exactly for negative numbers |
| FormatDecimal.FormatInt.constructor | lib/fmt/format.h:3049-3064 | the formatted text is the signed decimal notation, and the buffer is never underrun |
| FormatDecimal.FormatInt.FormatUnsigned | lib/fmt/format.h:3030-3047 | digits are written backwards, leaving a place for the sign |
| ParseInt.ParseNonnegativeInt | lib/fmt/format.h:1627-1649 | a digit run that an int can hold gives its value and the position behind it; any larger one is reported; no operation wraps |
| ParseInt.ParseUndoesPrint | lib/fmt/format.h:1627-1649 | parsing a printed number gives it back for 0 to INT_MAX and an error above |
| ParseInt.LongNumbersAreRejected | lib/fmt/format.h:1637-1647 | a run of more than ten digits without leading zeros is always an error |
| ParseInt.ValueGrows | lib/fmt/format.h:1637-1641 | breaking off early never rejects a number that would have fitted |
| AccountNames.CheckName | src/bnetd/account.cpp:712-742 | which names are acceptable |
| AccountHash.HashAgrees | src/bnetd/account.cpp:81-102 | names that strcasecmp calls equal have the same hash, whatever bytes they hold |
| AccountHash.HashStep | src/bnetd/account.cpp:86-100 | each character multiplies the hash by 33 in 32 bits and flips the bits of its lower case |
| AccountHash.XorBit | src/bnetd/account.cpp:97-100 | a bit is flipped exactly when the character has it set |
| AccountHash.HashStops | src/bnetd/account.cpp:90-95 | the early break: nothing from a byte 128 to 254 on reaches the hash |
| AccountHash.XorBelow | src/bnetd/account.cpp:97-100 | mixing stays within 32 bits |
| AccountHash.Hash | src/bnetd/account.cpp:81-102 | the loop computes the specified hash |
| StrToUint.WrapShows | src/common/util.cpp:139-142 | the overflow test after multiplying is exact |
| StrToUint.Accumulate | src/common/util.cpp:137-152 | a digit is refused exactly when it is none or the number leaves 32 bits |
| StrToUint.Parse | src/common/util.cpp:124-156 | the number of the whole string, or an error when it is not one or does not fit |
| StrToUint.UintOfPrinted | src/common/util.cpp:124-156 | a printed number is read back if it fits 32 bits and refused otherwise |
| StrToUint.PlusIgnored | src/common/util.cpp:131-135 | a plus sign in front of digits changes nothing |
| StrToUint.BlankIgnored | src/common/util.cpp:131-135 | blanks in front change nothing |
| StrToUint.OnlyNumbers | src/common/util.cpp:144-148 | any other character makes it no number |
| AccountIndex.BucketHolds | src/common/hashtable.cpp:175-176 | a row holds exactly the accounts whose hash selects it |
| AccountIndex.BucketFindsName | src/bnetd/account.cpp:529-541 | the row of a name finds what a case-insensitive scan of all accounts finds |
| AccountIndex.BucketFindsUid | src/bnetd/account.cpp:553-562 | the row of a uid finds what a scan of all accounts finds |
| AccountIndex.AddedConsistent | src/bnetd/account.cpp:605-690 | adding keeps names unique up to case and uids unique and at most maxuserid |
| AccountIndex.RunGrows | src/bnetd/account.cpp:497-690 | so does every run of additions, look-ups that load from storage, and creations, and none loses an account |
| AccountIndex.StaysFindable | src/bnetd/account.cpp:497-564 | an account stays findable by its uid and by any spelling of its name through every later run |
| AccountIndex.UidWins | src/bnetd/account.cpp:509-527 | a uid in the name wins: the account with that uid is returned whatever it is called, and nothing changes |
| AccountIndex.NameFinds | src/bnetd/account.cpp:529-541 | with no uid in the name, or none that anybody knows, the account of that name is returned in any spelling |
| AccountIndex.StaysReturned | src/bnetd/account.cpp:497-545 | through every later run, an account in memory is what a look-up returns by its name and by # and its uid |
| AccountIndex.LoadedFromStorage | src/bnetd/account.cpp:542-545 | what only the storage knows becomes an account and is returned |
| AccountIndex.UnknownIsNone | src/bnetd/account.cpp:497-545 | what neither knows is not found |
| AccountIndex.UidInIs | src/bnetd/account.cpp:509-515 | # and a number stands for that uid, a number alone only if accounts are not saved by name |
| AccountIndex.LettersHoldNoUid | src/bnetd/account.cpp:509-515 | a name with a letter stands for no uid |
| AccountIndex.CreatedIff | src/bnetd/account.cpp:105-178 | exactly when a creation succeeds, the name being acceptable included, and that it then gets uid maxuserid + 1 |
| AccountIndex.NameSearchedIff | src/bnetd/account.cpp:509-524 | exactly which names are not searched for by name |
| AccountIndex.AcceptableIsSearched | src/bnetd/account.cpp:712-742 | none of them is acceptable unless blanks or plus signs are configured to be |
| AccountList.HashTable.Insert | src/common/hashtable.cpp:161-180 | the entry becomes the head of its row; every row still lists its accounts in order |
| AccountList.HashTable.FindName | src/bnetd/account.cpp:529-541 | the traversal of one row equals a scan of all accounts |
| AccountList.HashTable.FindUid | src/bnetd/account.cpp:553-562 | likewise by uid |
| AccountList.Accounts.AllowAdd | src/bnetd/account.cpp:591-603 | the account limit, counted on the table |
| AccountList.Accounts.Duplicate | src/bnetd/account.cpp:642-672 | the check that skips uids above maxuserid equals the check that skips none |
| AccountList.Accounts.AddAccount | src/bnetd/account.cpp:605-690 | both tables gain the same account, or nothing changes; which of the two |
| AccountList.Accounts.FindAccountByUid | src/bnetd/account.cpp:548-564 | memory first, then storage |
| AccountList.Accounts.FindAccount | src/bnetd/account.cpp:497-545 | uid, name and storage look-ups in the code's order; an account in memory is returned by its uid, by # and its uid, and by any spelling of a name without a uid |
| AccountList.Accounts.CreateAccount | src/bnetd/account.cpp:692-709 | the new account, if any, and the tables after it; an unacceptable name is refused |
| FriendLists.MutualIsSymmetric | src/bnetd/account.cpp:767-808 | two loaded accounts that list each other are flagged mutual on both sides |
| FriendLists.MutualIff | src/bnetd/account.cpp:767-808 | a loaded entry is flagged mutual if and only if that friend lists the account |
| FriendLists.GoodFlagged | src/bnetd/friends.cpp:74-90 | resetting one entry's flag is all that is needed when that friend's list changes |
| FriendLists.TwoChange | src/bnetd/account_wrap.cpp:1905-1938 | one account's list may change with only two records touched; all others stay right |
| FriendLists.ResolvedShorter | src/bnetd/account.cpp:850-869 | loading shortens the slots exactly when some uid names no account |
| FriendLists.ResolvedConcat | src/bnetd/account.cpp:850-869 | every uid that names an account stays, in order |
| FriendLists.WithoutAt | src/bnetd/account_wrap.cpp:1950-1957 | deleting one position moves the later ones up by one |
| FriendBook.Book.RemoveFriend | src/bnetd/account_wrap.cpp:1940-1962 | the shifting loop deletes one position, keeps the order and leaves the old value in the freed slot |
| FriendBook.Book.CheckMutual | src/bnetd/account.cpp:767-808 | whether the other account lists this one, from its list in memory or from its slots |
| FriendBook.Book.LoadFriends | src/bnetd/account.cpp:828-893 | after loading, slots and list hold the uids that name an account, in order, with right flags; of the other accounts only flags may change |
| FriendBook.Book.UnloadFriends | src/bnetd/account.cpp:895-901 | the flags are forgotten, the uids are not, and everything stays consistent |
| FriendBook.Book.AddFriend | src/bnetd/account_wrap.cpp:1905-1938 | the four results; the friend is appended to slots and list with right flags on both sides, or, exactly when loading dropped a uid, the two disagree |
| FriendBook.Book.RemoveFriend2 | src/bnetd/account_wrap.cpp:1964-2005 | the position of the friend is returned and deleted from slots and list, and the other side is no longer mutual |
| AliasOffsets.CountArgs | src/bnetd/alias_command.cpp:222-235 | the number of words |
| AliasOffsets.GetOffsets | src/bnetd/alias_command.cpp:237-255 | exactly that many offsets are written, one per word start |
| AliasOffsets.WordStartsAre | src/bnetd/alias_command.cpp:237-255 | the offsets are strictly increasing, inside the text, and 0 or a non-blank behind a blank |
| AliasTemplate.RangesJoin | src/bnetd/alias_command.cpp:175-179 | neighbouring ranges join, one space apart, to the range over both |
| AliasTemplate.FromZeroIsAll | src/bnetd/alias_command.cpp:121-179 | ${0-} is $* |
| AliasTemplate.FromSplits | src/bnetd/alias_command.cpp:126-179 | ${a-} is ${a} and the rest |
| AliasTemplate.OnlyIs | src/bnetd/alias_command.cpp:168-179 | ${a} goes from the start of word a to the space before the next word, or to the end |
| AliasTemplate.BetweenSame | src/bnetd/alias_command.cpp:131-179 | ${a-a} is ${a} |
| AliasTemplate.BetweenSplits | src/bnetd/alias_command.cpp:131-179 | ${a-b} is ${a}, a space and the rest |
| AliasTemplate.UpToIsBetween | src/bnetd/alias_command.cpp:140-149 | ${-b} is ${0-b} |
| AliasTemplate.BetweenToEnd | src/bnetd/alias_command.cpp:163-167 | a range up to the last word or further is ${a-} |
| AliasTemplate.EmptyRanges | src/bnetd/alias_command.cpp:163-174 | a range that ends before it begins, or begins behind the last word, is empty |
| AliasTemplate.DroppedIsNothing | src/bnetd/alias_command.cpp:184-202 | a dollar sign before anything else is dropped with it and stands for nothing |
| AliasTemplate.PlainTemplate | src/bnetd/alias_command.cpp:110-118 | a template without a dollar sign is its own expansion |
| AliasTemplate.WordIsPrefix | src/bnetd/alias_command.cpp:184-202 | $d is the part of ${d} before its first space or tab |
| AliasTemplate.PieceReadsBack | src/bnetd/alias_command.cpp:112-202 | every written form is read as itself, wherever it stands |
| AliasTemplate.ReadUndoesWrite | src/bnetd/alias_command.cpp:110-202 | reading undoes writing for every sequence of pieces |
| AliasReplace.ReadRange | src/bnetd/alias_command.cpp:126-174 | the two sscanf attempts and the clamping select the four range forms and nothing else |
| AliasReplace.Select | src/bnetd/alias_command.cpp:119-202 | the selected part of the text is what the piece stands for; unknown pieces copy nothing |
| AliasReplace.Append | src/bnetd/alias_command.cpp:204-215 | the regrown buffer holds the old output followed by the selected text |
| AliasReplace.ReplaceArgs | src/bnetd/alias_command.cpp:95-220 | the output is the substitution of the template's pieces, and buffer and terminator always fit |
| AliasReplace.ExpandLine | src/bnetd/alias_command.cpp:267-299 | counting, offsets and replacement fit together for every text |
| AliasReplace.WrittenLineExpands | src/bnetd/alias_command.cpp:95-220 | a template of documented forms always expands to what its pieces stand for |

## Left out

- Packets, sockets, timers, logging, configuration files and the running average of search times are not modelled.
- The w3route join and loading barriers rest on connection code that is not part of this model.
- MatchQueue.MatchQueue.Match: the searcher's level must be non-negative and its window must end below level 100, which is what keeps the sweep inside the array.
- LineUp.SortByLevel: qsort is modelled by an insertion sort whose contract leaves the order of equal levels open.
- LineUp.TwoRowsBalanced: the rows after the third of two teams, and after the second of three or four, are only proved to be permuted, because the code then compares memory outside its array of four totals.
- Seats.OpponentLevel: the AT_2V2V2 branch, which overwrites the first opponent's level instead of adding to it, and the branches that read a single level are not modelled.
- MapChoice.MapTable.AddMap: a new name needs room in the name array, which the code does not check; the lists of the two further clients work alike.
- GameResults.EvaluateResults: reported player numbers must be 1 to 12, which the code does not check.
- GameResults.Ladder.SaveAll: experience, levels and ranks, team records and tournament scores are not modelled.
- AttrCache.AttrLayer.Load: storage reads and writes succeed, and the storage is not SQL, so that one load brings in the whole group; a storage keeps all keys, although the plain-file one skips some when it writes the default account.
- AttrCache.AttrLayer.Flush: which group is the default account, the key of the user name and who is online are given as values.
- AttrCache.AttrGroup.Store: an attribute is a value in a list instead of a record on the heap.
- FormatDecimal.Format: padding, prefixes and the other integer bases of the writer are not modelled; the prefix of write_decimal is covered by the integer formatter only.
- ParseInt.ParseNonnegativeInt: the caller must provide a digit first and a non-digit later, as the source demands.
- Floating-point formatting, cached powers of ten and the Grisu algorithm are not modelled.
- AccountList.Accounts.FindAccount: what the storage answers is given as a value.
- AccountNames.CheckName: isalnum is the one of the C locale; names are without their terminator.
- AccountList.Accounts.SetMaxUserid: the storage is assumed to know at least the accounts that were loaded.
- AccountList.Accounts.AddAccount: an account is a value of name, uid and hash; its other fields, and the removal of all accounts at shutdown, are not modelled.
- FriendBook.Book.LoadFriends: slots within the count never hold uid 0, and the old format that stored names is not modelled; the list in memory is assigned at the end of loading instead of growing in place.
- FriendBook.Book.RemoveFriend2: the friend is given by uid instead of by name; names are unique.
- AliasReplace.ReplaceArgs: a range whose first index is negative and not beyond its last reads before the offsets array and is excluded; sscanf reads unbounded integers; strings are without their terminator.
- The choice of alias lines by argument count, and the commands that the expanded lines run, are not modelled.
- Plain attribute getters and setters, flag conversion, WOL strings, scripts and tools would only add easy members.
