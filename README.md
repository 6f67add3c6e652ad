# Board-game planner: filter engine, sort engine and curated list

This project is a Dafny model of the core of a board-game planner. It has
three parts.

- **Planner** (filter engine). A query such as `minPlayers >= 2, name ~= go`
  is split on commas. Each non-blank clause narrows the result of the clause
  before it. The result is sorted and becomes the working list that the next
  query narrows further. `reset` brings back every game.
- **GameSorter** (sort engine). It builds the comparator for a column and a
  direction. The column's key is compared first, then the lower-cased name.
  Descending order reverses the whole comparator.
- **GameList** (curated list). A set of games is changed by text commands:
  `all`, a 1-based range `a-b`, a 1-based index, or a name (compared
  ignoring case). Adding picks from a list of candidates. Removing picks from
  the members sorted by lower-cased name. A failing command throws before it
  changes anything.

Files:

- `wrappers.dfy`: `Option` and `Result`.
- `text.dfy` (module `JavaText`): the `java.lang.String` and `Integer`
  operations the core relies on. These are `trim`, `toLowerCase`,
  `equalsIgnoreCase`, `compareTo`, `compareToIgnoreCase`, `contains`,
  `split` with and without a limit, and `Integer.parseInt` with its 32-bit
  range.
- `games.dfy` (module `Games`): the game record, the columns and operators,
  and "some enumeration" of a set of games.
- `sorter.dfy` (module `GameSorter`): the comparator, its laws, and the
  stable sort that `List.sort` performs.
- `planner.dfy` (module `Planning`): clause parsing and matching as
  functions, `applyFilterCondition` as a method with loops, and the
  `Planner` class whose `gamesList` field the filter methods reassign.
- `gamelist.dfy` (module `Curation`): command parsing as functions, and the
  `GameList` class whose `listOfGames` set the commands change.

Each command of `GameList` is specified twice.

- As a method of the class, which returns a `Status` (`Done` or
  `Failed(error)`) for the exception and updates the set.
- As a function from the old set to `Ok(new set)` or `Err(error)`
  (`AddOutcome`, `RemoveOutcome`). Each of these makes the checks on a blank
  command and on an empty candidate list, and then hands the trimmed,
  lower-cased command to `AddSelected` or `RemoveSelected`, which decide
  what it selects.

Each method's postcondition ties it to its function. The properties are
proved as lemmas about the functions. The lemmas about numbered commands
hold for any unsigned decimal numerals that `Integer.parseInt` accepts,
leading zeros included; `DecimalNumeral` says that the usual decimal text of
a number is one.

The filter is modelled the same way.

- `FilterSorted` is proved equal to `SortGames(Narrow(...))`.
- `Narrow` applies the clauses one after the other.
- `NarrowIsConjunction` proves that this equals the reference definition
  `KeepSatisfying`: keep the games that pass every clause.

## Model

| member | source | states |
|---|---|---|
| `JavaText.Trim` | src/main/java/student/Planner.java:46-50 | `trim` cuts only characters up to U+0020, and only from the two ends, until neither end is one: the result is a middle slice of the text |
| `JavaText.TrimUntrimmed` | src/main/java/student/GameList.java:83-87 | trimming text with no blank at either end changes nothing |
| `JavaText.Lower` | src/main/java/student/Planner.java:68 | `toLowerCase` keeps the length and lower-cases each character on its own (ASCII letters) |
| `JavaText.LowerIdempotent` | src/main/java/student/GameList.java:87 | lower-casing twice is lower-casing once |
| `JavaText.EqualsIgnoreCase` | src/main/java/student/GameList.java:124 | `equalsIgnoreCase`, defined as equality of the lower-cased texts; `Curation.IgnoreCaseOfLowered` proves it unchanged by lower-casing either side |
| `JavaText.CompareStr` | src/main/java/student/GameList.java:31 | `compareTo` yields a sign, and it is 0 exactly for equal strings |
| `JavaText.CompareStrAntisymmetric` | src/main/java/student/GameList.java:194 | swapping the arguments of `compareTo` negates the result |
| `JavaText.CompareStrTransitive` | src/main/java/student/GameList.java:194 | `compareTo` is transitive, so the name order of the list sorts is a total preorder |
| `JavaText.CompareIgnoreCase` | src/main/java/student/GameList.java:31 | `compareTo` on the lower-cased texts; `Curation.NameOrderIgnoresCase` proves it is the NAME comparator's order |
| `JavaText.IndexOf` | src/main/java/student/Planner.java:68 | `contains` finds the first occurrence, with no occurrence before it |
| `JavaText.HasSubstring` | src/main/java/student/Planner.java:68 | `contains`, defined as `indexOf` finding an occurrence; `JavaText.MissingSeparator` and `JavaText.SplitAroundSeparator` prove when it holds |
| `JavaText.SplitAll` | src/main/java/student/Planner.java:47 | cutting at every separator gives at least one piece, and no piece contains the separator |
| `JavaText.JoinSplitAll` | src/main/java/student/Planner.java:47 | joining the pieces with the separator gives the text back |
| `JavaText.DropTrailingEmpty` | src/main/java/student/Planner.java:101 | `split` drops exactly the trailing empty pieces and keeps the rest |
| `JavaText.Split` | src/main/java/student/Planner.java:101 | `split` with a literal separator: the whole text when the separator is absent, else every piece less the trailing empty ones; `JavaText.SplitTrailingSeparator` and `JavaText.SplitAroundSeparator` prove its two cases the source relies on |
| `JavaText.SplitOnce` | src/main/java/student/Planner.java:70 | `split(sep, 2)` gives head and tail around the first separator, and they rejoin to the text; without a separator it gives the whole text |
| `JavaText.SplitTrailingSeparator` | src/main/java/student/Planner.java:101-106 | text ending in its separator splits into one piece, because the trailing empty piece is dropped |
| `JavaText.MissingSeparator` | src/main/java/student/GameList.java:104 | text without the first character of the separator does not contain it |
| `JavaText.SplitAroundSeparator` | src/main/java/student/GameList.java:145 | `x + sep + y` splits into exactly `[x, y]` when the separator's characters occur in neither side |
| `JavaText.ParseInt` | src/main/java/student/Planner.java:204 | `Integer.parseInt` accepts only an optional sign followed by at least one digit, gives the signed value of those digits, and only when it is a 32-bit int |
| `JavaText.Decimal` | src/main/java/student/GameList.java:111 | a number's decimal text is non-empty and all digits |
| `JavaText.ParseIntDecimal` | src/main/java/student/GameList.java:111 | parsing the decimal text of any 32-bit int, negative or not, gives the int back |
| `Games.Token` | src/main/java/student/Planner.java:101 | each operator's text is one or two characters |
| `Games.Field` | src/main/java/student/Planner.java:136-158 | the value of a column has the column's kind: text for NAME, fractional for DIFFICULTY and RATING, whole for the others, none for ID |
| `Games.EnumerationSize` | src/main/java/student/GameList.java:49-51 | a list holding each member once is as long as the set is large |
| `Games.Enumerate` | src/main/java/student/Planner.java:274 | copying a set into a list lists each member exactly once |
| `GameSorter.BaseKey` | src/main/java/student/GameSorter.java:31-54 | the key of each column: the lower-cased name for NAME and for any unlisted column (ID), else that column's number |
| `GameSorter.CompareKeys` | src/main/java/student/GameSorter.java:34-50 | comparing keys yields a sign, and it is 0 exactly for equal keys |
| `GameSorter.CompareKeysAntisymmetric` | src/main/java/student/GameSorter.java:34-50 | swapping two keys negates their comparison |
| `GameSorter.CompareKeysTransitive` | src/main/java/student/GameSorter.java:34-50 | comparing keys is transitive |
| `GameSorter.CompareAscending` | src/main/java/student/GameSorter.java:19-20 | the combined ascending comparator yields a sign |
| `GameSorter.CompareAntisymmetric` | src/main/java/student/GameSorter.java:18-23 | in either direction, swapping two games negates the comparison |
| `GameSorter.CompareAscendingTransitive` | src/main/java/student/GameSorter.java:19-20 | the key-then-name comparator is transitive |
| `GameSorter.CompareTransitive` | src/main/java/student/GameSorter.java:18-23 | the comparator is transitive in both directions |
| `GameSorter.DescendingReversesAscending` | src/main/java/student/GameSorter.java:22 | descending is the negated ascending comparator, which is ascending with the arguments swapped |
| `GameSorter.TieBreakOnName` | src/main/java/student/GameSorter.java:19-22 | games with equal keys are ordered by lower-cased name: ascending names when ascending, descending names when descending |
| `GameSorter.CompareZero` | src/main/java/student/GameSorter.java:18-23 | two games tie exactly when their keys and lower-cased names agree |
| `GameSorter.UnlistedColumnSortsByName` | src/main/java/student/GameSorter.java:51-52 | the ID column sorts exactly as NAME does, that is by lower-cased name |
| `GameSorter.Compare` | src/main/java/student/GameSorter.java:18-23 | the comparator of `sortFilteredGames`: the ascending comparator, with its arguments swapped when descending; its laws are `CompareAntisymmetric`, `CompareTransitive`, `CompareZero` and `TieBreakOnName` |
| `GameSorter.Comparator` | src/main/java/student/GameSorter.java:18-23 | `sortFilteredGames(col, ascending)` as a function value; `ComparatorAntisymmetric` and `ComparatorTiesTransitive` prove the laws the sort needs |
| `GameSorter.Insert` | src/main/java/student/Planner.java:268 | inserting with any comparator adds exactly the one game to the list's multiset |
| `GameSorter.SortWith` | src/main/java/student/Planner.java:268 | `List.sort` with any comparator returns a permutation of its input |
| `GameSorter.SortGames` | src/main/java/student/Planner.java:266-270 | the sorted list is a permutation of its input |
| `GameSorter.ComparatorAntisymmetric` | src/main/java/student/GameSorter.java:18-23 | the comparator of every column and direction is antisymmetric, as `java.util.Comparator` demands |
| `GameSorter.InsertSorted` | src/main/java/student/Planner.java:268 | for an antisymmetric comparator, inserting into a list whose neighbours are in order keeps them in order, and the new front is the inserted game or the old front |
| `GameSorter.SortWithSorted` | src/main/java/student/Planner.java:268 | for an antisymmetric comparator, the sort leaves every pair of neighbours in order |
| `GameSorter.ChainSorted` | src/main/java/student/GameSorter.java:18-23 | since the comparator is transitive, neighbours in order put every earlier game at or below every later one |
| `GameSorter.SortGamesSorted` | src/main/java/student/Planner.java:266-270 | the sorted list is in order for the column and direction |
| `GameSorter.InsertAtFront` | src/main/java/student/Planner.java:268 | a game that compares no higher than the front is inserted at the front |
| `GameSorter.SortWithSortedUnchanged` | src/main/java/student/Planner.java:268 | a list whose neighbours are in order is returned unchanged, equal games included |
| `GameSorter.SortSortedUnchanged` | src/main/java/student/Planner.java:266-270 | sorting a list that is already in order returns it unchanged |
| `GameSorter.SortIdempotent` | src/main/java/student/Planner.java:56 | sorting a sorted working list again changes nothing |
| `GameSorter.ComparatorTiesTransitive` | src/main/java/student/GameSorter.java:18-23 | two games that both tie with a third tie with each other, for every column and direction |
| `GameSorter.InsertTies` | src/main/java/student/Planner.java:268 | inserting a game puts it before every game it ties with and leaves their order alone |
| `GameSorter.SortWithStable` | src/main/java/student/Planner.java:268 | the sort is stable: for any input, the games that tie with a given game come out in their input order |
| `GameSorter.SortGamesStable` | src/main/java/student/Planner.java:266-270 | sorting on any column and direction keeps tied games, such as two games whose names differ only in case, in their input order |
| `Planning.Select` | src/main/java/student/Planner.java:117-124 | a clause's result is never longer than its input |
| `Planning.NonBlankSnoc` | src/main/java/student/Planner.java:49-53 | one more piece adds its trimmed text to the clauses, unless it is blank |
| `Planning.NarrowSnoc` | src/main/java/student/Planner.java:49-53 | one more clause narrows the result of the clauses before it |
| `Planning.SatisfiesAllSnoc` | src/main/java/student/Planner.java:49-53 | passing one more clause means passing the earlier ones and that one |
| `Planning.SelectAfterKeep` | src/main/java/student/Planner.java:49-53 | applying one more clause to the games that pass all earlier clauses keeps those that pass all of them |
| `Planning.KeepSatisfyingNone` | src/main/java/student/Planner.java:44 | with no clauses every game is kept, in order |
| `Planning.NarrowByIsConjunction` | src/main/java/student/Planner.java:49-53 | effects applied one after the other keep exactly the games that pass all of them |
| `Planning.NarrowIsNarrowBy` | src/main/java/student/Planner.java:49-53 | applying clauses is applying their effects |
| `Planning.NarrowIsConjunction` | src/main/java/student/Planner.java:49-53 | a multi-clause query keeps exactly the games that pass every clause, in the working list's order |
| `Planning.KeepSatisfyingCount` | src/main/java/student/Planner.java:117-124 | a game is kept as often as it occurs when it passes every clause, and never otherwise |
| `Planning.KeepSatisfyingAppend` | src/main/java/student/Planner.java:117-124 | filtering works game by game: filtering two lists joined is joining them filtered |
| `Planning.ApplyFilterCondition` | src/main/java/student/Planner.java:67-125 | the method returns exactly the games of the input that its clause's effect keeps, in order |
| `Planning.KeepNameMatches` | src/main/java/student/Planner.java:78-84 | the fast path's loop returns, in order, exactly the games whose lower-cased name contains the lower-cased value |
| `Planning.KeepMatching` | src/main/java/student/Planner.java:117-124 | the general loop returns, in order, exactly the games that match the column, operator and value |
| `Planning.SelectKeepAll` | src/main/java/student/Planner.java:87-113 | a dropped clause returns its input unchanged |
| `Planning.MatchesString` | src/main/java/student/Planner.java:169-191 | `matchesStringFilter`: a missing value satisfies only `!=`; otherwise each operator compares ignoring case. Its laws are `StringMatchIgnoresCase`, `StringOperatorsComplement` and `MissingNameMatchesOnlyNotEquals` |
| `Planning.MatchesNumber` | src/main/java/student/Planner.java:202-224 | `matchesNumberFilter`: an unparsable literal and `~=` match nothing, else the six comparisons on ints. Its laws are `NumberLiteralRoundTrip` and `NumberOperatorsComplement` |
| `Planning.MatchesDouble` | src/main/java/student/Planner.java:234-256 | `matchesDoubleFilter` over exact reals, with `==` and `!=` within 0.001. Its laws are `DoubleOperatorsComplement` and `UnparsableDoubleMatchesNothing` |
| `Planning.MatchesFilter` | src/main/java/student/Planner.java:136-158 | `matchesFilter`: dispatches on the kind of the column's value; ID lets every game through |
| `Planning.FastPathEffect` | src/main/java/student/Planner.java:68-90 | the fast path decides `name ~= v`, drops a clause whose column does not resolve, and falls through otherwise. `FastPathKeepsNameMatches`, `FastPathUnknownColumn` and `FastPathAgreesWithGeneral` prove what it does |
| `Planning.GeneralEffect` | src/main/java/student/Planner.java:92-124 | the general path drops a clause with no operator, with other than two pieces or with an unknown column. The `...DropsClause` lemmas prove each case |
| `Planning.ClauseEffect` | src/main/java/student/Planner.java:67-125 | the fast path's decision, else the general path's |
| `Planning.ApplyCondition` | src/main/java/student/Planner.java:67-125 | the games that pass the clause's effect, in order; `Planning.ApplyFilterCondition` is the method proved equal to it |
| `Planning.Clauses` | src/main/java/student/Planner.java:44-53 | the trimmed query cut at commas, each piece trimmed, blank pieces skipped; `Planning.BlankQueryDoesNotNarrow` proves a blank query has none |
| `Planning.Narrow` | src/main/java/student/Planner.java:49-53 | each clause applied to the result of the one before; `Planning.NarrowIsConjunction` proves it keeps exactly the games passing every clause |
| `Planning.Planner.constructor` | src/main/java/student/Planner.java:23-26 | the working list starts as every game, each once |
| `Planning.Planner.Filter` | src/main/java/student/Planner.java:29-31 | `filter(query)` narrows the working list, sorts by name ascending, and stores and returns the result |
| `Planning.Planner.FilterOn` | src/main/java/student/Planner.java:34-36 | `filter(query, sortOn)` narrows, sorts ascending on `sortOn`, and stores and returns the result |
| `Planning.Planner.FilterSorted` | src/main/java/student/Planner.java:39-58 | the result and the new working list are both the old working list narrowed by every non-blank clause, then sorted |
| `Planning.Planner.ApplyConditions` | src/main/java/student/Planner.java:49-53 | each trimmed non-blank piece narrows the working list in turn |
| `Planning.Planner.Reset` | src/main/java/student/Planner.java:273-275 | the working list again holds every game exactly once |
| `Planning.SubsequenceSnoc` | src/main/java/student/Planner.java:117-124 | a subsequence stays one when the longer list grows |
| `Planning.SubsequenceDropLast` | src/main/java/student/Planner.java:117-124 | dropping the last game of a subsequence leaves a subsequence |
| `Planning.KeepSatisfyingIsSubsequence` | src/main/java/student/Planner.java:117-124 | the kept games are a subsequence of the input |
| `Planning.NarrowIsSubsequence` | src/main/java/student/Planner.java:47-53 | before the sort, the narrowed list is a subsequence of the working list: order kept, no new games |
| `Planning.FilterResult` | src/main/java/student/Planner.java:44-56 | a filter's result is sorted, holds each game that passes every clause as often as the working list does, and holds no other game |
| `Planning.KeepSatisfyingAgree` | src/main/java/student/Planner.java:117-124 | clause lists that accept the same games keep the same list |
| `Planning.SatisfiesAllAppend` | src/main/java/student/Planner.java:49-53 | passing two lists of clauses means passing each |
| `Planning.EffectsAppend` | src/main/java/student/Planner.java:49-53 | the effects of joined clause lists are the joined effects |
| `Planning.ClauseOrderIrrelevant` | src/main/java/student/Planner.java:49-53 | swapping two groups of clauses does not change the result |
| `Planning.BlankQueryDoesNotNarrow` | src/main/java/student/Planner.java:44-56 | a blank query has no clauses, and the result is the working list sorted: a permutation in order |
| `Planning.SelectMembers` | src/main/java/student/Planner.java:117-124 | a game is in a clause's result exactly when it is in the input and passes the clause |
| `Planning.NoOperatorDropsClause` | src/main/java/student/Planner.java:90-95 | a clause that falls through the fast path and has no operator leaves the list unchanged |
| `Planning.WrongPieceCountDropsClause` | src/main/java/student/Planner.java:90-106 | a clause that falls through the fast path and does not cut into exactly two pieces leaves the list unchanged |
| `Planning.UnknownColumnDropsClause` | src/main/java/student/Planner.java:90-113 | a clause that falls through the fast path and whose column does not resolve leaves the list unchanged |
| `Planning.TrailingOperatorDropsClause` | src/main/java/student/Planner.java:101-106 | a clause ending in its operator (`minPlayers>`) leaves the list unchanged |
| `Planning.FastPathKeepsNameMatches` | src/main/java/student/Planner.java:68-85 | `name ~= v` keeps exactly the games whose lower-cased name contains the lower-cased `v` |
| `Planning.FastPathUnknownColumn` | src/main/java/student/Planner.java:86-88 | on the fast path, a column that does not resolve leaves the list unchanged |
| `Planning.FastPathAgreesWithGeneral` | src/main/java/student/Planner.java:77-84 | the fast path keeps the same games as the general path's `~=` on NAME |
| `Planning.UnmatchableNumberEmptiesList` | src/main/java/student/Planner.java:218-223 | on MINPLAYERS, MAXPLAYERS, MINTIME, MAXTIME, RANK or YEAR, an unparsable literal or `~=` matches no game, so the clause empties the list |
| `Planning.StringMatchIgnoresCase` | src/main/java/student/Planner.java:174-191 | every string operator gives the same answer on the lower-cased game value and literal |
| `Planning.StringOperatorsComplement` | src/main/java/student/Planner.java:174-191 | on text, `!=` negates `==`, `<` negates `>=`, `>` negates `<=`, and `==` holds exactly when both `>=` and `<=` hold |
| `Planning.MissingNameMatchesOnlyNotEquals` | src/main/java/student/Planner.java:170-172 | the null guard of `matchesStringFilter`: a missing value satisfies `!=` and no other operator |
| `Planning.NumberLiteralRoundTrip` | src/main/java/student/Planner.java:202-220 | a literal written as an int's decimal text compares as that int, and `~=` never matches |
| `Planning.NumberOperatorsComplement` | src/main/java/student/Planner.java:205-217 | once the literal parses, `!=` negates `==`, `<` negates `>=`, and `>` negates `<=` |
| `Planning.DoubleOperatorsComplement` | src/main/java/student/Planner.java:237-254 | once the literal parses, `!=` negates `==` within the tolerance, `<` negates `>=`, `>` negates `<=`, `==` holds of the literal's own value, and `~=` never matches |
| `Planning.UnparsableDoubleMatchesNothing` | src/main/java/student/Planner.java:235-256 | a literal that `Double.parseDouble` rejects matches no game under any operator |
| `Curation.ParseRange` | src/main/java/student/GameList.java:144-167 | a range that parses selects a non-empty span inside the list |
| `Curation.Interpret` | src/main/java/student/GameList.java:98-119 | a selected span or position lies inside the list |
| `Curation.FirstNamed` | src/main/java/student/GameList.java:122-128 | the position found is the first whose name equals the text ignoring case; with none found, no game has that name |
| `Curation.ByName` | src/main/java/student/GameList.java:193-194 | the members sorted by name are as many as the members listed |
| `Curation.NamesOf` | src/main/java/student/GameList.java:29-30 | there is one name per game |
| `Curation.Command` | src/main/java/student/GameList.java:87 | the text a command is matched on: trimmed, then lower-cased. `Curation.AllIsPlain`, `Curation.PlainCommand` and `Curation.IgnoreCaseOfLowered` prove what it leaves unchanged |
| `Curation.AddOutcome` | src/main/java/student/GameList.java:82-135 | `addToList` as a value: a blank command, then an empty candidate list, fail; otherwise what `AddSelected` gives. Its laws are the `Add...` lemmas below |
| `Curation.AddSelected` | src/main/java/student/GameList.java:98-134 | what a normalised command adds: every candidate, a span, a position, or the first candidate with the name |
| `Curation.RemoveOutcome` | src/main/java/student/GameList.java:179-228 | `removeFromList` as a value: a blank command fails; otherwise what `RemoveSelected` gives on the members sorted by name. Its laws are the `Remove...` lemmas below |
| `Curation.RemoveSelected` | src/main/java/student/GameList.java:187-227 | what a normalised command removes: every member, a span or a position of the sorted members, or the first member with the name in the set's order |
| `Curation.GameList.constructor` | src/main/java/student/GameList.java:18-20 | a new list is empty |
| `Curation.GameList.GetGameNames` | src/main/java/student/GameList.java:28-33 | the names are the members' names sorted ignoring case, and there are `count()` of them |
| `Curation.GameList.Count` | src/main/java/student/GameList.java:49-51 | the count is 0 exactly when the list is empty |
| `Curation.GameList.Clear` | src/main/java/student/GameList.java:39-41 | the list becomes empty |
| `Curation.GameList.AddToList` | src/main/java/student/GameList.java:82-135 | a blank command or an empty candidate list fails and changes nothing; otherwise the set becomes what `AddOutcome` computes, or the error is reported and the set is unchanged |
| `Curation.GameList.AddCommand` | src/main/java/student/GameList.java:98-134 | `all`, a range, an index or a name changes the set as `AddSelected` computes, or reports its error and changes nothing |
| `Curation.GameList.AddRange` | src/main/java/student/GameList.java:144-168 | a valid range adds candidates `a` to `b`; an invalid one reports the error `ParseRange` gives and changes nothing |
| `Curation.GameList.AddEach` | src/main/java/student/GameList.java:162-164 | the loop adds exactly candidates `a` to `b` to the set |
| `Curation.GameList.RemoveFromList` | src/main/java/student/GameList.java:179-228 | on success the set becomes what `RemoveOutcome` computes for the set's iteration order; on failure the error is reported and the set is unchanged |
| `Curation.GameList.RemoveCommand` | src/main/java/student/GameList.java:196-227 | a range, an index or a name changes the set as `RemoveSelected` computes, or reports its error and changes nothing |
| `Curation.GameList.RemoveRange` | src/main/java/student/GameList.java:237-264 | a valid range removes the sorted members `a` to `b`; an invalid one reports its error and changes nothing |
| `Curation.Collect` | src/main/java/student/GameList.java:255-258 | the loop collects exactly the sorted members `a` to `b`, in order |
| `Curation.FindByName` | src/main/java/student/GameList.java:122-128 | the loop finds the first game whose name equals the text ignoring case, or none |
| `Curation.NameOrderIgnoresCase` | src/main/java/student/GameList.java:194 | sorting ascending on NAME compares names ignoring case |
| `Curation.ByNameOrdered` | src/main/java/student/GameList.java:193-194 | the members, sorted by name, are in case-insensitive name order |
| `Curation.BlankOrNoCandidatesFails` | src/main/java/student/GameList.java:83-95 | a blank command fails for add and remove; with no candidates every other add fails |
| `Curation.AllCommand` | src/main/java/student/GameList.java:83-101 | `all`, in any case and with blanks around it, adds every candidate (the union) and removes every member |
| `Curation.AllIsPlain` | src/main/java/student/GameList.java:87 | trimming and lower-casing leave the command `all` as it is |
| `Curation.SliceMembers` | src/main/java/student/GameList.java:162-164 | the games of a span are games of the list |
| `Curation.AddOnlyAddsCandidates` | src/main/java/student/GameList.java:98-134 | a successful add keeps every member and adds only candidates |
| `Curation.AddIdempotent` | src/main/java/student/GameList.java:98-134 | repeating a successful add changes nothing |
| `Curation.SelectedAddIdempotent` | src/main/java/student/GameList.java:98-134 | repeating a successful add of a trimmed, lower-cased command changes nothing |
| `Curation.RemoveOnlyRemoves` | src/main/java/student/GameList.java:187-227 | a successful remove leaves a subset of the members |
| `Curation.SelectedRemovalShrinks` | src/main/java/student/GameList.java:187-227 | whatever a trimmed, lower-cased command selects, a successful remove leaves a subset of the members |
| `Curation.DigitsArePlain` | src/main/java/student/GameList.java:104 | digits are not `-`, not upper case and not blank |
| `Curation.PlainCommand` | src/main/java/student/GameList.java:83-87 | a command of digits and dashes with a digit at each end is matched as written |
| `Curation.DecimalNumeral` | src/main/java/student/GameList.java:111 | the decimal text of a non-negative int is a numeral that `parseInt` reads back as that int |
| `Curation.ParseRangeOf` | src/main/java/student/GameList.java:145-160 | two numerals `a` and `b` around a dash fail as out of bounds unless both lie in `1..n`, then fail on order if `a > b`, and otherwise parse to the span from `a - 1` up to `b` |
| `Curation.RangeText` | src/main/java/student/GameList.java:104-107 | the command `a-b` for numerals is matched as written and selects the span from `a - 1` up to `b`, or fails on bounds before order, as the range parser decides |
| `Curation.InterpretBounds` | src/main/java/student/GameList.java:104-107 | a dashed command other than `all` selects what its range parses to, or fails with the parser's error |
| `Curation.PlainRange` | src/main/java/student/GameList.java:83-87 | two numerals around a dash are not blank, are matched as written, and are not `all` |
| `Curation.InterpretRange` | src/main/java/student/GameList.java:104-107 | a dashed command's outcome is exactly the range parser's outcome |
| `Curation.AddSlice` | src/main/java/student/GameList.java:104-107 | an add that selects a span adds that span's candidates |
| `Curation.RemoveSlice` | src/main/java/student/GameList.java:197-200 | a remove that selects a span removes that span of the sorted members |
| `Curation.IndexText` | src/main/java/student/GameList.java:110-116 | the numeral `k` selects position `k - 1` if `1 <= k <= n`, and otherwise is out of range |
| `Curation.RangeInBounds` | src/main/java/student/GameList.java:154-160 | the command `a-b` with `1 <= a <= b <= n` selects the span from `a - 1` up to `b` |
| `Curation.AddRangeAddsSlice` | src/main/java/student/GameList.java:162-164 | adding `a-b` with `1 <= a <= b <= n` adds exactly candidates `a` to `b` |
| `Curation.AddIndexAddsOne` | src/main/java/student/GameList.java:110-116 | adding the numeral `k` adds candidate `k` when `1 <= k <= n`, and otherwise fails as out of range |
| `Curation.MembersSize` | src/main/java/student/GameList.java:49-51 | a list of distinct games has as many members as elements |
| `Curation.AddRangeCount` | src/main/java/student/GameList.java:162-164 | with distinct candidates, adding `a-b` to an empty list leaves `b - a + 1` games |
| `Curation.SliceCount` | src/main/java/student/GameList.java:162-164 | the games of a span of a list without repeats are as many as its positions |
| `Curation.SmallRanges` | src/test/java/GameListTest.java:61-77 | `1-3` on distinct candidates gives three games, and `1-1` gives one |
| `Curation.DashMeansRange` | src/main/java/student/GameList.java:104-107 | a command holding `-` either selects a span or fails with a range error, never as an index or a name |
| `Curation.NegativeIndexIsRange` | src/test/java/GameListTest.java:93-97 | `-1` fails as invalid range numbers, not as an index |
| `Curation.OpenRangeIsMalformed` | src/main/java/student/GameList.java:145-148 | `1-` has a single piece, so it is an invalid range format |
| `Curation.RangeBoundsBeforeOrder` | src/main/java/student/GameList.java:154-160 | `5-1` on five or more games fails on order; `0-1` fails on bounds |
| `Curation.ReversedRange` | src/main/java/student/GameList.java:158-160 | `5-1` on five or more games is in bounds and fails on order |
| `Curation.ZeroStartRange` | src/main/java/student/GameList.java:154-156 | `0-1` fails on bounds on any list |
| `Curation.IgnoreCaseOfLowered` | src/main/java/student/GameList.java:87 | matching a name against the lower-cased command ignoring case is matching it against the command |
| `Curation.AddByName` | src/main/java/student/GameList.java:121-134 | an add by name fails exactly when no candidate has the name ignoring case; otherwise it adds the first candidate that has it |
| `Curation.AddNamed` | src/main/java/student/GameList.java:121-134 | a name command fails exactly when no candidate has that name ignoring case; otherwise it adds the first candidate that has it |
| `Curation.NoDuplicatesByCount` | src/main/java/student/GameList.java:193 | a list has no duplicates exactly when each game occurs at most once in its multiset |
| `Curation.ByNameEnumerates` | src/main/java/student/GameList.java:193-194 | sorting a listing of the members gives a listing of the members |
| `Curation.RemovePosition` | src/main/java/student/GameList.java:203-208 | a remove that selects a position removes that sorted member |
| `Curation.EnumeratedAt` | src/main/java/student/GameList.java:206 | each game of a listing of the members is a member, and removing it leaves one fewer |
| `Curation.SliceRemovalCount` | src/main/java/student/GameList.java:255-260 | removing the members at a span of a listing removes that many |
| `Curation.RemoveRangeRemovesSlice` | src/main/java/student/GameList.java:255-260 | removing `a-b` removes exactly the sorted members `a` to `b`, `b - a + 1` of them, and keeps all others |
| `Curation.RemoveIndexRemovesOne` | src/main/java/student/GameList.java:203-208 | removing the numeral `k` with `1 <= k <= n` removes exactly sorted member `k`, one member |
| `Curation.IndexInBounds` | src/main/java/student/GameList.java:110-116 | the numeral `k` with `1 <= k <= n` selects position `k - 1` |
| `Curation.RemoveByName` | src/main/java/student/GameList.java:215-227 | a remove by name fails exactly when no member has the name; otherwise it removes one member with that name |

## Left out

- `GameList.saveGame` writes the names to a file with `Files.write` and prints I/O errors. It is file I/O and is not modelled.
- `GameData.fromString`, `Operations.getOperatorFromStr` and `Double.parseDouble` are given functions, the fields of `Planning.Registry`. `BoardGame`, `GameData`, `Operations` and `IGameList` are not part of this model. `Game` is a datatype with value equality. `IGameList.ADD_ALL` is the constant `"all"`.
- Floating point. DIFFICULTY and RATING values are exact reals. The `0.001` tolerance of `==` and `!=` is kept. NaN, infinities, rounding and `-0.0` are not modelled.
- Case mapping is ASCII only. Java's Unicode case folding is not modelled.
- `JavaText.ParseInt`: only the ASCII digits `0` to `9` are digits. `Integer.parseInt` also accepts the other Unicode decimal digits.
- `JavaText.CompareStr`: orders strings by Dafny characters, which are Unicode scalar values. `String.compareTo` orders by UTF-16 code units, and the two orders differ for characters above U+FFFF.
- `Game.name` is never null. In the source a null name throws a `NullPointerException` on the fast path (`Planner.java` line 80), in every sort by name and in the `equalsIgnoreCase` loops of `GameList`. The only null check is the guard of `matchesStringFilter`, which `Planning.MissingNameMatchesOnlyNotEquals` states on its own; no `Game` reaches it.
- `Planning.Planner` keeps its own value of all games (the constant `allGames`). The source keeps a reference to the caller's `Set` (`Planner.java` lines 24 and 274), so a later change to that set would show up at `reset`. Aliasing is not modelled.
- The order in which a `HashSet` hands out its elements is "some enumeration" (`Games.Enumerate`). It fixes `reset`'s initial order and which of several members with the same name a remove by name picks. The lemmas about these hold for every order.
- Java `Stream`s are lists (`seq<Game>`). Laziness is not modelled.
- A null query or command is the empty string. The `gamesList == null` branch of `filter` cannot happen once the constructor has run, so it is not modelled.
- The exceptions of `GameList` are `Status` values. The error message texts are not modelled; the `Error` constructor names the exception thrown.
- `Planning.Planner.ApplyConditions`: the clause loop of `filter` is a method of its own, called by `FilterSorted`.
- `Planning.KeepNameMatches`, `Planning.KeepMatching`: the two loops of `applyFilterCondition` are methods of their own, called by `ApplyFilterCondition` where the source runs them.
- `Curation.GameList.AddCommand`, `Curation.GameList.RemoveCommand`: the part of `addToList` and `removeFromList` after the blank-command, empty-list and (for remove) `all` checks is a method of its own. The sorted copy that `removeFromList` makes is passed to it.
- `Curation.GameList.AddEach`, `Curation.Collect`: the loops of `addRange` and `removeRange` are methods of their own.
- `Curation.GameList.AddRange`: the loop counter is an unbounded integer. The source's `int` counter would overflow only when the range ends at `Integer.MAX_VALUE`, which needs a list that large.
