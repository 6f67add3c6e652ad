/**
 * The filter engine (Planner): a query is split on commas into clauses,
 * each non-blank clause narrows the result of the one before it, the
 * outcome is sorted and kept as the working list for the next query.
 */
module Planning {
  import opened Wrappers
  import opened JavaText
  import opened Games
  import opened GameSorter

  /** What the planner takes from collaborators outside this model. */
  datatype Registry = Registry(
    // GameData.fromString: a column name to its column; None where it throws
    columnOf: string -> Option<Column>,
    // Operations.getOperatorFromStr: the operator a clause uses, if any
    operatorIn: string -> Option<Op>,
    // Double.parseDouble; None where it throws
    parseDouble: string -> Option<real>)

  // ---------------------------------------------------------------- matching one game

  /** matchesStringFilter: case-insensitive comparisons. A missing (null)
      game value satisfies only `!=`. */
  function MatchesString(gameValue: Option<string>, op: Op, filterValue: string): bool {
    match gameValue
    case None => op == NotEquals
    case Some(v) =>
      match op
      case Equals => EqualsIgnoreCase(v, filterValue)
      case NotEquals => !EqualsIgnoreCase(v, filterValue)
      case Contains => HasSubstring(Lower(v), Lower(filterValue))
      case GreaterThan => CompareIgnoreCase(v, filterValue) > 0
      case LessThan => CompareIgnoreCase(v, filterValue) < 0
      case GreaterThanEquals => CompareIgnoreCase(v, filterValue) >= 0
      case LessThanEquals => CompareIgnoreCase(v, filterValue) <= 0
  }

  /** matchesNumberFilter: a literal that Integer.parseInt rejects, or the
      `~=` operator, matches nothing. */
  function MatchesNumber(gameValue: int, op: Op, filterValue: string): bool {
    match ParseInt(filterValue)
    case None => false
    case Some(n) =>
      match op
      case Equals => gameValue == n
      case NotEquals => gameValue != n
      case GreaterThan => gameValue > n
      case LessThan => gameValue < n
      case GreaterThanEquals => gameValue >= n
      case LessThanEquals => gameValue <= n
      case Contains => false
  }

  /** The tolerance of `==` and `!=` on fractional columns. */
  const Tolerance: real := 0.001

  function Distance(x: real, y: real): real {
    if x < y then y - x else x - y
  }

  /** matchesDoubleFilter, over exact reals: equality within the tolerance. */
  function MatchesDouble(reg: Registry, gameValue: real, op: Op, filterValue: string): bool {
    match reg.parseDouble(filterValue)
    case None => false
    case Some(d) =>
      match op
      case Equals => Distance(gameValue, d) < Tolerance
      case NotEquals => Distance(gameValue, d) >= Tolerance
      case GreaterThan => gameValue > d
      case LessThan => gameValue < d
      case GreaterThanEquals => gameValue >= d
      case LessThanEquals => gameValue <= d
      case Contains => false
  }

  /** matchesFilter: dispatch on the kind of the column; a column no filter
      reads (ID) lets every game through. */
  function MatchesFilter(reg: Registry, g: Game, col: Column, op: Op, value: string): bool {
    match Field(col, g)
    case None => true
    case Some(Text(s)) => MatchesString(Some(s), op, value)
    case Some(Whole(i)) => MatchesNumber(i, op, value)
    case Some(Fractional(r)) => MatchesDouble(reg, r, op, value)
  }

  // ---------------------------------------------------------------- parsing one clause

  /** What one clause does to a list. */
  datatype Effect =
    | KeepAll                                    // the clause is dropped
    | NameContains(text: string)                 // the `name ~= v` fast path
    | Where(col: Column, op: Op, value: string)  // the general path

  /** The fast path's guard: the clause mentions "name" in any case and `~=`. */
  predicate OnFastPath(condition: string) {
    HasSubstring(Lower(condition), "name") && HasSubstring(condition, "~=")
  }

  /** The fast path: Some(effect) when it decides the clause, None when the
      clause falls through to the general path (a column other than NAME). */
  function FastPathEffect(reg: Registry, condition: string): Option<Effect> {
    if OnFastPath(condition) then
      var parts := SplitOnce(condition, "~=");
      if |parts| == 2 then
        match reg.columnOf(Trim(parts[0]))
        case None => Some(KeepAll)
        case Some(Name) => Some(NameContains(Trim(parts[1])))
        case Some(_) => None
      else None
    else None
  }

  /** The pieces the general path cuts a clause into around its operator:
      at the first `~=` for CONTAINS, otherwise by String.split on the
      operator's text. */
  function OperatorParts(condition: string, op: Op): seq<string> {
    if op == Contains then SplitOnce(condition, "~=") else Split(condition, Token(op))
  }

  /** The general path: no operator, not exactly two pieces, or an unknown
      column drops the clause. */
  function GeneralEffect(reg: Registry, condition: string): Effect {
    match reg.operatorIn(condition)
    case None => KeepAll
    case Some(op) =>
      var parts := OperatorParts(condition, op);
      if |parts| != 2 then KeepAll
      else
        match reg.columnOf(Trim(parts[0]))
        case None => KeepAll
        case Some(col) => Where(col, op, Trim(parts[1]))
  }

  /** applyFilterCondition's decision for one (trimmed) clause. */
  function ClauseEffect(reg: Registry, condition: string): Effect {
    match FastPathEffect(reg, condition)
    case Some(e) => e
    case None => GeneralEffect(reg, condition)
  }

  /** Whether a game passes a clause. */
  function Holds(reg: Registry, e: Effect, g: Game): bool {
    match e
    case KeepAll => true
    case NameContains(v) => HasSubstring(Lower(g.name), Lower(v))
    case Where(col, op, value) => MatchesFilter(reg, g, col, op, value)
  }

  // ---------------------------------------------------------------- applying clauses

  /** The games of `games` that pass `e`, in their order. */
  function Select(reg: Registry, e: Effect, games: seq<Game>): (r: seq<Game>)
    ensures |r| <= |games|
  {
    if games == [] then []
    else
      var last := games[|games| - 1];
      Select(reg, e, games[..|games| - 1]) + (if Holds(reg, e, last) then [last] else [])
  }

  /** The result of applyFilterCondition(condition, games). */
  function ApplyCondition(reg: Registry, condition: string, games: seq<Game>): seq<Game> {
    Select(reg, ClauseEffect(reg, condition), games)
  }

  /** The trimmed non-blank pieces, in order. */
  function NonBlank(parts: seq<string>): seq<string> {
    if parts == [] then []
    else
      var c := Trim(parts[|parts| - 1]);
      NonBlank(parts[..|parts| - 1]) + (if c == [] then [] else [c])
  }

  lemma NonBlankSnoc(parts: seq<string>, p: string)
    ensures NonBlank(parts + [p]) == NonBlank(parts) + (if Trim(p) == [] then [] else [Trim(p)])
  {
    assert (parts + [p])[..|parts|] == parts;
  }

  /** One more piece of a query: a non-blank one adds its trimmed text to
      the clauses, a blank one adds nothing. */
  lemma NonBlankStep(parts: seq<string>, i: nat)
    requires i < |parts|
    ensures Trim(parts[i]) != [] ==> NonBlank(parts[..i + 1]) == NonBlank(parts[..i]) + [Trim(parts[i])]
    ensures Trim(parts[i]) == [] ==> NonBlank(parts[..i + 1]) == NonBlank(parts[..i])
  {
    assert parts[..i + 1] == parts[..i] + [parts[i]];
    NonBlankSnoc(parts[..i], parts[i]);
  }

  /** The clauses of a query, as filter loops over them: the trimmed query is
      split on commas and blank pieces are skipped. */
  function Clauses(query: string): seq<string> {
    if query == [] then [] else NonBlank(Split(Trim(query), ","))
  }

  /** Each clause applied to the result of the previous one. */
  function Narrow(reg: Registry, clauses: seq<string>, games: seq<Game>): seq<Game> {
    if clauses == [] then games
    else ApplyCondition(reg, clauses[|clauses| - 1], Narrow(reg, clauses[..|clauses| - 1], games))
  }

  lemma NarrowSnoc(reg: Registry, clauses: seq<string>, c: string, games: seq<Game>)
    ensures Narrow(reg, clauses + [c], games) == ApplyCondition(reg, c, Narrow(reg, clauses, games))
  {
    assert (clauses + [c])[..|clauses|] == clauses;
  }

  // ---------------------------------------------------------------- the conjunction

  /** What each clause does, clause by clause. */
  function Effects(reg: Registry, clauses: seq<string>): (es: seq<Effect>)
    ensures |es| == |clauses|
    ensures forall k :: 0 <= k < |clauses| ==> es[k] == ClauseEffect(reg, clauses[k])
  {
    seq(|clauses|, k requires 0 <= k < |clauses| => ClauseEffect(reg, clauses[k]))
  }

  /** The effects applied one after the other. */
  function NarrowBy(reg: Registry, es: seq<Effect>, games: seq<Game>): seq<Game> {
    if es == [] then games
    else Select(reg, es[|es| - 1], NarrowBy(reg, es[..|es| - 1], games))
  }

  /** A game passes every effect of the list. */
  predicate SatisfiesAll(reg: Registry, es: seq<Effect>, g: Game) {
    forall k :: 0 <= k < |es| ==> Holds(reg, es[k], g)
  }

  /** The reference definition: the games that pass every effect, in their
      order. */
  function KeepSatisfying(reg: Registry, es: seq<Effect>, games: seq<Game>): seq<Game> {
    if games == [] then []
    else
      var last := games[|games| - 1];
      KeepSatisfying(reg, es, games[..|games| - 1])
        + (if SatisfiesAll(reg, es, last) then [last] else [])
  }

  lemma SatisfiesAllSnoc(reg: Registry, es: seq<Effect>, e: Effect, g: Game)
    ensures SatisfiesAll(reg, es + [e], g) <==> SatisfiesAll(reg, es, g) && Holds(reg, e, g)
  {
    var all := es + [e];
    assert forall k :: 0 <= k < |es| ==> all[k] == es[k];
    assert all[|es|] == e;
  }

  lemma {:induction false} SelectAfterKeep(reg: Registry, es: seq<Effect>, e: Effect, games: seq<Game>)
    ensures Select(reg, e, KeepSatisfying(reg, es, games)) == KeepSatisfying(reg, es + [e], games)
  {
    if games != [] {
      var init, last := games[..|games| - 1], games[|games| - 1];
      SelectAfterKeep(reg, es, e, init);
      SatisfiesAllSnoc(reg, es, e, last);
      var kept := KeepSatisfying(reg, es, init);
      if SatisfiesAll(reg, es, last) {
        var ks := kept + [last];
        assert KeepSatisfying(reg, es, games) == ks;
        assert ks[..|ks| - 1] == kept;
        assert Select(reg, e, ks) == Select(reg, e, kept) + (if Holds(reg, e, last) then [last] else []);
      } else {
        assert KeepSatisfying(reg, es, games) == kept + [];
        assert kept + [] == kept;
      }
    }
  }

  lemma {:induction false} KeepSatisfyingNone(reg: Registry, games: seq<Game>)
    ensures KeepSatisfying(reg, [], games) == games
  {
    if games != [] {
      KeepSatisfyingNone(reg, games[..|games| - 1]);
      assert games[..|games| - 1] + [games[|games| - 1]] == games;
    }
  }

  lemma {:induction false} NarrowByIsConjunction(reg: Registry, es: seq<Effect>, games: seq<Game>)
    ensures NarrowBy(reg, es, games) == KeepSatisfying(reg, es, games)
  {
    if es == [] {
      KeepSatisfyingNone(reg, games);
    } else {
      var init, e := es[..|es| - 1], es[|es| - 1];
      NarrowByIsConjunction(reg, init, games);
      SelectAfterKeep(reg, init, e, games);
      assert init + [e] == es;
    }
  }

  lemma {:induction false} NarrowIsNarrowBy(reg: Registry, clauses: seq<string>, games: seq<Game>)
    ensures Narrow(reg, clauses, games) == NarrowBy(reg, Effects(reg, clauses), games)
  {
    if clauses != [] {
      var init := clauses[..|clauses| - 1];
      NarrowIsNarrowBy(reg, init, games);
      var es := Effects(reg, clauses);
      assert es[..|es| - 1] == Effects(reg, init);
    }
  }

  /** Applying the clauses one after the other keeps exactly the games that
      pass all of them, in their original order: the clauses of a query form
      a conjunction, whatever their order. */
  lemma NarrowIsConjunction(reg: Registry, clauses: seq<string>, games: seq<Game>)
    ensures Narrow(reg, clauses, games) == KeepSatisfying(reg, Effects(reg, clauses), games)
  {
    NarrowIsNarrowBy(reg, clauses, games);
    NarrowByIsConjunction(reg, Effects(reg, clauses), games);
  }

  /** How often a game occurs in the kept list: as often as in the input when
      it passes every effect, never otherwise. */
  lemma {:induction false} KeepSatisfyingCount(reg: Registry, es: seq<Effect>, games: seq<Game>, g: Game)
    ensures multiset(KeepSatisfying(reg, es, games))[g]
         == if SatisfiesAll(reg, es, g) then multiset(games)[g] else 0
  {
    if games != [] {
      var init := games[..|games| - 1];
      KeepSatisfyingCount(reg, es, init, g);
      assert games == init + [games[|games| - 1]];
    }
  }

  /** Keeping distributes over concatenation: games keep their relative
      order, and a game's fate does not depend on its neighbours. */
  lemma {:induction false} KeepSatisfyingAppend(reg: Registry, es: seq<Effect>, front: seq<Game>, back: seq<Game>)
    ensures KeepSatisfying(reg, es, front + back)
         == KeepSatisfying(reg, es, front) + KeepSatisfying(reg, es, back)
  {
    if back != [] {
      var init, last := back[..|back| - 1], back[|back| - 1];
      var fb := front + back;
      var piece := if SatisfiesAll(reg, es, last) then [last] else [];
      KeepSatisfyingAppend(reg, es, front, init);
      assert fb[..|fb| - 1] == front + init && fb[|fb| - 1] == last;
      assert KeepSatisfying(reg, es, fb) == KeepSatisfying(reg, es, front + init) + piece;
      assert KeepSatisfying(reg, es, back) == KeepSatisfying(reg, es, init) + piece;
    } else {
      assert front + back == front;
    }
  }

  // ---------------------------------------------------------------- the planner object

  /** Copies the games list and runs `filterCondition` over it, as
      applyFilterCondition does. */
  method ApplyFilterCondition(reg: Registry, filterCondition: string, games: seq<Game>)
    returns (result: seq<Game>)
    ensures result == ApplyCondition(reg, filterCondition, games)
  {
    if OnFastPath(filterCondition) {
      var parts := SplitOnce(filterCondition, "~=");
      if |parts| == 2 {
        var columnName := Trim(parts[0]);
        var filterValue := Trim(parts[1]);
        var filterOn := reg.columnOf(columnName);
        if filterOn.None? {
          result := games;
          SelectKeepAll(reg, games);
          return;
        }
        if filterOn.value == Name {
          result := KeepNameMatches(reg, filterValue, games);
          return;
        }
      }
    }

    var operator := reg.operatorIn(filterCondition);
    if operator.None? {
      result := games;
      SelectKeepAll(reg, games);
      return;
    }
    var parts := OperatorParts(filterCondition, operator.value);
    if |parts| != 2 {
      result := games;
      SelectKeepAll(reg, games);
      return;
    }
    var filterOn := reg.columnOf(Trim(parts[0]));
    if filterOn.None? {
      result := games;
      SelectKeepAll(reg, games);
      return;
    }
    var value := Trim(parts[1]);
    result := KeepMatching(reg, filterOn.value, operator.value, value, games);
  }

  /** The loop of the fast path: the games whose lower-cased name contains
      the lower-cased value, in order. */
  method KeepNameMatches(reg: Registry, filterValue: string, games: seq<Game>) returns (result: seq<Game>)
    ensures result == Select(reg, NameContains(filterValue), games)
  {
    result := [];
    for i := 0 to |games|
      invariant result == Select(reg, NameContains(filterValue), games[..i])
    {
      if HasSubstring(Lower(games[i].name), Lower(filterValue)) {
        result := result + [games[i]];
      }
      assert games[..i + 1][..i] == games[..i];
    }
    assert games[..|games|] == games;
  }

  /** The loop of the general path: the games that match the clause, in
      order. */
  method KeepMatching(reg: Registry, col: Column, op: Op, value: string, games: seq<Game>) returns (result: seq<Game>)
    ensures result == Select(reg, Where(col, op, value), games)
  {
    result := [];
    for i := 0 to |games|
      invariant result == Select(reg, Where(col, op, value), games[..i])
    {
      if MatchesFilter(reg, games[i], col, op, value) {
        result := result + [games[i]];
      }
      assert games[..i + 1][..i] == games[..i];
    }
    assert games[..|games|] == games;
  }

  /** A dropped clause returns its input unchanged. */
  lemma {:induction false} SelectKeepAll(reg: Registry, games: seq<Game>)
    ensures Select(reg, KeepAll, games) == games
  {
    if games != [] {
      SelectKeepAll(reg, games[..|games| - 1]);
      assert games[..|games| - 1] + [games[|games| - 1]] == games;
    }
  }

  class Planner {
    /** The collaborators the planner consults. */
    const registry: Registry
    /** The complete set of games. */
    const allGames: set<Game>
    /** The working list: what the next filter narrows. */
    var gamesList: seq<Game>

    constructor (registry: Registry, games: set<Game>)
      ensures this.registry == registry && allGames == games
      ensures Enumerates(gamesList, games)
    {
      this.registry := registry;
      allGames := games;
      new;
      Reset();
    }

    /** filter(query): sorted by name, ascending. */
    method Filter(query: string) returns (result: seq<Game>)
      modifies this
      ensures result == gamesList
      ensures result == SortGames(Narrow(registry, Clauses(query), old(gamesList)), Name, true)
    {
      result := FilterSorted(query, Name, true);
    }

    /** filter(query, sortOn): ascending. */
    method FilterOn(query: string, sortOn: Column) returns (result: seq<Game>)
      modifies this
      ensures result == gamesList
      ensures result == SortGames(Narrow(registry, Clauses(query), old(gamesList)), sortOn, true)
    {
      result := FilterSorted(query, sortOn, true);
    }

    /** filter(query, sortOn, ascending): every non-blank clause narrows the
        working list, which is then sorted and kept for the next call. */
    method FilterSorted(query: string, sortOn: Column, ascending: bool) returns (result: seq<Game>)
      modifies this
      ensures result == gamesList
      ensures result == SortGames(Narrow(registry, Clauses(query), old(gamesList)), sortOn, ascending)
    {
      if query != [] {
        var conditions := Split(Trim(query), ",");
        ApplyConditions(conditions);
      }
      gamesList := SortGames(gamesList, sortOn, ascending);
      result := gamesList;
    }

    /** The loop of filter: each trimmed non-blank condition narrows the
        working list in turn; blank ones are skipped. */
    method ApplyConditions(conditions: seq<string>)
      modifies this
      ensures gamesList == Narrow(registry, NonBlank(conditions), old(gamesList))
    {
      assert conditions[..0] == [];
      for i := 0 to |conditions|
        invariant gamesList == Narrow(registry, NonBlank(conditions[..i]), old(gamesList))
      {
        ghost var done := NonBlank(conditions[..i]);
        var condition := Trim(conditions[i]);
        NonBlankStep(conditions, i);
        if condition != [] {
          NarrowSnoc(registry, done, condition, old(gamesList));
          gamesList := ApplyFilterCondition(registry, condition, gamesList);
        }
      }
      assert conditions[..|conditions|] == conditions;
    }

    /** reset(): the working list becomes all games again, in the order the
        set hands them out. */
    method Reset()
      modifies this
      ensures Enumerates(gamesList, allGames)
    {
      gamesList := Enumerate(allGames);
    }
  }

  // ---------------------------------------------------------------- order and membership

  /** `a` is `b` with some elements left out, order kept. */
  predicate IsSubsequence(a: seq<Game>, b: seq<Game>)
    decreases |b|
  {
    if a == [] then true
    else if b == [] then false
    else if a[|a| - 1] == b[|b| - 1] then IsSubsequence(a[..|a| - 1], b[..|b| - 1])
    else IsSubsequence(a, b[..|b| - 1])
  }

  lemma {:induction false} SubsequenceSnoc(a: seq<Game>, b: seq<Game>, x: Game)
    requires IsSubsequence(a, b)
    ensures IsSubsequence(a, b + [x])
    decreases |b|, 1
  {
    var bx := b + [x];
    assert bx[..|bx| - 1] == b;
    if a != [] && a[|a| - 1] == x {
      SubsequenceDropLast(a, b);
    }
  }

  lemma {:induction false} SubsequenceDropLast(a: seq<Game>, b: seq<Game>)
    requires a != [] && IsSubsequence(a, b)
    ensures IsSubsequence(a[..|a| - 1], b)
    decreases |b|, 0
  {
    var init := b[..|b| - 1];
    if a[|a| - 1] != b[|b| - 1] {
      SubsequenceDropLast(a, init);
    }
    SubsequenceSnoc(a[..|a| - 1], init, b[|b| - 1]);
    assert init + [b[|b| - 1]] == b;
  }

  /** The kept list is a subsequence of the input: order kept, no new games. */
  lemma {:induction false} KeepSatisfyingIsSubsequence(reg: Registry, es: seq<Effect>, games: seq<Game>)
    ensures IsSubsequence(KeepSatisfying(reg, es, games), games)
  {
    if games != [] {
      var init, last := games[..|games| - 1], games[|games| - 1];
      var kept := KeepSatisfying(reg, es, init);
      KeepSatisfyingIsSubsequence(reg, es, init);
      if SatisfiesAll(reg, es, last) {
        var ks := kept + [last];
        assert ks[..|ks| - 1] == kept;
      } else {
        SubsequenceSnoc(kept, init, last);
        assert init + [last] == games;
        assert kept + [] == kept;
      }
    }
  }

  /** Filtering before the sort keeps the working list's order and adds no
      game. */
  lemma NarrowIsSubsequence(reg: Registry, clauses: seq<string>, games: seq<Game>)
    ensures IsSubsequence(Narrow(reg, clauses, games), games)
  {
    NarrowIsConjunction(reg, clauses, games);
    KeepSatisfyingIsSubsequence(reg, Effects(reg, clauses), games);
  }

  /** What a filter call returns: the working list's games that pass every
      clause, each as often as before, sorted by the requested column and
      direction. */
  lemma FilterResult(reg: Registry, query: string, games: seq<Game>, col: Column, ascending: bool, g: Game)
    ensures var r := SortGames(Narrow(reg, Clauses(query), games), col, ascending);
      && Sorted(col, ascending, r)
      && multiset(r)[g] == (if SatisfiesAll(reg, Effects(reg, Clauses(query)), g) then multiset(games)[g] else 0)
      && multiset(r) <= multiset(games)
      && (g in r <==> g in games && SatisfiesAll(reg, Effects(reg, Clauses(query)), g))
  {
    var es := Effects(reg, Clauses(query));
    NarrowIsConjunction(reg, Clauses(query), games);
    SortGamesSorted(Narrow(reg, Clauses(query), games), col, ascending);
    KeepSatisfyingCount(reg, es, games, g);
    forall h ensures multiset(KeepSatisfying(reg, es, games))[h] <= multiset(games)[h] {
      KeepSatisfyingCount(reg, es, games, h);
    }
  }

  lemma {:induction false} KeepSatisfyingAgree(reg: Registry, es1: seq<Effect>, es2: seq<Effect>, games: seq<Game>)
    requires forall g :: SatisfiesAll(reg, es1, g) <==> SatisfiesAll(reg, es2, g)
    ensures KeepSatisfying(reg, es1, games) == KeepSatisfying(reg, es2, games)
  {
    if games != [] {
      KeepSatisfyingAgree(reg, es1, es2, games[..|games| - 1]);
    }
  }

  lemma SatisfiesAllAppend(reg: Registry, es1: seq<Effect>, es2: seq<Effect>, g: Game)
    ensures SatisfiesAll(reg, es1 + es2, g) <==> SatisfiesAll(reg, es1, g) && SatisfiesAll(reg, es2, g)
  {
    var all := es1 + es2;
    assert forall k :: 0 <= k < |es1| ==> all[k] == es1[k];
    assert forall k :: 0 <= k < |es2| ==> all[|es1| + k] == es2[k];
  }

  lemma EffectsAppend(reg: Registry, first: seq<string>, second: seq<string>)
    ensures Effects(reg, first + second) == Effects(reg, first) + Effects(reg, second)
  {
    var all := first + second;
    assert forall k :: 0 <= k < |first| ==> all[k] == first[k];
    assert forall k :: 0 <= k < |second| ==> all[|first| + k] == second[k];
  }

  /** The order of the clauses of a query does not change its result. */
  lemma ClauseOrderIrrelevant(reg: Registry, first: seq<string>, second: seq<string>, games: seq<Game>)
    ensures Narrow(reg, first + second, games) == Narrow(reg, second + first, games)
  {
    var es1, es2 := Effects(reg, first), Effects(reg, second);
    EffectsAppend(reg, first, second);
    EffectsAppend(reg, second, first);
    forall g ensures SatisfiesAll(reg, es1 + es2, g) <==> SatisfiesAll(reg, es2 + es1, g) {
      SatisfiesAllAppend(reg, es1, es2, g);
      SatisfiesAllAppend(reg, es2, es1, g);
    }
    NarrowIsConjunction(reg, first + second, games);
    NarrowIsConjunction(reg, second + first, games);
    KeepSatisfyingAgree(reg, es1 + es2, es2 + es1, games);
  }

  /** A blank query narrows nothing: the working list comes back sorted, a
      permutation of itself. */
  lemma BlankQueryDoesNotNarrow(reg: Registry, query: string, games: seq<Game>, col: Column, ascending: bool)
    requires Trim(query) == []
    ensures Clauses(query) == []
    ensures var r := SortGames(Narrow(reg, Clauses(query), games), col, ascending);
      multiset(r) == multiset(games) && Sorted(col, ascending, r)
  {
    if query != [] {
      assert !HasSubstring([], ",");
      assert Split([], ",") == [[]];
      assert Trim([]) == [];
      var blank: seq<string> := [[]];
      assert blank[..0] == [];
    }
    SortGamesSorted(games, col, ascending);
  }

  // ---------------------------------------------------------------- one clause

  /** The games a clause keeps are the games of the input it holds for. */
  lemma {:induction false} SelectMembers(reg: Registry, e: Effect, games: seq<Game>, g: Game)
    ensures g in Select(reg, e, games) <==> g in games && Holds(reg, e, g)
  {
    if games != [] {
      var init := games[..|games| - 1];
      SelectMembers(reg, e, init, g);
      assert games == init + [games[|games| - 1]];
    }
  }

  /** A clause with no operator is dropped. */
  lemma NoOperatorDropsClause(reg: Registry, condition: string, games: seq<Game>)
    requires FastPathEffect(reg, condition).None? && reg.operatorIn(condition).None?
    ensures ApplyCondition(reg, condition, games) == games
  {
    SelectKeepAll(reg, games);
  }

  /** A clause that does not cut into exactly two pieces around its operator
      is dropped. */
  lemma WrongPieceCountDropsClause(reg: Registry, condition: string, op: Op, games: seq<Game>)
    requires FastPathEffect(reg, condition).None? && reg.operatorIn(condition) == Some(op)
    requires |OperatorParts(condition, op)| != 2
    ensures ApplyCondition(reg, condition, games) == games
  {
    SelectKeepAll(reg, games);
  }

  /** A clause naming a column that does not resolve is dropped. */
  lemma UnknownColumnDropsClause(reg: Registry, condition: string, op: Op, games: seq<Game>)
    requires FastPathEffect(reg, condition).None? && reg.operatorIn(condition) == Some(op)
    requires var parts := OperatorParts(condition, op);
      |parts| == 2 && reg.columnOf(Trim(parts[0])).None?
    ensures ApplyCondition(reg, condition, games) == games
  {
    SelectKeepAll(reg, games);
  }

  /** A clause that ends in its operator (`minPlayers>`) is dropped, since
      String.split discards the empty trailing piece. */
  lemma TrailingOperatorDropsClause(reg: Registry, column: string, op: Op, games: seq<Game>)
    requires op != Contains
    requires forall c :: c in Token(op) ==> c !in column
    requires FastPathEffect(reg, column + Token(op)).None? && reg.operatorIn(column + Token(op)) == Some(op)
    ensures ApplyCondition(reg, column + Token(op), games) == games
  {
    SplitTrailingSeparator(column, Token(op));
    WrongPieceCountDropsClause(reg, column + Token(op), op, games);
  }

  /** The fast path keeps exactly the games whose lower-cased name contains
      the lower-cased value. */
  lemma FastPathKeepsNameMatches(reg: Registry, condition: string, games: seq<Game>, g: Game)
    requires OnFastPath(condition)
    requires var parts := SplitOnce(condition, "~=");
      |parts| == 2 && reg.columnOf(Trim(parts[0])) == Some(Name)
    ensures var value := Trim(SplitOnce(condition, "~=")[1]);
      g in ApplyCondition(reg, condition, games)
      <==> g in games && HasSubstring(Lower(g.name), Lower(value))
  {
    SelectMembers(reg, ClauseEffect(reg, condition), games, g);
  }

  /** On the fast path, a column that does not resolve leaves the list as it
      is. */
  lemma FastPathUnknownColumn(reg: Registry, condition: string, games: seq<Game>)
    requires OnFastPath(condition)
    requires var parts := SplitOnce(condition, "~=");
      |parts| == 2 && reg.columnOf(Trim(parts[0])).None?
    ensures ApplyCondition(reg, condition, games) == games
  {
    SelectKeepAll(reg, games);
  }

  /** The fast path agrees with the general path's `name ~= v`. */
  lemma {:induction false} FastPathAgreesWithGeneral(reg: Registry, value: string, games: seq<Game>)
    ensures Select(reg, NameContains(value), games) == Select(reg, Where(Name, Contains, value), games)
  {
    if games != [] {
      FastPathAgreesWithGeneral(reg, value, games[..|games| - 1]);
    }
  }

  /** On an integer column, a literal Integer.parseInt rejects, or `~=`,
      empties the list instead of being skipped. */
  lemma {:induction false} UnmatchableNumberEmptiesList(reg: Registry, col: Column, op: Op, value: string, games: seq<Game>)
    requires col in {MinPlayers, MaxPlayers, MinTime, MaxTime, Rank, Year}
    requires ParseInt(value).None? || op == Contains
    ensures Select(reg, Where(col, op, value), games) == []
  {
    if games != [] {
      UnmatchableNumberEmptiesList(reg, col, op, value, games[..|games| - 1]);
    }
  }

  // ---------------------------------------------------------------- matching

  /** String comparisons ignore case on both sides. */
  lemma StringMatchIgnoresCase(v: string, op: Op, filterValue: string)
    ensures MatchesString(Some(v), op, filterValue) == MatchesString(Some(Lower(v)), op, Lower(filterValue))
  {
    LowerIdempotent(v);
    LowerIdempotent(filterValue);
  }

  /** `!=` is the negation of `==`, `<` of `>=` and `>` of `<=`, on text. */
  lemma StringOperatorsComplement(v: string, filterValue: string)
    ensures MatchesString(Some(v), NotEquals, filterValue) == !MatchesString(Some(v), Equals, filterValue)
    ensures MatchesString(Some(v), LessThan, filterValue) == !MatchesString(Some(v), GreaterThanEquals, filterValue)
    ensures MatchesString(Some(v), GreaterThan, filterValue) == !MatchesString(Some(v), LessThanEquals, filterValue)
    ensures MatchesString(Some(v), Equals, filterValue)
        <==> MatchesString(Some(v), GreaterThanEquals, filterValue) && MatchesString(Some(v), LessThanEquals, filterValue)
  {
  }

  /** A game without a name satisfies `!=` and nothing else. */
  lemma MissingNameMatchesOnlyNotEquals(op: Op, filterValue: string)
    ensures MatchesString(None, op, filterValue) <==> op == NotEquals
  {
  }

  /** An integer literal written in decimal compares as that number. */
  lemma NumberLiteralRoundTrip(gameValue: int, n: int)
    requires IntMin <= n <= IntMax
    ensures var literal := if n >= 0 then Decimal(n) else "-" + Decimal(-n);
      && (MatchesNumber(gameValue, Equals, literal) <==> gameValue == n)
      && (MatchesNumber(gameValue, LessThan, literal) <==> gameValue < n)
      && (MatchesNumber(gameValue, GreaterThanEquals, literal) <==> gameValue >= n)
      && !MatchesNumber(gameValue, Contains, literal)
  {
    ParseIntDecimal(n);
  }

  /** Once the literal parses, the fractional operators pair up as the
      integer ones do: `!=` negates `==` (both within the tolerance), `<`
      negates `>=` and `>` negates `<=`; and `==` holds of the literal's
      own value. */
  lemma DoubleOperatorsComplement(reg: Registry, gameValue: real, filterValue: string)
    requires reg.parseDouble(filterValue).Some?
    ensures MatchesDouble(reg, gameValue, NotEquals, filterValue) == !MatchesDouble(reg, gameValue, Equals, filterValue)
    ensures MatchesDouble(reg, gameValue, LessThan, filterValue) == !MatchesDouble(reg, gameValue, GreaterThanEquals, filterValue)
    ensures MatchesDouble(reg, gameValue, GreaterThan, filterValue) == !MatchesDouble(reg, gameValue, LessThanEquals, filterValue)
    ensures gameValue == reg.parseDouble(filterValue).value ==> MatchesDouble(reg, gameValue, Equals, filterValue)
    ensures !MatchesDouble(reg, gameValue, Contains, filterValue)
  {
  }

  /** A literal Double.parseDouble rejects matches nothing on a fractional
      column. */
  lemma UnparsableDoubleMatchesNothing(reg: Registry, gameValue: real, op: Op, filterValue: string)
    requires reg.parseDouble(filterValue).None?
    ensures !MatchesDouble(reg, gameValue, op, filterValue)
  {
  }

  /** Once the literal parses, the six integer operators are exhaustive
      pairs: `!=` negates `==`, `<` negates `>=`, `>` negates `<=`. */
  lemma NumberOperatorsComplement(gameValue: int, filterValue: string)
    requires ParseInt(filterValue).Some?
    ensures MatchesNumber(gameValue, NotEquals, filterValue) == !MatchesNumber(gameValue, Equals, filterValue)
    ensures MatchesNumber(gameValue, LessThan, filterValue) == !MatchesNumber(gameValue, GreaterThanEquals, filterValue)
    ensures MatchesNumber(gameValue, GreaterThan, filterValue) == !MatchesNumber(gameValue, LessThanEquals, filterValue)
  {
  }
}
