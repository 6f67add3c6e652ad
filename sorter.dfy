/**
 * GameSorter: the comparator a sort uses for a column and a direction, and
 * the stable sort (List.sort) that the planner runs with it.
 *
 * The comparator compares the column's key first and the lower-cased name
 * second; descending order reverses this combined comparator, tie-break
 * included.
 */
module GameSorter {
  import opened Wrappers
  import opened JavaText
  import opened Games

  /** A sort key. The keys of one column are all of one kind. */
  datatype Key = TextKey(text: string) | IntKey(whole: int) | RealKey(fraction: real)

  /** The key of getBaseComparator: the lower-cased name for NAME, the
      number for each numeric column, and the lower-cased name for any
      column without a case of its own (ID). */
  function BaseKey(col: Column, g: Game): (k: Key)
    ensures col == Name || col == Id ==> k == TextKey(Lower(g.name))
    ensures col == MinPlayers ==> k == IntKey(g.minPlayers)
    ensures col == MaxPlayers ==> k == IntKey(g.maxPlayers)
    ensures col == MinTime ==> k == IntKey(g.minPlayTime)
    ensures col == MaxTime ==> k == IntKey(g.maxPlayTime)
    ensures col == Rank ==> k == IntKey(g.rank)
    ensures col == Year ==> k == IntKey(g.yearPublished)
    ensures col == Difficulty ==> k == RealKey(g.difficulty)
    ensures col == Rating ==> k == RealKey(g.rating)
  {
    match Field(col, g)
    case Some(Text(s)) => TextKey(Lower(s))
    case Some(Whole(i)) => IntKey(i)
    case Some(Fractional(r)) => RealKey(r)
    case None => TextKey(Lower(g.name))
  }

  function KindRank(k: Key): int {
    match k
    case TextKey(_) => 0
    case IntKey(_) => 1
    case RealKey(_) => 2
  }

  /** The sign of comparing two keys: strings by String.compareTo, numbers
      numerically. Keys of different kinds never meet in one sort; they are
      ordered by kind so that the order is total. */
  function CompareKeys(a: Key, b: Key): (r: int)
    ensures -1 <= r <= 1
    ensures r == 0 <==> a == b
  {
    match (a, b)
    case (TextKey(x), TextKey(y)) => CompareStr(x, y)
    case (IntKey(x), IntKey(y)) => if x < y then -1 else if y < x then 1 else 0
    case (RealKey(x), RealKey(y)) => if x < y then -1 else if y < x then 1 else 0
    case _ => if KindRank(a) < KindRank(b) then -1 else 1
  }

  lemma CompareKeysAntisymmetric(a: Key, b: Key)
    ensures CompareKeys(a, b) == -CompareKeys(b, a)
  {
    if a.TextKey? && b.TextKey? {
      CompareStrAntisymmetric(a.text, b.text);
    }
  }

  lemma CompareKeysTransitive(a: Key, b: Key, c: Key)
    requires CompareKeys(a, b) <= 0 && CompareKeys(b, c) <= 0
    ensures CompareKeys(a, c) <= 0
  {
    if a.TextKey? && b.TextKey? && c.TextKey? {
      CompareStrTransitive(a.text, b.text, c.text);
    }
  }

  /** getBaseComparator(sortOn).thenComparing(lower-cased name). */
  function CompareAscending(col: Column, a: Game, b: Game): (r: int)
    ensures -1 <= r <= 1
  {
    var base := CompareKeys(BaseKey(col, a), BaseKey(col, b));
    if base != 0 then base else CompareStr(Lower(a.name), Lower(b.name))
  }

  /** sortFilteredGames(sortOn, ascending): the combined comparator, or its
      reversal (which swaps the arguments) for descending order. */
  function Compare(col: Column, ascending: bool, a: Game, b: Game): int {
    if ascending then CompareAscending(col, a, b) else CompareAscending(col, b, a)
  }

  // ---------------------------------------------------------------- comparator laws

  lemma CompareAntisymmetric(col: Column, ascending: bool, a: Game, b: Game)
    ensures Compare(col, ascending, a, b) == -Compare(col, ascending, b, a)
  {
    CompareKeysAntisymmetric(BaseKey(col, a), BaseKey(col, b));
    CompareStrAntisymmetric(Lower(a.name), Lower(b.name));
  }

  lemma CompareAscendingTransitive(col: Column, a: Game, b: Game, c: Game)
    requires CompareAscending(col, a, b) <= 0 && CompareAscending(col, b, c) <= 0
    ensures CompareAscending(col, a, c) <= 0
  {
    var ka, kb, kc := BaseKey(col, a), BaseKey(col, b), BaseKey(col, c);
    CompareKeysTransitive(ka, kb, kc);
    if ka == kb && kb == kc {
      CompareStrTransitive(Lower(a.name), Lower(b.name), Lower(c.name));
    } else if CompareKeys(ka, kc) == 0 {
      CompareKeysAntisymmetric(ka, kb);
    }
  }

  lemma CompareTransitive(col: Column, ascending: bool, a: Game, b: Game, c: Game)
    requires Compare(col, ascending, a, b) <= 0 && Compare(col, ascending, b, c) <= 0
    ensures Compare(col, ascending, a, c) <= 0
  {
    if ascending {
      CompareAscendingTransitive(col, a, b, c);
    } else {
      CompareAscendingTransitive(col, c, b, a);
    }
  }

  /** Descending order reverses the combined comparator: the order of the
      keys and the order of the names are both reversed. */
  lemma DescendingReversesAscending(col: Column, a: Game, b: Game)
    ensures Compare(col, false, a, b) == -Compare(col, true, a, b)
    ensures Compare(col, false, a, b) == Compare(col, true, b, a)
  {
    CompareAntisymmetric(col, true, a, b);
  }

  /** Games with the same key are ordered by lower-cased name: ascending
      names for ascending order, descending names for descending order. */
  lemma TieBreakOnName(col: Column, a: Game, b: Game)
    requires BaseKey(col, a) == BaseKey(col, b)
    ensures Compare(col, true, a, b) == CompareStr(Lower(a.name), Lower(b.name))
    ensures Compare(col, false, a, b) == CompareStr(Lower(b.name), Lower(a.name))
  {
  }

  /** Two games are tied exactly when key and lower-cased name agree. */
  lemma {:induction false} CompareZero(col: Column, ascending: bool, a: Game, b: Game)
    ensures Compare(col, ascending, a, b) == 0
        <==> BaseKey(col, a) == BaseKey(col, b) && Lower(a.name) == Lower(b.name)
  {
  }

  /** A column without a case of its own (ID) sorts like NAME. */
  lemma UnlistedColumnSortsByName(ascending: bool, a: Game, b: Game)
    ensures Compare(Id, ascending, a, b) == Compare(Name, ascending, a, b)
    ensures Compare(Id, true, a, b) == CompareStr(Lower(a.name), Lower(b.name))
  {
  }

  // ---------------------------------------------------------------- the sort

  /** sortFilteredGames(col, ascending) as a comparator value. */
  function Comparator(col: Column, ascending: bool): (Game, Game) -> int {
    (a: Game, b: Game) => Compare(col, ascending, a, b)
  }

  /** Swapping the arguments negates the result, as java.util.Comparator
      requires. */
  ghost predicate Antisymmetric(cmp: (Game, Game) -> int) {
    forall a, b :: cmp(a, b) == -cmp(b, a)
  }

  lemma ComparatorAntisymmetric(col: Column, ascending: bool)
    ensures Antisymmetric(Comparator(col, ascending))
  {
    forall a, b ensures Compare(col, ascending, a, b) == -Compare(col, ascending, b, a) {
      CompareAntisymmetric(col, ascending, a, b);
    }
  }

  /** Each game of `s` compares no higher than the next one under `cmp`. */
  ghost predicate SortedBy(cmp: (Game, Game) -> int, s: seq<Game>) {
    forall i :: 0 < i < |s| ==> cmp(s[i - 1], s[i]) <= 0
  }

  /** `s` is in order for the comparator of `col` and `ascending`: every
      game compares no higher than every game after it. */
  ghost predicate Sorted(col: Column, ascending: bool, s: seq<Game>) {
    forall i, j :: 0 <= i < j < |s| ==> Compare(col, ascending, s[i], s[j]) <= 0
  }

  /** Puts `g` before the first element it does not compare above. */
  function Insert(cmp: (Game, Game) -> int, g: Game, s: seq<Game>): (r: seq<Game>)
    ensures multiset(r) == multiset(s) + multiset{g}
  {
    if s == [] then [g]
    else if cmp(g, s[0]) <= 0 then [g] + s
    else
      assert s == [s[0]] + s[1..];
      [s[0]] + Insert(cmp, g, s[1..])
  }

  /** List.sort: a stable sort, here by insertion, front element last so
      that it lands before its equals. */
  function SortWith(cmp: (Game, Game) -> int, games: seq<Game>): (r: seq<Game>)
    ensures multiset(r) == multiset(games)
  {
    if games == [] then []
    else
      assert games == [games[0]] + games[1..];
      Insert(cmp, games[0], SortWith(cmp, games[1..]))
  }

  /** List.sort with sortFilteredGames(col, ascending). */
  function SortGames(games: seq<Game>, col: Column, ascending: bool): (r: seq<Game>)
    ensures multiset(r) == multiset(games)
  {
    SortWith(Comparator(col, ascending), games)
  }

  lemma {:induction false} InsertSorted(cmp: (Game, Game) -> int, g: Game, s: seq<Game>)
    requires Antisymmetric(cmp) && SortedBy(cmp, s)
    ensures SortedBy(cmp, Insert(cmp, g, s))
    ensures Insert(cmp, g, s)[0] == g || Insert(cmp, g, s)[0] == s[0]
  {
    if s != [] && cmp(g, s[0]) > 0 {
      var tail := Insert(cmp, g, s[1..]);
      InsertSorted(cmp, g, s[1..]);
      assert Insert(cmp, g, s) == [s[0]] + tail;
      assert cmp(s[0], g) < 0;
      assert |s| > 1 ==> cmp(s[0], s[1]) <= 0;
    }
  }

  lemma {:induction false} SortWithSorted(cmp: (Game, Game) -> int, games: seq<Game>)
    requires Antisymmetric(cmp)
    ensures SortedBy(cmp, SortWith(cmp, games))
  {
    if games != [] {
      SortWithSorted(cmp, games[1..]);
      InsertSorted(cmp, games[0], SortWith(cmp, games[1..]));
    }
  }

  /** Neighbours in order put the whole list in order, since the comparator
      is transitive. */
  lemma {:induction false} ChainSorted(col: Column, ascending: bool, s: seq<Game>, i: int, j: int)
    requires SortedBy(Comparator(col, ascending), s) && 0 <= i < j < |s|
    ensures Compare(col, ascending, s[i], s[j]) <= 0
    decreases j - i
  {
    assert Comparator(col, ascending)(s[j - 1], s[j]) <= 0;
    if i + 1 < j {
      ChainSorted(col, ascending, s, i, j - 1);
      CompareTransitive(col, ascending, s[i], s[j - 1], s[j]);
    }
  }

  /** The sort puts the games in order. */
  lemma SortGamesSorted(games: seq<Game>, col: Column, ascending: bool)
    ensures Sorted(col, ascending, SortGames(games, col, ascending))
  {
    var r := SortGames(games, col, ascending);
    ComparatorAntisymmetric(col, ascending);
    SortWithSorted(Comparator(col, ascending), games);
    forall i, j | 0 <= i < j < |r| ensures Compare(col, ascending, r[i], r[j]) <= 0 {
      ChainSorted(col, ascending, r, i, j);
    }
  }

  /** Inserting an element that compares no higher than the front puts it
      at the front. */
  lemma InsertAtFront(cmp: (Game, Game) -> int, g: Game, s: seq<Game>)
    requires s == [] || cmp(g, s[0]) <= 0
    ensures Insert(cmp, g, s) == [g] + s
  {
  }

  lemma {:induction false} SortWithSortedUnchanged(cmp: (Game, Game) -> int, s: seq<Game>)
    requires SortedBy(cmp, s)
    ensures SortWith(cmp, s) == s
  {
    if s != [] {
      var t := s[1..];
      assert SortedBy(cmp, t) by {
        forall i | 0 < i < |t| ensures cmp(t[i - 1], t[i]) <= 0 {
          assert t[i - 1] == s[i] && t[i] == s[i + 1];
        }
      }
      SortWithSortedUnchanged(cmp, t);
      assert |s| > 1 ==> cmp(s[0], s[1]) <= 0;
      InsertAtFront(cmp, s[0], t);
      assert [s[0]] + t == s;
    }
  }

  // ---------------------------------------------------------------- stability

  /** Two games tied with `x` are tied with each other, as they are when
      comparing equal is an equivalence. */
  ghost predicate TiesTransitive(cmp: (Game, Game) -> int, x: Game) {
    forall a, b :: cmp(a, x) == 0 && cmp(b, x) == 0 ==> cmp(a, b) == 0
  }

  lemma ComparatorTiesTransitive(col: Column, ascending: bool, x: Game)
    ensures TiesTransitive(Comparator(col, ascending), x)
  {
    forall a, b | Compare(col, ascending, a, x) == 0 && Compare(col, ascending, b, x) == 0
      ensures Compare(col, ascending, a, b) == 0
    {
      CompareZero(col, ascending, a, x);
      CompareZero(col, ascending, b, x);
      CompareZero(col, ascending, a, b);
    }
  }

  /** The games of `s` that compare equal to `x`, in their order in `s`. */
  ghost function TiedWith(cmp: (Game, Game) -> int, x: Game, s: seq<Game>): seq<Game> {
    if s == [] then []
    else (if cmp(s[0], x) == 0 then [s[0]] else []) + TiedWith(cmp, x, s[1..])
  }

  lemma TiedWithCons(cmp: (Game, Game) -> int, x: Game, a: Game, t: seq<Game>)
    ensures TiedWith(cmp, x, [a] + t) == (if cmp(a, x) == 0 then [a] else []) + TiedWith(cmp, x, t)
  {
    assert ([a] + t)[1..] == t;
  }

  lemma InsertPastFront(cmp: (Game, Game) -> int, g: Game, s: seq<Game>)
    requires s != [] && cmp(g, s[0]) > 0
    ensures Insert(cmp, g, s) == [s[0]] + Insert(cmp, g, s[1..])
    ensures s == [s[0]] + s[1..]
  {
  }

  /** Insertion puts `g` in front of every game it ties with. */
  lemma {:induction false} InsertTies(cmp: (Game, Game) -> int, g: Game, s: seq<Game>, x: Game)
    requires TiesTransitive(cmp, x)
    ensures TiedWith(cmp, x, Insert(cmp, g, s))
         == (if cmp(g, x) == 0 then [g] else []) + TiedWith(cmp, x, s)
  {
    if s == [] {
    } else if cmp(g, s[0]) <= 0 {
      TiedWithCons(cmp, x, g, s);
    } else {
      var rest := Insert(cmp, g, s[1..]);
      InsertPastFront(cmp, g, s);
      InsertTies(cmp, g, s[1..], x);
      TiedWithCons(cmp, x, s[0], rest);
      TiedWithCons(cmp, x, s[0], s[1..]);
      var later := TiedWith(cmp, x, s[1..]);
      if cmp(g, x) == 0 {
        if cmp(s[0], x) == 0 {
          assert false;
        }
        assert TiedWith(cmp, x, s) == later;
        assert TiedWith(cmp, x, Insert(cmp, g, s)) == [g] + later;
      } else {
        assert TiedWith(cmp, x, rest) == later;
        assert TiedWith(cmp, x, Insert(cmp, g, s)) == TiedWith(cmp, x, s);
      }
    }
  }

  /** The sort is stable: games that compare equal keep their input order. */
  lemma {:induction false} SortWithStable(cmp: (Game, Game) -> int, games: seq<Game>, x: Game)
    requires TiesTransitive(cmp, x)
    ensures TiedWith(cmp, x, SortWith(cmp, games)) == TiedWith(cmp, x, games)
  {
    if games != [] {
      SortWithStable(cmp, games[1..], x);
      InsertTies(cmp, games[0], SortWith(cmp, games[1..]), x);
    }
  }

  /** Sorting on a column keeps the games tied with any game in the order
      the input had them. */
  lemma SortGamesStable(games: seq<Game>, col: Column, ascending: bool, x: Game)
    ensures TiedWith(Comparator(col, ascending), x, SortGames(games, col, ascending))
         == TiedWith(Comparator(col, ascending), x, games)
  {
    ComparatorTiesTransitive(col, ascending, x);
    SortWithStable(Comparator(col, ascending), games, x);
  }

  /** Sorting a list that is already in order leaves it as it is. */
  lemma SortSortedUnchanged(s: seq<Game>, col: Column, ascending: bool)
    requires Sorted(col, ascending, s)
    ensures SortGames(s, col, ascending) == s
  {
    var cmp := Comparator(col, ascending);
    forall i | 0 < i < |s| ensures cmp(s[i - 1], s[i]) <= 0 {
      assert Compare(col, ascending, s[i - 1], s[i]) <= 0;
    }
    SortWithSortedUnchanged(cmp, s);
  }

  /** Sorting twice is sorting once. */
  lemma SortIdempotent(games: seq<Game>, col: Column, ascending: bool)
    ensures SortGames(SortGames(games, col, ascending), col, ascending)
         == SortGames(games, col, ascending)
  {
    SortGamesSorted(games, col, ascending);
    SortSortedUnchanged(SortGames(games, col, ascending), col, ascending);
  }
}
