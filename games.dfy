/**
 * The board-game record, its columns and the comparison operators of the
 * query language, plus "some enumeration" of a set of games (the order in
 * which a HashSet hands out its elements is not specified).
 */
module Games {
  import opened Wrappers

  /** One board game. Two games with equal fields are the same game. */
  datatype Game = Game(
    name: string,
    id: int,
    minPlayers: int,
    maxPlayers: int,
    minPlayTime: int,
    maxPlayTime: int,
    difficulty: real,
    rank: int,
    rating: real,
    yearPublished: int)

  /** The columns a query or a sort can name. */
  datatype Column =
    | Name | Id | MinPlayers | MaxPlayers | MinTime | MaxTime
    | Difficulty | Rank | Rating | Year

  /** The comparison operators of a filter clause. */
  datatype Op =
    | Equals | NotEquals | Contains
    | GreaterThan | LessThan | GreaterThanEquals | LessThanEquals

  /** The text of each operator inside a clause. */
  function Token(op: Op): (t: string)
    ensures 1 <= |t| <= 2
  {
    match op
    case Equals => "=="
    case NotEquals => "!="
    case Contains => "~="
    case GreaterThan => ">"
    case LessThan => "<"
    case GreaterThanEquals => ">="
    case LessThanEquals => "<="
  }

  /** A column's value in one game, by kind. */
  datatype Value = Text(text: string) | Whole(whole: int) | Fractional(fraction: real)

  /** The value a filter or a sort reads for a column. No filter or sort
      looks at the id, so ID has none. */
  function Field(col: Column, g: Game): (v: Option<Value>)
    ensures v.None? <==> col == Id
    ensures v.Some? && v.value.Text? <==> col == Name
    ensures v.Some? && v.value.Fractional? <==> col == Difficulty || col == Rating
  {
    match col
    case Name => Some(Text(g.name))
    case Id => None
    case MinPlayers => Some(Whole(g.minPlayers))
    case MaxPlayers => Some(Whole(g.maxPlayers))
    case MinTime => Some(Whole(g.minPlayTime))
    case MaxTime => Some(Whole(g.maxPlayTime))
    case Difficulty => Some(Fractional(g.difficulty))
    case Rank => Some(Whole(g.rank))
    case Rating => Some(Fractional(g.rating))
    case Year => Some(Whole(g.yearPublished))
  }

  // ---------------------------------------------------------------- enumerations

  predicate NoDuplicates(s: seq<Game>) {
    forall i, j :: 0 <= i < j < |s| ==> s[i] != s[j]
  }

  /** `s` lists every element of `members` exactly once, in some order. */
  ghost predicate Enumerates(s: seq<Game>, members: set<Game>) {
    NoDuplicates(s) && (forall x :: x in s <==> x in members)
  }

  /** An enumeration is as long as the set has elements. */
  lemma {:induction false} EnumerationSize(s: seq<Game>, members: set<Game>)
    requires Enumerates(s, members)
    ensures |s| == |members|
  {
    if s == [] {
      assert members == {};
    } else {
      var rest := members - {s[0]};
      forall x ensures x in s[1..] <==> x in rest {
        if x in s[1..] {
          var k :| 1 <= k < |s| && s[k] == x;
          assert s[0] != s[k];
        }
        if x in rest {
          var k :| 0 <= k < |s| && s[k] == x;
          assert k != 0;
          assert s[1..][k - 1] == x;
        }
      }
      EnumerationSize(s[1..], rest);
    }
  }

  /** Copies a set into a list, as `new ArrayList<>(set)` does, in whatever
      order the set hands out its elements. */
  method Enumerate(members: set<Game>) returns (s: seq<Game>)
    ensures Enumerates(s, members)
  {
    s := [];
    var rest := members;
    while rest != {}
      invariant NoDuplicates(s)
      invariant rest <= members
      invariant forall x :: x in s ==> x in members && x !in rest
      invariant forall x :: x in members ==> x in s || x in rest
      decreases rest
    {
      var x :| x in rest;
      s := s + [x];
      rest := rest - {x};
    }
  }
}
