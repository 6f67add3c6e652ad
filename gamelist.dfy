/**
 * GameList: the user's curated list, a set of games changed by text
 * commands. A command is "all", a 1-based range "a-b", a 1-based index or a
 * name (compared ignoring case). Adding picks from a list of candidates;
 * removing picks from the members sorted by lower-cased name. Every failing
 * command reports its error before anything changes.
 */
module Curation {
  import opened Wrappers
  import opened JavaText
  import opened Games
  import opened GameSorter

  /** IGameList.ADD_ALL. */
  const AddAll: string := "all"

  /** The IllegalArgumentExceptions the commands throw. */
  datatype Error =
    | EmptyCommand         // a null or blank command
    | NoCandidates         // addToList with no candidate games
    | InvalidRangeFormat   // a range that is not two pieces around '-'
    | InvalidRangeNumbers  // a piece of a range Integer.parseInt rejects
    | RangeOutOfBounds     // an end of a range outside 1..size
    | InvalidRangeOrder    // a range whose start is after its end
    | IndexOutOfRange      // an index outside 1..size
    | GameNotFound         // no game of that name

  /** How a command ends: normally, or with an exception. */
  datatype Status = Done | Failed(error: Error)

  /** The games of a list, as a set. */
  function Members(s: seq<Game>): set<Game> {
    set x | x in s
  }

  /** The text a command is matched on: trimmed and lower-cased. */
  function Command(str: string): string {
    Lower(Trim(str))
  }

  // ---------------------------------------------------------------- parsing

  /** The range of addRange and removeRange: "a-b" with 1 <= a <= b <= size,
      as the half-open positions [a - 1, b). The bounds are checked before
      the order. */
  function ParseRange(range: string, size: nat): (r: Result<(nat, nat), Error>)
    ensures r.Ok? ==> r.value.0 < r.value.1 <= size
  {
    var parts := Split(range, "-");
    if |parts| != 2 then Err(InvalidRangeFormat)
    else
      match (ParseInt(parts[0]), ParseInt(parts[1]))
      case (Some(start), Some(end)) =>
        if start < 1 || start > size || end < 1 || end > size then Err(RangeOutOfBounds)
        else if start > end then Err(InvalidRangeOrder)
        else Ok((start - 1, end))
      case _ => Err(InvalidRangeNumbers)
  }

  /** What a command selects from a list of `size` games. */
  datatype Selection =
    | Everything
    | Slice(lo: nat, hi: nat)     // positions lo .. hi - 1
    | Position(index: nat)        // a 0-based position
    | Named(name: string)

  /** The dispatch shared by addToList and removeFromList: "all" first, then
      any command holding a '-' as a range, then a number as an index, and
      anything else as a name. */
  function Interpret(cmd: string, size: nat): (r: Result<Selection, Error>)
    ensures r.Ok? && r.value.Slice? ==> r.value.lo < r.value.hi <= size
    ensures r.Ok? && r.value.Position? ==> r.value.index < size
  {
    if cmd == AddAll then Ok(Everything)
    else if HasSubstring(cmd, "-") then
      match ParseRange(cmd, size)
      case Ok(bounds) => Ok(Slice(bounds.0, bounds.1))
      case Err(e) => Err(e)
    else
      match ParseInt(cmd)
      case Some(index) =>
        if index < 1 || index > size then Err(IndexOutOfRange) else Ok(Position(index - 1))
      case None => Ok(Named(cmd))
  }

  /** The position of the first game named `name`, ignoring case. */
  function FirstNamed(games: seq<Game>, name: string): (r: Option<nat>)
    ensures r.Some? ==> r.value < |games| && EqualsIgnoreCase(games[r.value].name, name)
    ensures forall j :: 0 <= j < |games| && (r.None? || j < r.value) ==> !EqualsIgnoreCase(games[j].name, name)
  {
    if games == [] then None
    else if EqualsIgnoreCase(games[0].name, name) then Some(0)
    else
      match FirstNamed(games[1..], name)
      case None => None
      case Some(i) => Some(i + 1)
  }

  // ---------------------------------------------------------------- the commands, as values

  /** addToList(str, filtered) on the set `members`: the new set, or the
      error thrown. */
  function AddOutcome(str: string, filtered: seq<Game>, members: set<Game>): Result<set<Game>, Error> {
    if Trim(str) == [] then Err(EmptyCommand)
    else if filtered == [] then Err(NoCandidates)
    else AddSelected(Command(str), filtered, members)
  }

  /** What the command `cmd` adds from the candidates `filtered`. */
  function AddSelected(cmd: string, filtered: seq<Game>, members: set<Game>): Result<set<Game>, Error> {
    match Interpret(cmd, |filtered|)
    case Err(e) => Err(e)
    case Ok(Everything) => Ok(members + Members(filtered))
    case Ok(Slice(lo, hi)) => Ok(members + Members(filtered[lo..hi]))
    case Ok(Position(i)) => Ok(members + {filtered[i]})
    case Ok(Named(name)) =>
      match FirstNamed(filtered, name)
      case None => Err(GameNotFound)
      case Some(i) => Ok(members + {filtered[i]})
  }

  /** The members as removeFromList numbers them: the order the set hands
      them out in, stably sorted by lower-cased name. */
  function ByName(order: seq<Game>): (sorted: seq<Game>)
    ensures |sorted| == |order|
  {
    var sorted := SortGames(order, Name, true);
    assert |sorted| == |multiset(sorted)|;
    sorted
  }

  /** removeFromList(str) on the set `members`, which hands out its elements
      in `order`: the new set, or the error thrown. */
  function RemoveOutcome(str: string, order: seq<Game>, members: set<Game>): Result<set<Game>, Error> {
    if Trim(str) == [] then Err(EmptyCommand)
    else RemoveSelected(Command(str), ByName(order), order, members)
  }

  /** What the command `cmd` removes: positions count in `sorted`, and a
      name removes the first member of that name in `order`. */
  function RemoveSelected(cmd: string, sorted: seq<Game>, order: seq<Game>, members: set<Game>): Result<set<Game>, Error> {
    match Interpret(cmd, |sorted|)
    case Err(e) => Err(e)
    case Ok(Everything) => Ok({})
    case Ok(Slice(lo, hi)) => Ok(members - Members(sorted[lo..hi]))
    case Ok(Position(i)) => Ok(members - {sorted[i]})
    case Ok(Named(name)) =>
      match FirstNamed(order, name)
      case None => Err(GameNotFound)
      case Some(i) => Ok(members - {order[i]})
  }

  /** The names of a list of games, in order. */
  function NamesOf(games: seq<Game>): (names: seq<string>)
    ensures |names| == |games|
  {
    seq(|games|, i requires 0 <= i < |games| => games[i].name)
  }

  // ---------------------------------------------------------------- the list object

  class GameList {
    /** The games in the list. */
    var listOfGames: set<Game>

    constructor ()
      ensures listOfGames == {}
    {
      listOfGames := {};
    }

    /** getGameNames: the members' names, sorted ignoring case. */
    method GetGameNames() returns (names: seq<string>, ghost order: seq<Game>)
      ensures Enumerates(order, listOfGames)
      ensures names == NamesOf(ByName(order))
      ensures |names| == Count()
      ensures forall i, j :: 0 <= i < j < |names| ==> CompareIgnoreCase(names[i], names[j]) <= 0
    {
      var iteration := Enumerate(listOfGames);
      order := iteration;
      var sorted := SortGames(iteration, Name, true);
      names := seq(|sorted|, i requires 0 <= i < |sorted| => sorted[i].name);
      EnumerationSize(iteration, listOfGames);
      assert |sorted| == |multiset(sorted)| == |iteration|;
      ByNameOrdered(iteration);
    }

    /** count: the number of games in the list. */
    function Count(): (n: nat)
      reads this
      ensures n == 0 <==> listOfGames == {}
    {
      |listOfGames|
    }

    /** clear: the list becomes empty. */
    method Clear()
      modifies this
      ensures listOfGames == {}
    {
      listOfGames := {};
    }

    /** addToList(str, filtered). */
    method AddToList(str: string, filtered: seq<Game>) returns (status: Status)
      modifies this
      ensures match AddOutcome(str, filtered, old(listOfGames))
        case Ok(s) => status == Done && listOfGames == s
        case Err(e) => status == Failed(e) && listOfGames == old(listOfGames)
    {
      if Trim(str) == [] {
        return Failed(EmptyCommand);
      }
      var cmd := Lower(Trim(str));
      if filtered == [] {
        return Failed(NoCandidates);
      }
      status := AddCommand(cmd, filtered);
    }

    /** The dispatch of addToList on the trimmed, lower-cased command. */
    method AddCommand(cmd: string, filtered: seq<Game>) returns (status: Status)
      modifies this
      ensures match AddSelected(cmd, filtered, old(listOfGames))
        case Ok(s) => status == Done && listOfGames == s
        case Err(e) => status == Failed(e) && listOfGames == old(listOfGames)
    {
      if cmd == AddAll {
        listOfGames := listOfGames + Members(filtered);
        return Done;
      }
      if HasSubstring(cmd, "-") {
        status := AddRange(cmd, filtered);
        return;
      }
      var index := ParseInt(cmd);
      if index.Some? {
        if index.value < 1 || index.value > |filtered| {
          return Failed(IndexOutOfRange);
        }
        listOfGames := listOfGames + {filtered[index.value - 1]};
        return Done;
      }
      var found := FindByName(filtered, cmd);
      if found.None? {
        return Failed(GameNotFound);
      }
      listOfGames := listOfGames + {filtered[found.value]};
      status := Done;
    }

    /** addRange(range, filtered): every candidate from position a to
        position b (1-based, inclusive) joins the list. */
    method AddRange(range: string, filtered: seq<Game>) returns (status: Status)
      modifies this
      ensures match ParseRange(range, |filtered|)
        case Ok(bounds) => status == Done && listOfGames == old(listOfGames) + Members(filtered[bounds.0..bounds.1])
        case Err(e) => status == Failed(e) && listOfGames == old(listOfGames)
    {
      var parts := Split(range, "-");
      if |parts| != 2 {
        return Failed(InvalidRangeFormat);
      }
      var start, end := ParseInt(parts[0]), ParseInt(parts[1]);
      if start.None? || end.None? {
        return Failed(InvalidRangeNumbers);
      }
      var a, b := start.value, end.value;
      if a < 1 || a > |filtered| || b < 1 || b > |filtered| {
        return Failed(RangeOutOfBounds);
      }
      if a > b {
        return Failed(InvalidRangeOrder);
      }
      AddEach(filtered, a, b);
      status := Done;
    }

    /** The loop of addRange: candidates a to b (1-based, inclusive) join
        the list one by one. */
    method AddEach(filtered: seq<Game>, a: int, b: int)
      requires 1 <= a <= b <= |filtered|
      modifies this
      ensures listOfGames == old(listOfGames) + Members(filtered[a - 1..b])
    {
      for i := a to b + 1
        invariant listOfGames == old(listOfGames) + Members(filtered[a - 1..i - 1])
      {
        assert filtered[a - 1..i] == filtered[a - 1..i - 1] + [filtered[i - 1]];
        listOfGames := listOfGames + {filtered[i - 1]};
      }
    }

    /** removeFromList(str). */
    method RemoveFromList(str: string) returns (status: Status, ghost order: seq<Game>)
      modifies this
      ensures Enumerates(order, old(listOfGames))
      ensures match RemoveOutcome(str, order, old(listOfGames))
        case Ok(s) => status == Done && listOfGames == s
        case Err(e) => status == Failed(e) && listOfGames == old(listOfGames)
    {
      // The order in which the set hands out its members; copying the set
      // into a list and iterating over it both see this order.
      var iteration := Enumerate(listOfGames);
      order := iteration;
      if Trim(str) == [] {
        return Failed(EmptyCommand), order;
      }
      var cmd := Lower(Trim(str));
      if cmd == AddAll {
        Clear();
        return Done, order;
      }
      var sorted := SortGames(iteration, Name, true);
      status := RemoveCommand(cmd, sorted, iteration);
    }

    /** The dispatch of removeFromList on the trimmed, lower-cased command
        other than "all", with the members sorted by name and in the order
        the set hands them out. */
    method RemoveCommand(cmd: string, sorted: seq<Game>, iteration: seq<Game>) returns (status: Status)
      requires cmd != AddAll
      modifies this
      ensures match RemoveSelected(cmd, sorted, iteration, old(listOfGames))
        case Ok(s) => status == Done && listOfGames == s
        case Err(e) => status == Failed(e) && listOfGames == old(listOfGames)
    {
      if HasSubstring(cmd, "-") {
        status := RemoveRange(cmd, sorted);
        return;
      }
      var index := ParseInt(cmd);
      if index.Some? {
        if index.value < 1 || index.value > |sorted| {
          return Failed(IndexOutOfRange);
        }
        listOfGames := listOfGames - {sorted[index.value - 1]};
        return Done;
      }
      var found := FindByName(iteration, cmd);
      if found.None? {
        return Failed(GameNotFound);
      }
      listOfGames := listOfGames - {iteration[found.value]};
      status := Done;
    }

    /** removeRange(range, sorted): the members at positions a to b
        (1-based, inclusive) of the sorted list leave the list. */
    method RemoveRange(range: string, sorted: seq<Game>) returns (status: Status)
      modifies this
      ensures match ParseRange(range, |sorted|)
        case Ok(bounds) => status == Done && listOfGames == old(listOfGames) - Members(sorted[bounds.0..bounds.1])
        case Err(e) => status == Failed(e) && listOfGames == old(listOfGames)
    {
      var parts := Split(range, "-");
      if |parts| != 2 {
        return Failed(InvalidRangeFormat);
      }
      var start, end := ParseInt(parts[0]), ParseInt(parts[1]);
      if start.None? || end.None? {
        return Failed(InvalidRangeNumbers);
      }
      var a, b := start.value, end.value;
      if a < 1 || a > |sorted| || b < 1 || b > |sorted| {
        return Failed(RangeOutOfBounds);
      }
      if a > b {
        return Failed(InvalidRangeOrder);
      }
      var toRemove := Collect(sorted, a, b);
      listOfGames := listOfGames - Members(toRemove);
      status := Done;
    }
  }

  /** The loop of removeRange: the games at positions a to b (1-based,
      inclusive), in order. */
  method Collect(games: seq<Game>, a: int, b: int) returns (picked: seq<Game>)
    requires 1 <= a <= b <= |games|
    ensures picked == games[a - 1..b]
  {
    picked := [];
    for i := a - 1 to b
      invariant picked == games[a - 1..i]
    {
      picked := picked + [games[i]];
    }
  }

  /** The name search of addToList and removeFromList: the first game, in
      the order given, whose name equals `name` ignoring case. */
  method FindByName(games: seq<Game>, name: string) returns (found: Option<nat>)
    ensures found == FirstNamed(games, name)
  {
    found := None;
    var i := 0;
    while i < |games|
      invariant 0 <= i <= |games|
      invariant forall j :: 0 <= j < i ==> !EqualsIgnoreCase(games[j].name, name)
    {
      if EqualsIgnoreCase(games[i].name, name) {
        found := Some(i);
        break;
      }
      i := i + 1;
    }
  }

  // ---------------------------------------------------------------- ordering by name

  /** Sorting on NAME in ascending order compares names ignoring case. */
  lemma NameOrderIgnoresCase(a: Game, b: Game)
    ensures Compare(Name, true, a, b) == CompareIgnoreCase(a.name, b.name)
  {
  }

  /** The members numbered by name are in case-insensitive name order. */
  lemma ByNameOrdered(order: seq<Game>)
    ensures var sorted := ByName(order);
      forall i, j :: 0 <= i < j < |sorted| ==> CompareIgnoreCase(sorted[i].name, sorted[j].name) <= 0
  {
    var sorted := ByName(order);
    SortGamesSorted(order, Name, true);
    forall i, j | 0 <= i < j < |sorted| ensures CompareIgnoreCase(sorted[i].name, sorted[j].name) <= 0 {
      NameOrderIgnoresCase(sorted[i], sorted[j]);
    }
  }

  // ---------------------------------------------------------------- errors and "all"

  /** A blank command fails for both commands; with no candidates every
      other add fails. */
  lemma BlankOrNoCandidatesFails(str: string, filtered: seq<Game>, order: seq<Game>, members: set<Game>)
    ensures Trim(str) == [] ==> AddOutcome(str, filtered, members) == Err(EmptyCommand)
    ensures Trim(str) == [] ==> RemoveOutcome(str, order, members) == Err(EmptyCommand)
    ensures Trim(str) != [] && filtered == [] ==> AddOutcome(str, filtered, members) == Err(NoCandidates)
  {
  }

  /** "all", in any case and with any surrounding blanks, adds every
      candidate (the list becomes the union) and removes every member. */
  lemma AllCommand(str: string, filtered: seq<Game>, order: seq<Game>, members: set<Game>)
    requires Command(str) == AddAll && filtered != []
    ensures AddOutcome(str, filtered, members) == Ok(members + Members(filtered))
    ensures RemoveOutcome(str, order, members) == Ok({})
  {
    assert |Trim(str)| == |Command(str)|;
  }

  /** The command "all" is matched as written. */
  lemma AllIsPlain()
    ensures Command(AddAll) == AddAll
  {
    AllTrimmed();
    AllLower();
  }

  lemma AllTrimmed()
    ensures Trim(AddAll) == AddAll
  {
    TrimUntrimmed(AddAll);
  }

  lemma AllLower()
    ensures Lower(AddAll) == AddAll
  {
    LowerUnchanged(AddAll);
  }

  lemma SliceMembers(s: seq<Game>, lo: nat, hi: nat)
    requires lo <= hi <= |s|
    ensures Members(s[lo..hi]) <= Members(s)
  {
    forall x | x in s[lo..hi] ensures x in s {
      var k :| 0 <= k < hi - lo && s[lo..hi][k] == x;
      assert s[lo + k] == x;
    }
  }

  /** An add only adds candidates and keeps every member. */
  lemma AddOnlyAddsCandidates(str: string, filtered: seq<Game>, members: set<Game>)
    ensures AddOutcome(str, filtered, members).Ok? ==>
      members <= AddOutcome(str, filtered, members).value <= members + Members(filtered)
  {
    if Trim(str) != [] && filtered != [] {
      var sel := Interpret(Command(str), |filtered|);
      if sel.Ok? {
        match sel.value
        case Everything =>
        case Slice(lo, hi) =>
          AddSlice(str, filtered, members, lo, hi);
          SliceMembers(filtered, lo, hi);
        case Position(i) =>
          assert filtered[i] in Members(filtered);
        case Named(name) =>
          var found := FirstNamed(filtered, name);
          if found.Some? {
            assert filtered[found.value] in Members(filtered);
          }
      }
    }
  }

  /** Repeating a successful add changes nothing. */
  lemma AddIdempotent(str: string, filtered: seq<Game>, members: set<Game>)
    ensures AddOutcome(str, filtered, members).Ok? ==>
      var once := AddOutcome(str, filtered, members).value;
      AddOutcome(str, filtered, once) == Ok(once)
  {
    if Trim(str) != [] && filtered != [] {
      SelectedAddIdempotent(Command(str), filtered, members);
    }
  }

  lemma SelectedAddIdempotent(cmd: string, filtered: seq<Game>, members: set<Game>)
    ensures AddSelected(cmd, filtered, members).Ok? ==>
      var once := AddSelected(cmd, filtered, members).value;
      AddSelected(cmd, filtered, once) == Ok(once)
  {
  }

  /** A remove only removes: what stays was there before. */
  lemma RemoveOnlyRemoves(str: string, order: seq<Game>, members: set<Game>)
    ensures RemoveOutcome(str, order, members).Ok? ==> RemoveOutcome(str, order, members).value <= members
  {
    if Trim(str) != [] {
      SelectedRemovalShrinks(Command(str), ByName(order), order, members);
    }
  }

  lemma SelectedRemovalShrinks(cmd: string, sorted: seq<Game>, order: seq<Game>, members: set<Game>)
    ensures RemoveSelected(cmd, sorted, order, members).Ok? ==> RemoveSelected(cmd, sorted, order, members).value <= members
  {
  }

  // ---------------------------------------------------------------- numbers in commands

  /** Decimal digits are neither blank, upper-case nor '-'. */
  lemma DigitsArePlain(s: string)
    requires AllDigits(s)
    ensures '-' !in s
    ensures forall i :: 0 <= i < |s| ==> !IsUpper(s[i]) && !IsTrimmable(s[i])
  {
    forall i | 0 <= i < |s| ensures s[i] != '-' {
      assert IsDigit(s[i]);
    }
  }

  /** A command made of digits and '-' that starts and ends with a digit is
      matched as written. */
  lemma PlainCommand(t: string)
    requires t != [] && IsDigit(t[0]) && IsDigit(t[|t| - 1])
    requires forall i :: 0 <= i < |t| ==> IsDigit(t[i]) || t[i] == '-'
    ensures Trim(t) != [] && Command(t) == t && t != AddAll
  {
    TrimUntrimmed(t);
    LowerUnchanged(t);
    assert t[0] != AddAll[0];
  }

  /** `x` is a decimal numeral, without sign, that parseInt reads as `n`. */
  predicate Numeral(x: string, n: int) {
    x != [] && AllDigits(x) && ParseInt(x) == Some(n)
  }

  /** The decimal text of a positive int is a numeral for it. */
  lemma DecimalNumeral(n: int)
    requires 0 <= n <= IntMax
    ensures Numeral(Decimal(n), n)
  {
    ParseIntDecimal(n);
  }

  /** Two numerals around a dash parse as the range they spell: the bounds
      are checked before the order. */
  lemma ParseRangeOf(x: string, a: int, y: string, b: int, size: nat)
    requires Numeral(x, a) && Numeral(y, b)
    ensures ParseRange(x + "-" + y, size)
        == if a < 1 || a > size || b < 1 || b > size then Err(RangeOutOfBounds)
           else if a > b then Err(InvalidRangeOrder)
           else Ok((a - 1, b))
    ensures HasSubstring(x + "-" + y, "-")
  {
    DigitsArePlain(x);
    DigitsArePlain(y);
    SplitAroundSeparator(x, "-", y);
  }

  /** The command "a-b", for numerals a and b, selects positions a - 1 to
      b - 1 when both are in bounds and in order, and fails otherwise. */
  lemma RangeText(x: string, a: int, y: string, b: int, size: nat)
    requires Numeral(x, a) && Numeral(y, b)
    ensures var t := x + "-" + y;
      && Trim(t) != [] && Command(t) == t
      && Interpret(t, size)
         == if a < 1 || a > size || b < 1 || b > size then Err(RangeOutOfBounds)
            else if a > b then Err(InvalidRangeOrder)
            else Ok(Slice(a - 1, b))
  {
    PlainRange(x, y);
    ParseRangeOf(x, a, y, b, size);
    InterpretBounds(x + "-" + y, a, b, size);
  }

  /** A range command whose bounds parse as `a` and `b` selects what they
      spell. */
  lemma InterpretBounds(cmd: string, a: int, b: int, size: nat)
    requires cmd != AddAll && HasSubstring(cmd, "-")
    requires ParseRange(cmd, size)
        == if a < 1 || a > size || b < 1 || b > size then Err(RangeOutOfBounds)
           else if a > b then Err(InvalidRangeOrder)
           else Ok((a - 1, b))
    ensures Interpret(cmd, size)
        == if a < 1 || a > size || b < 1 || b > size then Err(RangeOutOfBounds)
           else if a > b then Err(InvalidRangeOrder)
           else Ok(Slice(a - 1, b))
  {
  }

  /** Two runs of digits around a dash are matched as written. */
  lemma PlainRange(x: string, y: string)
    requires x != [] && y != [] && AllDigits(x) && AllDigits(y)
    ensures var t := x + "-" + y; Trim(t) != [] && Command(t) == t && t != AddAll
  {
    DashedDigits(x, y);
    PlainCommand(x + "-" + y);
  }

  /** Two runs of digits around a dash are digits and dashes, with a digit
      at each end. */
  lemma DashedDigits(x: string, y: string)
    requires x != [] && y != [] && AllDigits(x) && AllDigits(y)
    ensures var t := x + "-" + y;
      && IsDigit(t[0]) && IsDigit(t[|t| - 1])
      && forall i :: 0 <= i < |t| ==> IsDigit(t[i]) || t[i] == '-'
  {
    var t := x + "-" + y;
    forall i | 0 <= i < |t| ensures IsDigit(t[i]) || t[i] == '-' {
      if i < |x| {
        assert t[i] == x[i];
      } else if i > |x| {
        assert t[i] == y[i - |x| - 1];
      }
    }
    assert t[0] == x[0] && t[|t| - 1] == y[|y| - 1];
  }

  lemma InterpretRange(cmd: string, size: nat)
    requires cmd != AddAll && HasSubstring(cmd, "-")
    ensures ParseRange(cmd, size).Ok? ==>
      Interpret(cmd, size) == Ok(Slice(ParseRange(cmd, size).value.0, ParseRange(cmd, size).value.1))
    ensures ParseRange(cmd, size).Err? ==> Interpret(cmd, size) == Err(ParseRange(cmd, size).error)
  {
  }

  lemma AddSlice(str: string, filtered: seq<Game>, members: set<Game>, lo: nat, hi: nat)
    requires Trim(str) != [] && filtered != []
    requires Interpret(Command(str), |filtered|) == Ok(Slice(lo, hi))
    ensures AddOutcome(str, filtered, members) == Ok(members + Members(filtered[lo..hi]))
  {
  }

  lemma RemoveSlice(str: string, order: seq<Game>, members: set<Game>, lo: nat, hi: nat)
    requires Trim(str) != [] && |ByName(order)| == |order|
    requires Interpret(Command(str), |order|) == Ok(Slice(lo, hi))
    ensures RemoveOutcome(str, order, members) == Ok(members - Members(ByName(order)[lo..hi]))
  {
  }

  /** The command "k", for a numeral k, selects position k - 1 when
      1 <= k <= size and is out of range otherwise. */
  lemma IndexText(x: string, k: int, size: nat)
    requires Numeral(x, k)
    ensures Trim(x) != [] && Command(x) == x
    ensures Interpret(x, size) == if 1 <= k <= size then Ok(Position(k - 1)) else Err(IndexOutOfRange)
  {
    DigitsArePlain(x);
    PlainCommand(x);
    MissingSeparator(x, "-");
  }

  /** The command "a-b" in bounds and in order selects positions a - 1 to
      b - 1; here a = lo + 1 and b = hi. */
  lemma RangeInBounds(x: string, y: string, lo: nat, hi: nat, size: nat)
    requires Numeral(x, lo + 1) && Numeral(y, hi) && lo < hi <= size
    ensures Trim(x + "-" + y) != [] && Interpret(Command(x + "-" + y), size) == Ok(Slice(lo, hi))
  {
    RangeText(x, lo + 1, y, hi, size);
  }

  /** Adding "a-b" adds exactly candidates a to b (1-based, inclusive), the
      slice from lo = a - 1 up to hi = b. */
  lemma AddRangeAddsSlice(x: string, y: string, lo: nat, hi: nat, filtered: seq<Game>, members: set<Game>)
    requires Numeral(x, lo + 1) && Numeral(y, hi) && lo < hi <= |filtered|
    ensures AddOutcome(x + "-" + y, filtered, members) == Ok(members + Members(filtered[lo..hi]))
  {
    RangeInBounds(x, y, lo, hi, |filtered|);
    AddSlice(x + "-" + y, filtered, members, lo, hi);
  }

  /** Adding "k" adds candidate k (1-based); a k out of range fails. */
  lemma AddIndexAddsOne(x: string, k: int, filtered: seq<Game>, members: set<Game>)
    requires Numeral(x, k) && filtered != []
    ensures AddOutcome(x, filtered, members)
         == if 1 <= k <= |filtered| then Ok(members + {filtered[k - 1]}) else Err(IndexOutOfRange)
  {
    IndexText(x, k, |filtered|);
  }

  lemma {:induction false} MembersSize(s: seq<Game>)
    requires NoDuplicates(s)
    ensures |Members(s)| == |s|
  {
    if s != [] {
      var init := s[..|s| - 1];
      MembersSize(init);
      assert Members(s) == Members(init) + {s[|s| - 1]};
      assert s[|s| - 1] !in Members(init);
    }
  }

  /** With distinct candidates, adding "a-b" to an empty list leaves
      b - a + 1 games (hi - lo, for lo = a - 1 and hi = b). */
  lemma AddRangeCount(x: string, y: string, lo: nat, hi: nat, filtered: seq<Game>)
    requires Numeral(x, lo + 1) && Numeral(y, hi) && lo < hi <= |filtered| && NoDuplicates(filtered)
    ensures var r := AddOutcome(x + "-" + y, filtered, {});
      r.Ok? && |r.value| == hi - lo
  {
    AddRangeAddsSlice(x, y, lo, hi, filtered, {});
    SliceCount(filtered, lo, hi);
    OutcomeSize(AddOutcome(x + "-" + y, filtered, {}), {} + Members(filtered[lo..hi]), hi - lo);
  }

  lemma OutcomeSize(r: Result<set<Game>, Error>, games: set<Game>, n: int)
    requires r == Ok(games) && |games| == n
    ensures r.Ok? && |r.value| == n
  {
  }

  /** The distinct games of a slice of a list without repeats number as
      many as its positions. */
  lemma SliceCount(s: seq<Game>, lo: nat, hi: nat)
    requires NoDuplicates(s) && lo <= hi <= |s|
    ensures |{} + Members(s[lo..hi])| == hi - lo
  {
    MembersSize(s[lo..hi]);
    assert {} + Members(s[lo..hi]) == Members(s[lo..hi]);
  }

  /** "1-3" on three or more distinct candidates adds three games, "1-1"
      adds one. */
  lemma SmallRanges(filtered: seq<Game>)
    requires |filtered| >= 3 && NoDuplicates(filtered)
    ensures AddOutcome("1-3", filtered, {}).Ok? && |AddOutcome("1-3", filtered, {}).value| == 3
    ensures AddOutcome("1-1", filtered, {}).Ok? && |AddOutcome("1-1", filtered, {}).value| == 1
  {
    FirstThree(filtered);
    FirstOne(filtered);
  }

  lemma FirstThree(filtered: seq<Game>)
    requires |filtered| >= 3 && NoDuplicates(filtered)
    ensures AddOutcome("1-3", filtered, {}).Ok? && |AddOutcome("1-3", filtered, {}).value| == 3
  {
    assert Numeral("1", 1) && Numeral("3", 3);
    assert "1" + "-" + "3" == "1-3";
    AddRangeCount("1", "3", 0, 3, filtered);
  }

  lemma FirstOne(filtered: seq<Game>)
    requires filtered != [] && NoDuplicates(filtered)
    ensures AddOutcome("1-1", filtered, {}).Ok? && |AddOutcome("1-1", filtered, {}).value| == 1
  {
    assert Numeral("1", 1);
    assert "1" + "-" + "1" == "1-1";
    AddRangeCount("1", "1", 0, 1, filtered);
  }

  /** Any command holding a '-' (other than "all") is a range: it selects a
      slice or fails with one of the range errors, never as an index or a
      name. */
  lemma DashMeansRange(cmd: string, size: nat)
    requires cmd != AddAll && HasSubstring(cmd, "-")
    ensures var r := Interpret(cmd, size);
      (r.Ok? && r.value.Slice?)
      || r == Err(InvalidRangeFormat) || r == Err(InvalidRangeNumbers)
      || r == Err(RangeOutOfBounds) || r == Err(InvalidRangeOrder)
  {
  }

  /** "-1" is a range with an empty start, so it fails as invalid numbers
      rather than as an index. */
  lemma NegativeIndexIsRange(size: nat)
    ensures Interpret("-1", size) == Err(InvalidRangeNumbers)
  {
    SplitAroundSeparator("", "-", "1");
    assert "" + "-" + "1" == "-1";
    assert ParseInt("") == None;
    assert ParseRange("-1", size) == Err(InvalidRangeNumbers);
    InterpretRange("-1", size);
  }

  /** "1-" has a single piece, since the trailing empty piece is dropped. */
  lemma OpenRangeIsMalformed(size: nat)
    ensures Interpret("1-", size) == Err(InvalidRangeFormat)
  {
    SplitTrailingSeparator("1", "-");
    assert "1" + "-" == "1-";
    assert ParseRange("1-", size) == Err(InvalidRangeFormat);
    InterpretRange("1-", size);
  }

  /** On five or more games, "5-1" is in bounds but in the wrong order, and
      "0-1" is out of bounds on any list. */
  lemma RangeBoundsBeforeOrder(size: nat)
    ensures size >= 5 ==> Interpret("5-1", size) == Err(InvalidRangeOrder)
    ensures Interpret("0-1", size) == Err(RangeOutOfBounds)
  {
    if size >= 5 {
      ReversedRange(size);
    }
    ZeroStartRange(size);
  }

  lemma ReversedRange(size: nat)
    requires size >= 5
    ensures Interpret("5-1", size) == Err(InvalidRangeOrder)
  {
    assert Numeral("5", 5) && Numeral("1", 1);
    assert "5" + "-" + "1" == "5-1";
    RangeText("5", 5, "1", 1, size);
  }

  lemma ZeroStartRange(size: nat)
    ensures Interpret("0-1", size) == Err(RangeOutOfBounds)
  {
    assert Numeral("0", 0) && Numeral("1", 1);
    assert "0" + "-" + "1" == "0-1";
    RangeText("0", 0, "1", 1, size);
  }

  // ---------------------------------------------------------------- names

  /** Matching a name against the lower-cased command is matching it
      against the command. */
  lemma IgnoreCaseOfLowered(name: string, text: string)
    ensures EqualsIgnoreCase(name, Lower(text)) == EqualsIgnoreCase(name, text)
  {
    LowerIdempotent(text);
  }

  /** An add by name adds the first candidate with that name, ignoring case,
      and fails exactly when no candidate has it. */
  lemma AddByName(str: string, filtered: seq<Game>, members: set<Game>)
    requires Trim(str) != [] && filtered != []
    requires Interpret(Command(str), |filtered|) == Ok(Named(Command(str)))
    ensures AddOutcome(str, filtered, members) == Err(GameNotFound)
        <==> forall i :: 0 <= i < |filtered| ==> !EqualsIgnoreCase(filtered[i].name, Trim(str))
    ensures AddOutcome(str, filtered, members).Ok? ==>
      exists i :: 0 <= i < |filtered| && EqualsIgnoreCase(filtered[i].name, Trim(str))
        && (forall j :: 0 <= j < i ==> !EqualsIgnoreCase(filtered[j].name, Trim(str)))
        && AddOutcome(str, filtered, members).value == members + {filtered[i]}
  {
    forall i | 0 <= i < |filtered|
      ensures EqualsIgnoreCase(filtered[i].name, Command(str)) == EqualsIgnoreCase(filtered[i].name, Trim(str))
    {
      IgnoreCaseOfLowered(filtered[i].name, Trim(str));
    }
    AddNamed(Command(str), filtered, members);
  }

  /** A name command adds the first candidate with that name, ignoring
      case, and fails exactly when there is none. */
  lemma AddNamed(cmd: string, filtered: seq<Game>, members: set<Game>)
    requires Interpret(cmd, |filtered|) == Ok(Named(cmd))
    ensures AddSelected(cmd, filtered, members) == Err(GameNotFound)
        <==> forall i :: 0 <= i < |filtered| ==> !EqualsIgnoreCase(filtered[i].name, cmd)
    ensures AddSelected(cmd, filtered, members).Ok? ==>
      exists i :: 0 <= i < |filtered| && EqualsIgnoreCase(filtered[i].name, cmd)
        && (forall j :: 0 <= j < i ==> !EqualsIgnoreCase(filtered[j].name, cmd))
        && AddSelected(cmd, filtered, members).value == members + {filtered[i]}
  {
  }

  // ---------------------------------------------------------------- removing

  lemma {:induction false} NoDuplicatesByCount(s: seq<Game>)
    ensures NoDuplicates(s) <==> forall x :: multiset(s)[x] <= 1
  {
    if s != [] {
      var t := s[1..];
      NoDuplicatesByCount(t);
      assert s == [s[0]] + t;
      if NoDuplicates(s) {
        assert NoDuplicates(t) by {
          forall i, j | 0 <= i < j < |t| ensures t[i] != t[j] {
            assert t[i] == s[i + 1] && t[j] == s[j + 1];
          }
        }
        assert s[0] !in t by {
          forall k | 0 <= k < |t| ensures t[k] != s[0] {
            assert t[k] == s[k + 1];
          }
        }
      }
      if forall x :: multiset(s)[x] <= 1 {
        assert multiset(s)[s[0]] == multiset(t)[s[0]] + 1;
        forall x ensures multiset(t)[x] <= 1 {
          assert multiset(s)[x] >= multiset(t)[x];
        }
        forall i, j | 0 <= i < j < |s| ensures s[i] != s[j] {
          if i == 0 {
            assert s[j] == t[j - 1];
          } else {
            assert s[i] == t[i - 1] && s[j] == t[j - 1];
          }
        }
      }
    }
  }

  /** Sorting an enumeration of the members gives an enumeration of them. */
  lemma ByNameEnumerates(order: seq<Game>, members: set<Game>)
    requires Enumerates(order, members)
    ensures Enumerates(ByName(order), members)
  {
    var sorted := ByName(order);
    NoDuplicatesByCount(order);
    NoDuplicatesByCount(sorted);
    forall x ensures x in sorted <==> x in order {
      assert x in sorted <==> x in multiset(sorted);
    }
  }

  lemma RemovePosition(str: string, order: seq<Game>, members: set<Game>, i: nat)
    requires Trim(str) != [] && |ByName(order)| == |order|
    requires Interpret(Command(str), |order|) == Ok(Position(i))
    ensures RemoveOutcome(str, order, members) == Ok(members - {ByName(order)[i]})
  {
  }

  /** Removing the members at some positions of an enumeration of the set
      removes that many. */
  lemma SliceRemovalCount(sorted: seq<Game>, members: set<Game>, lo: nat, hi: nat)
    requires Enumerates(sorted, members) && lo <= hi <= |sorted|
    ensures |members - Members(sorted[lo..hi])| == |members| - (hi - lo)
  {
    var gone := Members(sorted[lo..hi]);
    MembersSize(sorted[lo..hi]);
    SliceMembers(sorted, lo, hi);
    assert gone <= members;
  }

  /** Removing "a-b" removes exactly the members at positions a to b of the
      name order (the slice from lo = a - 1 up to hi = b), b - a + 1 of
      them, and keeps all others. */
  lemma RemoveRangeRemovesSlice(x: string, y: string, lo: nat, hi: nat, order: seq<Game>, members: set<Game>)
    requires Enumerates(order, members)
    requires Numeral(x, lo + 1) && Numeral(y, hi) && lo < hi <= |order|
    ensures RemoveOutcome(x + "-" + y, order, members) == Ok(members - Members(ByName(order)[lo..hi]))
    ensures |members - Members(ByName(order)[lo..hi])| == |members| - (hi - lo)
  {
    EnumerationSize(order, members);
    ByNameEnumerates(order, members);
    RangeInBounds(x, y, lo, hi, |order|);
    RemoveSlice(x + "-" + y, order, members, lo, hi);
    SliceRemovalCount(ByName(order), members, lo, hi);
  }

  /** Removing "k" removes exactly the member at position k (1-based) of
      the name order, position i = k - 1. */
  lemma RemoveIndexRemovesOne(x: string, i: nat, order: seq<Game>, members: set<Game>)
    requires Enumerates(order, members)
    requires Numeral(x, i + 1) && i < |order|
    ensures RemoveOutcome(x, order, members) == Ok(members - {ByName(order)[i]})
    ensures ByName(order)[i] in members && |members - {ByName(order)[i]}| == |members| - 1
  {
    EnumerationSize(order, members);
    ByNameEnumerates(order, members);
    IndexInBounds(x, i, |order|);
    RemovePosition(x, order, members, i);
    EnumeratedAt(ByName(order), members, i);
  }

  /** The command "k" with 1 <= k <= size selects position i = k - 1. */
  lemma IndexInBounds(x: string, i: nat, size: nat)
    requires Numeral(x, i + 1) && i < size
    ensures Trim(x) != [] && Interpret(Command(x), size) == Ok(Position(i))
  {
    IndexText(x, i + 1, size);
  }

  /** Each game of an enumeration of a set is a member, and removing it
      leaves one fewer. */
  lemma EnumeratedAt(s: seq<Game>, members: set<Game>, i: int)
    requires Enumerates(s, members) && 0 <= i < |s|
    ensures s[i] in members && |members - {s[i]}| == |members| - 1
  {
  }

  /** A remove by name removes one member with that name, ignoring case,
      and fails exactly when no member has it. */
  lemma RemoveByName(str: string, order: seq<Game>, members: set<Game>)
    requires Enumerates(order, members) && Trim(str) != []
    requires Interpret(Command(str), |order|) == Ok(Named(Command(str)))
    ensures RemoveOutcome(str, order, members) == Err(GameNotFound)
        <==> forall g :: g in members ==> !EqualsIgnoreCase(g.name, Trim(str))
    ensures RemoveOutcome(str, order, members).Ok? ==>
      exists g :: g in members && EqualsIgnoreCase(g.name, Trim(str))
        && RemoveOutcome(str, order, members).value == members - {g}
  {
    var sorted := ByName(order);
    assert |sorted| == |multiset(sorted)| == |order|;
    forall i | 0 <= i < |order|
      ensures EqualsIgnoreCase(order[i].name, Command(str)) == EqualsIgnoreCase(order[i].name, Trim(str))
    {
      IgnoreCaseOfLowered(order[i].name, Trim(str));
    }
    var found := FirstNamed(order, Command(str));
    if found.None? {
      forall g | g in members ensures !EqualsIgnoreCase(g.name, Trim(str)) {
        var k :| 0 <= k < |order| && order[k] == g;
      }
    } else {
      assert order[found.value] in members;
    }
  }
}
