/**
 * The java.lang.String and Integer operations the planner relies on:
 * trim, toLowerCase, equalsIgnoreCase, compareTo, compareToIgnoreCase,
 * contains, split (with and without a limit) and Integer.parseInt.
 * Case mapping is ASCII only.
 */
module JavaText {
  import opened Wrappers

  // ---------------------------------------------------------------- trim

  /** String.trim strips every leading and trailing character up to U+0020. */
  predicate IsTrimmable(c: char) {
    c <= ' '
  }

  /** Drops the longest prefix of trimmable characters. */
  function TrimLeft(s: string): (r: string)
    ensures |r| <= |s| && r == s[|s| - |r|..]
    ensures forall i :: 0 <= i < |s| - |r| ==> IsTrimmable(s[i])
    ensures r == [] || !IsTrimmable(r[0])
  {
    if s != [] && IsTrimmable(s[0]) then TrimLeft(s[1..]) else s
  }

  /** Drops the longest suffix of trimmable characters. */
  function TrimRight(s: string): (r: string)
    ensures |r| <= |s| && r == s[..|r|]
    ensures forall i :: |r| <= i < |s| ==> IsTrimmable(s[i])
    ensures r == [] || !IsTrimmable(r[|r| - 1])
  {
    if s != [] && IsTrimmable(s[|s| - 1]) then TrimRight(s[..|s| - 1]) else s
  }

  /** `r` is `s` with some trimmable characters cut from each end. */
  predicate TrimmedFrom(s: string, r: string) {
    exists i, j ::
      && 0 <= i <= j <= |s| && r == s[i..j]
      && (forall k :: 0 <= k < i ==> IsTrimmable(s[k]))
      && (forall k :: j <= k < |s| ==> IsTrimmable(s[k]))
  }

  /** String.trim: what is left has no trimmable character at either end,
      and only trimmable characters were removed. */
  function Trim(s: string): (r: string)
    ensures |r| <= |s|
    ensures r == [] || (!IsTrimmable(r[0]) && !IsTrimmable(r[|r| - 1]))
    ensures TrimmedFrom(s, r)
  {
    var left := TrimLeft(s);
    var r := TrimRight(left);
    TrimmedFromEnds(s, left, r);
    r
  }

  lemma TrimmedFromEnds(s: string, left: string, r: string)
    requires left == TrimLeft(s) && r == TrimRight(left)
    ensures TrimmedFrom(s, r)
  {
    var i := |s| - |left|;
    var j := i + |r|;
    assert r == s[i..j] by {
      assert left == s[i..];
      assert r == left[..|r|];
    }
    forall k | j <= k < |s| ensures IsTrimmable(s[k]) {
      assert s[k] == left[k - i];
    }
  }

  /** Trim leaves alone a string with no trimmable character at either end. */
  lemma TrimUntrimmed(s: string)
    requires s == [] || (!IsTrimmable(s[0]) && !IsTrimmable(s[|s| - 1]))
    ensures Trim(s) == s
  {
  }

  // ---------------------------------------------------------------- case

  predicate IsUpper(c: char) {
    'A' <= c <= 'Z'
  }

  /** Character.toLowerCase restricted to ASCII letters. */
  function LowerChar(c: char): (r: char)
    ensures !IsUpper(r)
    ensures !IsUpper(c) ==> r == c
  {
    if IsUpper(c) then (c as int + 32) as char else c
  }

  /** String.toLowerCase restricted to ASCII letters. */
  function Lower(s: string): (r: string)
    ensures |r| == |s|
    ensures forall i :: 0 <= i < |s| ==> r[i] == LowerChar(s[i])
  {
    seq(|s|, i requires 0 <= i < |s| => LowerChar(s[i]))
  }

  /** Text without upper-case letters is its own lower-case form. */
  lemma LowerUnchanged(s: string)
    requires forall i :: 0 <= i < |s| ==> !IsUpper(s[i])
    ensures Lower(s) == s
  {
  }

  /** Lower-casing twice is lower-casing once. */
  lemma LowerIdempotent(s: string)
    ensures Lower(Lower(s)) == Lower(s)
  {
    forall i | 0 <= i < |s| ensures Lower(Lower(s))[i] == Lower(s)[i] {
      assert !IsUpper(Lower(s)[i]);
    }
  }

  /** String.equalsIgnoreCase. */
  predicate EqualsIgnoreCase(a: string, b: string) {
    Lower(a) == Lower(b)
  }

  // ---------------------------------------------------------------- order

  /** The sign of String.compareTo: lexicographic on character codes, a
      proper prefix before the longer string. */
  function CompareStr(a: string, b: string): (r: int)
    ensures -1 <= r <= 1
    ensures r == 0 <==> a == b
  {
    if a == [] then (if b == [] then 0 else -1)
    else if b == [] then 1
    else if a[0] < b[0] then -1
    else if b[0] < a[0] then 1
    else
      assert a == [a[0]] + a[1..] && b == [b[0]] + b[1..];
      CompareStr(a[1..], b[1..])
  }

  /** The sign of String.compareToIgnoreCase. */
  function CompareIgnoreCase(a: string, b: string): int {
    CompareStr(Lower(a), Lower(b))
  }

  lemma {:induction false} CompareStrAntisymmetric(a: string, b: string)
    ensures CompareStr(a, b) == -CompareStr(b, a)
  {
    if a != [] && b != [] && a[0] == b[0] {
      CompareStrAntisymmetric(a[1..], b[1..]);
    }
  }

  lemma {:induction false} CompareStrTransitive(a: string, b: string, c: string)
    requires CompareStr(a, b) <= 0 && CompareStr(b, c) <= 0
    ensures CompareStr(a, c) <= 0
  {
    if a != [] && b != [] && c != [] && a[0] == b[0] && b[0] == c[0] {
      CompareStrTransitive(a[1..], b[1..], c[1..]);
    }
  }

  // ---------------------------------------------------------------- search

  /** `sep` occurs in `s` starting at position `i`. */
  predicate OccursAt(s: string, sep: string, i: int) {
    0 <= i && i + |sep| <= |s| && s[i..i + |sep|] == sep
  }

  /** The first position at or after `from` at which `sep` occurs. */
  function IndexFrom(s: string, sep: string, from: nat): (r: Option<nat>)
    ensures r.Some? ==> from <= r.value && OccursAt(s, sep, r.value)
    ensures forall i :: from <= i && (r.None? || i < r.value) ==> !OccursAt(s, sep, i)
    decreases |s| - from
  {
    if from + |sep| > |s| then None
    else if OccursAt(s, sep, from) then Some(from)
    else IndexFrom(s, sep, from + 1)
  }

  /** String.indexOf: the first position at which `sep` occurs. */
  function IndexOf(s: string, sep: string): (r: Option<nat>)
    ensures r.Some? ==> OccursAt(s, sep, r.value)
    ensures forall i :: (r.None? || i < r.value) ==> !OccursAt(s, sep, i)
  {
    IndexFrom(s, sep, 0)
  }

  /** String.contains. */
  predicate HasSubstring(s: string, sep: string) {
    IndexOf(s, sep).Some?
  }

  // ---------------------------------------------------------------- split

  /** Cuts `s` at every occurrence of `sep`, scanning left to right, keeping
      every piece (also empty ones). */
  function SplitAll(s: string, sep: string): (r: seq<string>)
    requires sep != []
    ensures |r| >= 1
    ensures forall k :: 0 <= k < |r| ==> !HasSubstring(r[k], sep)
    decreases |s|
  {
    match IndexOf(s, sep)
    case None => [s]
    case Some(i) =>
      var head := s[..i];
      assert !HasSubstring(head, sep) by {
        forall j | OccursAt(head, sep, j) ensures OccursAt(s, sep, j) {
          assert head[j..j + |sep|] == s[j..j + |sep|];
        }
      }
      [head] + SplitAll(s[i + |sep|..], sep)
  }

  /** Glues pieces back together with `sep` between neighbours. */
  function Join(parts: seq<string>, sep: string): string
    requires parts != []
  {
    if |parts| == 1 then parts[0] else parts[0] + sep + Join(parts[1..], sep)
  }

  /** Splitting and joining again gives back the original text. */
  lemma {:induction false} JoinSplitAll(s: string, sep: string)
    requires sep != []
    ensures Join(SplitAll(s, sep), sep) == s
    decreases |s|
  {
    var found := IndexOf(s, sep);
    if found.Some? {
      var i := found.value;
      var rest := s[i + |sep|..];
      JoinSplitAll(rest, sep);
      var parts := SplitAll(s, sep);
      assert parts == [s[..i]] + SplitAll(rest, sep);
      assert Join(parts, sep) == s[..i] + sep + rest;
      assert s == s[..i] + s[i..i + |sep|] + rest;
    }
  }

  /** Drops the empty pieces at the end, as String.split does with limit 0. */
  function DropTrailingEmpty(parts: seq<string>): (r: seq<string>)
    ensures |r| <= |parts| && r == parts[..|r|]
    ensures r == [] || r[|r| - 1] != []
    ensures forall k :: |r| <= k < |parts| ==> parts[k] == []
  {
    if parts != [] && parts[|parts| - 1] == [] then DropTrailingEmpty(parts[..|parts| - 1])
    else parts
  }

  /** String.split(sep) with a literal separator: the whole string when
      `sep` does not occur, otherwise every piece with trailing empty pieces
      removed. */
  function Split(s: string, sep: string): (r: seq<string>)
    requires sep != []
  {
    if !HasSubstring(s, sep) then [s] else DropTrailingEmpty(SplitAll(s, sep))
  }

  /** String.split(sep, 2): at most two pieces, cut at the first occurrence. */
  function SplitOnce(s: string, sep: string): (r: seq<string>)
    requires sep != []
    ensures HasSubstring(s, sep) ==> |r| == 2 && r[0] + sep + r[1] == s && !HasSubstring(r[0], sep)
    ensures !HasSubstring(s, sep) ==> r == [s]
  {
    var found := IndexOf(s, sep);
    if found.None? then [s]
    else
      var i := found.value;
      var head, tail := s[..i], s[i + |sep|..];
      assert s == head + s[i..i + |sep|] + tail;
      assert !HasSubstring(head, sep) by {
        forall j | OccursAt(head, sep, j) ensures OccursAt(s, sep, j) {
          assert head[j..j + |sep|] == s[j..j + |sep|];
        }
      }
      [head, tail]
  }

  /** When no character of `sep` occurs in `s`, appending `sep` once gives a
      single piece (or none when `s` is empty): a trailing separator never
      yields a second piece. */
  lemma SplitTrailingSeparator(s: string, sep: string)
    requires sep != []
    requires forall c :: c in sep ==> c !in s
    ensures Split(s + sep, sep) == (if s == [] then [] else [s])
  {
    var t := s + sep;
    assert OccursAt(t, sep, |s|) by { assert t[|s|..|s| + |sep|] == sep; }
    forall i | 0 <= i < |s| ensures !OccursAt(t, sep, i) {
      assert t[i] == s[i] && t[i] !in sep;
    }
    assert IndexOf(t, sep) == Some(|s|);
    assert t[..|s|] == s && t[|s| + |sep|..] == [];
    assert IndexOf([], sep) == None;
    assert SplitAll([], sep) == [[]];
    var parts := SplitAll(t, sep);
    assert parts == [t[..|s|]] + SplitAll(t[|s| + |sep|..], sep);
    assert parts == [s, []];
    assert HasSubstring(t, sep);
    assert Split(t, sep) == DropTrailingEmpty(parts);
    assert parts[..|parts| - 1] == [s];
    assert DropTrailingEmpty(parts) == DropTrailingEmpty([s]);
    if s == [] {
      assert [s][..0] == [];
      assert DropTrailingEmpty([s]) == DropTrailingEmpty([]);
    }
  }

  /** Text that lacks the first character of `sep` does not contain it. */
  lemma MissingSeparator(s: string, sep: string)
    requires sep != [] && sep[0] !in s
    ensures !HasSubstring(s, sep)
  {
    forall i | 0 <= i < |s| ensures !OccursAt(s, sep, i) {
      assert s[i] != sep[0];
    }
  }

  /** A separator whose characters occur on neither side cuts the text
      into exactly those two sides, as long as the second is not empty. */
  lemma SplitAroundSeparator(x: string, sep: string, y: string)
    requires sep != [] && y != []
    requires forall c :: c in sep ==> c !in x && c !in y
    ensures HasSubstring(x + sep + y, sep)
    ensures Split(x + sep + y, sep) == [x, y]
  {
    var t := x + sep + y;
    assert OccursAt(t, sep, |x|) by { assert t[|x|..|x| + |sep|] == sep; }
    forall i | 0 <= i < |x| ensures !OccursAt(t, sep, i) {
      assert t[i] == x[i] && t[i] !in sep;
    }
    assert IndexOf(t, sep) == Some(|x|);
    forall i | 0 <= i < |y| ensures !OccursAt(y, sep, i) {
      assert sep[0] in sep;
    }
    assert IndexOf(y, sep) == None;
    assert t[..|x|] == x && t[|x| + |sep|..] == y;
    var parts := SplitAll(t, sep);
    assert parts == [t[..|x|]] + SplitAll(t[|x| + |sep|..], sep);
    assert parts == [x, y];
    assert HasSubstring(t, sep);
  }

  // ---------------------------------------------------------------- numbers

  const IntMin: int := -0x8000_0000
  const IntMax: int := 0x7fff_ffff

  predicate IsDigit(c: char) {
    '0' <= c <= '9'
  }

  predicate AllDigits(s: string) {
    forall i :: 0 <= i < |s| ==> IsDigit(s[i])
  }

  /** The value of a run of decimal digits, most significant first. */
  function DigitsValue(s: string): nat
    requires AllDigits(s)
  {
    if s == [] then 0 else DigitsValue(s[..|s| - 1]) * 10 + (s[|s| - 1] as int - '0' as int)
  }

  /** Integer.parseInt: an optional '+' or '-', at least one digit, and a
      value that fits in 32 bits; anything else is a NumberFormatException,
      here None. */
  function ParseInt(s: string): (r: Option<int>)
    ensures r.Some? ==> IntMin <= r.value <= IntMax
    ensures r.Some? ==> s != [] && (IsDigit(s[0]) || s[0] == '+' || s[0] == '-')
    ensures r.Some? ==>
      var d := if s[0] == '+' || s[0] == '-' then s[1..] else s;
      d != [] && AllDigits(d) && r.value == (if s[0] == '-' then 0 - DigitsValue(d) else DigitsValue(d))
  {
    if s == [] then None
    else
      var digits := if s[0] == '-' || s[0] == '+' then s[1..] else s;
      if digits == [] || !AllDigits(digits) then None
      else
        var v: int := if s[0] == '-' then 0 - DigitsValue(digits) else DigitsValue(digits);
        if IntMin <= v <= IntMax then Some(v) else None
  }

  /** The decimal digits of `n`, as Integer.toString prints them. */
  function Decimal(n: nat): (r: string)
    ensures r != [] && AllDigits(r)
  {
    var d := ['0' + (n % 10) as char];
    if n < 10 then d else Decimal(n / 10) + d
  }

  lemma {:induction false} DigitsValueDecimal(n: nat)
    ensures DigitsValue(Decimal(n)) == n
  {
    if n >= 10 {
      DigitsValueDecimal(n / 10);
      var r := Decimal(n);
      assert r[..|r| - 1] == Decimal(n / 10);
    }
  }

  /** Parsing what Integer.toString prints gives the number back, for every
      int, negative ones included. */
  lemma ParseIntDecimal(n: int)
    requires IntMin <= n <= IntMax
    ensures n >= 0 ==> ParseInt(Decimal(n)) == Some(n)
    ensures n < 0 ==> ParseInt("-" + Decimal(-n)) == Some(n)
  {
    if n >= 0 {
      DigitsValueDecimal(n);
    } else {
      DigitsValueDecimal(-n);
      assert ("-" + Decimal(-n))[1..] == Decimal(-n);
    }
  }
}
