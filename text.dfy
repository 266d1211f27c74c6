/**
 * The PHP string primitives the extractor relies on: `strpos`, `explode`,
 * `implode`, `str_replace`, `array_unique`, string truthiness, integer
 * formatting and the length ordering used by `usort`.
 */
module Text {

  /** A PHP string converts to `true` unless it is "" or "0". */
  predicate Truthy(s: string) {
    s != "" && s != "0"
  }

  /** `strpos($s, $needle) !== false`; an empty needle is found at 0. */
  predicate Contains(s: string, needle: string)
    decreases |s|
  {
    |needle| <= |s| && (s[..|needle|] == needle || (|s| > 0 && Contains(s[1..], needle)))
  }

  /** `explode($sep, $s)`: the pieces between non-overlapping occurrences, left to right. */
  function Explode(sep: string, s: string): (parts: seq<string>)
    requires sep != ""
    ensures |parts| >= 1
    ensures parts[0] <= s
    decreases |s|
  {
    if |s| < |sep| then [s]
    else if s[..|sep|] == sep then [""] + Explode(sep, s[|sep|..])
    else
      var rest := Explode(sep, s[1..]);
      [[s[0]] + rest[0]] + rest[1..]
  }

  /** No piece of `explode` contains the separator. */
  lemma {:induction false} ExplodePiecesAvoidSeparator(sep: string, s: string)
    requires sep != ""
    ensures forall i :: 0 <= i < |Explode(sep, s)| ==> !Contains(Explode(sep, s)[i], sep)
    decreases |s|
  {
    if |s| < |sep| {
      assert !Contains(s, sep);
    } else if s[..|sep|] == sep {
      ExplodePiecesAvoidSeparator(sep, s[|sep|..]);
      assert !Contains("", sep);
    } else {
      var rest := Explode(sep, s[1..]);
      ExplodePiecesAvoidSeparator(sep, s[1..]);
      var first := [s[0]] + rest[0];
      assert first == s[..|first|];
      assert !Contains(first, sep) by {
        if |sep| <= |first| {
          assert first[..|sep|] == s[..|sep|];
        }
        assert first[1..] == rest[0];
      }
      var parts := Explode(sep, s);
      assert parts == [first] + rest[1..];
      forall i | 0 <= i < |parts| ensures !Contains(parts[i], sep) {
        if i > 0 {
          assert parts[i] == rest[i];
        }
      }
    }
  }

  /** `implode($sep, $parts)`. */
  function Join(sep: string, parts: seq<string>): string
  {
    if |parts| == 0 then ""
    else if |parts| == 1 then parts[0]
    else parts[0] + sep + Join(sep, parts[1..])
  }

  lemma JoinCons(sep: string, first: string, rest: seq<string>)
    requires |rest| >= 1
    ensures Join(sep, [first] + rest) == first + sep + Join(sep, rest)
  {
    assert ([first] + rest)[1..] == rest;
  }

  lemma JoinExtendFirst(sep: string, c: char, parts: seq<string>)
    requires |parts| >= 1
    ensures Join(sep, [[c] + parts[0]] + parts[1..]) == [c] + Join(sep, parts)
  {
    var ext := [[c] + parts[0]] + parts[1..];
    if |parts| > 1 {
      assert ext[1..] == parts[1..];
      assert Join(sep, ext) == ([c] + parts[0]) + sep + Join(sep, parts[1..]);
    }
  }

  /** Splitting and joining again with the same separator gives back the string. */
  lemma {:induction false} JoinExplode(sep: string, s: string)
    requires sep != ""
    ensures Join(sep, Explode(sep, s)) == s
    decreases |s|
  {
    if |s| < |sep| {
    } else if s[..|sep|] == sep {
      var rest := Explode(sep, s[|sep|..]);
      assert Explode(sep, s) == [""] + rest;
      JoinExplode(sep, s[|sep|..]);
      JoinCons(sep, "", rest);
      assert "" + sep + Join(sep, rest) == sep + s[|sep|..];
      assert s == sep + s[|sep|..];
    } else {
      var rest := Explode(sep, s[1..]);
      assert Explode(sep, s) == [[s[0]] + rest[0]] + rest[1..];
      JoinExplode(sep, s[1..]);
      JoinExtendFirst(sep, s[0], rest);
      assert s == [s[0]] + s[1..];
    }
  }

  /** `str_replace($search, $replace, $s)` for a non-empty search string. */
  function ReplaceAll(s: string, search: string, replace: string): string
    requires search != ""
    decreases |s|
  {
    if |s| < |search| then s
    else if s[..|search|] == search then replace + ReplaceAll(s[|search|..], search, replace)
    else [s[0]] + ReplaceAll(s[1..], search, replace)
  }

  /** `str_replace`, which leaves the subject alone when the search string is empty. */
  function StrReplace(s: string, search: string, replace: string): string
  {
    if search == "" then s else ReplaceAll(s, search, replace)
  }

  /**
   * Replacing every occurrence is the same as splitting on the search string
   * and joining the pieces with the replacement.
   */
  lemma {:induction false} ReplaceAllIsJoinOfExplode(s: string, search: string, replace: string)
    requires search != ""
    ensures ReplaceAll(s, search, replace) == Join(replace, Explode(search, s))
    decreases |s|
  {
    if |s| < |search| {
    } else if s[..|search|] == search {
      ReplaceAllIsJoinOfExplode(s[|search|..], search, replace);
      JoinCons(replace, "", Explode(search, s[|search|..]));
    } else {
      ReplaceAllIsJoinOfExplode(s[1..], search, replace);
      JoinExtendFirst(replace, s[0], Explode(search, s[1..]));
    }
  }

  /** A string without the search string is left unchanged. */
  lemma {:induction false} ReplaceAllAbsent(s: string, search: string, replace: string)
    requires search != "" && !Contains(s, search)
    ensures ReplaceAll(s, search, replace) == s
    decreases |s|
  {
    if |s| >= |search| {
      ReplaceAllAbsent(s[1..], search, replace);
      assert s == [s[0]] + s[1..];
    }
  }

  /** Replacing a single character by a string without it removes every occurrence. */
  lemma {:induction false} ReplaceCharRemovesIt(s: string, c: char, replace: string)
    requires c !in replace
    ensures c !in ReplaceAll(s, [c], replace)
    decreases |s|
  {
    if |s| >= 1 {
      ReplaceCharRemovesIt(s[1..], c, replace);
    }
  }

  function Digit(d: nat): (c: char)
    requires d < 10
    ensures '0' <= c <= '9'
  {
    ('0' as int + d) as char
  }

  predicate IsDigits(s: string) {
    forall i :: 0 <= i < |s| ==> '0' <= s[i] <= '9'
  }

  /** PHP's decimal form of a non-negative integer, as `sprintf('%s')` and `implode` write it. */
  function NatToString(n: nat): (r: string)
    ensures |r| >= 1 && IsDigits(r)
    decreases n
  {
    if n < 10 then [Digit(n)] else NatToString(n / 10) + [Digit(n % 10)]
  }

  function DigitsValue(s: string): nat
    requires IsDigits(s)
  {
    if s == [] then 0 else 10 * DigitsValue(s[..|s| - 1]) + (s[|s| - 1] as int - '0' as int)
  }

  /** The decimal form reads back as the same number. */
  lemma {:induction false} NatToStringReadsBack(n: nat)
    ensures DigitsValue(NatToString(n)) == n
    decreases n
  {
    if n >= 10 {
      NatToStringReadsBack(n / 10);
      var r := NatToString(n);
      assert r[..|r| - 1] == NatToString(n / 10);
    }
  }

  /** `array_unique`: the first occurrence of each value, in order. */
  function Unique<T(==,!new)>(s: seq<T>): (r: seq<T>)
    ensures forall x :: x in r <==> x in s
    ensures forall i, j :: 0 <= i < j < |r| ==> r[i] != r[j]
  {
    if s == [] then []
    else
      var u := Unique(s[..|s| - 1]);
      assert s == s[..|s| - 1] + [s[|s| - 1]];
      if s[|s| - 1] in u then u else u + [s[|s| - 1]]
  }

  /** The position of the first occurrence of x in s. */
  function FirstIndex<T(==)>(s: seq<T>, x: T): (i: nat)
    requires x in s
    ensures i < |s| && s[i] == x
    ensures forall j :: 0 <= j < i ==> s[j] != x
  {
    if s[0] == x then 0 else 1 + FirstIndex(s[1..], x)
  }

  /** Appending never moves the first occurrence of a value already present. */
  lemma FirstIndexSnoc<T>(s: seq<T>, x: T, y: T)
    requires y in s
    ensures FirstIndex(s + [x], y) == FirstIndex(s, y)
  {
    var i := FirstIndex(s, y);
    assert (s + [x])[i] == y;
  }

  /**
   * `array_unique` keeps each value at its first occurrence: the values
   * come out in the order in which they first appear.
   */
  lemma {:induction false} UniqueKeepsFirstOccurrences<T(!new)>(s: seq<T>)
    ensures forall i, j :: 0 <= i < j < |Unique(s)| ==> FirstIndex(s, Unique(s)[i]) < FirstIndex(s, Unique(s)[j])
  {
    if s != [] {
      var p := s[..|s| - 1];
      var x := s[|s| - 1];
      assert s == p + [x];
      UniqueKeepsFirstOccurrences(p);
      var u := Unique(p);
      var r := Unique(s);
      forall i | 0 <= i < |u| ensures FirstIndex(s, u[i]) == FirstIndex(p, u[i]) {
        FirstIndexSnoc(p, x, u[i]);
      }
      if x !in u {
        assert r == u + [x];
        assert x !in p;
        assert FirstIndex(s, x) == |p|;
        forall i, j | 0 <= i < j < |r| ensures FirstIndex(s, r[i]) < FirstIndex(s, r[j]) {
          if j == |u| {
            assert r[i] == u[i];
            assert FirstIndex(s, u[i]) == FirstIndex(p, u[i]);
          } else {
            assert r[i] == u[i] && r[j] == u[j];
          }
        }
      }
    }
  }

  predicate SortedByLength(s: seq<string>) {
    forall i, j :: 0 <= i < j < |s| ==> |s[i]| <= |s[j]|
  }

  lemma PrependSorted(a: string, rest: seq<string>)
    requires SortedByLength(rest)
    requires forall y :: y in rest ==> |a| <= |y|
    ensures SortedByLength([a] + rest)
  {
    var r := [a] + rest;
    forall i, j | 0 <= i < j < |r| ensures |r[i]| <= |r[j]| {
      assert r[j] == rest[j - 1] && r[j] in rest;
      if i > 0 {
        assert r[i] == rest[i - 1];
      }
    }
  }

  /** Inserts after every element that is not longer: a stable insertion step. */
  function InsertByLength(x: string, sorted: seq<string>): (r: seq<string>)
    ensures multiset(r) == multiset(sorted) + multiset{x}
  {
    if sorted == [] then [x]
    else if |x| < |sorted[0]| then [x] + sorted
    else
      assert sorted == [sorted[0]] + sorted[1..];
      [sorted[0]] + InsertByLength(x, sorted[1..])
  }

  /** Inserting into a list sorted by length keeps it sorted. */
  lemma {:induction false} InsertKeepsSorted(x: string, sorted: seq<string>)
    requires SortedByLength(sorted)
    ensures SortedByLength(InsertByLength(x, sorted))
  {
    if sorted == [] {
    } else if |x| < |sorted[0]| {
      PrependSorted(x, sorted);
    } else {
      var rest := InsertByLength(x, sorted[1..]);
      InsertKeepsSorted(x, sorted[1..]);
      forall y | y in rest ensures |sorted[0]| <= |y| {
        assert y in multiset(rest);
        if y != x {
          assert y in multiset(sorted[1..]);
        }
      }
      PrependSorted(sorted[0], rest);
    }
  }

  /** `usort` by string length, ties kept in their original order. */
  function SortByLength(s: seq<string>): (r: seq<string>)
    ensures SortedByLength(r)
    ensures multiset(r) == multiset(s)
  {
    if s == [] then []
    else
      assert s == s[..|s| - 1] + [s[|s| - 1]];
      InsertKeepsSorted(s[|s| - 1], SortByLength(s[..|s| - 1]));
      InsertByLength(s[|s| - 1], SortByLength(s[..|s| - 1]))
  }

  lemma TakeSnoc<T>(s: seq<T>, j: nat, x: T)
    requires j < |s| && s[j] == x
    ensures s[..j] + [x] == s[..j + 1]
  {
  }

  lemma TakeCons<T>(v: T, rest: seq<T>, m: nat)
    requires m <= |rest|
    ensures ([v] + rest)[..m + 1] == [v] + rest[..m]
  {
  }

  lemma AppendAssoc<T>(a: seq<T>, b: seq<T>, c: seq<T>)
    ensures a + b + c == a + (b + c)
  {
  }
}
