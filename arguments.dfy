/**
 * What `_getStrings` extracts from the tokens after a marker's `(`:
 * literal strings (decoded by `_formatString`), integer literals taken
 * verbatim, and runs of literals joined by `.`; commas are skipped.
 */
module Arguments {
  import opened Tokens
  import opened Escapes
  import Text

  /** The tokens that keep the outer loop of `_getStrings` going. */
  predicate Continues(ts: seq<Token>, pos: nat) {
    IsPunctAt(ts, pos, ',') || IsLiteralAt(ts, pos) || IsKindAt(ts, pos, TLNumber)
  }

  /** What one token adds to a `.`-joined run: a literal's decoded text; `.` adds nothing. */
  function Piece(t: Token): string {
    if t.Lexeme? && t.kind == TConstantEncapsedString then FormatString(t.text) else ""
  }

  /** The decoded literals among `ts[lo..hi]`, concatenated in order. */
  function Joined(ts: seq<Token>, lo: nat, hi: nat): string
    requires lo <= hi <= |ts|
    decreases hi
  {
    if lo == hi then "" else Joined(ts, lo, hi - 1) + Piece(ts[hi - 1])
  }

  /** One more token of a run: a literal extends the joined text, a `.` leaves it as it is. */
  lemma JoinedStep(ts: seq<Token>, start: nat, next: nat, s: string)
    requires start <= next < |ts|
    requires s == Joined(ts, start, next)
    ensures Joined(ts, start, next + 1) == if IsLiteralAt(ts, next) then s + FormatString(ts[next].text) else s
  {
  }

  /**
   * Where the inner loop of `_getStrings` stops when started at `pos`: the
   * first token at or after `pos` that is neither a literal nor `.`.
   */
  function RunEnd(ts: seq<Token>, pos: nat): (e: nat)
    requires pos <= |ts|
    ensures pos <= e <= |ts|
    ensures IsLiteralAt(ts, pos) || IsPunctAt(ts, pos, '.') ==> pos < e
    decreases |ts| - pos
  {
    if IsLiteralAt(ts, pos) || IsPunctAt(ts, pos, '.') then RunEnd(ts, pos + 1) else pos
  }

  /** The run from `pos` ends where the run from `pos + 1` does when `pos` continues it, and at `pos` otherwise. */
  lemma RunEndStep(ts: seq<Token>, pos: nat)
    requires pos <= |ts|
    ensures IsLiteralAt(ts, pos) || IsPunctAt(ts, pos, '.') ==> pos < |ts| && RunEnd(ts, pos) == RunEnd(ts, pos + 1)
    ensures !(IsLiteralAt(ts, pos) || IsPunctAt(ts, pos, '.')) ==> RunEnd(ts, pos) == pos
  {
  }

  /** A run covers exactly the maximal stretch of literals and `.` tokens from `pos`. */
  lemma {:induction false} RunCoversStretch(ts: seq<Token>, pos: nat)
    requires pos <= |ts|
    ensures forall q :: pos <= q < RunEnd(ts, pos) ==> IsLiteralAt(ts, q) || IsPunctAt(ts, q, '.')
    ensures !IsLiteralAt(ts, RunEnd(ts, pos)) && !IsPunctAt(ts, RunEnd(ts, pos), '.')
    decreases |ts| - pos
  {
    if IsLiteralAt(ts, pos) || IsPunctAt(ts, pos, '.') {
      RunCoversStretch(ts, pos + 1);
    }
  }

  /**
   * The outer loop of `_getStrings` from the state (pos, count, strings).
   * `count` is refreshed to `|strings|` at the top of each iteration, before
   * the iteration appends, so the test `count < target` lags one iteration
   * behind. A run of literals joined by `.` is taken whole, and the token
   * that ends it is then skipped.
   */
  function Collect(ts: seq<Token>, pos: nat, target: nat, count: nat, strings: seq<string>): (r: (seq<string>, nat))
    requires pos <= |ts| + 1
    decreases |ts| + 1 - pos
  {
    if count < target && Continues(ts, pos) then
      var c := |strings|;
      if IsLiteralAt(ts, pos) && IsPunctAt(ts, pos + 1, '.') then
        var e := RunEnd(ts, pos);
        Collect(ts, e + 1, target, c, strings + [Joined(ts, pos, e)])
      else if IsLiteralAt(ts, pos) then
        Collect(ts, pos + 1, target, c, strings + [FormatString(ts[pos].text)])
      else if IsKindAt(ts, pos, TLNumber) then
        Collect(ts, pos + 1, target, c, strings + [ts[pos].text])
      else
        Collect(ts, pos + 1, target, c, strings)
    else (strings, pos)
  }

  /** One iteration of the outer loop, for as long as it goes on. */
  lemma CollectStep(ts: seq<Token>, pos: nat, target: nat, count: nat, strings: seq<string>)
    requires pos <= |ts| + 1
    requires count < target && Continues(ts, pos)
    ensures Collect(ts, pos, target, count, strings) ==
      if IsLiteralAt(ts, pos) && IsPunctAt(ts, pos + 1, '.') then
        Collect(ts, RunEnd(ts, pos) + 1, target, |strings|, strings + [Joined(ts, pos, RunEnd(ts, pos))])
      else if IsLiteralAt(ts, pos) then
        Collect(ts, pos + 1, target, |strings|, strings + [FormatString(ts[pos].text)])
      else if IsKindAt(ts, pos, TLNumber) then
        Collect(ts, pos + 1, target, |strings|, strings + [ts[pos].text])
      else
        Collect(ts, pos + 1, target, |strings|, strings)
  {
  }

  /** `_getStrings($position, $target)`: the values and the final position. */
  function StringsFrom(ts: seq<Token>, pos: nat, target: nat): (seq<string>, nat)
    requires pos <= |ts| + 1
  {
    Collect(ts, pos, target, 0, [])
  }

  /** Values are only ever appended. */
  lemma {:induction false} CollectGrows(ts: seq<Token>, pos: nat, target: nat, count: nat, strings: seq<string>)
    requires pos <= |ts| + 1
    ensures strings <= Collect(ts, pos, target, count, strings).0
    decreases |ts| + 1 - pos
  {
    if count < target && Continues(ts, pos) {
      CollectStep(ts, pos, target, count, strings);
      var c := |strings|;
      if IsLiteralAt(ts, pos) && IsPunctAt(ts, pos + 1, '.') {
        CollectGrows(ts, RunEnd(ts, pos) + 1, target, c, strings + [Joined(ts, pos, RunEnd(ts, pos))]);
      } else if IsLiteralAt(ts, pos) {
        CollectGrows(ts, pos + 1, target, c, strings + [FormatString(ts[pos].text)]);
      } else if IsKindAt(ts, pos, TLNumber) {
        CollectGrows(ts, pos + 1, target, c, strings + [ts[pos].text]);
      } else {
        CollectGrows(ts, pos + 1, target, c, strings);
      }
    }
  }

  /** Because of the lagging count at most one more than the target is ever collected. */
  lemma {:induction false} CollectBound(ts: seq<Token>, pos: nat, target: nat, count: nat, strings: seq<string>)
    requires pos <= |ts| + 1
    requires |strings| <= count + 1
    ensures |Collect(ts, pos, target, count, strings).0| <= if count < target then target + 1 else |strings|
    decreases |ts| + 1 - pos
  {
    if count < target && Continues(ts, pos) {
      CollectStep(ts, pos, target, count, strings);
      var c := |strings|;
      if IsLiteralAt(ts, pos) && IsPunctAt(ts, pos + 1, '.') {
        CollectBound(ts, RunEnd(ts, pos) + 1, target, c, strings + [Joined(ts, pos, RunEnd(ts, pos))]);
      } else if IsLiteralAt(ts, pos) {
        CollectBound(ts, pos + 1, target, c, strings + [FormatString(ts[pos].text)]);
      } else if IsKindAt(ts, pos, TLNumber) {
        CollectBound(ts, pos + 1, target, c, strings + [ts[pos].text]);
      } else {
        CollectBound(ts, pos + 1, target, c, strings);
      }
    }
  }

  /** `_getStrings` returns at most one value more than it was asked for. */
  lemma StringsFromBound(ts: seq<Token>, pos: nat, target: nat)
    requires pos <= |ts| + 1
    ensures |StringsFrom(ts, pos, target).0| <= target + 1
  {
    CollectBound(ts, pos, target, 0, []);
  }

  /** A first token that is not a comma, a literal or a number stops the extraction at once. */
  lemma StopsAtOnce(ts: seq<Token>, pos: nat, target: nat)
    requires pos <= |ts| + 1
    ensures !Continues(ts, pos) || target == 0 ==> StringsFrom(ts, pos, target) == ([], pos)
  {
  }

  /**
   * A literal followed by `.` yields, as the first value, the concatenation
   * of the decoded literals of the whole run of literals and `.` tokens.
   */
  lemma FirstValue(ts: seq<Token>, pos: nat, target: nat)
    requires pos <= |ts| + 1
    requires target > 0 && IsLiteralAt(ts, pos) && IsPunctAt(ts, pos + 1, '.')
    ensures var e := RunEnd(ts, pos);
      && |StringsFrom(ts, pos, target).0| >= 1
      && StringsFrom(ts, pos, target).0[0] == Joined(ts, pos, e)
      && (forall q :: pos <= q < e ==> IsLiteralAt(ts, q) || IsPunctAt(ts, q, '.'))
      && !IsLiteralAt(ts, e) && !IsPunctAt(ts, e, '.')
  {
    var e := RunEnd(ts, pos);
    RunCoversStretch(ts, pos);
    CollectRunStep(ts, pos, target);
    CollectGrows(ts, e + 1, target, 0, [Joined(ts, pos, e)]);
  }

  lemma CollectRunStep(ts: seq<Token>, pos: nat, target: nat)
    requires pos <= |ts| + 1
    requires target > 0 && IsLiteralAt(ts, pos) && IsPunctAt(ts, pos + 1, '.')
    ensures var e := RunEnd(ts, pos);
      StringsFrom(ts, pos, target) == Collect(ts, e + 1, target, 0, [Joined(ts, pos, e)])
  {
    assert Continues(ts, pos);
    var v := Joined(ts, pos, RunEnd(ts, pos));
    assert [] + [v] == [v];
  }

  predicate IsValueAt(ts: seq<Token>, q: nat) {
    IsLiteralAt(ts, q) || IsKindAt(ts, q, TLNumber)
  }

  /** The value `_getStrings` takes from a single literal or number. */
  function ValueAt(ts: seq<Token>, q: nat): string
    requires IsValueAt(ts, q)
  {
    if IsLiteralAt(ts, q) then FormatString(ts[q].text) else ts[q].text
  }

  /** The j-th argument (from `pos`) is a single literal or number. */
  predicate ArgumentAt(ts: seq<Token>, pos: nat, j: nat) {
    IsValueAt(ts, pos + 2 * j)
  }

  /** The j-th argument (from `pos`) is followed by a comma. */
  predicate CommaAfter(ts: seq<Token>, pos: nat, j: nat) {
    IsPunctAt(ts, pos + 2 * j + 1, ',')
  }

  /** A token that neither continues the extraction nor joins a run. */
  predicate IsStopAt(ts: seq<Token>, q: nat) {
    !Continues(ts, q) && !IsPunctAt(ts, q, '.')
  }

  /**
   * Where the literal arguments end: at a token that ends the list (such as
   * the `)` of the call), or at a comma before an argument that is neither a
   * literal nor a number (such as the `$count` of `__n('one', 'many', $count)`).
   */
  predicate EndsList(ts: seq<Token>, q: nat) {
    IsStopAt(ts, q) || (IsPunctAt(ts, q, ',') && IsStopAt(ts, q + 1))
  }

  /**
   * From `pos` the tokens are k plain arguments (single literals or numbers)
   * separated by commas, up to where the list ends.
   */
  predicate PlainArguments(ts: seq<Token>, pos: nat, k: nat) {
    && (forall j :: 0 <= j < k ==> ArgumentAt(ts, pos, j))
    && (forall j :: 0 <= j < k - 1 ==> CommaAfter(ts, pos, j))
    && EndsList(ts, if k == 0 then pos else pos + 2 * k - 1)
  }

  function ArgumentValue(ts: seq<Token>, pos: nat, j: nat): string
    requires ArgumentAt(ts, pos, j)
  {
    ValueAt(ts, pos + 2 * j)
  }

  /** The values of the first k arguments. */
  function Values(ts: seq<Token>, pos: nat, k: nat): (vs: seq<string>)
    requires forall j :: 0 <= j < k ==> ArgumentAt(ts, pos, j)
    ensures |vs| == k
  {
    if k == 0 then []
    else
      assert ArgumentAt(ts, pos, k - 1);
      Values(ts, pos, k - 1) + [ArgumentValue(ts, pos, k - 1)]
  }

  /** The j-th value is the j-th argument's decoded literal or number. */
  lemma {:induction false} ValuesAreArguments(ts: seq<Token>, pos: nat, k: nat, j: nat)
    requires forall j :: 0 <= j < k ==> ArgumentAt(ts, pos, j)
    requires j < k
    ensures Values(ts, pos, k)[j] == ArgumentValue(ts, pos, j)
    decreases k
  {
    if j < k - 1 {
      ValuesAreArguments(ts, pos, k - 1, j);
    }
  }

  function Min(a: nat, b: nat): nat { if a < b then a else b }

  /** A single literal or number below the target, not followed by `.`, is appended as one value. */
  lemma SingleValueStep(ts: seq<Token>, p: nat, target: nat, count: nat, strings: seq<string>)
    requires p <= |ts| + 1
    requires count < target && IsValueAt(ts, p) && !IsPunctAt(ts, p + 1, '.')
    ensures Collect(ts, p, target, count, strings) == Collect(ts, p + 1, target, |strings|, strings + [ValueAt(ts, p)])
  {
    CollectStep(ts, p, target, count, strings);
  }

  /** Where the list ends, the loop as written takes no further value. */
  lemma CollectAtListEnd(ts: seq<Token>, q: nat, target: nat, count: nat, strings: seq<string>)
    requires q <= |ts| + 1 && EndsList(ts, q)
    ensures Collect(ts, q, target, count, strings).0 == strings
  {
    if count < target && IsPunctAt(ts, q, ',') {
      CommaStep(ts, q, target, count, strings);
    }
  }

  /** The argument at j is followed by a comma or ends the list, never by `.`. */
  lemma NoDotAfterArgument(ts: seq<Token>, pos: nat, k: nat, j: nat)
    requires PlainArguments(ts, pos, k)
    requires j < k
    ensures ArgumentAt(ts, pos, j) && !IsPunctAt(ts, pos + 2 * j + 1, '.')
  {
    assert ArgumentAt(ts, pos, j);
    if j < k - 1 {
      assert CommaAfter(ts, pos, j);
    }
  }

  /** A plain argument below the target is appended as one value. */
  lemma PlainValueStep(ts: seq<Token>, pos: nat, k: nat, target: nat, j: nat)
    requires PlainArguments(ts, pos, k)
    requires j < k && j < target
    ensures pos + 2 * j < |ts|
    ensures Collect(ts, pos + 2 * j, target, j, Values(ts, pos, k)[..j])
         == Collect(ts, pos + 2 * j + 1, target, j, Values(ts, pos, k)[..j + 1])
  {
    NoDotAfterArgument(ts, pos, k, j);
    var vs := Values(ts, pos, k);
    var p := pos + 2 * j;
    SingleValueStep(ts, p, target, j, vs[..j]);
    ValuesAreArguments(ts, pos, k, j);
    Text.TakeSnoc(vs, j, ValueAt(ts, p));
  }

  /** A comma below the target is skipped. */
  lemma CommaStep(ts: seq<Token>, q: nat, target: nat, count: nat, strings: seq<string>)
    requires q <= |ts| + 1
    requires count < target && IsPunctAt(ts, q, ',')
    ensures Collect(ts, q, target, count, strings) == Collect(ts, q + 1, target, |strings|, strings)
  {
    CollectStep(ts, q, target, count, strings);
  }

  /** A plain argument followed by a comma, below the target: one value, then the next argument. */
  lemma PlainArgumentStep(ts: seq<Token>, pos: nat, k: nat, target: nat, j: nat)
    requires PlainArguments(ts, pos, k)
    requires j < k - 1 && j < target
    ensures pos + 2 * j + 2 <= |ts|
    ensures Collect(ts, pos + 2 * j, target, j, Values(ts, pos, k)[..j])
         == Collect(ts, pos + 2 * (j + 1), target, j + 1, Values(ts, pos, k)[..j + 1])
  {
    PlainValueStep(ts, pos, k, target, j);
    assert CommaAfter(ts, pos, j);
    CommaStep(ts, pos + 2 * j + 1, target, j, Values(ts, pos, k)[..j + 1]);
  }

  /** The last plain argument, or the target reached: extraction ends with the values so far. */
  lemma PlainArgumentsEnd(ts: seq<Token>, pos: nat, k: nat, target: nat, j: nat)
    requires PlainArguments(ts, pos, k)
    requires j < k && j <= target
    requires j == k - 1 || j == target
    ensures pos + 2 * j <= |ts|
    ensures Collect(ts, pos + 2 * j, target, j, Values(ts, pos, k)[..j]).0 == Values(ts, pos, k)[..Min(k, target)]
  {
    assert ArgumentAt(ts, pos, j);
    var vs := Values(ts, pos, k);
    if j < target {
      PlainValueStep(ts, pos, k, target, j);
      assert vs[..j + 1] == vs[..Min(k, target)];
      CollectAtListEnd(ts, pos + 2 * j + 1, target, j, vs[..j + 1]);
    }
  }

  lemma {:induction false} CollectPlain(ts: seq<Token>, pos: nat, k: nat, target: nat, j: nat)
    requires PlainArguments(ts, pos, k)
    requires j < k && j <= target
    ensures pos + 2 * j <= |ts|
    ensures Collect(ts, pos + 2 * j, target, j, Values(ts, pos, k)[..j]).0 == Values(ts, pos, k)[..Min(k, target)]
    decreases k - j
  {
    if j < k - 1 && j < target {
      var vs := Values(ts, pos, k);
      PlainArgumentStep(ts, pos, k, target, j);
      CollectPlain(ts, pos, k, target, j + 1);
      var here := Collect(ts, pos + 2 * j, target, j, vs[..j]);
      var there := Collect(ts, pos + 2 * (j + 1), target, j + 1, vs[..j + 1]);
      assert here == there;
      assert there.0 == vs[..Min(k, target)];
    } else {
      PlainArgumentsEnd(ts, pos, k, target, j);
    }
  }

  /**
   * For k comma-separated plain arguments, `_getStrings` returns the first
   * `min(k, target)` of their values, in order.
   */
  lemma PlainArgumentsExtracted(ts: seq<Token>, pos: nat, k: nat, target: nat)
    requires pos <= |ts| + 1
    requires PlainArguments(ts, pos, k)
    ensures StringsFrom(ts, pos, target).0 == Values(ts, pos, k)[..Min(k, target)]
  {
    if k > 0 && target > 0 {
      CollectPlain(ts, pos, k, target, 0);
    } else if k == 0 {
      CollectAtListEnd(ts, pos, target, 0, []);
    }
  }

  /*
   * Runs followed by further arguments. After a run the outer loop skips the
   * token that ended the run; when that token is the comma before the next
   * argument, no comma is left to absorb the lag of `count`, and the loop
   * takes one value more than its target.
   */

  /** The tokens of `__(a . b, c);` for literals a, b and c (the call starts at index 0). */
  function RunThenArgument(a: string, b: string, c: string): seq<Token> {
    [ Lexeme(TString, "__", 1), Punct('('),
      Lexeme(TConstantEncapsedString, a, 1), Punct('.'), Lexeme(TConstantEncapsedString, b, 1),
      Punct(','), Lexeme(TConstantEncapsedString, c, 1), Punct(')'), Punct(';') ]
  }

  /** The run of `__(a . b, c)` covers the two literals and the `.` between them. */
  lemma RunThenArgumentRun(a: string, b: string, c: string)
    ensures RunEnd(RunThenArgument(a, b, c), 2) == 5
  {
    var ts := RunThenArgument(a, b, c);
    RunEndStep(ts, 5);
    RunEndStep(ts, 4);
    RunEndStep(ts, 3);
    RunEndStep(ts, 2);
  }

  /**
   * As written, a run that ends at a comma followed by a single value
   * overshoots a target of one: the comma is skipped and the value is taken too.
   */
  lemma RunThenValueOvershoots(ts: seq<Token>, pos: nat, e: nat)
    requires e + 2 <= |ts|
    requires IsLiteralAt(ts, pos) && IsPunctAt(ts, pos + 1, '.') && RunEnd(ts, pos) == e
    requires IsValueAt(ts, e + 1) && !IsPunctAt(ts, e + 2, '.')
    ensures |StringsFrom(ts, pos, 1).0| == 2
  {
    var v := Joined(ts, pos, e);
    CollectRunStep(ts, pos, 1);
    SingleValueStep(ts, e + 1, 1, 0, [v]);
    var w := [v] + [ValueAt(ts, e + 1)];
    assert Collect(ts, e + 2, 1, 1, w) == (w, e + 2);
  }

  /** As written, `_getStrings(2, 1)` on `__(a . b, c)` returns two values, where one was asked for. */
  lemma RunThenArgumentOvershoots(a: string, b: string, c: string)
    ensures |StringsFrom(RunThenArgument(a, b, c), 2, 1).0| == 2
  {
    var ts := RunThenArgument(a, b, c);
    RunThenArgumentRun(a, b, c);
    assert IsValueAt(ts, 6) && !IsPunctAt(ts, 7, '.');
    RunThenValueOvershoots(ts, 2, 5);
  }

  /*
   * The same skip after a run that the call's own `)` ends: the `)` is
   * passed over, and the loop goes on to read the arguments of the
   * enclosing call.
   */

  /**
   * The tokens of `__n(a . b), c, 3);` for literals a, b and c, as inside
   * `sprintf(__n(a . b), c, 3)` (the `__n` call starts at index 0).
   */
  function RunThenClose(a: string, b: string, c: string): seq<Token> {
    [ Lexeme(TString, "__n", 1), Punct('('),
      Lexeme(TConstantEncapsedString, a, 1), Punct('.'), Lexeme(TConstantEncapsedString, b, 1), Punct(')'),
      Punct(','), Lexeme(TConstantEncapsedString, c, 1), Punct(','), Lexeme(TLNumber, "3", 1), Punct(')'), Punct(';') ]
  }

  /** The run of `__n(a . b)` covers the two literals and the `.` between them. */
  lemma RunThenCloseRun(a: string, b: string, c: string)
    ensures RunEnd(RunThenClose(a, b, c), 2) == 5
  {
    var ts := RunThenClose(a, b, c);
    RunEndStep(ts, 5);
    RunEndStep(ts, 4);
    RunEndStep(ts, 3);
    RunEndStep(ts, 2);
  }

  /**
   * As written, a run followed by a skipped token, a comma, a single value
   * and another comma fills a target of two with the run and that value.
   */
  lemma RunSkipValueFills(ts: seq<Token>, pos: nat, e: nat)
    requires e + 4 <= |ts|
    requires IsLiteralAt(ts, pos) && IsPunctAt(ts, pos + 1, '.') && RunEnd(ts, pos) == e
    requires IsPunctAt(ts, e + 1, ',') && IsValueAt(ts, e + 2) && IsPunctAt(ts, e + 3, ',')
    ensures StringsFrom(ts, pos, 2) == ([Joined(ts, pos, e), ValueAt(ts, e + 2)], e + 4)
  {
    var v := Joined(ts, pos, e);
    var w := [v, ValueAt(ts, e + 2)];
    CollectRunStep(ts, pos, 2);
    CommaStep(ts, e + 1, 2, 0, [v]);
    SingleValueStep(ts, e + 2, 2, 1, [v]);
    assert [v] + [ValueAt(ts, e + 2)] == w;
    CommaStep(ts, e + 3, 2, 1, w);
  }

  /** The tokens of `__n(a . b), c, 3)`: a run that `)` ends, then a comma, c and a comma. */
  lemma RunThenCloseShape(a: string, b: string, c: string)
    ensures var ts := RunThenClose(a, b, c);
      && 9 <= |ts| && IsLiteralAt(ts, 2) && IsPunctAt(ts, 3, '.') && RunEnd(ts, 2) == 5
      && IsPunctAt(ts, 6, ',') && IsValueAt(ts, 7) && IsPunctAt(ts, 8, ',') && ValueAt(ts, 7) == FormatString(c)
  {
    RunThenCloseRun(a, b, c);
  }

  /**
   * As written, `_getStrings(2, 2)` on `__n(a . b), c, 3)` skips the `)`
   * that closes the call and takes c, an argument of the enclosing call,
   * as the second value.
   */
  lemma RunThenCloseReadsPastCall(a: string, b: string, c: string)
    ensures var ts := RunThenClose(a, b, c);
      StringsFrom(ts, 2, 2) == ([Joined(ts, 2, 5), FormatString(c)], 9)
  {
    var ts := RunThenClose(a, b, c);
    RunThenCloseShape(a, b, c);
    RunSkipValueFills(ts, 2, 5);
  }

  /** The intended loop takes a run that a stop token ends as one value and stops at that token. */
  lemma RunThenStopIntended(ts: seq<Token>, pos: nat, e: nat, target: nat)
    requires pos <= |ts| && 0 < target
    requires IsLiteralAt(ts, pos) && IsPunctAt(ts, pos + 1, '.') && RunEnd(ts, pos) == e && IsStopAt(ts, e)
    ensures StringsIntended(ts, pos, target) == ([Joined(ts, pos, e)], e)
  {
    var v := Joined(ts, pos, e);
    assert IsRunAt(ts, pos) && ArgumentEnd(ts, pos) == e && ArgumentText(ts, pos) == v;
    IntendedArgumentStep(ts, pos, target, []);
    assert [] + [v] == [v];
    IntendedStops(ts, e, target, [v]);
  }

  /** The intended loop stops at the `)` of `__n(a . b)` with the one joined value. */
  lemma RunThenCloseIntended(a: string, b: string, c: string)
    ensures var ts := RunThenClose(a, b, c);
      StringsIntended(ts, 2, 2) == ([Joined(ts, 2, 5)], 5)
  {
    var ts := RunThenClose(a, b, c);
    RunThenCloseRun(a, b, c);
    assert IsStopAt(ts, 5);
    RunThenStopIntended(ts, 2, 5, 2);
  }

  /** A literal followed by `.` starts a run. */
  predicate IsRunAt(ts: seq<Token>, pos: nat) {
    IsLiteralAt(ts, pos) && IsPunctAt(ts, pos + 1, '.')
  }

  /** Where the argument starting at `pos` ends: at the end of its run, or after its single token. */
  function ArgumentEnd(ts: seq<Token>, pos: nat): (e: nat)
    requires IsValueAt(ts, pos)
    ensures pos < e <= |ts|
  {
    if IsRunAt(ts, pos) then RunEnd(ts, pos) else pos + 1
  }

  /** The value of the argument starting at `pos`: its run joined, or its single value. */
  function ArgumentText(ts: seq<Token>, pos: nat): string
    requires IsValueAt(ts, pos)
  {
    if IsRunAt(ts, pos) then Joined(ts, pos, RunEnd(ts, pos)) else ValueAt(ts, pos)
  }

  /**
   * From `pos` the tokens are k arguments, each a single literal or number
   * or a `.`-joined run of literals, separated by commas, up to where the
   * list ends.
   */
  predicate ArgumentList(ts: seq<Token>, pos: nat, k: nat)
    decreases k
  {
    if k == 0 then EndsList(ts, pos)
    else
      && IsValueAt(ts, pos)
      && if k == 1 then EndsList(ts, ArgumentEnd(ts, pos))
         else IsPunctAt(ts, ArgumentEnd(ts, pos), ',') && ArgumentList(ts, ArgumentEnd(ts, pos) + 1, k - 1)
  }

  /** The values of the k arguments of an argument list, in order. */
  function ArgumentTexts(ts: seq<Token>, pos: nat, k: nat): (vs: seq<string>)
    requires ArgumentList(ts, pos, k)
    ensures |vs| == k
    decreases k
  {
    if k == 0 then []
    else if k == 1 then [ArgumentText(ts, pos)]
    else [ArgumentText(ts, pos)] + ArgumentTexts(ts, ArgumentEnd(ts, pos) + 1, k - 1)
  }

  /**
   * The evidently intended outer loop: it stops as soon as `target` values
   * are taken, and after a run it resumes at the token that ended the run.
   */
  function CollectIntended(ts: seq<Token>, pos: nat, target: nat, strings: seq<string>): (r: (seq<string>, nat))
    requires pos <= |ts| + 1
    decreases |ts| + 1 - pos
  {
    if |strings| < target && Continues(ts, pos) then
      if IsValueAt(ts, pos) then
        CollectIntended(ts, ArgumentEnd(ts, pos), target, strings + [ArgumentText(ts, pos)])
      else
        CollectIntended(ts, pos + 1, target, strings)
    else (strings, pos)
  }

  /** The intended `_getStrings($position, $target)`. */
  function StringsIntended(ts: seq<Token>, pos: nat, target: nat): (seq<string>, nat)
    requires pos <= |ts| + 1
  {
    CollectIntended(ts, pos, target, [])
  }

  /** One argument taken by the intended loop: its value is appended and the loop goes on at its end. */
  lemma IntendedArgumentStep(ts: seq<Token>, pos: nat, target: nat, strings: seq<string>)
    requires pos <= |ts| + 1
    requires |strings| < target && IsValueAt(ts, pos)
    ensures CollectIntended(ts, pos, target, strings)
      == CollectIntended(ts, ArgumentEnd(ts, pos), target, strings + [ArgumentText(ts, pos)])
  {
  }

  /** The intended loop stops when the target is reached or at a token that ends the list. */
  lemma IntendedStops(ts: seq<Token>, pos: nat, target: nat, strings: seq<string>)
    requires pos <= |ts| + 1
    requires |strings| >= target || IsStopAt(ts, pos)
    ensures CollectIntended(ts, pos, target, strings) == (strings, pos)
  {
  }

  /** The intended loop passes over a comma without taking a value. */
  lemma IntendedCommaStep(ts: seq<Token>, q: nat, target: nat, strings: seq<string>)
    requires q <= |ts| + 1
    requires |strings| < target && IsPunctAt(ts, q, ',')
    ensures CollectIntended(ts, q, target, strings) == CollectIntended(ts, q + 1, target, strings)
  {
  }

  /** Where the list ends, the intended loop takes no further value. */
  lemma IntendedAtListEnd(ts: seq<Token>, q: nat, target: nat, strings: seq<string>)
    requires q <= |ts| + 1 && EndsList(ts, q)
    ensures CollectIntended(ts, q, target, strings).0 == strings
  {
    if |strings| < target && IsPunctAt(ts, q, ',') {
      IntendedCommaStep(ts, q, target, strings);
      IntendedStops(ts, q + 1, target, strings);
    } else {
      IntendedStops(ts, q, target, strings);
    }
  }

  /** Taking one value, then up to n - 1 of the other k - 1, takes up to n of all k. */
  lemma TakeAfterFirst(strings: seq<string>, v: string, rest: seq<string>, k: nat, target: nat)
    requires |rest| == k - 1 && |strings| + 1 < target
    ensures strings + [v] + rest[..Min(k - 1, target - |strings + [v]|)]
      == strings + ([v] + rest)[..Min(k, target - |strings|)]
  {
    var m := Min(k - 1, target - |strings + [v]|);
    assert Min(k, target - |strings|) == m + 1;
    Text.TakeCons(v, rest, m);
    Text.AppendAssoc(strings, [v], rest[..m]);
  }

  /** The first argument of a non-empty list, and what follows it. */
  lemma ArgumentListHead(ts: seq<Token>, pos: nat, k: nat)
    requires ArgumentList(ts, pos, k) && k > 0
    ensures IsValueAt(ts, pos)
    ensures k == 1 ==> EndsList(ts, ArgumentEnd(ts, pos)) && ArgumentTexts(ts, pos, k) == [ArgumentText(ts, pos)]
    ensures k > 1 ==> IsPunctAt(ts, ArgumentEnd(ts, pos), ',') && ArgumentList(ts, ArgumentEnd(ts, pos) + 1, k - 1)
    ensures k > 1 ==> ArgumentTexts(ts, pos, k) == [ArgumentText(ts, pos)] + ArgumentTexts(ts, ArgumentEnd(ts, pos) + 1, k - 1)
  {
  }

  /** What the intended loop appends from `pos` when k arguments remain there. */
  predicate IntendedTakes(ts: seq<Token>, pos: nat, k: nat, target: nat, strings: seq<string>)
    requires pos <= |ts| + 1 && ArgumentList(ts, pos, k) && |strings| <= target
  {
    CollectIntended(ts, pos, target, strings).0 == strings + ArgumentTexts(ts, pos, k)[..Min(k, target - |strings|)]
  }

  /** With room for at most one value, or at most one argument, the loop takes what fits and stops. */
  lemma IntendedTakesFew(ts: seq<Token>, pos: nat, k: nat, target: nat, strings: seq<string>)
    requires pos <= |ts| + 1 && ArgumentList(ts, pos, k) && |strings| <= target
    requires k <= 1 || |strings| + 1 >= target
    ensures IntendedTakes(ts, pos, k, target, strings)
  {
    if |strings| == target {
      IntendedStops(ts, pos, target, strings);
      assert Min(k, target - |strings|) == 0;
    } else if k == 0 {
      IntendedAtListEnd(ts, pos, target, strings);
      assert Min(k, target - |strings|) == 0;
    } else {
      ArgumentListHead(ts, pos, k);
      var v := ArgumentText(ts, pos);
      IntendedArgumentStep(ts, pos, target, strings);
      if k == 1 {
        IntendedAtListEnd(ts, ArgumentEnd(ts, pos), target, strings + [v]);
      } else {
        IntendedStops(ts, ArgumentEnd(ts, pos), target, strings + [v]);
      }
      assert Min(k, target - |strings|) == 1;
    }
  }

  /** Past the first of several arguments, the intended loop goes on after the comma that follows it. */
  lemma IntendedSkipsFirst(ts: seq<Token>, pos: nat, k: nat, target: nat, strings: seq<string>)
    requires pos <= |ts| + 1 && ArgumentList(ts, pos, k) && |strings| + 1 < target && k > 1
    ensures ArgumentEnd(ts, pos) < |ts|
    ensures CollectIntended(ts, pos, target, strings)
      == CollectIntended(ts, ArgumentEnd(ts, pos) + 1, target, strings + [ArgumentText(ts, pos)])
  {
    ArgumentListHead(ts, pos, k);
    IntendedArgumentStep(ts, pos, target, strings);
    IntendedCommaStep(ts, ArgumentEnd(ts, pos), target, strings + [ArgumentText(ts, pos)]);
  }

  /**
   * Otherwise the first value is appended and the rest follows the comma after it:
   * `next` is where the remaining k - 1 arguments start, `more` what has been taken by then.
   */
  lemma IntendedTakesNext(ts: seq<Token>, pos: nat, k: nat, target: nat, strings: seq<string>)
      returns (next: nat, more: seq<string>)
    requires pos <= |ts| + 1 && ArgumentList(ts, pos, k) && |strings| + 1 < target && k > 1
    ensures next <= |ts| + 1 && ArgumentList(ts, next, k - 1) && |more| <= target
    ensures IntendedTakes(ts, next, k - 1, target, more) ==> IntendedTakes(ts, pos, k, target, strings)
  {
    ArgumentListHead(ts, pos, k);
    var v := ArgumentText(ts, pos);
    next := ArgumentEnd(ts, pos) + 1;
    more := strings + [v];
    var rest := ArgumentTexts(ts, next, k - 1);
    IntendedSkipsFirst(ts, pos, k, target, strings);
    if IntendedTakes(ts, next, k - 1, target, more) {
      var m := Min(k - 1, target - |more|);
      assert CollectIntended(ts, pos, target, strings).0 == more + rest[..m];
      TakeAfterFirst(strings, v, rest, k, target);
      assert ArgumentTexts(ts, pos, k) == [v] + rest;
    }
  }

  /** From any point of an argument list, the intended loop appends the next min(k, room) values. */
  lemma {:induction false} CollectIntendedArguments(ts: seq<Token>, pos: nat, k: nat, target: nat, strings: seq<string>)
    requires pos <= |ts| + 1
    requires ArgumentList(ts, pos, k) && |strings| <= target
    ensures IntendedTakes(ts, pos, k, target, strings)
    decreases k
  {
    if k > 1 && |strings| + 1 < target {
      var next, more := IntendedTakesNext(ts, pos, k, target, strings);
      CollectIntendedArguments(ts, next, k - 1, target, more);
    } else {
      IntendedTakesFew(ts, pos, k, target, strings);
    }
  }

  /**
   * With the intended loop, k comma-separated arguments, runs included,
   * give exactly the first min(k, target) argument values.
   */
  lemma ArgumentsExtractedIntended(ts: seq<Token>, pos: nat, k: nat, target: nat)
    requires pos <= |ts| + 1
    requires ArgumentList(ts, pos, k)
    ensures StringsIntended(ts, pos, target).0 == ArgumentTexts(ts, pos, k)[..Min(k, target)]
  {
    CollectIntendedArguments(ts, pos, k, target, []);
  }

  /** Past the first of several plain arguments and its comma, the rest are plain arguments. */
  lemma PlainArgumentsRest(ts: seq<Token>, pos: nat, k: nat, next: nat)
    requires PlainArguments(ts, pos, k) && k > 1 && next == pos + 2
    ensures PlainArguments(ts, next, k - 1)
  {
    forall j | 0 <= j < k - 1 ensures ArgumentAt(ts, next, j) {
      assert ArgumentAt(ts, pos, j + 1);
    }
    forall j | 0 <= j < k - 2 ensures CommaAfter(ts, next, j) {
      assert CommaAfter(ts, pos, j + 1);
    }
  }

  /** The values of several plain arguments: the first one's, then the rest's. */
  lemma PlainValuesRest(ts: seq<Token>, pos: nat, k: nat, next: nat)
    requires PlainArguments(ts, pos, k) && k > 1 && next == pos + 2
    ensures PlainArguments(ts, next, k - 1) && ArgumentAt(ts, pos, 0)
    ensures Values(ts, pos, k) == [ValueAt(ts, pos)] + Values(ts, next, k - 1)
  {
    PlainArgumentsRest(ts, pos, k, next);
    assert ArgumentAt(ts, pos, 0);
    var vs := Values(ts, pos, k);
    var rest := Values(ts, next, k - 1);
    forall j | 0 <= j < k ensures vs[j] == ([ValueAt(ts, pos)] + rest)[j] {
      ValuesAreArguments(ts, pos, k, j);
      if j > 0 {
        ValuesAreArguments(ts, next, k - 1, j - 1);
      }
    }
  }

  /** k comma-separated plain arguments form an argument list whose values are theirs. */
  lemma {:induction false} PlainArgumentsAreList(ts: seq<Token>, pos: nat, k: nat)
    requires PlainArguments(ts, pos, k)
    ensures ArgumentList(ts, pos, k) && ArgumentTexts(ts, pos, k) == Values(ts, pos, k)
    decreases k
  {
    if k == 1 {
      assert ArgumentAt(ts, pos, 0) && EndsList(ts, pos + 1);
      assert ArgumentEnd(ts, pos) == pos + 1;
      ValuesAreArguments(ts, pos, k, 0);
      assert ArgumentTexts(ts, pos, k) == [ValueAt(ts, pos)];
    } else if k > 1 {
      assert ArgumentAt(ts, pos, 0) && CommaAfter(ts, pos, 0);
      assert ArgumentEnd(ts, pos) == pos + 1;
      var next := pos + 2;
      PlainValuesRest(ts, pos, k, next);
      PlainArgumentsAreList(ts, next, k - 1);
      assert ArgumentList(ts, pos, k);
      assert ArgumentTexts(ts, pos, k) == [ValueAt(ts, pos)] + ArgumentTexts(ts, next, k - 1);
    }
  }

  /**
   * On plain argument lists the loop as written and the intended loop
   * agree: single literals or numbers, none followed by `.`, give the same
   * values under both.
   */
  lemma CorrectionAgreesWithoutRuns(ts: seq<Token>, pos: nat, k: nat, target: nat)
    requires pos <= |ts| + 1
    requires PlainArguments(ts, pos, k)
    ensures StringsFrom(ts, pos, target).0 == StringsIntended(ts, pos, target).0
  {
    PlainArgumentsExtracted(ts, pos, k, target);
    PlainArgumentsAreList(ts, pos, k);
    ArgumentsExtractedIntended(ts, pos, k, target);
  }

  /** The tokens of `__n(a, b, $count);` for literals a and b: two literals, then a variable. */
  function PluralWithCount(a: string, b: string): seq<Token> {
    [ Lexeme(TString, "__n", 1), Punct('('),
      Lexeme(TConstantEncapsedString, a, 1), Punct(','), Lexeme(TConstantEncapsedString, b, 1),
      Punct(','), Lexeme(Other("T_VARIABLE"), "$count", 1), Punct(')'), Punct(';') ]
  }

  /**
   * In `__n(a, b, $count)` the literal arguments end at the comma before
   * `$count`; both loops take exactly the two decoded literals.
   */
  lemma PluralWithCountExtracted(a: string, b: string)
    ensures PlainArguments(PluralWithCount(a, b), 2, 2)
    ensures StringsFrom(PluralWithCount(a, b), 2, 2).0 == [FormatString(a), FormatString(b)]
    ensures StringsIntended(PluralWithCount(a, b), 2, 2).0 == [FormatString(a), FormatString(b)]
  {
    var ts := PluralWithCount(a, b);
    assert ArgumentAt(ts, 2, 0) && ArgumentAt(ts, 2, 1) && CommaAfter(ts, 2, 0);
    assert IsPunctAt(ts, 5, ',') && IsStopAt(ts, 6);
    assert PlainArguments(ts, 2, 2);
    ValuesAreArguments(ts, 2, 2, 0);
    ValuesAreArguments(ts, 2, 2, 1);
    assert Values(ts, 2, 2) == [FormatString(a), FormatString(b)];
    PlainArgumentsExtracted(ts, 2, 2, 2);
    CorrectionAgreesWithoutRuns(ts, 2, 2, 2);
  }

  /** The intended loop takes the one value `__(a . b, c)` asks for: the joined run. */
  lemma RunThenArgumentIntended(a: string, b: string, c: string)
    ensures StringsIntended(RunThenArgument(a, b, c), 2, 1).0 == [Joined(RunThenArgument(a, b, c), 2, 5)]
  {
    var ts := RunThenArgument(a, b, c);
    RunThenArgumentRun(a, b, c);
    assert ArgumentEnd(ts, 6) == 7;
    assert ArgumentList(ts, 6, 1);
    assert ArgumentList(ts, 2, 2);
    ArgumentsExtractedIntended(ts, 2, 2, 1);
  }
}
