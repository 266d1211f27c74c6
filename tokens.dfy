/**
 * The token stream the extractor scans (what `token_get_all` returns) and the
 * table of translation markers.
 */
module Tokens {

  /** The token kinds the extractor distinguishes; every other kind is `Other`. */
  datatype Kind =
    | TString                    // T_STRING: an identifier such as a function name
    | TConstantEncapsedString    // T_CONSTANT_ENCAPSED_STRING: a quoted literal without interpolation
    | TLNumber                   // T_LNUMBER: an integer literal
    | TWhitespace                // T_WHITESPACE
    | TInlineHtml                // T_INLINE_HTML
    | Other(name: string)

  /**
   * A single-character token is a bare string in PHP (`Punct`); every other
   * token is a (kind, text, line) triple.
   */
  datatype Token = Punct(ch: char) | Lexeme(kind: Kind, text: string, line: nat)

  function TokenText(t: Token): string {
    match t
    case Punct(c) => [c]
    case Lexeme(_, s, _) => s
  }

  /** Reading past the end of the tokens yields PHP's `null`, which matches nothing. */
  predicate IsPunctAt(ts: seq<Token>, i: nat, c: char) {
    i < |ts| && ts[i] == Punct(c)
  }

  predicate IsKindAt(ts: seq<Token>, i: nat, k: Kind) {
    i < |ts| && ts[i].Lexeme? && ts[i].kind == k
  }

  predicate IsLiteralAt(ts: seq<Token>, i: nat) {
    IsKindAt(ts, i, TConstantEncapsedString)
  }

  /** Whether the filter in `_extractTokens` keeps a token. */
  predicate Kept(t: Token) {
    t.Punct? || (t.kind != TWhitespace && t.kind != TInlineHtml)
  }

  /** The tokens with whitespace and inline HTML removed, in order. */
  function Significant(all: seq<Token>): (r: seq<Token>)
    ensures |r| <= |all|
    ensures forall t :: t in r <==> t in all && Kept(t)
  {
    if all == [] then []
    else
      var prefix := Significant(all[..|all| - 1]);
      var last := all[|all| - 1];
      assert all == all[..|all| - 1] + [last];
      if Kept(last) then prefix + [last] else prefix
  }

  /**
   * The filter works token by token and keeps the order: filtering a
   * concatenation filters each part, and a single token is kept exactly
   * when the filter keeps it. Together these fix the result entirely.
   */
  lemma {:induction false} SignificantAppend(a: seq<Token>, b: seq<Token>)
    ensures Significant(a + b) == Significant(a) + Significant(b)
    decreases |b|
  {
    if b != [] {
      var init := b[..|b| - 1];
      var last := b[|b| - 1];
      assert (a + b)[..|a + b| - 1] == a + init;
      assert (a + b)[|a + b| - 1] == last;
      SignificantAppend(a, init);
    } else {
      assert a + b == a;
    }
  }

  lemma SignificantOne(t: Token)
    ensures Significant([t]) == if Kept(t) then [t] else []
  {
    assert [t][..0] == [];
  }

  /** The role a marker argument plays. */
  datatype Role = Domain | Context | Singular | Plural

  datatype Marker = Marker(name: string, roles: seq<Role>)

  /** The eight translation functions and the roles of their arguments, in order. */
  const Markers: seq<Marker> := [
    Marker("__", [Singular]),
    Marker("__n", [Singular, Plural]),
    Marker("__d", [Domain, Singular]),
    Marker("__dn", [Domain, Singular, Plural]),
    Marker("__x", [Context, Singular]),
    Marker("__xn", [Context, Singular, Plural]),
    Marker("__dx", [Domain, Context, Singular]),
    Marker("__dxn", [Domain, Context, Singular, Plural])
  ]

  predicate DistinctRoles(roles: seq<Role>) {
    forall i, j :: 0 <= i < j < |roles| ==> roles[i] != roles[j]
  }

  /** Every marker names a singular message and uses each role at most once. */
  lemma MarkerTableWellFormed()
    ensures |Markers| == 8
    ensures forall m :: m in Markers ==> 1 <= |m.roles| <= 4 && Singular in m.roles && DistinctRoles(m.roles)
  {
  }
}
