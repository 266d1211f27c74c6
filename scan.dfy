/**
 * What one pass of `_parse` over the tokens does for one marker: which
 * indices are call sites, what each call site hands to the translation
 * aggregator, and what a malformed one reports through `_markerError`.
 */
module Scan {
  import opened Wrappers
  import opened Text
  import opened Tokens
  import opened Arguments
  import opened Escapes

  /**
   * The command's settings the scan reads: the `--marker-error` and
   * `--relative-paths` flags and the ROOT and CAKE_CORE_INCLUDE_PATH constants.
   */
  datatype Config = Config(markerErrors: bool, relativePaths: bool, root: string, coreIncludePath: string)

  /** The `$details` array handed to `_addTranslation`; `msgid_plural`/`msgctxt` absent is `None`. */
  datatype CallDetails = CallDetails(file: string, line: nat, plural: Option<string>, context: Option<string>)

  /** One call of the aggregator `_addTranslation($domain, $singular, $details)`. */
  datatype TranslationCall = TranslationCall(domain: string, singular: string, details: CallDetails)

  /** One `$io->err($text, $newlines)` call. */
  datatype Write = Write(text: string, newlines: nat)

  /**
   * The value `extract(array_combine($roles, $values))` binds to a role: the
   * last value given that role, if any.
   */
  function Bound(roles: seq<Role>, values: seq<string>, role: Role): Option<string>
    requires |roles| == |values|
  {
    if roles == [] then None
    else if roles[|roles| - 1] == role then Some(values[|values| - 1])
    else Bound(roles[..|roles| - 1], values[..|values| - 1], role)
  }

  /** With distinct roles, each value is bound to the role at its position and absent roles stay unbound. */
  lemma {:induction false} BoundByPosition(roles: seq<Role>, values: seq<string>)
    requires |roles| == |values| && DistinctRoles(roles)
    ensures forall j :: 0 <= j < |roles| ==> Bound(roles, values, roles[j]) == Some(values[j])
    ensures forall role :: role !in roles ==> Bound(roles, values, role) == None
  {
    if roles != [] {
      var n := |roles| - 1;
      BoundByPosition(roles[..n], values[..n]);
      forall j | 0 <= j < n ensures Bound(roles, values, roles[j]) == Some(values[j]) {
        assert roles[..n][j] == roles[j];
      }
      forall role | role !in roles ensures Bound(roles, values, role) == None {
        assert role !in roles[..n];
      }
    }
  }

  /**
   * Every marker of the table names each role at most once, so a call to
   * any of them binds each of its roles to the value at that role's position.
   */
  lemma MarkerBindsByPosition(marker: Marker, values: seq<string>)
    requires marker in Markers && |values| == |marker.roles|
    ensures forall j :: 0 <= j < |marker.roles| ==> Bound(marker.roles, values, marker.roles[j]) == Some(values[j])
    ensures Bound(marker.roles, values, Singular).Some?
  {
    MarkerTableWellFormed();
    BoundByPosition(marker.roles, values);
    var j :| 0 <= j < |marker.roles| && marker.roles[j] == Singular;
  }

  /** The file recorded in a reference: with relative paths, `'.'` and the path with ROOT removed. */
  function ReferenceFile(file: string, cfg: Config): string {
    if cfg.relativePaths then "." + StrReplace(file, cfg.root, "") else file
  }

  /** The aggregator call for a well-formed call site: defaults `''` and `'default'`. */
  function Bind(roles: seq<Role>, values: seq<string>, file: string, line: nat, cfg: Config): TranslationCall
    requires |roles| == |values|
  {
    TranslationCall(
      Bound(roles, values, Domain).GetOr("default"),
      Bound(roles, values, Singular).GetOr(""),
      CallDetails(ReferenceFile(file, cfg), line, Bound(roles, values, Plural), Bound(roles, values, Context)))
  }

  /** What a recorded call holds, role by role. */
  lemma BindRoles(roles: seq<Role>, values: seq<string>, file: string, line: nat, cfg: Config)
    requires |roles| == |values| && DistinctRoles(roles)
    ensures var call := Bind(roles, values, file, line, cfg);
      && (forall j :: 0 <= j < |roles| && roles[j] == Domain ==> call.domain == values[j])
      && (forall j :: 0 <= j < |roles| && roles[j] == Singular ==> call.singular == values[j])
      && (forall j :: 0 <= j < |roles| && roles[j] == Plural ==> call.details.plural == Some(values[j]))
      && (forall j :: 0 <= j < |roles| && roles[j] == Context ==> call.details.context == Some(values[j]))
      && (Domain !in roles ==> call.domain == "default")
      && (Singular !in roles ==> call.singular == "")
      && (Plural !in roles ==> call.details.plural == None)
      && (Context !in roles ==> call.details.context == None)
      && call.details.line == line
      && call.details.file == (if cfg.relativePaths then "." + StrReplace(file, cfg.root, "") else file)
  {
    BoundByPosition(roles, values);
  }

  /** Index i starts a call: the marker's name as an identifier, then exactly `(`. */
  predicate IsCallSite(ts: seq<Token>, i: nat, name: string) {
    && i + 1 < |ts|
    && ts[i].Lexeme? && ts[i].kind == TString && ts[i].text == name
    && ts[i + 1] == Punct('(')
  }

  datatype Outcome = Recorded(call: TranslationCall) | Malformed

  /** A call site, the line of its identifier, and what became of it. */
  datatype Site = Site(index: nat, line: nat, outcome: Outcome)

  /**
   * The site at call index i whose arguments gave `values`: recorded when
   * there are exactly as many values as roles, malformed otherwise.
   */
  function SiteWith(ts: seq<Token>, i: nat, marker: Marker, file: string, cfg: Config, values: seq<string>): Site
    requires IsCallSite(ts, i, marker.name)
  {
    var line := ts[i].line;
    if |values| == |marker.roles| then Site(i, line, Recorded(Bind(marker.roles, values, file, line, cfg)))
    else Site(i, line, Malformed)
  }

  /** What `_parse` makes of the call at i: arguments read from i + 2, just after the `(`, by `_getStrings`. */
  function SiteAt(ts: seq<Token>, i: nat, marker: Marker, file: string, cfg: Config): Site
    requires IsCallSite(ts, i, marker.name)
  {
    SiteWith(ts, i, marker, file, cfg, StringsFrom(ts, i + 2, |marker.roles|).0)
  }

  /** The same with the intended `_getStrings`, which stops at the token that ends a run. */
  function SiteAtIntended(ts: seq<Token>, i: nat, marker: Marker, file: string, cfg: Config): Site
    requires IsCallSite(ts, i, marker.name)
  {
    SiteWith(ts, i, marker, file, cfg, StringsIntended(ts, i + 2, |marker.roles|).0)
  }

  /** The call sites at indices below k, in increasing order. */
  function Sites(ts: seq<Token>, marker: Marker, file: string, cfg: Config, k: nat): seq<Site>
  {
    if k == 0 then []
    else Sites(ts, marker, file, cfg, k - 1)
         + (if IsCallSite(ts, k - 1, marker.name) then [SiteAt(ts, k - 1, marker, file, cfg)] else [])
  }

  /** Sites lie below k, at call sites, in strictly increasing order of index. */
  predicate InOrder(s: seq<Site>, ts: seq<Token>, name: string, k: nat) {
    && (forall a, b :: 0 <= a < b < |s| ==> s[a].index < s[b].index)
    && (forall a :: 0 <= a < |s| ==> s[a].index < k && IsCallSite(ts, s[a].index, name))
  }

  /** Each site is at a call site and holds the outcome `SiteAt` gives its index. */
  predicate HoldOutcomes(s: seq<Site>, ts: seq<Token>, marker: Marker, file: string, cfg: Config) {
    forall a :: 0 <= a < |s| ==>
      IsCallSite(ts, s[a].index, marker.name) && s[a] == SiteAt(ts, s[a].index, marker, file, cfg)
  }

  /** Every call site below k has a site. */
  predicate Covers(s: seq<Site>, ts: seq<Token>, name: string, k: nat) {
    forall i: nat :: i < k && IsCallSite(ts, i, name) ==> exists a :: 0 <= a < |s| && s[a].index == i
  }

  /** The sites up to k + 1 are those up to k, and the site at k when k is a call site. */
  lemma SitesSnoc(ts: seq<Token>, marker: Marker, file: string, cfg: Config, k: nat)
    ensures Sites(ts, marker, file, cfg, k + 1) == Sites(ts, marker, file, cfg, k)
      + (if IsCallSite(ts, k, marker.name) then [SiteAt(ts, k, marker, file, cfg)] else [])
    ensures IsCallSite(ts, k, marker.name) ==> SiteAt(ts, k, marker, file, cfg).index == k
  {
  }

  lemma {:induction false} SitesInOrder(ts: seq<Token>, marker: Marker, file: string, cfg: Config, k: nat)
    ensures InOrder(Sites(ts, marker, file, cfg, k), ts, marker.name, k)
  {
    if k > 0 {
      SitesInOrder(ts, marker, file, cfg, k - 1);
      SitesSnoc(ts, marker, file, cfg, k - 1);
      var prev := Sites(ts, marker, file, cfg, k - 1);
      var s := Sites(ts, marker, file, cfg, k);
      if IsCallSite(ts, k - 1, marker.name) {
        assert s[|prev|].index == k - 1;
        forall a | 0 <= a < |s| ensures s[a].index < k && IsCallSite(ts, s[a].index, marker.name) {
          if a < |prev| {
            assert s[a] == prev[a];
          }
        }
        forall a, b | 0 <= a < b < |s| ensures s[a].index < s[b].index {
          assert s[a] == prev[a];
          if b < |prev| {
            assert s[b] == prev[b];
          }
        }
      } else {
        assert s == prev;
      }
    }
  }

  lemma {:induction false} SitesOutcomes(ts: seq<Token>, marker: Marker, file: string, cfg: Config, k: nat)
    ensures HoldOutcomes(Sites(ts, marker, file, cfg, k), ts, marker, file, cfg)
  {
    if k > 0 {
      SitesOutcomes(ts, marker, file, cfg, k - 1);
      SitesSnoc(ts, marker, file, cfg, k - 1);
      var prev := Sites(ts, marker, file, cfg, k - 1);
      var s := Sites(ts, marker, file, cfg, k);
      if IsCallSite(ts, k - 1, marker.name) {
        assert s[|prev|].index == k - 1;
        forall a | 0 <= a < |s|
          ensures IsCallSite(ts, s[a].index, marker.name) && s[a] == SiteAt(ts, s[a].index, marker, file, cfg)
        {
          if a < |prev| {
            assert s[a] == prev[a];
          }
        }
      } else {
        assert s == prev;
      }
    }
  }

  lemma {:induction false} SitesCoverCallSites(ts: seq<Token>, marker: Marker, file: string, cfg: Config, k: nat)
    ensures Covers(Sites(ts, marker, file, cfg, k), ts, marker.name, k)
  {
    if k > 0 {
      SitesCoverCallSites(ts, marker, file, cfg, k - 1);
      SitesSnoc(ts, marker, file, cfg, k - 1);
      var prev := Sites(ts, marker, file, cfg, k - 1);
      var s := Sites(ts, marker, file, cfg, k);
      forall i: nat | i < k && IsCallSite(ts, i, marker.name) ensures exists a :: 0 <= a < |s| && s[a].index == i {
        if i < k - 1 {
          var a :| 0 <= a < |prev| && prev[a].index == i;
          assert s[a] == prev[a];
        } else {
          assert s[|prev|].index == i;
        }
      }
    }
  }

  /**
   * The sites are exactly the call sites below k, each once, in increasing
   * order of index, each with the outcome `SiteAt` gives it.
   */
  lemma SitesAreTheCallSites(ts: seq<Token>, marker: Marker, file: string, cfg: Config, k: nat)
    ensures var s := Sites(ts, marker, file, cfg, k);
      && InOrder(s, ts, marker.name, k)
      && HoldOutcomes(s, ts, marker, file, cfg)
      && Covers(s, ts, marker.name, k)
  {
    SitesInOrder(ts, marker, file, cfg, k);
    SitesOutcomes(ts, marker, file, cfg, k);
    SitesCoverCallSites(ts, marker, file, cfg, k);
  }

  /**
   * A call site whose arguments are k comma-separated single literals or
   * numbers, possibly followed by further arguments that are neither (as in
   * `__n('one', 'many', $count)`), is recorded exactly when k reaches the marker's arity, and then
   * binds the first values to the roles by position.
   */
  lemma CallWithPlainArguments(ts: seq<Token>, i: nat, marker: Marker, file: string, cfg: Config, k: nat)
    requires IsCallSite(ts, i, marker.name)
    requires PlainArguments(ts, i + 2, k)
    ensures SiteAt(ts, i, marker, file, cfg).outcome.Recorded? <==> k >= |marker.roles|
    ensures k >= |marker.roles| ==>
      SiteAt(ts, i, marker, file, cfg).outcome.call
        == Bind(marker.roles, Values(ts, i + 2, k)[..|marker.roles|], file, ts[i].line, cfg)
  {
    PlainArgumentsExtracted(ts, i + 2, k, |marker.roles|);
  }

  /**
   * With the intended extraction, a call site whose arguments are k
   * comma-separated values (single literals or numbers, or `.`-joined runs),
   * possibly followed by further arguments that are neither, is recorded exactly when k reaches the marker's arity, and then binds
   * the first values to the roles by position.
   */
  lemma CallWithArguments(ts: seq<Token>, i: nat, marker: Marker, file: string, cfg: Config, k: nat)
    requires IsCallSite(ts, i, marker.name)
    requires ArgumentList(ts, i + 2, k)
    ensures SiteAtIntended(ts, i, marker, file, cfg).outcome.Recorded? <==> k >= |marker.roles|
    ensures k >= |marker.roles| ==>
      SiteAtIntended(ts, i, marker, file, cfg).outcome.call
        == Bind(marker.roles, ArgumentTexts(ts, i + 2, k)[..|marker.roles|], file, ts[i].line, cfg)
  {
    ArgumentsExtractedIntended(ts, i + 2, k, |marker.roles|);
  }

  /** When the only call site is at index 0, the sites below any k > 0 are that one. */
  lemma {:induction false} SitesOfOnlyCall(ts: seq<Token>, marker: Marker, file: string, cfg: Config, k: nat)
    requires 0 < k && IsCallSite(ts, 0, marker.name)
    requires forall q: nat :: 0 < q < k ==> !IsCallSite(ts, q, marker.name)
    ensures Sites(ts, marker, file, cfg, k) == [SiteAt(ts, 0, marker, file, cfg)]
  {
    SitesSnoc(ts, marker, file, cfg, k - 1);
    if k > 1 {
      SitesOfOnlyCall(ts, marker, file, cfg, k - 1);
    }
  }

  /** When the only call site is at index 0, `_parse` has the effect of that one site. */
  lemma AfterOnlyCall(sink: Sink, ts: seq<Token>, marker: Marker, file: string, cfg: Config)
    requires IsCallSite(ts, 0, marker.name)
    requires forall q: nat :: 0 < q < |ts| ==> !IsCallSite(ts, q, marker.name)
    ensures AfterParse(sink, ts, file, marker, cfg) == Step(sink, ts, file, marker, cfg, SiteAt(ts, 0, marker, file, cfg))
  {
    SitesOfOnlyCall(ts, marker, file, cfg, |ts|);
    var site := SiteAt(ts, 0, marker, file, cfg);
    assert [site][..0] == [] && [site][0] == site;
    assert Apply(sink, ts, file, marker, cfg, []) == sink;
    assert Apply(sink, ts, file, marker, cfg, [site]) == Step(sink, ts, file, marker, cfg, site);
  }

  /**
   * As written, `_getStrings` hands `_parse` two values for `__(a . b, c)`,
   * one more than `__` takes, so the call is malformed.
   */
  lemma RunThenArgumentMalformed(a: string, b: string, c: string, file: string, cfg: Config)
    ensures IsCallSite(RunThenArgument(a, b, c), 0, Markers[0].name)
    ensures |StringsFrom(RunThenArgument(a, b, c), 2, |Markers[0].roles|).0| != |Markers[0].roles|
    ensures SiteAt(RunThenArgument(a, b, c), 0, Markers[0], file, cfg).outcome.Malformed?
  {
    RunThenArgumentOvershoots(a, b, c);
  }

  /**
   * So `_parse('__')` over `__(a . b, c);` hands nothing to the aggregator
   * and reports a marker error, counted unless the file is under the core
   * include path.
   */
  lemma RunThenArgumentReported(sink: Sink, a: string, b: string, c: string, file: string, cfg: Config)
    ensures var after := AfterParse(sink, RunThenArgument(a, b, c), file, Markers[0], cfg);
      && after.added == sink.added
      && after.markerErrors == sink.markerErrors + (if Contains(file, cfg.coreIncludePath) then 0 else 1)
      && after.err == sink.err + (if cfg.markerErrors then Diagnostic(RunThenArgument(a, b, c), file, 1, "__", 0) else [])
  {
    var ts := RunThenArgument(a, b, c);
    RunThenArgumentMalformed(a, b, c, file, cfg);
    forall q: nat | 0 < q < |ts| ensures !IsCallSite(ts, q, "__") {
      assert !IsPunctAt(ts, q + 1, '(');
    }
    AfterOnlyCall(sink, ts, Markers[0], file, cfg);
  }

  /** With the intended extraction `__(a . b, c)` is recorded, with the joined run as its message. */
  lemma RunThenArgumentRecorded(a: string, b: string, c: string, file: string, cfg: Config)
    ensures IsCallSite(RunThenArgument(a, b, c), 0, Markers[0].name)
    ensures var site := SiteAtIntended(RunThenArgument(a, b, c), 0, Markers[0], file, cfg);
      site.outcome.Recorded? && site.outcome.call.singular == Joined(RunThenArgument(a, b, c), 2, 5)
  {
    RunThenArgumentIntended(a, b, c);
    MarkerBindsByPosition(Markers[0], [Joined(RunThenArgument(a, b, c), 2, 5)]);
  }

  /** A site whose values fill the marker's roles is recorded with those values bound. */
  lemma SiteWithFullValues(ts: seq<Token>, i: nat, marker: Marker, file: string, cfg: Config, vs: seq<string>)
    requires IsCallSite(ts, i, marker.name)
    requires StringsFrom(ts, i + 2, |marker.roles|).0 == vs && |vs| == |marker.roles|
    ensures SiteAt(ts, i, marker, file, cfg).outcome == Recorded(Bind(marker.roles, vs, file, ts[i].line, cfg))
  {
  }

  /** Two values for the singular and plural roles become the message and its plural. */
  lemma BindSingularPlural(vs: seq<string>, file: string, line: nat, cfg: Config)
    requires |vs| == 2
    ensures Bind([Singular, Plural], vs, file, line, cfg).singular == vs[0]
    ensures Bind([Singular, Plural], vs, file, line, cfg).details.plural == Some(vs[1])
  {
    assert [Singular, Plural][..1] == [Singular];
    assert Bound([Singular, Plural], vs, Singular) == Bound([Singular], vs[..1], Singular) == Some(vs[0]);
  }

  /** A singular-and-plural call given two values is recorded with the first as message and the second as plural. */
  lemma TwoValuesRecorded(ts: seq<Token>, marker: Marker, file: string, cfg: Config, v0: string, v1: string)
    requires IsCallSite(ts, 0, marker.name) && marker.roles == [Singular, Plural]
    requires StringsFrom(ts, 2, 2).0 == [v0, v1]
    ensures var site := SiteAt(ts, 0, marker, file, cfg);
      && site.outcome.Recorded?
      && site.outcome.call.singular == v0
      && site.outcome.call.details.plural == Some(v1)
  {
    var vs := [v0, v1];
    SiteWithFullValues(ts, 0, marker, file, cfg, vs);
    BindSingularPlural(vs, file, ts[0].line, cfg);
    var call := Bind(marker.roles, vs, file, ts[0].line, cfg);
    assert SiteAt(ts, 0, marker, file, cfg).outcome == Recorded(call);
    assert call.singular == v0 && call.details.plural == Some(v1);
  }

  /** In those tokens only index 0 starts a call of `__n`. */
  lemma RunThenCloseOnlyCall(a: string, b: string, c: string)
    ensures forall q: nat :: 0 < q < |RunThenClose(a, b, c)| ==> !IsCallSite(RunThenClose(a, b, c), q, "__n")
  {
    var ts := RunThenClose(a, b, c);
    forall q: nat | 0 < q < |ts| ensures !IsCallSite(ts, q, "__n") {
      assert !IsPunctAt(ts, q + 1, '(');
    }
  }

  /**
   * As written, a singular-and-plural call whose first argument is a run
   * followed by one more token, a comma, a single value and a comma is
   * recorded with the run as its message and that value as its plural,
   * whatever the token after the run was: in `sprintf(__n(a . b), c, 3)`
   * (`RunThenClose`) it is the `)` that closes the call, and c, an argument
   * of `sprintf`, becomes the plural.
   */
  lemma RunSkipValueRecorded(ts: seq<Token>, marker: Marker, file: string, cfg: Config, e: nat)
    requires IsCallSite(ts, 0, marker.name) && marker.roles == [Singular, Plural]
    requires e + 4 <= |ts| && IsLiteralAt(ts, 2) && IsPunctAt(ts, 3, '.') && RunEnd(ts, 2) == e
    requires IsPunctAt(ts, e + 1, ',') && IsValueAt(ts, e + 2) && IsPunctAt(ts, e + 3, ',')
    ensures var site := SiteAt(ts, 0, marker, file, cfg);
      && site.outcome.Recorded?
      && site.outcome.call.singular == Joined(ts, 2, e)
      && site.outcome.call.details.plural == Some(ValueAt(ts, e + 2))
  {
    RunSkipValueFills(ts, 2, e);
    TwoValuesRecorded(ts, marker, file, cfg, Joined(ts, 2, e), ValueAt(ts, e + 2));
  }

  /**
   * As written, `_parse('__n')` over the tokens of `__n(a . b)` inside
   * `sprintf(__n(a . b), c, 3)` records the call with the joined run as its
   * message and c, an argument of `sprintf`, as its plural: it hands that
   * one call to the aggregator and reports no marker error.
   */
  lemma RunThenCloseRecorded(sink: Sink, a: string, b: string, c: string, file: string, cfg: Config)
    ensures IsCallSite(RunThenClose(a, b, c), 0, Markers[1].name)
    ensures var ts := RunThenClose(a, b, c);
      var site := SiteAt(ts, 0, Markers[1], file, cfg);
      var after := AfterParse(sink, ts, file, Markers[1], cfg);
      && site.outcome.Recorded?
      && site.outcome.call.singular == Joined(ts, 2, 5)
      && site.outcome.call.details.plural == Some(FormatString(c))
      && after.added == sink.added + [site.outcome.call]
      && after.markerErrors == sink.markerErrors
      && after.err == sink.err
  {
    var ts := RunThenClose(a, b, c);
    assert Markers[1] == Marker("__n", [Singular, Plural]);
    RunThenCloseShape(a, b, c);
    RunSkipValueRecorded(ts, Markers[1], file, cfg, 5);
    RunThenCloseOnlyCall(a, b, c);
    AfterOnlyCall(sink, ts, Markers[1], file, cfg);
  }

  /**
   * `__n(a, b, $count)`, the usual shape of a plural call, is recorded with
   * the decoded a as its message and the decoded b as its plural.
   */
  lemma PluralWithCountRecorded(a: string, b: string, file: string, cfg: Config)
    ensures IsCallSite(PluralWithCount(a, b), 0, Markers[1].name)
    ensures var site := SiteAt(PluralWithCount(a, b), 0, Markers[1], file, cfg);
      && site.outcome.Recorded?
      && site.outcome.call.singular == FormatString(a)
      && site.outcome.call.details.plural == Some(FormatString(b))
  {
    assert Markers[1] == Marker("__n", [Singular, Plural]);
    PluralWithCountExtracted(a, b);
    TwoValuesRecorded(PluralWithCount(a, b), Markers[1], file, cfg, FormatString(a), FormatString(b));
  }

  /** With the intended extraction `__n(a . b)` gives one value for two roles and is malformed. */
  lemma RunThenCloseMalformedIntended(a: string, b: string, c: string, file: string, cfg: Config)
    ensures IsCallSite(RunThenClose(a, b, c), 0, Markers[1].name)
    ensures SiteAtIntended(RunThenClose(a, b, c), 0, Markers[1], file, cfg).outcome.Malformed?
  {
    RunThenCloseIntended(a, b, c);
  }

  function Delta(t: Token): int {
    if t == Punct('(') then 1 else if t == Punct(')') then -1 else 0
  }

  /** Opening minus closing parentheses in a stretch of tokens. */
  function Balance(s: seq<Token>): int {
    if s == [] then 0 else Balance(s[..|s| - 1]) + Delta(s[|s| - 1])
  }

  /** The parenthesis depth before token q, counting from 1 at token k. */
  function Depth(ts: seq<Token>, k: nat, q: nat): int
    requires k <= q <= |ts|
  {
    1 + Balance(ts[k..q])
  }

  function NextDepth(t: Token, depth: nat): nat
    requires depth > 0
  {
    if t == Punct('(') then depth + 1 else if t == Punct(')') then depth - 1 else depth
  }

  /** The loop of `_markerError`: echo each token's text until the depth is 0 or the tokens end. */
  function Echo(ts: seq<Token>, k: nat, depth: nat): seq<Write>
    decreases |ts| - k
  {
    if k < |ts| && depth > 0 then [Write(TokenText(ts[k]), 0)] + Echo(ts, k + 1, NextDepth(ts[k], depth))
    else []
  }

  /** Where that loop stops. */
  function EchoEnd(ts: seq<Token>, k: nat, depth: nat): nat
    decreases |ts| - k
  {
    if k < |ts| && depth > 0 then EchoEnd(ts, k + 1, NextDepth(ts[k], depth)) else k
  }

  /** Each token's text, written without a newline. */
  function Writes(s: seq<Token>): seq<Write> {
    if s == [] then [] else [Write(TokenText(s[0]), 0)] + Writes(s[1..])
  }

  /** One more token moves the depth by that token's `Delta`, as `NextDepth` does. */
  lemma DepthStep(ts: seq<Token>, k: nat, j: nat)
    requires k <= j < |ts| && Depth(ts, k, j) > 0
    ensures Depth(ts, k, j + 1) == Depth(ts, k, j) + Delta(ts[j])
    ensures NextDepth(ts[j], Depth(ts, k, j) as nat) == Depth(ts, k, j + 1)
  {
    assert ts[k..j + 1][..j - k] == ts[k..j];
  }

  lemma {:induction false} EchoFrom(ts: seq<Token>, k: nat, j: nat)
    requires k <= j <= |ts|
    requires forall q :: k <= q < j ==> Depth(ts, k, q) > 0
    requires Depth(ts, k, j) >= 0
    ensures var e := EchoEnd(ts, j, Depth(ts, k, j) as nat);
      && j <= e <= |ts|
      && Echo(ts, j, Depth(ts, k, j) as nat) == Writes(ts[j..e])
      && (forall q :: j <= q < e ==> Depth(ts, k, q) > 0)
      && (e == |ts| || Depth(ts, k, e) == 0)
    decreases |ts| - j
  {
    var d := Depth(ts, k, j);
    if j < |ts| && d > 0 {
      DepthStep(ts, k, j);
      EchoFrom(ts, k, j + 1);
      var e := EchoEnd(ts, j, d as nat);
      assert ts[j..e][1..] == ts[j + 1..e];
    }
  }

  /**
   * The diagnostic echoes the tokens from k on, up to and including the `)`
   * that brings the depth back to 0, or up to the end of the tokens.
   */
  lemma EchoSpan(ts: seq<Token>, k: nat)
    requires k <= |ts|
    ensures var e := EchoEnd(ts, k, 1);
      && k <= e <= |ts|
      && Echo(ts, k, 1) == Writes(ts[k..e])
      && (forall q :: k <= q < e ==> Depth(ts, k, q) > 0)
      && (e == |ts| || Depth(ts, k, e) == 0)
  {
    assert ts[k..k] == [];
    EchoFrom(ts, k, k);
  }

  function Header(file: string, line: nat, marker: string): string {
    "Invalid marker content in " + file + ":" + NatToString(line) + "\n* " + marker + "("
  }

  /** Everything `_markerError` writes when `--marker-error` is on, for a call at index i. */
  function Diagnostic(ts: seq<Token>, file: string, line: nat, marker: string, i: nat): seq<Write> {
    [Write(Header(file, line, marker), 1)] + Echo(ts, i + 2, 1) + [Write("\n", 1)]
  }

  /**
   * The observable effects of the scan: the aggregator calls, the marker
   * error counter and the error stream.
   */
  datatype Sink = Sink(added: seq<TranslationCall>, markerErrors: nat, err: seq<Write>)

  /** The effect of one call site. */
  function Step(sink: Sink, ts: seq<Token>, file: string, marker: Marker, cfg: Config, site: Site): Sink {
    match site.outcome
    case Recorded(call) => sink.(added := sink.added + [call])
    case Malformed =>
      Sink(sink.added,
           sink.markerErrors + (if Contains(file, cfg.coreIncludePath) then 0 else 1),
           sink.err + (if cfg.markerErrors then Diagnostic(ts, file, site.line, marker.name, site.index) else []))
  }

  function Apply(sink: Sink, ts: seq<Token>, file: string, marker: Marker, cfg: Config, sites: seq<Site>): Sink {
    if sites == [] then sink
    else Step(Apply(sink, ts, file, marker, cfg, sites[..|sites| - 1]), ts, file, marker, cfg, sites[|sites| - 1])
  }

  /** Index k adds the effect of its site when it is a call site, and nothing otherwise. */
  lemma ApplySitesSnoc(sink: Sink, ts: seq<Token>, file: string, marker: Marker, cfg: Config, k: nat)
    ensures Apply(sink, ts, file, marker, cfg, Sites(ts, marker, file, cfg, k + 1)) ==
      if IsCallSite(ts, k, marker.name)
      then Step(Apply(sink, ts, file, marker, cfg, Sites(ts, marker, file, cfg, k)), ts, file, marker, cfg, SiteAt(ts, k, marker, file, cfg))
      else Apply(sink, ts, file, marker, cfg, Sites(ts, marker, file, cfg, k))
  {
    SitesSnoc(ts, marker, file, cfg, k);
    var prev := Sites(ts, marker, file, cfg, k);
    if IsCallSite(ts, k, marker.name) {
      var site := SiteAt(ts, k, marker, file, cfg);
      var next := prev + [site];
      assert next[..|next| - 1] == prev && next[|next| - 1] == site;
      assert Apply(sink, ts, file, marker, cfg, next)
        == Step(Apply(sink, ts, file, marker, cfg, prev), ts, file, marker, cfg, site);
    } else {
      assert Sites(ts, marker, file, cfg, k + 1) == prev;
    }
  }

  /** The effect of `_parse` for one marker over the whole token list. */
  function AfterParse(sink: Sink, ts: seq<Token>, file: string, marker: Marker, cfg: Config): Sink {
    Apply(sink, ts, file, marker, cfg, Sites(ts, marker, file, cfg, |ts|))
  }

  /** The effect of `_parse` for each marker of a list, in order. */
  function AfterMarkers(sink: Sink, ts: seq<Token>, file: string, markers: seq<Marker>, cfg: Config): Sink {
    if markers == [] then sink
    else AfterParse(AfterMarkers(sink, ts, file, markers[..|markers| - 1], cfg), ts, file, markers[|markers| - 1], cfg)
  }

  /** The effect of scanning each (file, raw tokens) pair in order with all eight markers. */
  function AfterFiles(sink: Sink, sources: seq<(string, seq<Token>)>, cfg: Config): Sink {
    if sources == [] then sink
    else
      var last := sources[|sources| - 1];
      AfterMarkers(AfterFiles(sink, sources[..|sources| - 1], cfg), Significant(last.1), last.0, Markers, cfg)
  }

  function MalformedCount(sites: seq<Site>): nat {
    if sites == [] then 0
    else MalformedCount(sites[..|sites| - 1]) + (if sites[|sites| - 1].outcome.Malformed? then 1 else 0)
  }

  /**
   * Each call site either adds exactly one aggregator call or counts one
   * marker error (none for files under the core include path), and nothing
   * is written when the marker-error flag is off.
   */
  lemma {:induction false} ApplyAccounts(sink: Sink, ts: seq<Token>, file: string, marker: Marker, cfg: Config, sites: seq<Site>)
    ensures var after := Apply(sink, ts, file, marker, cfg, sites);
      && sink.added <= after.added
      && |after.added| - |sink.added| + MalformedCount(sites) == |sites|
      && after.markerErrors == sink.markerErrors + (if Contains(file, cfg.coreIncludePath) then 0 else MalformedCount(sites))
      && (!cfg.markerErrors ==> after.err == sink.err)
  {
    if sites != [] {
      ApplyAccounts(sink, ts, file, marker, cfg, sites[..|sites| - 1]);
    }
  }
}
