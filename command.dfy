/**
 * The extract command's state and the steps that change it: scanning token
 * lists for marker calls, reporting malformed calls, deriving the locale
 * list, and saving the collected messages to the record store.
 */
module Command {
  import opened Wrappers
  import opened Text
  import opened Escapes
  import opened Tokens
  import opened Arguments
  import opened Scan
  import opened Persistence
  import opened Messages
  import opened Languages
  import opened Search

  /** Each file name paired with the tokens of its contents. */
  function Sources(files: seq<string>, contents: seq<seq<Token>>): (r: seq<(string, seq<Token>)>)
    requires |files| == |contents|
    ensures |r| == |files|
    ensures forall i :: 0 <= i < |files| ==> r[i] == (files[i], contents[i])
  {
    if files == [] then []
    else Sources(files[..|files| - 1], contents[..|contents| - 1]) + [(files[|files| - 1], contents[|contents| - 1])]
  }

  class ExtractCommand {
    /** The flags and environment constants the scan reads. */
    const config: Config
    /** The message table. */
    const store: Store

    /** `_files`: the files to scan. */
    var files: seq<string>
    /** `_file`: the file being scanned. */
    var file: string
    /** `_tokens`: the current file's tokens, whitespace and inline HTML removed. */
    var tokens: seq<Token>
    /** `_countMarkerError`. */
    var countMarkerError: nat
    /** The calls handed to the aggregator `_addTranslation`, in order. */
    var added: seq<TranslationCall>
    /** The writes to the error stream, in order. */
    var errLog: seq<Write>
    /** `_languages`. */
    var languages: seq<string>

    constructor (config: Config, store: Store, files: seq<string>)
      ensures this.config == config && this.store == store && this.files == files
      ensures tokens == [] && countMarkerError == 0 && added == [] && errLog == [] && languages == []
    {
      this.config := config;
      this.store := store;
      this.files := files;
      file := "";
      tokens := [];
      countMarkerError := 0;
      added := [];
      errLog := [];
      languages := [];
    }

    /** The observable effects of scanning so far. */
    function Snapshot(): Sink
      reads this
    {
      Sink(added, countMarkerError, errLog)
    }

    /** The aggregator, seen only through the calls it receives. */
    method AddTranslation(call: TranslationCall)
      modifies this`added
      ensures added == old(added) + [call]
    {
      added := added + [call];
    }

    /**
     * `_getStrings`: the values of the arguments from `position` on, and the
     * position where extraction stopped. `count` is refreshed before each
     * append, so the test against `target` lags one value behind, and the
     * token that ends a `.`-joined run is skipped.
     */
    method GetStrings(position: nat, target: nat) returns (strings: seq<string>, next: nat)
      requires position <= |tokens| + 1
      ensures (strings, next) == StringsFrom(tokens, position, target)
    {
      var ts := tokens;
      strings := [];
      var count: nat := |strings|;
      next := position;
      while count < target && (IsPunctAt(ts, next, ',') || IsLiteralAt(ts, next) || IsKindAt(ts, next, TLNumber))
        invariant next <= |ts| + 1
        invariant Collect(ts, next, target, count, strings) == StringsFrom(ts, position, target)
        decreases |ts| + 1 - next
      {
        CollectStep(ts, next, target, count, strings);
        count := |strings|;
        if IsLiteralAt(ts, next) && IsPunctAt(ts, next + 1, '.') {
          var s;
          s, next := JoinRun(next);
          strings := strings + [s];
        } else if IsLiteralAt(ts, next) {
          strings := strings + [FormatString(ts[next].text)];
        } else if IsKindAt(ts, next, TLNumber) {
          strings := strings + [ts[next].text];
        }
        next := next + 1;
      }
    }

    /**
     * The intended `_getStrings`: it stops as soon as `target` values are
     * taken and resumes after a run at the token that ended it.
     */
    method GetStringsIntended(position: nat, target: nat) returns (strings: seq<string>, next: nat)
      requires position <= |tokens| + 1
      ensures (strings, next) == StringsIntended(tokens, position, target)
    {
      var ts := tokens;
      strings := [];
      next := position;
      while |strings| < target && (IsPunctAt(ts, next, ',') || IsLiteralAt(ts, next) || IsKindAt(ts, next, TLNumber))
        invariant next <= |ts| + 1
        invariant CollectIntended(ts, next, target, strings) == StringsIntended(ts, position, target)
        decreases |ts| + 1 - next
      {
        if IsLiteralAt(ts, next) && IsPunctAt(ts, next + 1, '.') {
          IntendedArgumentStep(ts, next, target, strings);
          var s;
          s, next := JoinRun(next);
          strings := strings + [s];
        } else if IsLiteralAt(ts, next) {
          IntendedArgumentStep(ts, next, target, strings);
          strings := strings + [FormatString(ts[next].text)];
          next := next + 1;
        } else if IsKindAt(ts, next, TLNumber) {
          IntendedArgumentStep(ts, next, target, strings);
          strings := strings + [ts[next].text];
          next := next + 1;
        } else {
          IntendedCommaStep(ts, next, target, strings);
          next := next + 1;
        }
      }
    }

    /**
     * The inner loop of `_getStrings`: concatenate the decoded literals of a
     * run of literals and `.` tokens, stopping at the first other token.
     */
    method JoinRun(start: nat) returns (s: string, next: nat)
      requires start <= |tokens|
      ensures next == RunEnd(tokens, start) && s == Joined(tokens, start, next)
    {
      var ts := tokens;
      s := "";
      next := start;
      while IsLiteralAt(ts, next) || IsPunctAt(ts, next, '.')
        invariant start <= next <= |ts|
        invariant RunEnd(ts, next) == RunEnd(ts, start)
        invariant s == Joined(ts, start, next)
        decreases |ts| - next
      {
        RunEndStep(ts, next);
        JoinedStep(ts, start, next, s);
        if IsLiteralAt(ts, next) {
          s := s + FormatString(ts[next].text);
        }
        assert s == Joined(ts, start, next + 1);
        next := next + 1;
      }
      RunEndStep(ts, next);
    }

    /**
     * `_markerError`: count the malformed call unless the current file lies
     * under the core include path, and, when `--marker-error` is on, write
     * the header and echo the call's tokens from `count + 2`.
     */
    method MarkerError(file: string, line: nat, marker: string, count: nat)
      modifies this`countMarkerError, this`errLog
      ensures countMarkerError == old(countMarkerError) + (if Contains(this.file, config.coreIncludePath) then 0 else 1)
      ensures errLog == old(errLog) + (if config.markerErrors then Diagnostic(tokens, file, line, marker, count) else [])
    {
      if !Contains(this.file, config.coreIncludePath) {
        countMarkerError := countMarkerError + 1;
      }
      if !config.markerErrors {
        return;
      }
      ghost var before := errLog;
      var header := Write(Header(file, line, marker), 1);
      errLog := errLog + [header];
      EchoCall(count + 2);
      errLog := errLog + [Write("\n", 1)];
      AppendAssoc(before, [header], Echo(tokens, count + 2, 1));
      AppendAssoc(before, [header] + Echo(tokens, count + 2, 1), [Write("\n", 1)]);
    }

    /**
     * The echo loop of `_markerError`: write every token from `start` on
     * until the parentheses balance or the tokens run out.
     */
    method EchoCall(start: nat)
      modifies this`errLog
      ensures errLog == old(errLog) + Echo(tokens, start, 1)
    {
      var k := start;
      var parenthesis: nat := 1;
      while |tokens| - k > 0 && parenthesis != 0
        invariant old(errLog) + Echo(tokens, start, 1) == errLog + Echo(tokens, k, parenthesis)
        decreases |tokens| - k
      {
        if tokens[k].Lexeme? {
          errLog := errLog + [Write(tokens[k].text, 0)];
        } else {
          errLog := errLog + [Write([tokens[k].ch], 0)];
          if tokens[k].ch == '(' {
            parenthesis := parenthesis + 1;
          }
          if tokens[k].ch == ')' {
            parenthesis := parenthesis - 1;
          }
        }
        k := k + 1;
      }
      assert Echo(tokens, k, parenthesis) == [];
    }

    /**
     * The body of `_parse` at a call site: move to just after the `(`, read
     * the arguments and either record the call or report a marker error.
     */
    method ParseCallSite(marker: Marker, count: nat)
      requires IsCallSite(tokens, count, marker.name)
      modifies this`added, this`countMarkerError, this`errLog
      ensures Snapshot() == Step(old(Snapshot()), tokens, file, marker, config, SiteAt(tokens, count, marker, file, config))
    {
      var countToken := tokens[count];
      var position := count;
      var depth := 0;
      while depth == 0
        invariant count <= position <= count + 2
        invariant depth == 0 ==> position <= count + 1
        invariant depth != 0 ==> depth == 1 && position == count + 2
        decreases count + 2 - position
      {
        if tokens[position] == Punct('(') {
          depth := depth + 1;
        } else if tokens[position] == Punct(')') {
          depth := depth - 1;
        }
        position := position + 1;
      }
      var mapCount := |marker.roles|;
      var strings, _ := GetStrings(position, mapCount);
      assert position == count + 2;
      if mapCount == |strings| {
        AddTranslation(Bind(marker.roles, strings, file, countToken.line, config));
      } else {
        MarkerError(file, countToken.line, marker.name, count);
      }
    }

    /**
     * `_parse`: visit every index in turn; at each call site of `marker`,
     * extract the arguments from just after the `(` and either hand the call
     * to the aggregator or report a marker error.
     */
    method Parse(marker: Marker)
      modifies this`added, this`countMarkerError, this`errLog
      ensures Snapshot() == AfterParse(old(Snapshot()), tokens, file, marker, config)
    {
      var count := 0;
      var tokenCount := |tokens|;
      while tokenCount - count > 1
        invariant count <= tokenCount
        invariant Snapshot() == Apply(old(Snapshot()), tokens, file, marker, config, Sites(tokens, marker, file, config, count))
      {
        var countToken := tokens[count];
        var firstParenthesis := tokens[count + 1];
        ApplySitesSnoc(old(Snapshot()), tokens, file, marker, config, count);
        if countToken.Punct? {
          count := count + 1;
          continue;
        }
        if countToken.kind == TString && countToken.text == marker.name && firstParenthesis == Punct('(') {
          ParseCallSite(marker, count);
        }
        count := count + 1;
      }
      if count < tokenCount {
        ApplySitesSnoc(old(Snapshot()), tokens, file, marker, config, count);
      }
    }

    /**
     * One file of `_extractTokens`: keep the significant tokens, then run
     * `_parse` for each of the eight markers in table order.
     */
    method ExtractFile(name: string, allTokens: seq<Token>)
      modifies this`file, this`tokens, this`added, this`countMarkerError, this`errLog
      ensures file == name && tokens == Significant(allTokens)
      ensures Snapshot() == AfterMarkers(old(Snapshot()), Significant(allTokens), name, Markers, config)
    {
      file := name;
      tokens := [];
      for i := 0 to |allTokens|
        invariant file == name
        invariant tokens == Significant(allTokens[..i])
        invariant Snapshot() == old(Snapshot())
      {
        var token := allTokens[i];
        if token.Punct? || (token.kind != TWhitespace && token.kind != TInlineHtml) {
          tokens := tokens + [token];
        }
        assert allTokens[..i + 1][..i] == allTokens[..i];
      }
      assert allTokens[..|allTokens|] == allTokens;
      for m := 0 to |Markers|
        invariant file == name && tokens == Significant(allTokens)
        invariant Snapshot() == AfterMarkers(old(Snapshot()), tokens, file, Markers[..m], config)
      {
        Parse(Markers[m]);
        assert Markers[..m + 1][..m] == Markers[..m];
      }
      assert Markers[..|Markers|] == Markers;
    }

    /** `_extractTokens`: every file of `files`, given the tokens of its contents. */
    method ExtractTokens(contents: seq<seq<Token>>)
      requires |contents| == |files|
      modifies this`file, this`tokens, this`added, this`countMarkerError, this`errLog
      ensures Snapshot() == AfterFiles(old(Snapshot()), Sources(files, contents), config)
    {
      var sources := Sources(files, contents);
      for i := 0 to |files|
        invariant Snapshot() == AfterFiles(old(Snapshot()), sources[..i], config)
      {
        ExtractFile(files[i], contents[i]);
        assert sources[..i + 1][..i] == sources[..i];
      }
      assert sources[..|files|] == sources;
    }

    /** `_getLanguages`: the option's comma-separated list, else one locale per configured language. */
    method GetLanguages(option: string, configured: seq<LanguageEntry>)
      modifies this`languages
      ensures languages == if Truthy(option) then Explode(",", option) else old(languages) + Locales(Normalize(configured))
    {
      if Truthy(option) {
        languages := Explode(",", option);
        return;
      }
      if configured == [] {
        return;
      }
      var normalized := Normalize(configured);
      for i := 0 to |normalized|
        invariant languages == old(languages) + Locales(normalized[..i])
      {
        var entry := normalized[i];
        if entry.1.Some? {
          languages := languages + [entry.1.value];
        } else {
          languages := languages + [entry.0];
        }
        assert normalized[..i + 1][..i] == normalized[..i];
      }
      assert normalized[..|normalized|] == normalized;
    }

    /** `_save`: for each locale, insert the record unless one with the same domain, locale and singular exists. */
    method Save(domain: string, singular: string, plural: Option<string>, context: Option<string>, refs: Option<string>)
      modifies store
      ensures store.records == SaveOne(old(store.records), languages, SaveRequest(domain, singular, plural, context, refs))
    {
      var req := SaveRequest(domain, singular, plural, context, refs);
      for i := 0 to |languages|
        invariant store.records == SaveOne(old(store.records), languages[..i], req)
      {
        var locale := languages[i];
        var found := store.Count(domain, locale, singular);
        if found == 0 {
          store.Insert(RecordFor(req, locale));
        }
        assert languages[..i + 1][..i] == languages[..i];
      }
      assert languages[..|languages|] == languages;
    }

    /** The references of one message: `file:lines` per file, joined, stripped, with `/` separators. */
    method BuildReferences(references: seq<(string, seq<nat>)>, paths: seq<string>, separator: string) returns (refs: string)
      ensures refs == References(references, paths, separator)
    {
      var occurrences := [];
      for f := 0 to |references|
        invariant occurrences == Occurrences(references[..f])
      {
        var lines := Unique(references[f].1);
        occurrences := occurrences + [references[f].0 + ":" + Join(";", LineStrings(lines))];
        assert references[..f + 1][..f] == references[..f];
      }
      assert references[..|references|] == references;
      refs := StrReplace(StripPaths(Join("\n", occurrences), paths), separator, "/");
    }

    /**
     * `_saveMessages`: save every context of every message of every domain
     * that passes the `--domains` filter, under `'default'` when merging.
     * `paths` are the scan roots, `app` the application directory with its
     * trailing separator.
     */
    method SaveMessages(
      translations: Translations, paths: seq<string>, app: string,
      domainsOption: string, merge: bool, noLocation: bool, separator: char)
      modifies store
      ensures var settings := Settings(DomainFilter(domainsOption), merge, noLocation, StripOrder(paths, app), [separator]);
        store.records == SaveAll(old(store.records), languages, Requests(translations, settings))
    {
      var stripList := SortByLength(paths + [app]);
      var domains: Option<seq<string>> := None;
      if Truthy(domainsOption) {
        domains := Some(Explode(",", domainsOption));
      }
      var settings := Settings(domains, merge, noLocation, stripList, [separator]);
      ghost var emitted: seq<SaveRequest> := [];
      for d := 0 to |translations|
        invariant emitted == Requests(translations[..d], settings)
        invariant store.records == SaveAll(old(store.records), languages, emitted)
      {
        RequestsSnoc(translations, d, settings);
        var domain := translations[d].0;
        var messages := translations[d].1;
        if Skipped(domains, domain) {
          continue;
        }
        if merge {
          domain := "default";
        }
        SaveAllAppend(old(store.records), languages, emitted, MessageRequests(domain, messages, settings));
        SaveMessageList(domain, messages, settings);
        emitted := emitted + MessageRequests(domain, messages, settings);
      }
      assert translations[..|translations|] == translations;
    }

    /** The middle loop of `_saveMessages`: every context of every message of one domain, in order. */
    method SaveMessageList(domain: string, messages: MessageList, settings: Settings)
      modifies store
      ensures store.records == SaveAll(old(store.records), languages, MessageRequests(domain, messages, settings))
    {
      ghost var emitted: seq<SaveRequest> := [];
      for m := 0 to |messages|
        invariant emitted == MessageRequests(domain, messages[..m], settings)
        invariant store.records == SaveAll(old(store.records), languages, emitted)
      {
        MessageRequestsSnoc(domain, messages, m, settings);
        var msgid := messages[m].0;
        var contexts := messages[m].1;
        SaveAllAppend(old(store.records), languages, emitted, ContextRequests(domain, msgid, contexts, settings));
        SaveContexts(domain, msgid, contexts, settings);
        emitted := emitted + ContextRequests(domain, msgid, contexts, settings);
      }
      assert messages[..|messages|] == messages;
    }

    /**
     * The innermost loop of `_saveMessages`: one `_save` per context of a
     * message, with its references unless `--no-location` is on.
     */
    method SaveContexts(domain: string, msgid: string, contexts: Contexts, settings: Settings)
      modifies store
      ensures store.records == SaveAll(old(store.records), languages, ContextRequests(domain, msgid, contexts, settings))
    {
      ghost var emitted: seq<SaveRequest> := [];
      for c := 0 to |contexts|
        invariant emitted == ContextRequests(domain, msgid, contexts[..c], settings)
        invariant store.records == SaveAll(old(store.records), languages, emitted)
      {
        ContextRequestsSnoc(domain, msgid, contexts, c, settings);
        var context := contexts[c].0;
        var details := contexts[c].1;
        var references: Option<string> := None;
        if !settings.noLocation {
          var refs := BuildReferences(details.references, settings.paths, settings.separator);
          references := Some(refs);
        }
        ghost var req := SaveRequest(domain, msgid, details.plural, if Truthy(context) then Some(context) else None, references);
        assert req == RequestFor(domain, msgid, context, details, settings);
        SaveAllSnoc(old(store.records), languages, emitted, req);
        Save(domain, msgid, details.plural, if Truthy(context) then Some(context) else None, references);
        emitted := emitted + [req];
      }
      assert contexts[..|contexts|] == contexts;
    }

    /** The exclude filter and de-duplication of `_searchFiles`, over the listing of each scan root. */
    method SearchFiles(exclude: seq<string>, separator: char, listings: seq<seq<string>>)
      modifies this`files
      ensures files == Unique(old(files) + Gathered(listings, exclude, separator))
    {
      ghost var gathered: seq<string> := [];
      for p := 0 to |listings|
        invariant files == old(files) + gathered
        invariant gathered == Gathered(listings[..p], exclude, separator)
      {
        var kept := listings[p];
        if exclude != [] {
          kept := Remaining(listings[p], exclude, separator);
        } else {
          NothingExcluded(listings[p], separator);
        }
        GatheredSnoc(listings, p, exclude, separator);
        AppendAssoc(old(files), gathered, kept);
        files := files + kept;
        gathered := gathered + kept;
      }
      assert listings[..|listings|] == listings;
      files := Unique(files);
    }
  }
}
