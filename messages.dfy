/**
 * `_saveMessages`: from the aggregated translations
 * (domain -> msgid -> context -> {references, msgid_plural}) to the list of
 * `_save` calls, with the domain filter, domain merging, the null
 * conversions and the reference strings.
 */
module Messages {
  import opened Wrappers
  import opened Text
  import opened Persistence

  /**
   * The details the aggregator keeps for one (domain, msgid, context):
   * file -> line numbers, and the plural (`false` when never given is `None`).
   */
  datatype Entry = Entry(references: seq<(string, seq<nat>)>, plural: Option<string>)

  /** PHP's ordered arrays as association lists, in insertion order. */
  type Contexts = seq<(string, Entry)>
  type MessageList = seq<(string, Contexts)>
  type Translations = seq<(string, MessageList)>

  function LineStrings(lines: seq<nat>): (r: seq<string>)
    ensures |r| == |lines|
    ensures forall i :: 0 <= i < |lines| ==> r[i] == NatToString(lines[i])
  {
    if lines == [] then [] else LineStrings(lines[..|lines| - 1]) + [NatToString(lines[|lines| - 1])]
  }

  /** `$file . ':' . implode(';', array_unique($lines))`. */
  function Occurrence(file: string, lines: seq<nat>): string {
    file + ":" + Join(";", LineStrings(Unique(lines)))
  }

  /** The line list of an occurrence names every line once and nothing else. */
  lemma OccurrenceLinesOnce(lines: seq<nat>)
    ensures var ls := LineStrings(Unique(lines));
      && (forall i, j :: 0 <= i < j < |ls| ==> ls[i] != ls[j])
      && (forall n :: n in lines <==> NatToString(n) in ls)
  {
    var u := Unique(lines);
    var ls := LineStrings(u);
    forall i, j | 0 <= i < j < |ls| ensures ls[i] != ls[j] {
      NatToStringReadsBack(u[i]);
      NatToStringReadsBack(u[j]);
    }
    forall n ensures n in lines <==> NatToString(n) in ls {
      if NatToString(n) in ls {
        var i :| 0 <= i < |ls| && ls[i] == NatToString(n);
        NatToStringReadsBack(n);
        NatToStringReadsBack(u[i]);
        assert u[i] == n;
      }
      if n in lines {
        var i :| 0 <= i < |u| && u[i] == n;
        assert ls[i] == NatToString(n);
      }
    }
  }

  function Occurrences(files: seq<(string, seq<nat>)>): (r: seq<string>)
    ensures |r| == |files|
    ensures forall i :: 0 <= i < |files| ==> r[i] == Occurrence(files[i].0, files[i].1)
  {
    if files == [] then []
    else Occurrences(files[..|files| - 1]) + [Occurrence(files[|files| - 1].0, files[|files| - 1].1)]
  }

  /** `str_replace($paths, '', $s)`: each path removed in turn, in list order. */
  function StripPaths(s: string, paths: seq<string>): string
    decreases |paths|
  {
    if paths == [] then s else StripPaths(StrReplace(s, paths[0], ""), paths[1..])
  }

  /** The reference string: occurrences joined by newlines, scan roots stripped, separators made `/`. */
  function References(files: seq<(string, seq<nat>)>, paths: seq<string>, separator: string): string {
    StrReplace(StripPaths(Join("\n", Occurrences(files)), paths), separator, "/")
  }

  /** A one-character directory separator other than `/` no longer appears in a reference string. */
  lemma ReferencesUseForwardSlash(files: seq<(string, seq<nat>)>, paths: seq<string>, separator: string)
    requires |separator| == 1 && separator != "/"
    ensures separator[0] !in References(files, paths, separator)
  {
    assert separator == [separator[0]];
    ReplaceCharRemovesIt(StripPaths(Join("\n", Occurrences(files)), paths), separator[0], "/");
  }

  /** The scan roots plus the application directory, shortest first (the `usort` at the top). */
  function StripOrder(paths: seq<string>, app: string): (r: seq<string>)
    ensures SortedByLength(r)
    ensures multiset(r) == multiset(paths + [app])
  {
    SortByLength(paths + [app])
  }

  /** The `--domains` option: a list when the option is truthy, else no filter. */
  function DomainFilter(option: string): Option<seq<string>> {
    if Truthy(option) then Some(Explode(",", option)) else None
  }

  predicate Skipped(domains: Option<seq<string>>, domain: string) {
    domains.Some? && |domains.value| > 0 && domain !in domains.value
  }

  /** The settings `_saveMessages` reads: filter, merge flag, `--no-location`, strip list, separator. */
  datatype Settings = Settings(
    domains: Option<seq<string>>, merge: bool, noLocation: bool, paths: seq<string>, separator: string)

  /** The `_save` call for one context of one message. */
  function RequestFor(domain: string, msgid: string, context: string, entry: Entry, s: Settings): SaveRequest {
    SaveRequest(
      domain, msgid, entry.plural,
      if Truthy(context) then Some(context) else None,
      if s.noLocation then None else Some(References(entry.references, s.paths, s.separator)))
  }

  function ContextRequests(domain: string, msgid: string, contexts: Contexts, s: Settings): (r: seq<SaveRequest>)
    ensures |r| == |contexts|
  {
    if contexts == [] then []
    else
      var last := contexts[|contexts| - 1];
      ContextRequests(domain, msgid, contexts[..|contexts| - 1], s) + [RequestFor(domain, msgid, last.0, last.1, s)]
  }

  function MessageRequests(domain: string, messages: MessageList, s: Settings): seq<SaveRequest> {
    if messages == [] then []
    else
      var last := messages[|messages| - 1];
      MessageRequests(domain, messages[..|messages| - 1], s) + ContextRequests(domain, last.0, last.1, s)
  }

  /** The `_save` calls for one domain: none when filtered out; under `'default'` when merging. */
  function DomainRequests(domain: string, messages: MessageList, s: Settings): seq<SaveRequest> {
    if Skipped(s.domains, domain) then []
    else MessageRequests(if s.merge then "default" else domain, messages, s)
  }

  /** Every `_save` call of `_saveMessages`, in order. */
  function Requests(translations: Translations, s: Settings): seq<SaveRequest> {
    if translations == [] then []
    else
      var last := translations[|translations| - 1];
      Requests(translations[..|translations| - 1], s) + DomainRequests(last.0, last.1, s)
  }

  lemma ContextRequestsSnoc(domain: string, msgid: string, contexts: Contexts, c: nat, s: Settings)
    requires c < |contexts|
    ensures ContextRequests(domain, msgid, contexts[..c + 1], s)
         == ContextRequests(domain, msgid, contexts[..c], s) + [RequestFor(domain, msgid, contexts[c].0, contexts[c].1, s)]
  {
    assert contexts[..c + 1][..c] == contexts[..c];
  }

  lemma MessageRequestsSnoc(domain: string, messages: MessageList, m: nat, s: Settings)
    requires m < |messages|
    ensures MessageRequests(domain, messages[..m + 1], s)
         == MessageRequests(domain, messages[..m], s) + ContextRequests(domain, messages[m].0, messages[m].1, s)
  {
    assert messages[..m + 1][..m] == messages[..m];
  }

  lemma RequestsSnoc(translations: Translations, d: nat, s: Settings)
    requires d < |translations|
    ensures Requests(translations[..d + 1], s)
         == Requests(translations[..d], s) + DomainRequests(translations[d].0, translations[d].1, s)
  {
    assert translations[..d + 1][..d] == translations[..d];
  }

  /** The i-th `_save` call for a message is the one for its i-th context. */
  lemma {:induction false} ContextRequestAt(domain: string, msgid: string, contexts: Contexts, s: Settings, i: nat)
    requires i < |contexts|
    ensures ContextRequests(domain, msgid, contexts, s)[i] == RequestFor(domain, msgid, contexts[i].0, contexts[i].1, s)
    decreases |contexts|
  {
    var init := contexts[..|contexts| - 1];
    var last := contexts[|contexts| - 1];
    assert ContextRequests(domain, msgid, contexts, s)
        == ContextRequests(domain, msgid, init, s) + [RequestFor(domain, msgid, last.0, last.1, s)];
    if i < |init| {
      ContextRequestAt(domain, msgid, init, s, i);
      assert init[i] == contexts[i];
    }
  }

  /**
   * The i-th `_save` call for a message carries the i-th context: its
   * plural, the context itself when truthy (null otherwise), and the
   * references of that context (null under `--no-location`).
   */
  lemma ContextRequestsContents(domain: string, msgid: string, contexts: Contexts, s: Settings)
    ensures |ContextRequests(domain, msgid, contexts, s)| == |contexts|
    ensures forall i :: 0 <= i < |contexts| ==>
      var r := ContextRequests(domain, msgid, contexts, s)[i];
      && r.domain == domain && r.singular == msgid
      && r.plural == contexts[i].1.plural
      && r.context == (if Truthy(contexts[i].0) then Some(contexts[i].0) else None)
      && r.refs == (if s.noLocation then None else Some(References(contexts[i].1.references, s.paths, s.separator)))
  {
    forall i | 0 <= i < |contexts|
      ensures ContextRequests(domain, msgid, contexts, s)[i] == RequestFor(domain, msgid, contexts[i].0, contexts[i].1, s)
    {
      ContextRequestAt(domain, msgid, contexts, s, i);
    }
  }

  /** Every context of a message gets its `_save` call. */
  lemma ContextRequestsComplete(domain: string, msgid: string, contexts: Contexts, s: Settings)
    ensures forall c :: c in contexts ==> RequestFor(domain, msgid, c.0, c.1, s) in ContextRequests(domain, msgid, contexts, s)
  {
    forall c | c in contexts ensures RequestFor(domain, msgid, c.0, c.1, s) in ContextRequests(domain, msgid, contexts, s) {
      var i :| 0 <= i < |contexts| && contexts[i] == c;
      ContextRequestAt(domain, msgid, contexts, s, i);
    }
  }

  /** A `_save` call for one message of a domain is among the calls for all its messages. */
  lemma {:induction false} ContextRequestIncluded(domain: string, messages: MessageList, s: Settings, m: (string, Contexts), q: SaveRequest)
    requires m in messages && q in ContextRequests(domain, m.0, m.1, s)
    ensures q in MessageRequests(domain, messages, s)
    decreases |messages|
  {
    var n := |messages| - 1;
    var init := messages[..n];
    var last := messages[n];
    var before := MessageRequests(domain, init, s);
    var here := ContextRequests(domain, last.0, last.1, s);
    assert MessageRequests(domain, messages, s) == before + here;
    if m == last {
      assert q in here;
    } else {
      assert m in init;
      ContextRequestIncluded(domain, init, s, m, q);
      assert q in before;
    }
  }

  /** Every context of every message of a domain gets its `_save` call. */
  lemma MessageRequestsComplete(domain: string, messages: MessageList, s: Settings)
    ensures forall m, c :: m in messages && c in m.1 ==> RequestFor(domain, m.0, c.0, c.1, s) in MessageRequests(domain, messages, s)
  {
    forall m, c | m in messages && c in m.1 ensures RequestFor(domain, m.0, c.0, c.1, s) in MessageRequests(domain, messages, s) {
      ContextRequestsComplete(domain, m.0, m.1, s);
      ContextRequestIncluded(domain, messages, s, m, RequestFor(domain, m.0, c.0, c.1, s));
    }
  }

  /** A `_save` call for the messages of a domain that passes the filter is among all the calls. */
  lemma {:induction false} DomainRequestIncluded(translations: Translations, s: Settings, t: (string, MessageList), q: SaveRequest)
    requires t in translations && !Skipped(s.domains, t.0)
    requires q in MessageRequests(if s.merge then "default" else t.0, t.1, s)
    ensures q in Requests(translations, s)
    decreases |translations|
  {
    var n := |translations| - 1;
    var init := translations[..n];
    var last := translations[n];
    var before := Requests(init, s);
    var here := DomainRequests(last.0, last.1, s);
    assert Requests(translations, s) == before + here;
    if t == last {
      assert q in here;
    } else {
      assert t in init;
      DomainRequestIncluded(init, s, t, q);
      assert q in before;
    }
  }

  /**
   * Completeness: every (msgid, context) of a domain that passes the
   * `--domains` filter is saved, under `'default'` when merging.
   */
  lemma RequestsComplete(translations: Translations, s: Settings)
    ensures forall t, m, c :: t in translations && !Skipped(s.domains, t.0) && m in t.1 && c in m.1 ==>
      RequestFor(if s.merge then "default" else t.0, m.0, c.0, c.1, s) in Requests(translations, s)
  {
    forall t, m, c | t in translations && !Skipped(s.domains, t.0) && m in t.1 && c in m.1
      ensures RequestFor(if s.merge then "default" else t.0, m.0, c.0, c.1, s) in Requests(translations, s)
    {
      var d := if s.merge then "default" else t.0;
      MessageRequestsComplete(d, t.1, s);
      DomainRequestIncluded(translations, s, t, RequestFor(d, m.0, c.0, c.1, s));
    }
  }

  /** A `_save` call comes from some context of some message of a domain that passes the filter. */
  lemma {:induction false} RequestOrigin(translations: Translations, s: Settings, r: SaveRequest)
    returns (t: (string, MessageList), m: (string, Contexts), c: (string, Entry))
    requires r in Requests(translations, s)
    ensures t in translations && !Skipped(s.domains, t.0) && m in t.1 && c in m.1
    ensures r == RequestFor(if s.merge then "default" else t.0, m.0, c.0, c.1, s)
    decreases |translations|
  {
    var init := translations[..|translations| - 1];
    var last := translations[|translations| - 1];
    assert Requests(translations, s) == Requests(init, s) + DomainRequests(last.0, last.1, s);
    if r in Requests(init, s) {
      t, m, c := RequestOrigin(init, s, r);
      assert t in translations;
    } else {
      t := last;
      m, c := MessageRequestOrigin(if s.merge then "default" else last.0, last.1, s, r);
    }
  }

  /**
   * Soundness: every `_save` call is the one for some context of some
   * message of a domain that passes the filter.
   */
  lemma RequestsSound(translations: Translations, s: Settings)
    ensures forall r :: r in Requests(translations, s) ==>
      exists t, m, c ::
        t in translations && !Skipped(s.domains, t.0) && m in t.1 && c in m.1
        && r == RequestFor(if s.merge then "default" else t.0, m.0, c.0, c.1, s)
  {
    forall r | r in Requests(translations, s)
      ensures exists t, m, c ::
                t in translations && !Skipped(s.domains, t.0) && m in t.1 && c in m.1
                && r == RequestFor(if s.merge then "default" else t.0, m.0, c.0, c.1, s)
    {
      var t, m, c := RequestOrigin(translations, s, r);
    }
  }

  /** A `_save` call for a domain's messages comes from one of its contexts. */
  lemma {:induction false} MessageRequestOrigin(domain: string, messages: MessageList, s: Settings, r: SaveRequest)
    returns (m: (string, Contexts), c: (string, Entry))
    requires r in MessageRequests(domain, messages, s)
    ensures m in messages && c in m.1 && r == RequestFor(domain, m.0, c.0, c.1, s)
    decreases |messages|
  {
    var init := messages[..|messages| - 1];
    var last := messages[|messages| - 1];
    assert MessageRequests(domain, messages, s) == MessageRequests(domain, init, s) + ContextRequests(domain, last.0, last.1, s);
    if r in MessageRequests(domain, init, s) {
      m, c := MessageRequestOrigin(domain, init, s, r);
      assert m in messages;
    } else {
      m := last;
      c := ContextRequestOrigin(domain, last.0, last.1, s, r);
    }
  }

  /** A `_save` call for one message comes from one of its contexts. */
  lemma ContextRequestOrigin(domain: string, msgid: string, contexts: Contexts, s: Settings, r: SaveRequest)
    returns (c: (string, Entry))
    requires r in ContextRequests(domain, msgid, contexts, s)
    ensures c in contexts && r == RequestFor(domain, msgid, c.0, c.1, s)
  {
    var i :| 0 <= i < |ContextRequests(domain, msgid, contexts, s)| && ContextRequests(domain, msgid, contexts, s)[i] == r;
    ContextRequestAt(domain, msgid, contexts, s, i);
    c := contexts[i];
  }

  /**
   * After `_saveMessages`, every message of every domain that passes the
   * filter has a record for every locale (under `'default'` when merging).
   */
  lemma SavedForEveryLocale(records: seq<Record>, locales: seq<string>, translations: Translations, s: Settings)
    ensures forall t, m, c, l :: t in translations && !Skipped(s.domains, t.0) && m in t.1 && c in m.1 && l in locales ==>
      HasKey(SaveAll(records, locales, Requests(translations, s)), if s.merge then "default" else t.0, l, m.0)
  {
    RequestsComplete(translations, s);
    SaveAllExtends(records, locales, Requests(translations, s));
    forall t, m, c, l | t in translations && !Skipped(s.domains, t.0) && m in t.1 && c in m.1 && l in locales
      ensures HasKey(SaveAll(records, locales, Requests(translations, s)), if s.merge then "default" else t.0, l, m.0)
    {
      var q := RequestFor(if s.merge then "default" else t.0, m.0, c.0, c.1, s);
      assert q in Requests(translations, s);
    }
  }
}
