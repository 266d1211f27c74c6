/**
 * `_getLanguages`: the locale list. The `--languages` option, when truthy,
 * is split on commas; otherwise the `I18n.languages` configuration is
 * normalized as CakePHP's `Hash::normalize` does and every entry gives its
 * `locale` setting or, failing that, its key.
 */
module Languages {
  import opened Wrappers
  import Text

  /**
   * One configured language: a bare list item (`'fr'`, which normalizes to
   * the key `'fr'` with a null value) or a keyed item whose settings may
   * carry a `locale`.
   */
  datatype LanguageEntry = Listed(name: string) | Keyed(key: string, locale: Option<string>)

  function KeyOf(e: LanguageEntry): string {
    match e
    case Listed(name) => name
    case Keyed(key, _) => key
  }

  function SettingOf(e: LanguageEntry): Option<string> {
    match e
    case Listed(_) => None
    case Keyed(_, locale) => locale
  }

  /** A normalized configuration: an ordered array from key to its `locale` setting. */
  type Normalized = seq<(string, Option<string>)>

  predicate UniqueKeys(m: Normalized) {
    forall i, j :: 0 <= i < j < |m| ==> m[i].0 != m[j].0
  }

  function Keys(m: Normalized): set<string> {
    if m == [] then {} else {m[0].0} + Keys(m[1..])
  }

  /** A key is among the keys exactly when some entry has it. */
  lemma {:induction false} InKeys(m: Normalized, y: string)
    ensures y in Keys(m) <==> exists i :: 0 <= i < |m| && m[i].0 == y
    decreases |m|
  {
    if m != [] {
      InKeys(m[1..], y);
      if exists i :: 0 <= i < |m| && m[i].0 == y {
        var i :| 0 <= i < |m| && m[i].0 == y;
        if i > 0 {
          assert m[1..][i - 1].0 == y;
        }
      }
      if exists i :: 0 <= i < |m[1..]| && m[1..][i].0 == y {
        var i :| 0 <= i < |m[1..]| && m[1..][i].0 == y;
        assert m[i + 1].0 == y;
      }
    }
  }

  /** The first binding of `k`, as PHP's `$array[$k]` reads it. */
  function Lookup(m: Normalized, k: string): Option<Option<string>> {
    if m == [] then None
    else if m[0].0 == k then Some(m[0].1)
    else Lookup(m[1..], k)
  }

  /** `$m[$k] = $v`: an existing key keeps its position and takes the new value; a new key goes last. */
  function Assign(m: Normalized, k: string, v: Option<string>): (r: Normalized)
    ensures Keys(r) == Keys(m) + {k}
    ensures UniqueKeys(m) ==> UniqueKeys(r)
    ensures forall j :: Lookup(r, j) == if j == k then Some(v) else Lookup(m, j)
  {
    if m == [] then
      KeysCons((k, v), []);
      assert [(k, v)] == [(k, v)] + [];
      [(k, v)]
    else if m[0].0 == k then
      KeysCons(m[0], m[1..]);
      KeysCons((k, v), m[1..]);
      assert m == [m[0]] + m[1..];
      [(k, v)] + m[1..]
    else
      var rest := Assign(m[1..], k, v);
      KeysCons(m[0], m[1..]);
      KeysCons(m[0], rest);
      assert m == [m[0]] + m[1..];
      [m[0]] + rest
  }

  lemma KeysCons(x: (string, Option<string>), rest: Normalized)
    ensures Keys([x] + rest) == {x.0} + Keys(rest)
    ensures UniqueKeys([x] + rest) <==> UniqueKeys(rest) && x.0 !in Keys(rest)
  {
    var r := [x] + rest;
    assert r[1..] == rest;
    InKeys(rest, x.0);
    if UniqueKeys(r) {
      forall i, j | 0 <= i < j < |rest| ensures rest[i].0 != rest[j].0 {
        assert r[i + 1].0 != r[j + 1].0;
      }
      forall i | 0 <= i < |rest| ensures rest[i].0 != x.0 {
        assert r[i + 1].0 != r[0].0;
      }
    }
    if UniqueKeys(rest) && x.0 !in Keys(rest) {
      forall i, j | 0 <= i < j < |r| ensures r[i].0 != r[j].0 {
        if i > 0 { assert rest[i - 1].0 != rest[j - 1].0; }
        else { assert rest[j - 1].0 != x.0; }
      }
    }
  }

  /** `Hash::normalize`: list items become keys with a null value; keyed items keep their settings. */
  function Normalize(entries: seq<LanguageEntry>): (m: Normalized)
    ensures UniqueKeys(m)
  {
    if entries == [] then []
    else
      var last := entries[|entries| - 1];
      Assign(Normalize(entries[..|entries| - 1]), KeyOf(last), SettingOf(last))
  }

  /** The reference reading: the setting of the LAST entry with that key, if any. */
  function Latest(entries: seq<LanguageEntry>, k: string): Option<Option<string>> {
    if entries == [] then None
    else if KeyOf(entries[|entries| - 1]) == k then Some(SettingOf(entries[|entries| - 1]))
    else Latest(entries[..|entries| - 1], k)
  }

  /** Normalizing keeps exactly one key per configured key. */
  lemma {:induction false} NormalizeKeys(entries: seq<LanguageEntry>)
    ensures Keys(Normalize(entries)) == set e | e in entries :: KeyOf(e)
  {
    if entries != [] {
      var init := entries[..|entries| - 1];
      NormalizeKeys(init);
      assert entries == init + [entries[|entries| - 1]];
      assert (set e | e in entries :: KeyOf(e)) == (set e | e in init :: KeyOf(e)) + {KeyOf(entries[|entries| - 1])};
    }
  }

  /** Under every key, normalizing keeps the setting of the last entry that names it. */
  lemma {:induction false} NormalizeKeepsLastSetting(entries: seq<LanguageEntry>)
    ensures forall k :: Lookup(Normalize(entries), k) == Latest(entries, k)
  {
    if entries != [] {
      NormalizeKeepsLastSetting(entries[..|entries| - 1]);
    }
  }

  /** The keys of a normalized array, in order. */
  function KeySeq(m: Normalized): (r: seq<string>)
    ensures |r| == |m|
    ensures forall i :: 0 <= i < |m| ==> r[i] == m[i].0
  {
    if m == [] then [] else [m[0].0] + KeySeq(m[1..])
  }

  /** The configured keys, in configuration order, repeats included. */
  function KeyList(entries: seq<LanguageEntry>): (r: seq<string>)
    ensures |r| == |entries|
    ensures forall i :: 0 <= i < |entries| ==> r[i] == KeyOf(entries[i])
  {
    if entries == [] then [] else KeyList(entries[..|entries| - 1]) + [KeyOf(entries[|entries| - 1])]
  }

  /** Assigning to a present key keeps the key order; assigning a new key puts it last. */
  lemma {:induction false} AssignKeySeq(m: Normalized, k: string, v: Option<string>)
    ensures KeySeq(Assign(m, k, v)) == if k in KeySeq(m) then KeySeq(m) else KeySeq(m) + [k]
  {
    if m != [] {
      var first := m[0].0;
      var tail := KeySeq(m[1..]);
      assert KeySeq(m) == [first] + tail;
      if first == k {
        assert Assign(m, k, v) == [(k, v)] + m[1..];
        KeySeqCons((k, v), m[1..]);
        assert k in KeySeq(m);
      } else {
        var rest := Assign(m[1..], k, v);
        assert Assign(m, k, v) == [m[0]] + rest;
        KeySeqCons(m[0], rest);
        AssignKeySeq(m[1..], k, v);
        if k in tail {
          assert k in KeySeq(m);
        } else {
          assert k !in KeySeq(m);
          assert [first] + (tail + [k]) == KeySeq(m) + [k];
        }
      }
    }
  }

  lemma KeySeqCons(x: (string, Option<string>), rest: Normalized)
    ensures KeySeq([x] + rest) == [x.0] + KeySeq(rest)
  {
    assert ([x] + rest)[1..] == rest;
  }

  /**
   * `Hash::normalize` puts each key at the position where it first appears
   * in the configuration: its keys, in order, are the configured keys with
   * repeats dropped (as `array_unique` drops them).
   */
  lemma {:induction false} NormalizeKeepsFirstPosition(entries: seq<LanguageEntry>)
    ensures KeySeq(Normalize(entries)) == Text.Unique(KeyList(entries))
  {
    if entries != [] {
      var init := entries[..|entries| - 1];
      var last := entries[|entries| - 1];
      NormalizeKeepsFirstPosition(init);
      AssignKeySeq(Normalize(init), KeyOf(last), SettingOf(last));
      var ks := KeyList(entries);
      assert ks[..|ks| - 1] == KeyList(init);
      assert ks[|ks| - 1] == KeyOf(last);
    }
  }

  /** The locale of one normalized entry: its `locale` setting when set, else its key. */
  function LocaleOf(entry: (string, Option<string>)): string {
    if entry.1.Some? then entry.1.value else entry.0
  }

  /** The reference list: one locale per normalized entry, in order. */
  function Locales(m: Normalized): (r: seq<string>)
    ensures |r| == |m|
    ensures forall i :: 0 <= i < |m| ==> r[i] == LocaleOf(m[i])
  {
    if m == [] then [] else Locales(m[..|m| - 1]) + [LocaleOf(m[|m| - 1])]
  }
}
