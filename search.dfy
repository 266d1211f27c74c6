/**
 * The exclude filter of `_searchFiles`, applied to file listings that are
 * given (the directory walk, `realpath` and the sort are not part of this
 * model).
 */
module Search {
  import opened Text

  /**
   * An exclude entry as matched: prefixed with the directory separator
   * unless the separator is a backslash or the entry already starts with it
   * (an empty entry reads its first character as `""`, so it is prefixed).
   */
  function Needle(e: string, separator: char): (n: string)
    ensures separator != '\\' ==> |n| > 0 && n[0] == separator
    ensures n == e || n == [separator] + e
  {
    if separator != '\\' && (e == [] || e[0] != separator) then [separator] + e else e
  }

  function Needles(exclude: seq<string>, separator: char): (r: seq<string>)
    ensures |r| == |exclude|
    ensures forall i :: 0 <= i < |exclude| ==> r[i] == Needle(exclude[i], separator)
  {
    if exclude == [] then [] else Needles(exclude[..|exclude| - 1], separator) + [Needle(exclude[|exclude| - 1], separator)]
  }

  /** The alternation pattern matches `file` exactly when one needle is a substring of it. */
  predicate MatchesAny(file: string, needles: seq<string>) {
    exists n :: n in needles && Contains(file, n)
  }

  /** Whether `_searchFiles` keeps a file: no exclude list, or no needle occurs in it. */
  predicate Allowed(file: string, exclude: seq<string>, separator: char) {
    exclude == [] || !MatchesAny(file, Needles(exclude, separator))
  }

  /** `preg_grep(..., PREG_GREP_INVERT)` with no pattern when the exclude list is empty. */
  function Remaining(files: seq<string>, exclude: seq<string>, separator: char): (r: seq<string>)
    ensures |r| <= |files|
  {
    if files == [] then []
    else
      var rest := Remaining(files[..|files| - 1], exclude, separator);
      if Allowed(files[|files| - 1], exclude, separator) then rest + [files[|files| - 1]] else rest
  }

  /** The filter keeps exactly the allowed files. */
  lemma {:induction false} RemainingFiles(files: seq<string>, exclude: seq<string>, separator: char)
    ensures forall f :: f in Remaining(files, exclude, separator) <==> f in files && Allowed(f, exclude, separator)
  {
    if files != [] {
      var init := files[..|files| - 1];
      var last := files[|files| - 1];
      RemainingFiles(init, exclude, separator);
      assert files == init + [last];
      forall f ensures f in Remaining(files, exclude, separator) <==> f in files && Allowed(f, exclude, separator) {
        assert f in files <==> f in init || f == last;
      }
    }
  }

  /** With no exclude entries nothing is filtered out. */
  lemma {:induction false} NothingExcluded(files: seq<string>, separator: char)
    ensures Remaining(files, [], separator) == files
  {
    if files != [] {
      NothingExcluded(files[..|files| - 1], separator);
      assert files == files[..|files| - 1] + [files[|files| - 1]];
    }
  }

  /** The listings of every scan root, each filtered, merged in order. */
  function Gathered(listings: seq<seq<string>>, exclude: seq<string>, separator: char): seq<string> {
    if listings == [] then []
    else Gathered(listings[..|listings| - 1], exclude, separator) + Remaining(listings[|listings| - 1], exclude, separator)
  }

  lemma GatheredSnoc(listings: seq<seq<string>>, p: nat, exclude: seq<string>, separator: char)
    requires p < |listings|
    ensures Gathered(listings[..p + 1], exclude, separator)
         == Gathered(listings[..p], exclude, separator) + Remaining(listings[p], exclude, separator)
  {
    assert listings[..p + 1][..p] == listings[..p];
  }

  /** A file is gathered exactly when some listing has it and no exclude entry matches it. */
  lemma {:induction false} GatheredFiles(listings: seq<seq<string>>, exclude: seq<string>, separator: char)
    ensures forall f :: f in Gathered(listings, exclude, separator) <==>
      (exists l :: l in listings && f in l) && Allowed(f, exclude, separator)
  {
    if listings != [] {
      var init := listings[..|listings| - 1];
      var last := listings[|listings| - 1];
      GatheredFiles(init, exclude, separator);
      RemainingFiles(last, exclude, separator);
      forall f ensures f in Gathered(listings, exclude, separator) <==>
        (exists l :: l in listings && f in l) && Allowed(f, exclude, separator)
      {
        if exists l :: l in listings && f in l {
          var l :| l in listings && f in l;
          if l != last {
            var i :| 0 <= i < |listings| && listings[i] == l;
            assert l in init;
          }
        }
        if exists l :: l in init && f in l {
          var l :| l in init && f in l;
          assert l in listings;
        }
        assert last in listings;
      }
    }
  }
}
