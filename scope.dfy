/**
 * Scope resolution: how a `(scope, key, separator)` triple becomes the page that
 * names a bucket and the item key used inside that bucket.
 */
module Scope {
  import opened Values

  // ---- Whitespace and trimming ----------------------------------------------

  /**
   * `\s` in a JavaScript regular expression, which is also the set of code points
   * `String.prototype.trim` removes: WhiteSpace and LineTerminator.
   */
  predicate IsSpace(c: char)
  {
    || c == '\t' || c == '\n' || c == '\U{B}' || c == '\U{C}' || c == '\r' || c == ' '
    || c == '\U{A0}' || c == '\U{1680}' || ('\U{2000}' <= c <= '\U{200A}')
    || c == '\U{2028}' || c == '\U{2029}' || c == '\U{202F}' || c == '\U{205F}'
    || c == '\U{3000}' || c == '\U{FEFF}'
  }

  predicate AllSpace(s: string)
  {
    forall i | 0 <= i < |s| :: IsSpace(s[i])
  }

  /** Drops trailing whitespace. */
  function TrimEnd(s: string): (r: string)
    ensures r <= s
    ensures AllSpace(s[|r|..])
    ensures r == [] || !IsSpace(r[|r| - 1])
  {
    if s != [] && IsSpace(s[|s| - 1]) then TrimEnd(s[..|s| - 1]) else s
  }

  /** Drops leading whitespace. */
  function TrimStart(s: string): (r: string)
    ensures |r| <= |s| && r == s[|s| - |r|..]
    ensures AllSpace(s[..|s| - |r|])
    ensures r == [] || !IsSpace(r[0])
  {
    if s != [] && IsSpace(s[0]) then TrimStart(s[1..]) else s
  }

  /** `String.prototype.trim`. */
  function Trim(s: string): (r: string)
    ensures Trimmed(r)
    ensures |r| <= |s|
    ensures Trimmed(s) ==> r == s
  {
    TrimStart(TrimEnd(s))
  }

  /** `trim()` keeps the middle of the string: it only drops whitespace at either end. */
  lemma TrimKeepsMiddle(s: string)
    ensures var r := Trim(s);
      exists i | 0 <= i <= |s| - |r| :: r == s[i..i + |r|] && AllSpace(s[..i]) && AllSpace(s[i + |r|..])
  {
    var e := TrimEnd(s);
    var r := TrimStart(e);
    assert Trim(s) == r;
    var i := |e| - |r|;
    assert e == s[..|e|];
    assert r == e[i..];
    assert s[i..i + |r|] == r;
    assert s[..i] == e[..i];
    assert AllSpace(s[..i]);
    assert AllSpace(s[i + |r|..]);
  }

  /** A string without whitespace at either end. */
  predicate Trimmed(s: string)
  {
    s == [] || (!IsSpace(s[0]) && !IsSpace(s[|s| - 1]))
  }

  // ---- The trailing strip ----------------------------------------------------

  /**
   * The strings the pattern `\s*\/?\s*` matches in full: whitespace around at
   * most one `/`.
   */
  predicate TailPattern(t: string)
  {
    && (forall i | 0 <= i < |t| :: IsSpace(t[i]) || t[i] == '/')
    && (forall i, j | 0 <= i < j < |t| :: !(t[i] == '/' && t[j] == '/'))
  }

  /**
   * `scope.replace(/\s*\/?\s*$/g, "")`: trailing whitespace, then at most one
   * `/`, then the whitespace before it. The `/` is fixed, whatever separator the
   * facade is configured with.
   */
  function StripTrailing(s: string): (r: string)
    ensures r <= s
    ensures r == [] || !IsSpace(r[|r| - 1])
  {
    var t := TrimEnd(s);
    if t != [] && t[|t| - 1] == '/' then TrimEnd(t[..|t| - 1]) else t
  }

  lemma AllSpaceIsTail(a: string)
    requires AllSpace(a)
    ensures TailPattern(a)
  {
  }

  lemma BlanksAroundSlashIsTail(a: string, b: string)
    requires AllSpace(a) && AllSpace(b)
    ensures TailPattern(a + ['/'] + b)
  {
    var t := a + ['/'] + b;
    forall i | 0 <= i < |t| ensures IsSpace(t[i]) || t[i] == '/'
    {
      if i < |a| { assert t[i] == a[i]; } else if i > |a| { assert t[i] == b[i - |a| - 1]; }
    }
    forall i, j | 0 <= i < j < |t| ensures !(t[i] == '/' && t[j] == '/')
    {
      if i < |a| { assert t[i] == a[i]; }
      else { assert t[j] == b[j - |a| - 1]; }
    }
  }

  /**
   * The strip removes exactly the leftmost match of the anchored pattern: what is
   * removed matches it, and no longer suffix does.
   */
  lemma StripTrailingIsLeftmostMatch(s: string)
    ensures StripTrailing(s) <= s
    ensures TailPattern(s[|StripTrailing(s)|..])
    ensures forall i | 0 <= i < |StripTrailing(s)| :: !TailPattern(s[i..])
  {
    var t := TrimEnd(s);
    var r := StripTrailing(s);
    var slash := t != [] && t[|t| - 1] == '/';
    if slash {
      var u := t[..|t| - 1];
      assert r == TrimEnd(u);
      assert s == u + ['/'] + s[|t|..];
      assert u == r + u[|r|..];
      assert s[|r|..] == u[|r|..] + ['/'] + s[|t|..];
      BlanksAroundSlashIsTail(u[|r|..], s[|t|..]);
    } else {
      AllSpaceIsTail(s[|r|..]);
    }
    forall i | 0 <= i < |r| ensures !TailPattern(s[i..])
    {
      var x := s[i..];
      assert x[|r| - 1 - i] == r[|r| - 1];
      if r[|r| - 1] == '/' {
        assert slash;
        assert x[|t| - 1 - i] == '/';
      }
    }
  }

  lemma TrimEndOfBlanks(s: string, w: string)
    requires s == [] || !IsSpace(s[|s| - 1])
    requires AllSpace(w)
    ensures TrimEnd(s + w) == s
    decreases |w|
  {
    if w != [] {
      assert (s + w)[..|s + w| - 1] == s + w[..|w| - 1];
      TrimEndOfBlanks(s, w[..|w| - 1]);
    } else {
      assert s + w == s;
    }
  }

  /** A scope that ends in neither whitespace nor `/`. */
  predicate CleanEnd(s: string)
  {
    s == [] || (!IsSpace(s[|s| - 1]) && s[|s| - 1] != '/')
  }

  /** A scope with a clean end has nothing to strip. */
  lemma StripTrailingOfClean(s: string)
    requires CleanEnd(s)
    ensures StripTrailing(s) == s
  {
    TrimEndOfBlanks(s, []);
    assert s + [] == s;
  }

  /** One trailing `/` after a clean end is stripped. */
  lemma StripTrailingOneSlash(s: string)
    requires CleanEnd(s)
    ensures StripTrailing(s + "/") == s
  {
    var x := s + "/";
    TrimEndOfBlanks(x, []);
    assert x + [] == x;
    assert x[..|x| - 1] == s;
    StripTrailingOfClean(s);
  }

  /** Trailing whitespace, with at most one `/` inside it, is stripped completely. */
  lemma StripTrailingBlanksAndSlash(s: string, w1: string, w2: string)
    requires CleanEnd(s) && AllSpace(w1) && AllSpace(w2)
    ensures StripTrailing(s) == s
    ensures StripTrailing(s + w1) == s
    ensures StripTrailing(s + w1 + "/" + w2) == s
  {
    TrimEndOfBlanks(s, []);
    assert s + [] == s;
    TrimEndOfBlanks(s, w1);
    var x := s + w1 + "/";
    TrimEndOfBlanks(x, w2);
    assert x[..|x| - 1] == s + w1;
  }

  // ---- Finding the separator -------------------------------------------------

  predicate OccursAt(s: string, sep: string, i: int)
  {
    0 <= i && i + |sep| <= |s| && s[i..i + |sep|] == sep
  }

  function IndexFrom(s: string, sep: string, from: nat): (r: Option<nat>)
    requires from <= |s|
    ensures r.Some? ==> from <= r.value && OccursAt(s, sep, r.value)
    ensures forall j | from <= j && (r.None? || j < r.value) :: !OccursAt(s, sep, j)
    decreases |s| - from
  {
    if from + |sep| > |s| then None
    else if s[from..from + |sep|] == sep then Some(from)
    else (assert sep != []; IndexFrom(s, sep, from + 1))
  }

  /** `String.prototype.indexOf`: the first position where `sep` occurs, if any. */
  function IndexOf(s: string, sep: string): (r: Option<nat>)
    ensures r.Some? ==> OccursAt(s, sep, r.value)
    ensures forall j | 0 <= j && (r.None? || j < r.value) :: !OccursAt(s, sep, j)
  {
    IndexFrom(s, sep, 0)
  }

  /** An occurrence inside a prefix is an occurrence in the whole string. */
  lemma OccurrenceInPrefix(s: string, sep: string, p: string)
    requires p <= s
    ensures forall j :: OccursAt(p, sep, j) ==> OccursAt(s, sep, j)
  {
    forall j | OccursAt(p, sep, j) ensures OccursAt(s, sep, j)
    {
      assert s[j..j + |sep|] == p[j..j + |sep|];
    }
  }

  lemma IndexOfAbsentChar(s: string, c: char)
    requires c !in s
    ensures IndexOf(s, [c]) == None
  {
    forall j | 0 <= j < |s| ensures !OccursAt(s, [c], j)
    {
      assert s[j..j + 1][0] == s[j];
    }
  }

  lemma IndexOfFirstChar(page: string, c: char, rest: string)
    requires c !in page
    ensures IndexOf(page + [c] + rest, [c]) == Some(|page|)
  {
    var s := page + [c] + rest;
    assert s[|page|..|page| + 1] == [c];
    forall j | 0 <= j < |page| ensures !OccursAt(s, [c], j)
    {
      assert s[j..j + 1][0] == s[j] == page[j];
    }
    var r := IndexOf(s, [c]);
    assert OccursAt(s, [c], |page|);
    assert r.Some?;
    assert r.value <= |page|;
  }

  // ---- Page and item key -----------------------------------------------------

  const GlobalPage: string := "global"

  /** `isGlobalStore`. */
  predicate IsGlobalStore(page: string)
    ensures IsGlobalStore(page) <==> page == GlobalPage
  {
    page == GlobalPage
  }

  /** The page part and the subpath part of a stripped scope, both trimmed. */
  function SplitScope(s: string, separator: string): (r: (string, string))
    ensures Trimmed(r.0) && Trimmed(r.1)
    ensures IndexOf(s, separator).None? ==> r.1 == ""
  {
    match IndexOf(s, separator)
    case Some(idx) => (Trim(s[..idx]), Trim(s[idx + |separator|..]))
    case None => (Trim(s), "")
  }

  /**
   * `page` is absent when the page part is empty, so that callers substitute the
   * default page.
   */
  datatype Resolved = Resolved(page: Option<string>, itemKey: string)

  function PageOf(page: string): (r: Option<string>)
    ensures r.None? <==> page == ""
    ensures r.Some? ==> r.value == page
  {
    if page == "" then None else Some(page)
  }

  /** `${keyPrefix}${key}`, or the bare key on the global page. */
  function ItemKey(page: string, subpath: string, key: string): (r: string)
    ensures |key| <= |r| && r[|r| - |key|..] == key
    ensures r == key <==> IsGlobalStore(page) || subpath == []
  {
    if IsGlobalStore(page) then key
    else if |subpath| > 0 then subpath + ">" + key
    else key
  }

  /** `getPageAndItemKey`. */
  function Resolve(scope: Value, key: string, separator: string): (r: Result<Resolved>)
    ensures r.Err? <==> !scope.Str?
    ensures r.Err? ==> r.error == InvalidScope
    ensures r.Ok? && r.value.page == Some(GlobalPage) ==> r.value.itemKey == key
    ensures r.Ok? ==> r.value.page != Some("")
  {
    if !scope.Str? then Err(InvalidScope)
    else
      var parts := SplitScope(StripTrailing(scope.s), separator);
      Ok(Resolved(PageOf(parts.0), ItemKey(parts.0, parts.1, key)))
  }

  // ---- What resolution promises ----------------------------------------------

  /** `indexOf` finds a separator of any length right after a prefix that holds none. */
  lemma IndexOfFirst(page: string, sep: string, rest: string)
    requires sep != []
    requires forall j | 0 <= j < |page| :: !OccursAt(page + sep + rest, sep, j)
    ensures IndexOf(page + sep + rest, sep) == Some(|page|)
  {
    var s := page + sep + rest;
    assert s[|page|..|page| + |sep|] == sep;
    assert OccursAt(s, sep, |page|);
  }

  /**
   * For any separator, the page part is the trimmed text before its first
   * occurrence and the subpath the trimmed text after it.
   */
  lemma SplitAtFirst(page: string, sep: string, rest: string)
    requires sep != []
    requires forall j | 0 <= j < |page| :: !OccursAt(page + sep + rest, sep, j)
    ensures SplitScope(page + sep + rest, sep) == (Trim(page), Trim(rest))
  {
    var s := page + sep + rest;
    IndexOfFirst(page, sep, rest);
    assert s[..|page|] == page;
    assert s[|page| + |sep|..] == rest;
  }

  lemma SplitAtFirstChar(page: string, c: char, rest: string)
    requires c !in page
    ensures SplitScope(page + [c] + rest, [c]) == (Trim(page), Trim(rest))
  {
    var s := page + [c] + rest;
    IndexOfFirstChar(page, c, rest);
    assert s[..|page|] == page;
    assert s[|page| + 1..] == rest;
  }

  lemma SplitTrimmedAtFirstChar(page: string, c: char, rest: string)
    requires c !in page && Trimmed(page) && Trimmed(rest)
    ensures SplitScope(page + [c] + rest, [c]) == (page, rest)
  {
    SplitAtFirstChar(page, c, rest);
  }

  /** Resolution in terms of the split of the stripped scope. */
  lemma ResolveOfSplit(s: string, key: string, separator: string, page: string, subpath: string)
    requires SplitScope(StripTrailing(s), separator) == (page, subpath)
    ensures Resolve(Str(s), key, separator) == Ok(Resolved(PageOf(page), ItemKey(page, subpath, key)))
  {
  }

  lemma ResolveWithSubpath(page: string, c: char, subpath: string, key: string)
    requires page != [] && Trimmed(page) && c !in page
    requires subpath != [] && Trimmed(subpath) && subpath[|subpath| - 1] != '/'
    ensures Resolve(Str(page + [c] + subpath), key, [c]) ==
      Ok(Resolved(Some(page), if page == GlobalPage then key else subpath + ">" + key))
  {
    var s := page + [c] + subpath;
    assert CleanEnd(s) by {
      assert s[|s| - 1] == subpath[|subpath| - 1];
    }
    StripTrailingOfClean(s);
    SplitTrimmedAtFirstChar(page, c, subpath);
    ResolveOfSplit(s, key, [c], page, subpath);
    assert ItemKey(page, subpath, key) == if page == GlobalPage then key else subpath + ">" + key;
  }

  lemma ResolveWithTrailingSeparator(page: string, c: char, key: string)
    requires page != [] && Trimmed(page) && c !in page && !IsSpace(c)
    ensures Resolve(Str(page + [c]), key, [c]) == Ok(Resolved(Some(page), key))
  {
    var s := page + [c];
    if c == '/' {
      assert CleanEnd(page) by {
        assert page[|page| - 1] in page;
      }
      StripTrailingOneSlash(page);
      IndexOfAbsentChar(page, c);
      assert SplitScope(StripTrailing(s), [c]) == (page, "");
    } else {
      StripTrailingOfClean(s);
      IndexOfFirstChar(page, c, []);
      assert s == page + [c] + [];
      assert s[..|page|] == page && s[|page| + 1..] == [];
      assert SplitScope(StripTrailing(s), [c]) == (page, "");
    }
  }

  /**
   * A scope `<page><c><subpath>` with a one-character separator `c`: the page is
   * the part before the first `c`, and the item key is `<subpath>>key`, or just
   * `key` when the subpath is empty or the page is "global".
   */
  lemma ResolvePageAndSubpath(page: string, c: char, subpath: string, key: string)
    requires page != [] && Trimmed(page) && c !in page && !IsSpace(c)
    requires subpath == [] || (Trimmed(subpath) && subpath[|subpath| - 1] != '/')
    ensures Resolve(Str(page + [c] + subpath), key, [c]) ==
      Ok(Resolved(Some(page),
                  if page == GlobalPage || subpath == [] then key else subpath + ">" + key))
  {
    if subpath == [] {
      assert page + [c] + subpath == page + [c];
      ResolveWithTrailingSeparator(page, c, key);
    } else {
      ResolveWithSubpath(page, c, subpath, key);
    }
  }

  /** Without the separator, the page is the whole trimmed scope and the key is not prefixed. */
  lemma ResolveWithoutSeparator(s: string, key: string, separator: string)
    requires forall j :: !OccursAt(s, separator, j)
    ensures Resolve(Str(s), key, separator) == Ok(Resolved(PageOf(Trim(StripTrailing(s))), key))
  {
    var r := StripTrailing(s);
    StripTrailingIsLeftmostMatch(s);
    OccurrenceInPrefix(s, separator, r);
    assert IndexOf(r, separator).None?;
    assert SplitScope(r, separator) == (Trim(r), "");
  }

  /** "home/ " and "home  " resolve like "home", for every separator. */
  lemma ResolveIgnoresTrailingSlash(s: string, w1: string, w2: string, key: string, separator: string)
    requires CleanEnd(s) && AllSpace(w1) && AllSpace(w2)
    ensures Resolve(Str(s + w1 + "/" + w2), key, separator) == Resolve(Str(s), key, separator)
    ensures Resolve(Str(s + w1), key, separator) == Resolve(Str(s), key, separator)
  {
    StripTrailingBlanksAndSlash(s, w1, w2);
  }

  /** A scope of blanks and at most one `/` has no page, and the key is used as it is. */
  lemma BlankScopeHasNoPage(s: string, key: string, separator: string)
    requires TailPattern(s)
    ensures Resolve(Str(s), key, separator) == Ok(Resolved(None, key))
  {
    StripTrailingIsLeftmostMatch(s);
    assert s[0..] == s;
    assert StripTrailing(s) == "";
    assert Trim("") == "";
    if separator == "" {
      assert ""[0..0] == separator;
      assert IndexOf("", separator) == Some(0);
    } else {
      assert IndexOf("", separator) == None;
    }
    assert SplitScope("", separator) == ("", "");
  }

  /**
   * The same for a separator of any length, such as "::": the page is the text
   * before the first separator and the item key is `<subpath>>key`, or just `key`
   * when the subpath is empty or the page is "global". The scope must end in
   * neither whitespace nor `/`, which the trailing strip would remove.
   */
  lemma ResolveAtSeparator(page: string, sep: string, subpath: string, key: string)
    requires sep != [] && page != [] && Trimmed(page) && Trimmed(subpath)
    requires forall j | 0 <= j < |page| :: !OccursAt(page + sep + subpath, sep, j)
    requires CleanEnd(page + sep + subpath)
    ensures Resolve(Str(page + sep + subpath), key, sep) ==
      Ok(Resolved(Some(page),
                  if page == GlobalPage || subpath == [] then key else subpath + ">" + key))
  {
    var s := page + sep + subpath;
    StripTrailingOfClean(s);
    SplitAtFirst(page, sep, subpath);
    ResolveOfSplit(s, key, sep, page, subpath);
    assert ItemKey(page, subpath, key) == if page == GlobalPage || subpath == [] then key else subpath + ">" + key;
  }

  /** "home::hotel" with the separator "::" resolves like "home/hotel" with "/". */
  lemma ResolveDoubleColon()
    ensures Resolve(Str("home::hotel"), "name", "::") == Ok(Resolved(Some("home"), "hotel>name"))
  {
    var s := "home::hotel";
    assert s == "home" + "::" + "hotel";
    forall j | 0 <= j < 4 ensures !OccursAt(s, "::", j)
    {
      assert s[j] != ':';
    }
    assert "hotel" + ">" + "name" == "hotel>name";
    ResolveAtSeparator("home", "::", "hotel", "name");
  }

  /** The read in the library's demonstration script: key "name" on scope "home/hotel". */
  lemma ResolveHomeHotel()
    ensures Resolve(Str("home/hotel"), "name", "/") == Ok(Resolved(Some("home"), "hotel>name"))
  {
    assert "home/hotel" == "home" + ['/'] + "hotel";
    assert "hotel" + ">" + "name" == "hotel>name";
    ResolvePageAndSubpath("home", '/', "hotel", "name");
  }
}
