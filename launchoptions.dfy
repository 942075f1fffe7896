/** The launch-option patcher.  A game that Steam can only recognise by
    window name gets `& <script> "<name>"[ "<alt>"];` appended to its
    `LaunchOptions` in every `localconfig.vdf`, after every earlier injection
    has been removed with `re.sub(r"&\s/.*fix-wm-class\.sh.*?;", "", text)`.
    The regular expression is written out here as a matcher that follows
    Python's backtracking order: greedy `.*` (never across a newline) first,
    then lazy `.*?`, and `re.sub` scans left to right without overlaps. */
module LaunchOptions {
  import opened Wrappers

  /** The helper's file name: the literal `fix-wm-class\.sh` of the pattern. */
  const ScriptName: string := "fix-wm-class.sh"

  const LaunchOptionsKey: string := "LaunchOptions"

  /** `\s` in a `str` pattern: the characters for which `str.isspace()` holds. */
  predicate IsSpace(c: char)
  {
    || c in {' ', '\t', '\n', '\r', '\U{0B}', '\U{0C}', '\U{1C}', '\U{1D}', '\U{1E}', '\U{1F}'}
    || c in {'\U{85}', '\U{A0}', '\U{1680}', '\U{2028}', '\U{2029}', '\U{202F}', '\U{205F}', '\U{3000}'}
    || '\U{2000}' <= c <= '\U{200A}'
  }

  /** No `c` in `s[lo..hi]`. */
  predicate NoneIn(s: string, lo: nat, hi: nat, c: char)
    requires lo <= hi <= |s|
  {
    forall n :: lo <= n < hi ==> s[n] != c
  }

  /** The literal `fix-wm-class.sh` starts at index `k`. */
  predicate ScriptAt(s: string, k: nat)
  {
    k + |ScriptName| <= |s| && s[k..k + |ScriptName|] == ScriptName
  }

  /** `&\s/` starts at index `i`. */
  predicate Opener(s: string, i: nat)
  {
    i + 3 <= |s| && s[i] == '&' && IsSpace(s[i + 1]) && s[i + 2] == '/'
  }

  /** The lazy `.*?;` tried from index `j`: the end of the shortest run of
      non-newline characters closed by `;`. */
  function LazyToSemicolon(s: string, j: nat): (r: Option<nat>)
    requires j <= |s|
    ensures r.Some? ==>
              && j < r.value <= |s| && s[r.value - 1] == ';'
              && NoneIn(s, j, r.value - 1, '\n') && NoneIn(s, j, r.value - 1, ';')
    ensures r.None? ==> forall q :: j <= q < |s| && s[q] == ';' ==> !NoneIn(s, j, q, '\n')
    decreases |s| - j
  {
    if j == |s| then None
    else if s[j] == ';' then Some(j + 1)
    else if s[j] == '\n' then
      assert forall q :: j < q < |s| ==> !NoneIn(s, j, q, '\n');
      None
    else
      var r := LazyToSemicolon(s, j + 1);
      assert forall q :: j + 1 <= q < |s| && NoneIn(s, j, q, '\n') ==> NoneIn(s, j + 1, q, '\n');
      r
  }

  /** The greedy `.*` in front of the literal, backtracking one character
      at a time from `k` down to `lo`: the first literal position at which
      the lazy tail also matches, with the end of the match. */
  function Backtrack(s: string, lo: nat, k: nat): (r: Option<(nat, nat)>)
    requires lo <= k <= |s|
    ensures r.Some? ==>
              && lo <= r.value.0 <= k && ScriptAt(s, r.value.0)
              && LazyToSemicolon(s, r.value.0 + |ScriptName|) == Some(r.value.1)
    ensures r.Some? ==>
              forall k' :: r.value.0 < k' <= k && ScriptAt(s, k') ==>
                LazyToSemicolon(s, k' + |ScriptName|).None?
    ensures r.None? ==>
              forall k' :: lo <= k' <= k && ScriptAt(s, k') ==>
                LazyToSemicolon(s, k' + |ScriptName|).None?
    decreases k - lo
  {
    if ScriptAt(s, k) && LazyToSemicolon(s, k + |ScriptName|).Some? then
      Some((k, LazyToSemicolon(s, k + |ScriptName|).value))
    else if k == lo then None
    else
      assert ScriptAt(s, k) ==> LazyToSemicolon(s, k + |ScriptName|).None?;
      Backtrack(s, lo, k - 1)
  }

  /** Where a greedy `.*` from `j` stops: the first newline, or the end. */
  function LineEnd(s: string, j: nat): (r: nat)
    requires j <= |s|
    ensures j <= r <= |s| && NoneIn(s, j, r, '\n') && (r < |s| ==> s[r] == '\n')
    decreases |s| - j
  {
    if j == |s| || s[j] == '\n' then j else LineEnd(s, j + 1)
  }

  /** The match of the fix pattern that Python's engine finds at index `i`,
      as its end index. */
  function MatchAt(s: string, i: nat): (r: Option<nat>)
    requires i <= |s|
    ensures r.Some? ==> i < r.value <= |s|
  {
    if Opener(s, i) then
      match Backtrack(s, i + 3, LineEnd(s, i + 3))
      case Some((_, e)) => Some(e)
      case None => None
    else None
  }

  /** The pattern read as a regular language: `s[i..e]` matches it with the
      literal `fix-wm-class.sh` at index `k`. */
  predicate Matches(s: string, i: nat, k: nat, e: nat)
  {
    && i + 3 <= k && k + |ScriptName| < e <= |s|
    && Opener(s, i) && NoneIn(s, i + 3, k, '\n')
    && ScriptAt(s, k) && NoneIn(s, k + |ScriptName|, e - 1, '\n') && s[e - 1] == ';'
  }

  /** The match Python's backtracking prefers: the literal as far right as
      possible, then the shortest lazy tail. */
  ghost predicate PreferredMatch(s: string, i: nat, k: nat, e: nat)
  {
    && Matches(s, i, k, e)
    && forall k': nat, e': nat :: Matches(s, i, k', e') ==> k' < k || (k' == k && e <= e')
  }

  /** Every match lies within the greedy range and is at least as long as
      the lazy tail from its literal. */
  lemma MatchWithinLine(s: string, i: nat, k: nat, e: nat)
    requires Matches(s, i, k, e)
    ensures k <= LineEnd(s, i + 3)
    ensures LazyToSemicolon(s, k + |ScriptName|).Some?
    ensures LazyToSemicolon(s, k + |ScriptName|).value <= e
  {
    assert s[e - 1] == ';' && NoneIn(s, k + |ScriptName|, e - 1, '\n');
  }

  /** `MatchAt` finds no match exactly when the pattern matches nowhere at `i`. */
  lemma NoMatchAt(s: string, i: nat)
    requires i <= |s|
    ensures MatchAt(s, i).None? <==> forall k: nat, e: nat :: !Matches(s, i, k, e)
  {
    if MatchAt(s, i).Some? {
      MatchAtIsPreferred(s, i, MatchAt(s, i).value);
    } else {
      forall k: nat, e: nat | Matches(s, i, k, e) ensures false {
        MatchWithinLine(s, i, k, e);
      }
    }
  }

  /** `MatchAt` returns exactly the end of the preferred match. */
  lemma MatchAtIsPreferred(s: string, i: nat, e: nat)
    requires i <= |s|
    ensures MatchAt(s, i) == Some(e) <==> exists k: nat :: PreferredMatch(s, i, k, e)
  {
    if Opener(s, i) {
      var line := LineEnd(s, i + 3);
      match Backtrack(s, i + 3, line)
      case Some((k0, e0)) =>
        assert Matches(s, i, k0, e0);
        forall k': nat, e': nat | Matches(s, i, k', e') ensures k' < k0 || (k' == k0 && e0 <= e') {
          MatchWithinLine(s, i, k', e');
        }
        assert PreferredMatch(s, i, k0, e0);
        if k: nat :| PreferredMatch(s, i, k, e) {
          assert k == k0 && e == e0;
        }
      case None =>
        forall k: nat | PreferredMatch(s, i, k, e) ensures false {
          MatchWithinLine(s, i, k, e);
        }
    }
  }

  /** `re.sub(pattern, "", s[i..])`, scanning from index `i`. */
  function RemoveFrom(s: string, i: nat): (r: string)
    requires i <= |s|
    ensures |r| <= |s| - i
    decreases |s| - i
  {
    if i == |s| then ""
    else
      match MatchAt(s, i)
      case Some(e) => RemoveFrom(s, e)
      case None => [s[i]] + RemoveFrom(s, i + 1)
  }

  /** `re.sub(r"&\s/.*fix-wm-class\.sh.*?;", "", s)`. */
  function Strip(s: string): (r: string)
    ensures |r| <= |s|
  {
    RemoveFrom(s, 0)
  }

  lemma RemoveFromKeepsIff(s: string, i: nat)
    requires i <= |s|
    ensures RemoveFrom(s, i) == s[i..] <==> forall j :: i <= j < |s| ==> MatchAt(s, j).None?
  {
    if forall j :: i <= j < |s| ==> MatchAt(s, j).None? {
      RemoveFromCopies(s, i);
    } else {
      var j :| i <= j < |s| && MatchAt(s, j).Some?;
      RemoveFromShrinks(s, i, j);
    }
  }

  /** With no match from `i` on, the substitution copies the rest. */
  lemma {:induction false} RemoveFromCopies(s: string, i: nat)
    requires i <= |s| && forall j :: i <= j < |s| ==> MatchAt(s, j).None?
    ensures RemoveFrom(s, i) == s[i..]
    decreases |s| - i
  {
    if i < |s| {
      RemoveFromCopies(s, i + 1);
      assert RemoveFrom(s, i) == [s[i]] + RemoveFrom(s, i + 1);
      assert s[i..] == [s[i]] + s[i + 1..];
    }
  }

  /** A match anywhere from `i` on makes the result shorter. */
  lemma {:induction false} RemoveFromShrinks(s: string, i: nat, j: nat)
    requires i <= j < |s| && MatchAt(s, j).Some?
    ensures |RemoveFrom(s, i)| < |s| - i
    decreases j - i
  {
    match MatchAt(s, i)
    case Some(e) =>
      assert RemoveFrom(s, i) == RemoveFrom(s, e);
    case None =>
      RemoveFromShrinks(s, i + 1, j);
      assert RemoveFrom(s, i) == [s[i]] + RemoveFrom(s, i + 1);
  }

  /** Without `&\s/` from index `i` on, the rest is copied. */
  lemma CopiedWithoutOpener(s: string, i: nat)
    requires i <= |s| && forall j :: i <= j < |s| ==> !Opener(s, j)
    ensures RemoveFrom(s, i) == s[i..]
  {
    RemoveFromKeepsIff(s, i);
  }

  /** Stripping leaves a string unchanged exactly when the pattern matches
      nowhere in it. */
  lemma StripUnchangedIff(s: string)
    ensures Strip(s) == s <==> forall i: nat, k: nat, e: nat :: !Matches(s, i, k, e)
  {
    RemoveFromKeepsIff(s, 0);
    assert s[0..] == s;
    if Strip(s) == s {
      forall i: nat, k: nat, e: nat ensures !Matches(s, i, k, e) {
        if i < |s| {
          NoMatchAt(s, i);
        }
      }
    } else {
      var i :| 0 <= i < |s| && MatchAt(s, i).Some?;
      NoMatchAt(s, i);
    }
  }

  /** No `&\s/` anywhere: the pattern cannot start in `x`. */
  predicate NoOpener(x: string)
  {
    forall i :: 0 <= i < |x| ==> !Opener(x, i)
  }

  /** Scanning a prefix `u` of `s` in which no match starts copies it. */
  lemma {:induction false} RemoveFromCopiesPrefix(s: string, u: string, i: nat)
    requires u <= s && i <= |u|
    requires forall j :: i <= j < |u| ==> MatchAt(s, j).None?
    ensures RemoveFrom(s, i) == u[i..] + RemoveFrom(s, |u|)
    decreases |u| - i
  {
    if i < |u| {
      RemoveFromCopiesPrefix(s, u, i + 1);
      assert MatchAt(s, i).None?;
      assert RemoveFrom(s, i) == [s[i]] + RemoveFrom(s, i + 1);
      assert u[i..] == [s[i]] + u[i + 1..];
    } else {
      assert u[i..] == [];
    }
  }

  /** `WM_CLASS_FIXER_SCRIPT`, the helper next to the program. */
  function ScriptPath(realPath: string): string
  {
    realPath + "/" + ScriptName
  }

  /** The text appended to `LaunchOptions`: one quoted argument when `alt` is
      empty, two otherwise. */
  function Injection(script: string, name: string, alt: string): string
  {
    if alt != "" then "& " + script + " \"" + name + "\" \"" + alt + "\";"
    else "& " + script + " \"" + name + "\";"
  }

  /** The quoted arguments of an injection. */
  function QuotedArgs(name: string, alt: string): string
  {
    if alt != "" then " \"" + name + "\" \"" + alt + "\"" else " \"" + name + "\""
  }

  /** `fix_launch_option`'s rewrite of one launch-options string. */
  function Patch(options: string, realPath: string, name: string, alt: string): (r: string)
    ensures Strip(options) <= r && r[|Strip(options)|..] == Injection(ScriptPath(realPath), name, alt)
  {
    Strip(options) + Injection(ScriptPath(realPath), name, alt)
  }

  /** What the injection needs to be removable again: the program lives at
      an absolute path without line breaks, and the names carry neither `;`
      nor a line break. */
  predicate SafeArguments(realPath: string, name: string, alt: string)
  {
    && |realPath| > 0 && realPath[0] == '/' && '\n' !in realPath
    && ';' !in name && '\n' !in name && ';' !in alt && '\n' !in alt
  }

  lemma InjectionShape(realPath: string, name: string, alt: string)
    requires SafeArguments(realPath, name, alt)
    ensures Injection(ScriptPath(realPath), name, alt)
         == ("& " + realPath + "/") + ScriptName + (QuotedArgs(name, alt) + ";")
    ensures ';' !in QuotedArgs(name, alt) && '\n' !in QuotedArgs(name, alt)
    ensures '\n' !in Injection(ScriptPath(realPath), name, alt)
  {
    var q := QuotedArgs(name, alt);
    assert Injection(ScriptPath(realPath), name, alt) == "& " + (realPath + "/" + ScriptName) + q + ";";
  }

  /** A lazy tail that meets neither `;` nor a line break before the `;`
      at `e - 1` ends at `e`. */
  lemma LazyEndsAt(s: string, j: nat, e: nat)
    requires j < e <= |s| && s[e - 1] == ';'
    requires NoneIn(s, j, e - 1, ';') && NoneIn(s, j, e - 1, '\n')
    ensures LazyToSemicolon(s, j) == Some(e)
  {
  }

  /** Backtracking stops at the rightmost literal whose tail matches; if
      every literal right of `k0` gives the same end `end` (or none),
      the match ends at `end`. */
  lemma {:induction false} BacktrackReaches(s: string, lo: nat, k: nat, k0: nat, end: nat)
    requires lo <= k0 <= k <= |s|
    requires ScriptAt(s, k0) && LazyToSemicolon(s, k0 + |ScriptName|) == Some(end)
    requires forall k' :: k0 < k' <= k && ScriptAt(s, k') ==>
               LazyToSemicolon(s, k' + |ScriptName|).None? ||
               LazyToSemicolon(s, k' + |ScriptName|) == Some(end)
    ensures Backtrack(s, lo, k).Some? && Backtrack(s, lo, k).value.1 == end
    decreases k - k0
  {
    if k > k0 && !(ScriptAt(s, k) && LazyToSemicolon(s, k + |ScriptName|).Some?) {
      BacktrackReaches(s, lo, k - 1, k0, end);
    }
  }

  /** A match that opens at `i` and has a literal at `k0` followed by a
      `;`-free stretch up to the `;` at `e - 1` ends at `e`, when the line
      ends at `e`. */
  lemma MatchEndsAt(s: string, i: nat, k0: nat, e: nat)
    requires e <= |s| && (e == |s| || s[e] == '\n')
    requires i + 3 <= k0 && k0 + |ScriptName| < e && ScriptAt(s, k0)
    requires Opener(s, i) && NoneIn(s, i + 3, e, '\n')
    requires s[e - 1] == ';' && NoneIn(s, k0 + |ScriptName|, e - 1, ';')
    ensures MatchAt(s, i) == Some(e)
  {
    assert LineEnd(s, i + 3) == e;
    LaterLiteralsAgree(s, k0, e);
    BacktrackReaches(s, i + 3, e, k0, e);
  }

  /** Every literal from `k0` to the line end at `e` has its lazy tail end
      at `e`, or none. */
  lemma LaterLiteralsAgree(s: string, k0: nat, e: nat)
    requires e <= |s| && (e == |s| || s[e] == '\n')
    requires k0 + |ScriptName| < e && s[e - 1] == ';'
    requires NoneIn(s, k0 + |ScriptName|, e - 1, ';') && NoneIn(s, k0 + |ScriptName|, e - 1, '\n')
    ensures LazyToSemicolon(s, k0 + |ScriptName|) == Some(e)
    ensures forall k' :: k0 < k' <= e && ScriptAt(s, k') ==>
              LazyToSemicolon(s, k' + |ScriptName|).None? ||
              LazyToSemicolon(s, k' + |ScriptName|) == Some(e)
  {
    var n := |ScriptName|;
    LazyTailsAgree(s, k0 + n, e);
    forall k' | k0 < k' <= e && ScriptAt(s, k')
      ensures LazyToSemicolon(s, k' + n).None? || LazyToSemicolon(s, k' + n) == Some(e)
    {
      LiteralEndsBeforeLineEnd(s, k', e);
    }
  }

  /** A literal that starts on a line also ends on it. */
  lemma LiteralEndsBeforeLineEnd(s: string, k: nat, e: nat)
    requires ScriptAt(s, k) && k <= e <= |s| && (e == |s| || s[e] == '\n')
    ensures k + |ScriptName| <= e
  {
    var literal := s[k..k + |ScriptName|];
    assert forall m :: 0 <= m < |literal| ==> literal[m] != '\n';
    assert forall m :: k <= m < k + |ScriptName| ==> s[m] == literal[m - k];
  }

  /** Every lazy tail that starts inside the `;`-free stretch before the
      `;` at `e - 1` ends at `e`; one that starts at a line end finds none. */
  lemma LazyTailsAgree(s: string, j0: nat, e: nat)
    requires j0 < e <= |s| && (e == |s| || s[e] == '\n') && s[e - 1] == ';'
    requires NoneIn(s, j0, e - 1, ';') && NoneIn(s, j0, e - 1, '\n')
    ensures forall j :: j0 <= j < e ==> LazyToSemicolon(s, j) == Some(e)
    ensures LazyToSemicolon(s, e).None?
  {
    forall j | j0 <= j < e ensures LazyToSemicolon(s, j) == Some(e) {
      LazyEndsAt(s, j, e);
    }
  }

  /** Where the pieces of an injection land in `u + injection`. */
  lemma InjectionLayout(u: string, realPath: string, name: string, alt: string)
    requires SafeArguments(realPath, name, alt)
    ensures var s := u + Injection(ScriptPath(realPath), name, alt);
            var k0 := |u| + 3 + |realPath|;
            && k0 + |ScriptName| < |s| && ScriptAt(s, k0)
            && s[|s| - 1] == ';' && NoneIn(s, k0 + |ScriptName|, |s| - 1, ';')
            && NoneIn(s, |u|, |s|, '\n')
            && s[|u|] == '&' && s[|u| + 1] == ' ' && s[|u| + 2] == '/'
  {
    var q := QuotedArgs(name, alt);
    InjectionShape(realPath, name, alt);
    var inj := Injection(ScriptPath(realPath), name, alt);
    var head := u + ("& " + realPath + "/");
    var s := head + ScriptName + (q + ";");
    assert s == u + inj;
    var k0 := |head|;
    var n := |ScriptName|;
    assert s[k0..k0 + n] == ScriptName;
    assert s[k0 + n..|s| - 1] == q;
    forall m | k0 + n <= m < |s| - 1 ensures s[m] != ';' {
      assert s[m] == q[m - k0 - n];
    }
    forall m | |u| <= m < |s| ensures s[m] != '\n' {
      assert s[m] == inj[m - |u|];
    }
    assert s[|u|] == inj[0] && s[|u| + 1] == inj[1] && s[|u| + 2] == realPath[0];
  }

  /** Stripping `u + injection` removes exactly the injection, when no
      `&\s/` occurs in `u`. */
  lemma StripRemovesInjection(u: string, realPath: string, name: string, alt: string)
    requires SafeArguments(realPath, name, alt) && NoOpener(u)
    ensures Strip(u + Injection(ScriptPath(realPath), name, alt)) == u
  {
    var inj := Injection(ScriptPath(realPath), name, alt);
    var s := u + inj;
    InjectionLayout(u, realPath, name, alt);
    forall j | 0 <= j < |u| ensures MatchAt(s, j).None? {
      if j + 3 <= |u| {
        assert !Opener(u, j);
        assert s[j] == u[j] && s[j + 1] == u[j + 1] && s[j + 2] == u[j + 2];
      } else if j + 1 == |u| {
        assert !IsSpace(s[j + 1]);
      }
      assert !Opener(s, j);
    }
    RemoveFromCopiesPrefix(s, u, 0);
    MatchEndsAt(s, |u|, |u| + 3 + |realPath|, |s|);
    assert RemoveFrom(s, |u|) == RemoveFrom(s, |s|) == [];
    assert u[0..] + [] == u;
  }

  /** A string without `&\s/` has nothing to strip. */
  lemma NoOpenerIsClean(x: string)
    requires NoOpener(x)
    ensures Strip(x) == x
  {
    CopiedWithoutOpener(x, 0);
  }

  /** Patching twice with the same arguments gives the result of patching
      once, and stripping a patched string gives the stripped original, when
      the stripped original contains no `&\s/`. */
  lemma PatchIdempotent(options: string, realPath: string, name: string, alt: string)
    requires SafeArguments(realPath, name, alt) && NoOpener(Strip(options))
    ensures Strip(Patch(options, realPath, name, alt)) == Strip(options)
    ensures Patch(Patch(options, realPath, name, alt), realPath, name, alt)
         == Patch(options, realPath, name, alt)
  {
    StripRemovesInjection(Strip(options), realPath, name, alt);
  }

  /** Without that condition patching is not idempotent: user text that
      starts with `& /` is swallowed by the greedy `.*` on the second run. */
  lemma PatchTwiceCanEraseUserText()
    ensures var p := Patch("& /x", "/opt/sif", "Game", "");
            Strip("& /x") == "& /x" && Patch(p, "/opt/sif", "Game", "") != p
  {
    StripUnchangedIff("& /x");
    var p := Patch("& /x", "/opt/sif", "Game", "");
    InjectionLayout("& /x", "/opt/sif", "Game", "");
    assert p == "& /x" + Injection(ScriptPath("/opt/sif"), "Game", "");
    assert NoneIn(p, 3, |p|, '\n');
    MatchEndsAt(p, 0, 4 + 3 + |"/opt/sif"|, |p|);
    assert Strip(p) == "";
  }

  /** Stripping is not idempotent either: `\s` also matches a line break,
      so removing an injection that follows a `&` can join that `&` and the
      next line into a new match. */
  lemma StripTwiceCanRemoveMore(realPath: string, name: string, alt: string)
    requires SafeArguments(realPath, name, alt)
    ensures var s := "&" + Injection(ScriptPath(realPath), name, alt) + ("\n/" + ScriptName + ";");
            Strip(s) == "&" + ("\n/" + ScriptName + ";") && Strip(Strip(s)) == ""
  {
    StripBeforeLineBreak(realPath, name, alt);
    var t := "&" + ("\n/" + ScriptName + ";");
    assert t[3..3 + |ScriptName|] == ScriptName && t[|t| - 1] == ';';
    MatchEndsAt(t, 0, 3, |t|);
  }

  lemma StripBeforeLineBreak(realPath: string, name: string, alt: string)
    requires SafeArguments(realPath, name, alt)
    ensures var s := "&" + Injection(ScriptPath(realPath), name, alt) + ("\n/" + ScriptName + ";");
            Strip(s) == "&" + ("\n/" + ScriptName + ";")
  {
    var v := "&" + Injection(ScriptPath(realPath), name, alt);
    var w := "\n/" + ScriptName + ";";
    var s := v + w;
    InjectionBeforeLineBreak(v, w, realPath, name, alt);
    assert '&' !in w;
    forall j | |v| <= j < |s| ensures !Opener(s, j) {
      assert s[j] == w[j - |v|];
    }
    CopiedWithoutOpener(s, |v|);
    assert RemoveFrom(s, |v|) == w by {
      assert s[|v|..] == w;
    }
    assert RemoveFrom(s, 1) == w;
    assert RemoveFrom(s, 0) == [s[0]] + w;
  }

  lemma InjectionBeforeLineBreak(v: string, w: string, realPath: string, name: string, alt: string)
    requires SafeArguments(realPath, name, alt)
    requires v == "&" + Injection(ScriptPath(realPath), name, alt) && w == "\n/" + ScriptName + ";"
    ensures MatchAt(v + w, 1) == Some(|v|) && !Opener(v + w, 0)
  {
    var s := v + w;
    InjectionLayout("&", realPath, name, alt);
    var k0 := 4 + |realPath|;
    var n := |ScriptName|;
    assert s[k0..k0 + n] == v[k0..k0 + n];
    assert s[|v|] == '\n' && s[|v| - 1] == ';' && s[1] == '&' && s[2] == ' ' && s[3] == '/';
    forall m | 4 <= m < |v| ensures s[m] != '\n' && (m < |v| - 1 ==> s[m] != ';' || m < k0 + n) {
      assert s[m] == v[m];
    }
    MatchEndsAt(s, 1, k0, |v|);
  }

  /** One entry of `Apps` in `localconfig.vdf`: its string-valued keys. */
  type App = map<string, string>

  /** The `Apps` section of one `localconfig.vdf`, keyed by app id. */
  type Apps = map<string, App>

  /** The current launch options of an app; a missing key reads as "". */
  function OptionsOf(app: App): string
  {
    if LaunchOptionsKey in app then app[LaunchOptionsKey] else ""
  }

  /** `fix_launch_option` on one app: every other key is kept, and
      `LaunchOptions` (created when missing) is patched. */
  function PatchApp(app: App, realPath: string, name: string, alt: string): (r: App)
    ensures r.Keys == app.Keys + {LaunchOptionsKey}
    ensures forall k :: k in app && k != LaunchOptionsKey ==> r[k] == app[k]
    ensures Strip(OptionsOf(app)) <= OptionsOf(r)
    ensures OptionsOf(r)[|Strip(OptionsOf(app))|..] == Injection(ScriptPath(realPath), name, alt)
  {
    app[LaunchOptionsKey := Patch(OptionsOf(app), realPath, name, alt)]
  }

  /** `fix_launch_option` on one file: only `apps[app_id]` changes, and an
      unknown app id changes nothing. */
  function PatchApps(apps: Apps, appId: string, realPath: string, name: string, alt: string): (r: Apps)
    ensures r.Keys == apps.Keys
    ensures forall id :: id in apps && id != appId ==> r[id] == apps[id]
    ensures appId in apps ==> r[appId] == PatchApp(apps[appId], realPath, name, alt)
  {
    if appId in apps then apps[appId := PatchApp(apps[appId], realPath, name, alt)] else apps
  }

  /** `restore_launch_options` on one app: strips `LaunchOptions` when the
      key exists and never adds it. */
  function RestoreApp(app: App): (r: App)
    ensures r.Keys == app.Keys
    ensures forall k :: k in app && k != LaunchOptionsKey ==> r[k] == app[k]
    ensures LaunchOptionsKey in app ==> r[LaunchOptionsKey] == Strip(app[LaunchOptionsKey])
  {
    if LaunchOptionsKey in app then app[LaunchOptionsKey := Strip(app[LaunchOptionsKey])] else app
  }

  /** `restore_launch_options` on one file: every app is restored. */
  function RestoreApps(apps: Apps): (r: Apps)
    ensures r.Keys == apps.Keys
    ensures forall id :: id in apps ==> r[id] == RestoreApp(apps[id])
  {
    map id | id in apps :: RestoreApp(apps[id])
  }

  /** `fix_launch_option` over every `localconfig.vdf`. */
  function PatchEach(files: seq<Apps>, appId: string, realPath: string, name: string, alt: string): (r: seq<Apps>)
    ensures |r| == |files|
    ensures forall i :: 0 <= i < |files| ==> r[i] == PatchApps(files[i], appId, realPath, name, alt)
  {
    seq(|files|, i requires 0 <= i < |files| => PatchApps(files[i], appId, realPath, name, alt))
  }

  /** `restore_launch_options` over every `localconfig.vdf`. */
  function RestoreEach(files: seq<Apps>): (r: seq<Apps>)
    ensures |r| == |files|
    ensures forall i :: 0 <= i < |files| ==> r[i] == RestoreApps(files[i])
  {
    seq(|files|, i requires 0 <= i < |files| => RestoreApps(files[i]))
  }

  /** The launch options of an app are clean when stripping them leaves no
      `&\s/` behind. */
  predicate CleanOptions(app: App)
  {
    NoOpener(Strip(OptionsOf(app)))
  }

  /** Restoring after a fix gives back the stripped original options; an
      app that had no `LaunchOptions` keeps the key, now empty. */
  lemma RestoreAfterPatch(app: App, realPath: string, name: string, alt: string)
    requires SafeArguments(realPath, name, alt) && CleanOptions(app)
    ensures RestoreApp(PatchApp(app, realPath, name, alt)) == app[LaunchOptionsKey := Strip(OptionsOf(app))]
  {
    PatchIdempotent(OptionsOf(app), realPath, name, alt);
  }

  /** Running the fix twice for the same app and names leaves every file as
      one run left it. */
  lemma FixTwiceIsFixOnce(files: seq<Apps>, appId: string, realPath: string, name: string, alt: string)
    requires SafeArguments(realPath, name, alt)
    requires forall i :: 0 <= i < |files| && appId in files[i] ==> CleanOptions(files[i][appId])
    ensures PatchEach(PatchEach(files, appId, realPath, name, alt), appId, realPath, name, alt)
         == PatchEach(files, appId, realPath, name, alt)
  {
    var once := PatchEach(files, appId, realPath, name, alt);
    var twice := PatchEach(once, appId, realPath, name, alt);
    forall i | 0 <= i < |files| ensures twice[i] == once[i] {
      if appId in files[i] {
        var app := files[i][appId];
        PatchIdempotent(OptionsOf(app), realPath, name, alt);
        assert PatchApp(PatchApp(app, realPath, name, alt), realPath, name, alt)
            == PatchApp(app, realPath, name, alt);
      }
    }
  }

  /** Restoring twice is restoring once, when what the first restore leaves
      holds no `&\s/`. */
  lemma RestoreTwiceIsRestoreOnce(files: seq<Apps>)
    requires forall i, id :: 0 <= i < |files| && id in files[i] ==> CleanOptions(files[i][id])
    ensures RestoreEach(RestoreEach(files)) == RestoreEach(files)
  {
    var once := RestoreEach(files);
    forall i | 0 <= i < |files| ensures RestoreApps(once[i]) == once[i] {
      forall id | id in files[i] ensures RestoreApp(once[i][id]) == once[i][id] {
        var app := files[i][id];
        if LaunchOptionsKey in app {
          NoOpenerIsClean(Strip(app[LaunchOptionsKey]));
        }
      }
    }
  }

  /** The loaded `Apps` sections of every `localconfig.vdf`, in the order of
      `localconfig_paths`, and where the program itself is installed. */
  class LocalConfigs {
    var files: seq<Apps>
    const realPath: string

    constructor (files: seq<Apps>, realPath: string)
      ensures this.files == files && this.realPath == realPath
    {
      this.files := files;
      this.realPath := realPath;
    }

    /** `fix_launch_option(app_id, wm_name, wm_name_alt)`. */
    method FixLaunchOption(appId: string, wmName: string, wmNameAlt: string)
      modifies this
      ensures files == PatchEach(old(files), appId, realPath, wmName, wmNameAlt)
    {
      for i := 0 to |files|
        invariant |files| == |old(files)|
        invariant forall j :: 0 <= j < i ==>
                    files[j] == PatchApps(old(files)[j], appId, realPath, wmName, wmNameAlt)
        invariant forall j :: i <= j < |files| ==> files[j] == old(files)[j]
      {
        var apps := files[i];
        if appId in apps {
          var app := FixApp(apps[appId], wmName, wmNameAlt);
          apps := apps[appId := app];
        }
        files := files[i := apps];
      }
    }

    /** The body of `if app_id in apps.keys()`: create `LaunchOptions` when
        missing, remove old injections, append the new one. */
    method FixApp(original: App, wmName: string, wmNameAlt: string) returns (app: App)
      ensures app == PatchApp(original, realPath, wmName, wmNameAlt)
    {
      app := original;
      if LaunchOptionsKey !in app {
        app := app[LaunchOptionsKey := ""];
      }
      app := app[LaunchOptionsKey := Strip(app[LaunchOptionsKey])];
      var stripped := Strip(OptionsOf(original));
      assert app == original[LaunchOptionsKey := stripped];
      var script := ScriptPath(realPath);
      if wmNameAlt != "" {
        var added := "& " + script + " \"" + wmName + "\" \"" + wmNameAlt + "\";";
        assert added == Injection(script, wmName, wmNameAlt);
        app := app[LaunchOptionsKey := app[LaunchOptionsKey] + added];
      } else {
        var added := "& " + script + " \"" + wmName + "\";";
        assert added == Injection(script, wmName, wmNameAlt);
        app := app[LaunchOptionsKey := app[LaunchOptionsKey] + added];
      }
      assert app == original[LaunchOptionsKey := stripped + Injection(script, wmName, wmNameAlt)];
    }

    /** `restore_launch_options()`. */
    method RestoreLaunchOptions()
      modifies this
      ensures files == RestoreEach(old(files))
    {
      for i := 0 to |files|
        invariant |files| == |old(files)|
        invariant forall j :: 0 <= j < i ==> files[j] == RestoreApps(old(files)[j])
        invariant forall j :: i <= j < |files| ==> files[j] == old(files)[j]
      {
        var apps := files[i];
        var todo := apps.Keys;
        while todo != {}
          invariant todo <= apps.Keys
          invariant forall id :: id in files[i] ==> id in apps
          invariant apps.Keys == files[i].Keys
          invariant forall id :: id in apps ==>
                      apps[id] == if id in todo then files[i][id] else RestoreApp(files[i][id])
          decreases todo
        {
          var id :| id in todo;
          var app := apps[id];
          if LaunchOptionsKey in app {
            app := app[LaunchOptionsKey := Strip(app[LaunchOptionsKey])];
          }
          apps := apps[id := app];
          todo := todo - {id};
        }
        files := files[i := apps];
      }
    }
  }
}
