/**
 * The four copies of slug normalisation: `slugifyName` in
 * src/services/plantService.ts, `slugify` in scripts/generate_aliases.js and
 * scripts/generate_details.js (identical), and `slugify` in
 * scripts/gbif_enrich.js, which separates with '-' instead of '_'.
 * Each regular-expression step is modelled as its own function.
 */
module Slug {
  import opened Text
  import opened Js

  /** A separator character lies outside [a-z0-9]. */
  predicate IsSeparator(sep: char) { !IsLowerAlnum(sep) }

  predicate OverAlphabet(s: string, sep: char) {
    forall i :: 0 <= i < |s| ==> IsLowerAlnum(s[i]) || s[i] == sep
  }

  predicate NoDoubleSep(s: string, sep: char) {
    forall i :: 0 <= i < |s| - 1 ==> !(s[i] == sep && s[i + 1] == sep)
  }

  predicate AllOutside(s: string) {
    forall i :: 0 <= i < |s| ==> !IsLowerAlnum(s[i])
  }

  /** Output shape of every slug function: over [a-z0-9] and sep, no doubled sep, none at either end. */
  predicate IsSlug(s: string, sep: char) {
    && OverAlphabet(s, sep)
    && NoDoubleSep(s, sep)
    && (s != [] ==> s[0] != sep && s[|s| - 1] != sep)
  }

  /** Drops the leading run of characters outside [a-z0-9]. */
  function SkipRun(s: string): (r: string)
    ensures |r| <= |s| && r == s[|s| - |r|..]
    ensures r == [] || IsLowerAlnum(r[0])
    ensures s != [] && !IsLowerAlnum(s[0]) ==> |r| < |s|
  {
    if s == [] || IsLowerAlnum(s[0]) then s else SkipRun(s[1..])
  }

  /** What SkipRun drops lies entirely outside [a-z0-9]. */
  lemma {:induction false} SkipRunDropsOutside(s: string)
    ensures AllOutside(s[..|s| - |SkipRun(s)|])
  {
    if s != [] && !IsLowerAlnum(s[0]) {
      SkipRunDropsOutside(s[1..]);
      OutsideCons(s, |s| - |SkipRun(s)|);
    }
  }

  lemma OutsideCons(s: string, k: nat)
    requires 1 <= k <= |s| && !IsLowerAlnum(s[0]) && AllOutside(s[1..][..k - 1])
    ensures AllOutside(s[..k])
  {
    assert s[..k] == [s[0]] + s[1..][..k - 1];
  }

  /** `s.replace(/[^a-z0-9]+/g, sep)`: each maximal run outside [a-z0-9] becomes one sep. */
  function ReplaceRuns(s: string, sep: char): (r: string)
    requires IsSeparator(sep)
    ensures s == [] <==> r == []
    ensures s != [] && IsLowerAlnum(s[0]) ==> r[0] == s[0]
    ensures s != [] && !IsLowerAlnum(s[0]) ==> r[0] == sep
    decreases |s|
  {
    if s == [] then []
    else if IsLowerAlnum(s[0]) then [s[0]] + ReplaceRuns(s[1..], sep)
    else [sep] + ReplaceRuns(SkipRun(s), sep)
  }

  /** Replacing runs yields only [a-z0-9] and single separators. */
  lemma {:induction false} ReplaceRunsShape(s: string, sep: char)
    requires IsSeparator(sep)
    ensures OverAlphabet(ReplaceRuns(s, sep), sep) && NoDoubleSep(ReplaceRuns(s, sep), sep)
    decreases |s|
  {
    if s != [] {
      var rest := if IsLowerAlnum(s[0]) then s[1..] else SkipRun(s);
      ReplaceRunsShape(rest, sep);
      var r := ReplaceRuns(s, sep);
      assert r[1..] == ReplaceRuns(rest, sep);
      assert !IsLowerAlnum(s[0]) ==> rest == [] || IsLowerAlnum(rest[0]);
    }
  }

  /** Drops the leading copies of c. */
  function SkipChar(s: string, c: char): (r: string)
    ensures |r| <= |s| && r == s[|s| - |r|..]
    ensures r == [] || r[0] != c
    ensures s != [] && s[0] == c ==> |r| < |s|
  {
    if s == [] || s[0] != c then s else SkipChar(s[1..], c)
  }

  /** `s.replace(/_+/g, '_')` for c == '_': each run of c becomes a single c. */
  function CollapseRepeats(s: string, c: char): (r: string)
    ensures NoDoubleSep(r, c)
    ensures s == [] <==> r == []
    ensures s != [] ==> (r[0] == c <==> s[0] == c)
    decreases |s|
  {
    if s == [] then []
    else if s[0] != c then [s[0]] + CollapseRepeats(s[1..], c)
    else [c] + CollapseRepeats(SkipChar(s, c), c)
  }

  /** `s.replace(/^_|_$/g, '')` for c == '_': at most one c removed at each end. */
  function StripOne(s: string, c: char): (r: string)
    ensures |s| - 2 <= |r| <= |s|
  {
    var t := if s != [] && s[0] == c then s[1..] else s;
    if t != [] && t[|t| - 1] == c then t[..|t| - 1] else t
  }

  /** Drops every leading c. */
  function StripLeading(s: string, c: char): (r: string)
    ensures |r| <= |s| && r == s[|s| - |r|..]
    ensures r == [] || r[0] != c
  {
    if s != [] && s[0] == c then StripLeading(s[1..], c) else s
  }

  /** Drops every trailing c. */
  function StripTrailing(s: string, c: char): (r: string)
    ensures |r| <= |s| && r == s[..|r|]
    ensures r == [] || r[|r| - 1] != c
  {
    if s != [] && s[|s| - 1] == c then StripTrailing(s[..|s| - 1], c) else s
  }

  /** `s.replace(/^_+|_+$/g, '')` for c == '_'. */
  function StripAll(s: string, c: char): string {
    StripTrailing(StripLeading(s, c), c)
  }

  // ---- the four slug functions ----

  /** `slugifyName` of src/services/plantService.ts. */
  function SlugifyName(name: string): (r: string)
    ensures IsSlug(r, '_')
  {
    var replaced := ReplaceRuns(ToLower(name), '_');
    ReplaceRunsShape(ToLower(name), '_');
    CollapseIdentity(replaced, '_');
    StripOnePreservesShape(replaced, '_');
    StripOne(CollapseRepeats(replaced, '_'), '_')
  }

  /** `slugify` of scripts/generate_aliases.js and scripts/generate_details.js. */
  function Slugify(name: string): (r: string)
    ensures IsSlug(r, '_')
  {
    var replaced := ReplaceRuns(Trim(ToLower(name)), '_');
    ReplaceRunsShape(Trim(ToLower(name)), '_');
    StripOneIsStripAll(replaced, '_');
    StripOnePreservesShape(replaced, '_');
    StripAll(replaced, '_')
  }

  /** `slugify` of scripts/gbif_enrich.js: `String(s || '')`, then '-' as separator. */
  function SlugifyDash(v: Value): (r: string)
    ensures IsSlug(r, '-')
    ensures !Truthy(v) ==> r == []
  {
    var replaced := ReplaceRuns(ToLower(ToJsString(Or(v, Str("")))), '-');
    ReplaceRunsShape(ToLower(ToJsString(Or(v, Str("")))), '-');
    StripOnePreservesShape(replaced, '-');
    StripOne(replaced, '-')
  }

  // ---- step lemmas ----

  lemma {:induction false} CollapseIdentity(s: string, c: char)
    requires NoDoubleSep(s, c)
    ensures CollapseRepeats(s, c) == s
    decreases |s|
  {
    if s != [] {
      assert NoDoubleSep(s[1..], c);
      CollapseIdentity(s[1..], c);
      if s[0] == c {
        assert s[1..] == [] || s[1] != c;
        assert SkipChar(s, c) == s[1..];
      }
    }
  }

  lemma StripOnePreservesShape(s: string, c: char)
    requires OverAlphabet(s, c) && NoDoubleSep(s, c)
    ensures IsSlug(StripOne(s, c), c)
  {
    var t := if s != [] && s[0] == c then s[1..] else s;
    assert OverAlphabet(t, c) && NoDoubleSep(t, c);
    assert t == [] || t[0] != c;
    var r := StripOne(s, c);
    assert r == t || r == t[..|t| - 1];
    if r != [] && r != t {
      assert r[0] == t[0] && r[|r| - 1] == t[|t| - 2];
    }
  }

  lemma StripLeadingOnce(s: string, c: char)
    requires NoDoubleSep(s, c)
    ensures StripLeading(s, c) == if s != [] && s[0] == c then s[1..] else s
  {
    if s != [] && s[0] == c && s[1..] != [] {
      assert s[1] != c;
    }
  }

  lemma StripTrailingOnce(s: string, c: char)
    requires NoDoubleSep(s, c)
    ensures StripTrailing(s, c) == if s != [] && s[|s| - 1] == c then s[..|s| - 1] else s
  {
    if s != [] && s[|s| - 1] == c && |s| > 1 {
      assert s[|s| - 2] != c;
    }
  }

  /** On a string without doubled separators the single and the greedy strip agree. */
  lemma StripOneIsStripAll(s: string, c: char)
    requires NoDoubleSep(s, c)
    ensures StripOne(s, c) == StripAll(s, c)
  {
    StripLeadingOnce(s, c);
    var t := StripLeading(s, c);
    assert NoDoubleSep(t, c);
    StripTrailingOnce(t, c);
  }

  /** Strings already in slug shape are fixed points of replacing runs. */
  lemma {:induction false} ReplaceRunsIdentity(s: string, sep: char)
    requires IsSeparator(sep)
    requires OverAlphabet(s, sep) && NoDoubleSep(s, sep)
    ensures ReplaceRuns(s, sep) == s
    decreases |s|
  {
    if s != [] {
      assert OverAlphabet(s[1..], sep) && NoDoubleSep(s[1..], sep);
      ReplaceRunsIdentity(s[1..], sep);
      ReplaceRunsUnfold(s, sep);
      if !IsLowerAlnum(s[0]) {
        assert |s| == 1 || IsLowerAlnum(s[1]);
        SkipRunOnce(s);
      }
      assert s == [s[0]] + s[1..];
    }
  }

  /** A single character outside [a-z0-9] followed by [a-z0-9] or nothing is a whole run. */
  lemma SkipRunOnce(s: string)
    requires s != [] && !IsLowerAlnum(s[0]) && (|s| == 1 || IsLowerAlnum(s[1]))
    ensures SkipRun(s) == s[1..]
  {
  }

  /** One step of ReplaceRuns: the first character or run, then the rest. */
  lemma ReplaceRunsUnfold(s: string, sep: char)
    requires IsSeparator(sep) && s != []
    ensures ReplaceRuns(s, sep) == [if IsLowerAlnum(s[0]) then s[0] else sep]
      + ReplaceRuns(if IsLowerAlnum(s[0]) then s[1..] else SkipRun(s), sep)
  {
  }

  lemma SlugHasNoUpper(s: string, sep: char)
    requires IsSeparator(sep) && !IsUpper(sep) && OverAlphabet(s, sep)
    ensures HasNoUpper(s)
  {
  }

  lemma SlugIsTrimmed(s: string)
    requires IsSlug(s, '_')
    ensures Trim(s) == s
  {
    if s != [] {
      assert !IsWhitespace(s[0]) && !IsWhitespace(s[|s| - 1]);
      assert TrimStart(s) == s;
    }
  }

  // ---- lemmas relating the whole functions ----

  /** `slugifyName` is idempotent. */
  lemma SlugifyNameIdempotent(name: string)
    ensures SlugifyName(SlugifyName(name)) == SlugifyName(name)
  {
    var t := SlugifyName(name);
    SlugHasNoUpper(t, '_');
    ToLowerIdentity(t);
    ReplaceRunsIdentity(t, '_');
    CollapseIdentity(t, '_');
  }

  /** The scripts' `slugify` is idempotent. */
  lemma SlugifyIdempotent(name: string)
    ensures Slugify(Slugify(name)) == Slugify(name)
  {
    var t := Slugify(name);
    SlugHasNoUpper(t, '_');
    ToLowerIdentity(t);
    SlugIsTrimmed(t);
    ReplaceRunsIdentity(t, '_');
    StripLeadingOnce(t, '_');
    StripTrailingOnce(t, '_');
  }

  lemma StripLeadingReplaceRuns(s: string, sep: char)
    requires IsSeparator(sep)
    ensures StripLeading(ReplaceRuns(s, sep), sep) == ReplaceRuns(SkipRun(s), sep)
  {
    if s != [] && !IsLowerAlnum(s[0]) {
      var rest := ReplaceRuns(SkipRun(s), sep);
      assert ReplaceRuns(s, sep) == [sep] + rest;
      assert ([sep] + rest)[1..] == rest;
    }
  }

  lemma {:induction false} SkipRunPrefix(w: string, t: string)
    requires AllOutside(w)
    ensures SkipRun(w + t) == SkipRun(t)
    decreases |w|
  {
    if w != [] {
      assert (w + t)[0] == w[0];
      assert (w + t)[1..] == w[1..] + t;
      assert AllOutside(w[1..]);
      SkipRunPrefix(w[1..], t);
    } else {
      assert w + t == t;
    }
  }

  lemma {:induction false} SkipRunSuffix(x: string, w: string)
    requires SkipRun(x) != []
    ensures SkipRun(x + w) == SkipRun(x) + w
    decreases |x|
  {
    if !IsLowerAlnum(x[0]) {
      assert (x + w)[1..] == x[1..] + w;
      SkipRunSuffix(x[1..], w);
    }
  }

  lemma {:induction false} SkipRunAllOutside(s: string)
    requires AllOutside(s)
    ensures SkipRun(s) == []
  {
    if s != [] {
      assert AllOutside(s[1..]);
      SkipRunAllOutside(s[1..]);
    }
  }

  lemma {:induction false} SkipRunKeepsLastAlnum(x: string)
    requires x != [] && IsLowerAlnum(x[|x| - 1])
    ensures SkipRun(x) != [] && IsLowerAlnum(SkipRun(x)[|SkipRun(x)| - 1])
    decreases |x|
  {
    if !IsLowerAlnum(x[0]) {
      assert x[1..][|x| - 2] == x[|x| - 1];
      SkipRunKeepsLastAlnum(x[1..]);
    }
  }

  lemma ReplaceRunsAllOutside(z: string, sep: char)
    requires IsSeparator(sep) && AllOutside(z) && z != []
    ensures ReplaceRuns(z, sep) == [sep]
  {
    SkipRunAllOutside(z);
  }

  /** Replacing runs splits at a boundary that follows a character of [a-z0-9]. */
  lemma {:induction false} ReplaceRunsAppend(x: string, y: string, sep: char)
    requires IsSeparator(sep)
    requires x == [] || IsLowerAlnum(x[|x| - 1])
    ensures ReplaceRuns(x + y, sep) == ReplaceRuns(x, sep) + ReplaceRuns(y, sep)
    decreases |x|
  {
    if x == [] {
      assert x + y == y;
    } else if IsLowerAlnum(x[0]) {
      ReplaceRunsAppend(x[1..], y, sep);
      AppendAlnumStep(x, y, sep);
    } else {
      var k := SkipRun(x);
      SkipRunKeepsLastAlnum(x);
      SkipRunSuffix(x, y);
      ReplaceRunsAppend(k, y, sep);
      AppendRunStep(x, y, sep, k);
    }
  }

  lemma AppendAlnumStep(x: string, y: string, sep: char)
    requires IsSeparator(sep) && x != [] && IsLowerAlnum(x[0])
    requires ReplaceRuns(x[1..] + y, sep) == ReplaceRuns(x[1..], sep) + ReplaceRuns(y, sep)
    ensures ReplaceRuns(x + y, sep) == ReplaceRuns(x, sep) + ReplaceRuns(y, sep)
  {
    ReplaceRunsCons(x, y, sep);
    ConcatAssoc([x[0]], ReplaceRuns(x[1..], sep), ReplaceRuns(y, sep));
  }

  lemma AppendRunStep(x: string, y: string, sep: char, k: string)
    requires IsSeparator(sep) && x != [] && !IsLowerAlnum(x[0])
    requires k == SkipRun(x) && SkipRun(x + y) == k + y
    requires ReplaceRuns(k + y, sep) == ReplaceRuns(k, sep) + ReplaceRuns(y, sep)
    ensures ReplaceRuns(x + y, sep) == ReplaceRuns(x, sep) + ReplaceRuns(y, sep)
  {
    ReplaceRunsCons(x, y, sep);
    ConcatAssoc([sep], ReplaceRuns(k, sep), ReplaceRuns(y, sep));
  }

  /** ReplaceRuns of a concatenation, one step in. */
  lemma ReplaceRunsCons(x: string, y: string, sep: char)
    requires IsSeparator(sep) && x != []
    ensures ReplaceRuns(x + y, sep) == if IsLowerAlnum(x[0]) then [x[0]] + ReplaceRuns(x[1..] + y, sep)
      else [sep] + ReplaceRuns(SkipRun(x + y), sep)
  {
    assert (x + y)[0] == x[0];
    assert (x + y)[1..] == x[1..] + y;
  }

  /** The longest prefix ending in a character of [a-z0-9]. */
  function KeepThroughLastAlnum(s: string): (u: string)
    ensures |u| <= |s| && u == s[..|u|]
    ensures u == [] || IsLowerAlnum(u[|u| - 1])
  {
    if s == [] || IsLowerAlnum(s[|s| - 1]) then s else KeepThroughLastAlnum(s[..|s| - 1])
  }

  /** What follows the longest prefix ending in [a-z0-9] lies outside [a-z0-9]. */
  lemma {:induction false} KeepThroughLastAlnumRest(s: string)
    ensures AllOutside(s[|KeepThroughLastAlnum(s)|..])
  {
    if s != [] && !IsLowerAlnum(s[|s| - 1]) {
      KeepThroughLastAlnumRest(s[..|s| - 1]);
      OutsideSnoc(s, |KeepThroughLastAlnum(s)|);
    }
  }

  lemma OutsideSnoc(s: string, k: nat)
    requires k < |s| && !IsLowerAlnum(s[|s| - 1]) && AllOutside(s[..|s| - 1][k..])
    ensures AllOutside(s[k..])
  {
    assert s[k..] == s[..|s| - 1][k..] + [s[|s| - 1]];
  }

  lemma ConcatAssoc(a: string, b: string, c: string)
    ensures (a + b) + c == a + (b + c)
  {
  }

  lemma AllOutsideAppend(a: string, b: string)
    requires AllOutside(a) && AllOutside(b)
    ensures AllOutside(a + b)
  {
  }

  lemma StripTrailingSnocSep(x: string, sep: char)
    ensures StripTrailing(x + [sep], sep) == StripTrailing(x, sep)
  {
    assert (x + [sep])[..|x|] == x;
  }

  lemma StripTrailingAfterAlnum(u: string, z: string, sep: char)
    requires IsSeparator(sep) && AllOutside(z)
    requires u == [] || IsLowerAlnum(u[|u| - 1])
    ensures StripTrailing(ReplaceRuns(u + z, sep), sep) == StripTrailing(ReplaceRuns(u, sep), sep)
  {
    ReplaceRunsAppend(u, z, sep);
    StripTrailingRun(ReplaceRuns(u, sep), z, sep);
  }

  /** Trailing characters outside [a-z0-9] disappear once trailing separators are stripped. */
  lemma StripTrailingIgnoresTail(y: string, w: string, sep: char)
    requires IsSeparator(sep) && AllOutside(w)
    ensures StripTrailing(ReplaceRuns(y + w, sep), sep) == StripTrailing(ReplaceRuns(y, sep), sep)
  {
    var u := KeepThroughLastAlnum(y);
    KeepThroughLastAlnumRest(y);
    IgnoresTailParts(y, u, y[|u|..], w, sep);
  }

  lemma IgnoresTailParts(y: string, u: string, v: string, w: string, sep: char)
    requires IsSeparator(sep) && AllOutside(v) && AllOutside(w)
    requires u == [] || IsLowerAlnum(u[|u| - 1])
    requires |u| <= |y| && u == y[..|u|] && v == y[|u|..]
    ensures StripTrailing(ReplaceRuns(y + w, sep), sep) == StripTrailing(ReplaceRuns(y, sep), sep)
  {
    SplitAt(y, u, v, w);
    AllOutsideAppend(v, w);
    StripTrailingAfterAlnum(u, v + w, sep);
    StripTrailingAfterAlnum(u, v, sep);
  }

  lemma SplitAt(y: string, u: string, v: string, w: string)
    requires |u| <= |y| && u == y[..|u|] && v == y[|u|..]
    ensures y == u + v && y + w == u + (v + w)
  {
    assert y == u + v;
  }

  lemma StripTrailingRun(x: string, z: string, sep: char)
    requires IsSeparator(sep) && AllOutside(z)
    ensures StripTrailing(x + ReplaceRuns(z, sep), sep) == StripTrailing(x, sep)
  {
    if z == [] {
      assert x + ReplaceRuns(z, sep) == x;
    } else {
      ReplaceRunsAllOutside(z, sep);
      StripTrailingSnocSep(x, sep);
    }
  }

  lemma WhitespaceIsOutside(s: string)
    requires AllWhitespace(s)
    ensures AllOutside(s)
  {
  }

  /** Characters outside [a-z0-9] around the text never change the scripts' slug. */
  lemma SlugCoreIgnoresPadding(lead: string, t: string, trail: string)
    requires AllOutside(lead) && AllOutside(trail)
    ensures StripAll(ReplaceRuns(lead + t + trail, '_'), '_') == StripAll(ReplaceRuns(t, '_'), '_')
  {
    var sep := '_';
    ConcatAssoc(lead, t, trail);
    calc {
      StripAll(ReplaceRuns(lead + t + trail, sep), sep);
      StripTrailing(StripLeading(ReplaceRuns(lead + (t + trail), sep), sep), sep);
      { StripLeadingReplaceRuns(lead + (t + trail), sep); }
      StripTrailing(ReplaceRuns(SkipRun(lead + (t + trail)), sep), sep);
      { SkipRunPrefix(lead, t + trail); }
      StripTrailing(ReplaceRuns(SkipRun(t + trail), sep), sep);
      { SkipRunTail(t, trail, sep); }
      StripTrailing(ReplaceRuns(SkipRun(t), sep), sep);
      { StripLeadingReplaceRuns(t, sep); }
      StripAll(ReplaceRuns(t, sep), sep);
    }
  }

  lemma SkipRunTail(t: string, trail: string, sep: char)
    requires IsSeparator(sep) && AllOutside(trail)
    ensures StripTrailing(ReplaceRuns(SkipRun(t + trail), sep), sep) == StripTrailing(ReplaceRuns(SkipRun(t), sep), sep)
  {
    if SkipRun(t) != [] {
      SkipRunSuffix(t, trail);
      StripTrailingIgnoresTail(SkipRun(t), trail, sep);
    } else {
      SkipRunDropsOutside(t);
      assert t[..|t|] == t;
      AllOutsideAppend(t, trail);
      SkipRunAllOutside(t + trail);
    }
  }

  /**
   * The three '_' variants agree: trimming before replacing (the scripts) and
   * collapsing and stripping once after (the service) give the same slug, so
   * the scripts' alias-map values, detail keys and the service's ids coincide.
   */
  lemma SlugifyAgreesWithSlugifyName(name: string)
    ensures Slugify(name) == SlugifyName(name)
  {
    var l := ToLower(name);
    var lead, trail := TrimDecomposition(l);
    WhitespaceIsOutside(lead);
    WhitespaceIsOutside(trail);
    var replaced := ReplaceRuns(l, '_');
    ReplaceRunsShape(l, '_');
    CollapseIdentity(replaced, '_');
    StripOneIsStripAll(replaced, '_');
    SlugCoreIgnoresPadding(lead, Trim(l), trail);
  }

  /** Replaces every '_' with '-'. */
  function SwapSep(s: string): (r: string)
    ensures |r| == |s|
  {
    seq(|s|, i requires 0 <= i < |s| => if s[i] == '_' then '-' else s[i])
  }

  lemma SwapSepAppend(a: string, b: string)
    ensures SwapSep(a + b) == SwapSep(a) + SwapSep(b)
  {
  }

  lemma {:induction false} ReplaceRunsDash(s: string)
    ensures ReplaceRuns(s, '-') == SwapSep(ReplaceRuns(s, '_'))
    decreases |s|
  {
    if s != [] {
      var rest := if IsLowerAlnum(s[0]) then s[1..] else SkipRun(s);
      ReplaceRunsDash(rest);
      DashStep(s, rest);
    }
  }

  /** One step of ReplaceRunsDash: the first character or run, then the rest. */
  lemma DashStep(s: string, rest: string)
    requires s != [] && rest == if IsLowerAlnum(s[0]) then s[1..] else SkipRun(s)
    requires ReplaceRuns(rest, '-') == SwapSep(ReplaceRuns(rest, '_'))
    ensures ReplaceRuns(s, '-') == SwapSep(ReplaceRuns(s, '_'))
  {
    ReplaceRunsUnfold(s, '-');
    ReplaceRunsUnfold(s, '_');
    SwapSepCons(if IsLowerAlnum(s[0]) then s[0] else '_', ReplaceRuns(rest, '_'));
  }

  lemma SwapSepCons(c: char, x: string)
    ensures SwapSep([c] + x) == [if c == '_' then '-' else c] + SwapSep(x)
  {
    SwapSepAppend([c], x);
  }

  lemma StripOneSwap(s: string)
    requires OverAlphabet(s, '_')
    ensures StripOne(SwapSep(s), '-') == SwapSep(StripOne(s, '_'))
  {
    var t := if s != [] && s[0] == '_' then s[1..] else s;
    assert SwapSep(t) == if s != [] && s[0] == '_' then SwapSep(s)[1..] else SwapSep(s);
    if t != [] && t[|t| - 1] == '_' {
      assert SwapSep(t[..|t| - 1]) == SwapSep(t)[..|t| - 1];
    }
  }

  /** On a string, the GBIF slug is the service's slug with '-' for '_'. */
  lemma SlugifyDashIsSwapped(name: string)
    ensures SlugifyDash(Str(name)) == SwapSep(SlugifyName(name))
  {
    assert ToJsString(Or(Str(name), Str(""))) == name;
    var l := ToLower(name);
    ReplaceRunsShape(l, '_');
    ReplaceRunsDash(l);
    CollapseIdentity(ReplaceRuns(l, '_'), '_');
    StripOneSwap(ReplaceRuns(l, '_'));
  }
}
