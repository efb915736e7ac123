/**
 * ASCII string primitives used by the services and scripts: lower-casing,
 * whitespace trimming, prefix tests, splitting and joining.  JavaScript's
 * Unicode case mapping and whitespace classes are restricted to ASCII here.
 */
module Text {

  predicate IsUpper(c: char) { 'A' <= c <= 'Z' }
  predicate IsLowerLetter(c: char) { 'a' <= c <= 'z' }
  predicate IsDigit(c: char) { '0' <= c <= '9' }

  /** The class [a-z0-9] of the slug regular expressions. */
  predicate IsLowerAlnum(c: char) { IsLowerLetter(c) || IsDigit(c) }

  /** ASCII part of JavaScript's white space and line terminators. */
  predicate IsWhitespace(c: char) {
    c == ' ' || c == '\t' || c == '\n' || c == '\r' || c as int == 11 || c as int == 12
  }

  function ToLowerChar(c: char): (r: char)
    ensures !IsUpper(r)
    ensures IsWhitespace(r) <==> IsWhitespace(c)
    ensures IsLowerAlnum(c) ==> r == c
    ensures !IsUpper(c) ==> r == c
  {
    if IsUpper(c) then (c as int + 32) as char else c
  }

  /** String.prototype.toLowerCase on ASCII. */
  function ToLower(s: string): (r: string)
    ensures |r| == |s|
    ensures forall i :: 0 <= i < |s| ==> r[i] == ToLowerChar(s[i])
  {
    seq(|s|, i requires 0 <= i < |s| => ToLowerChar(s[i]))
  }

  predicate HasNoUpper(s: string) {
    forall i :: 0 <= i < |s| ==> !IsUpper(s[i])
  }

  lemma ToLowerIdempotent(s: string)
    ensures HasNoUpper(ToLower(s))
    ensures ToLower(ToLower(s)) == ToLower(s)
  {
  }

  lemma ToLowerIdentity(s: string)
    requires HasNoUpper(s)
    ensures ToLower(s) == s
  {
  }

  predicate AllWhitespace(s: string) {
    forall i :: 0 <= i < |s| ==> IsWhitespace(s[i])
  }

  /** Drops the leading white space. */
  function TrimStart(s: string): (r: string)
    ensures |r| <= |s| && r == s[|s| - |r|..]
    ensures r == [] || !IsWhitespace(r[0])
  {
    if s == [] || !IsWhitespace(s[0]) then s else TrimStart(s[1..])
  }

  /** What TrimStart drops is white space. */
  lemma {:induction false} TrimStartDropsWhitespace(s: string)
    ensures AllWhitespace(s[..|s| - |TrimStart(s)|])
  {
    if s != [] && IsWhitespace(s[0]) {
      TrimStartDropsWhitespace(s[1..]);
      WhitespaceCons(s, |s| - |TrimStart(s)|);
    }
  }

  lemma WhitespaceCons(s: string, k: nat)
    requires 1 <= k <= |s| && IsWhitespace(s[0]) && AllWhitespace(s[1..][..k - 1])
    ensures AllWhitespace(s[..k])
  {
    assert s[..k] == [s[0]] + s[1..][..k - 1];
  }

  /** Drops the trailing white space. */
  function TrimEnd(s: string): (r: string)
    ensures |r| <= |s| && r == s[..|r|]
    ensures AllWhitespace(s[|r|..])
    ensures r == [] || !IsWhitespace(r[|r| - 1])
  {
    if s == [] || !IsWhitespace(s[|s| - 1]) then s
    else TrimEnd(s[..|s| - 1])
  }

  /** String.prototype.trim on ASCII. */
  function Trim(s: string): (r: string)
    ensures r == [] <==> AllWhitespace(s)
    ensures r != [] ==> !IsWhitespace(r[0]) && !IsWhitespace(r[|r| - 1])
  {
    TrimEnds(s);
    TrimEnd(TrimStart(s))
  }

  lemma TrimEnds(s: string)
    ensures var r := TrimEnd(TrimStart(s));
      && (r == [] <==> AllWhitespace(s))
      && (r != [] ==> !IsWhitespace(r[0]) && !IsWhitespace(r[|r| - 1]))
  {
    var t := TrimStart(s);
    TrimStartSplit(s);
    TrimEndSplit(t);
    TrimShape(s, Leading(s), t, TrimEnd(t), Trailing(t));
  }

  /** The reasoning behind TrimEnds, over plain strings. */
  lemma TrimShape(s: string, lead: string, t: string, r: string, trail: string)
    requires s == lead + t && t == r + trail && AllWhitespace(lead) && AllWhitespace(trail)
    requires (t == [] || !IsWhitespace(t[0])) && (r == [] || !IsWhitespace(r[|r| - 1]))
    ensures r == [] <==> AllWhitespace(s)
    ensures r != [] ==> !IsWhitespace(r[0]) && !IsWhitespace(r[|r| - 1])
  {
    AllWhitespaceAppend(lead, t);
    AllWhitespaceAppend(r, trail);
    if r != [] {
      assert r[0] == t[0];
    }
  }

  /** The white space TrimStart drops. */
  function Leading(s: string): string {
    s[..|s| - |TrimStart(s)|]
  }

  /** The white space TrimEnd drops. */
  function Trailing(t: string): string {
    t[|TrimEnd(t)|..]
  }

  lemma TrimStartSplit(s: string)
    ensures s == Leading(s) + TrimStart(s) && AllWhitespace(Leading(s))
  {
    var r := TrimStart(s);
    var k := |s| - |r|;
    TrimStartDropsWhitespace(s);
    assert Leading(s) == s[..k];
    assert s == s[..k] + s[k..];
  }

  lemma TrimEndSplit(t: string)
    ensures t == TrimEnd(t) + Trailing(t) && AllWhitespace(Trailing(t))
  {
    var r := TrimEnd(t);
    assert r == t[..|r|];
    assert t == t[..|r|] + t[|r|..];
  }

  lemma AllWhitespaceAppend(a: string, b: string)
    ensures AllWhitespace(a + b) <==> AllWhitespace(a) && AllWhitespace(b)
  {
    assert forall i :: 0 <= i < |a| ==> a[i] == (a + b)[i];
    assert forall i :: 0 <= i < |b| ==> b[i] == (a + b)[|a| + i];
    if AllWhitespace(a) && AllWhitespace(b) {
      forall i | 0 <= i < |a + b| ensures IsWhitespace((a + b)[i]) {
        if i >= |a| {
          assert (a + b)[i] == b[i - |a|];
        }
      }
    }
  }

  lemma Concat3(s: string, a: string, t: string, b: string, c: string)
    requires s == a + t && t == b + c
    ensures s == a + b + c
  {
  }

  /** A JavaScript string that is empty or white space only, i.e. `!s.trim()`. */
  predicate IsBlank(s: string) {
    AllWhitespace(s)
  }

  /** Trim splits a string into leading white space, the trimmed core and trailing white space. */
  lemma TrimDecomposition(s: string) returns (lead: string, trail: string)
    ensures s == lead + Trim(s) + trail
    ensures AllWhitespace(lead) && AllWhitespace(trail)
  {
    var t := TrimStart(s);
    TrimStartSplit(s);
    TrimEndSplit(t);
    lead, trail := Leading(s), Trailing(t);
    Concat3(s, lead, t, TrimEnd(t), trail);
  }

  /** The first character of a trimmed non-blank string is its first non-blank character. */
  lemma TrimFirst(s: string)
    requires !IsBlank(s)
    ensures TrimStart(s) != [] && Trim(s) != [] && Trim(s)[0] == TrimStart(s)[0]
  {
    var t := TrimStart(s);
    TrimStartSplit(s);
    NonBlankRest(s, Leading(s), t);
    TrimEndKeepsFirst(t);
  }

  lemma NonBlankRest(s: string, a: string, t: string)
    requires s == a + t && AllWhitespace(a) && !IsBlank(s)
    ensures t != []
  {
    assert t == [] ==> s == a;
  }

  lemma TrimEndKeepsFirst(t: string)
    requires t != [] && !IsWhitespace(t[0])
    ensures TrimEnd(t) != [] && TrimEnd(t)[0] == t[0]
  {
    TrimEndSplit(t);
    assert TrimEnd(t) == [] ==> t == Trailing(t);
  }

  /** Left trimming only looks as far as the first non-blank character. */
  lemma TrimStartAppend(a: string, b: string)
    requires !IsBlank(a)
    ensures TrimStart(a + b) == TrimStart(a) + b
  {
    if IsWhitespace(a[0]) {
      assert (a + b)[1..] == a[1..] + b;
      TrimStartAppend(a[1..], b);
    }
  }

  lemma TrimStartToLower(s: string)
    ensures TrimStart(ToLower(s)) == ToLower(TrimStart(s))
  {
    if s != [] && IsWhitespace(s[0]) {
      assert ToLower(s)[1..] == ToLower(s[1..]);
      TrimStartToLower(s[1..]);
    }
  }

  predicate StartsWith(s: string, prefix: string) {
    |prefix| <= |s| && s[..|prefix|] == prefix
  }

  /** String.prototype.split with a one-character separator. */
  function Split(s: string, sep: char): (r: seq<string>)
    ensures |r| >= 1
    ensures forall i :: 0 <= i < |r| ==> sep !in r[i]
    decreases |s|
  {
    if sep !in s then [s]
    else
      var i := IndexOf(s, sep);
      [s[..i]] + Split(s[i + 1..], sep)
  }

  function IndexOf(s: string, c: char): (i: nat)
    requires c in s
    ensures i < |s| && s[i] == c && c !in s[..i]
  {
    if s[0] == c then 0 else 1 + IndexOf(s[1..], c)
  }

  /** Array.prototype.join. */
  function Join(parts: seq<string>, sep: string): string {
    if parts == [] then []
    else if |parts| == 1 then parts[0]
    else parts[0] + sep + Join(parts[1..], sep)
  }

  /** Splitting on a character and joining with it again gives back the string. */
  lemma {:induction false} SplitJoin(s: string, sep: char)
    ensures Join(Split(s, sep), [sep]) == s
    decreases |s|
  {
    if sep in s {
      var i := IndexOf(s, sep);
      SplitJoin(s[i + 1..], sep);
      SplitUnfold(s, sep);
      SplitJoinStep(s, sep, i, Split(s, sep), Split(s[i + 1..], sep));
    }
  }

  lemma SplitUnfold(s: string, sep: char)
    requires sep in s
    ensures Split(s, sep) == [s[..IndexOf(s, sep)]] + Split(s[IndexOf(s, sep) + 1..], sep)
  {
  }

  lemma SplitJoinStep(s: string, sep: char, i: nat, r: seq<string>, tail: seq<string>)
    requires i < |s| && s[i] == sep && r == [s[..i]] + tail && |tail| >= 1
    requires Join(tail, [sep]) == s[i + 1..]
    ensures Join(r, [sep]) == s
  {
    JoinCons(s[..i], tail, [sep]);
    SliceAround(s, i);
  }

  lemma SliceAround(s: string, i: nat)
    requires i < |s|
    ensures s[..i] + [s[i]] + s[i + 1..] == s
  {
  }

  lemma JoinCons(head: string, tail: seq<string>, sep: string)
    requires |tail| >= 1
    ensures Join([head] + tail, sep) == head + sep + Join(tail, sep)
  {
    assert ([head] + tail)[1..] == tail;
  }
}
