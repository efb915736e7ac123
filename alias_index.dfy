/**
 * scripts/generate_aliases.js: builds the alias index, lower-case alias ->
 * slugs of the plants that carry it, from the parsed Bedrock files. Reading
 * and writing the files is not modelled: each file arrives as its parsed
 * JSON value and the index is returned.
 */
module AliasIndex {
  import opened Wrappers
  import opened Text
  import opened Seqs
  import opened Js
  import opened BedrockRecord

  type Index = map<string, seq<string>>

  /** An alias as `splitAliasValue` leaves it: non-empty, trimmed, free of commas. */
  predicate Clean(a: string) {
    a != [] && Trimmed(a) && ',' !in a
  }

  predicate AllClean(xs: seq<string>) {
    forall i :: 0 <= i < |xs| ==> Clean(xs[i])
  }

  lemma AllCleanAppend(a: seq<string>, b: seq<string>)
    requires AllClean(a) && AllClean(b)
    ensures AllClean(a + b)
  {
    forall i | 0 <= i < |a + b| ensures Clean((a + b)[i]) {
      if i < |a| {
        assert (a + b)[i] == a[i];
      } else {
        assert (a + b)[i] == b[i - |a|];
      }
    }
  }

  /** No white space at either end. */
  predicate Trimmed(a: string) {
    a == [] || (!IsWhitespace(a[0]) && !IsWhitespace(a[|a| - 1]))
  }

  /** A trimmed string is its own trim. */
  lemma TrimOfTrimmed(t: string)
    requires Trimmed(t)
    ensures Trim(t) == t
  {
  }

  /** Trimming only removes characters. */
  lemma TrimKeeps(p: string, c: char)
    requires c !in p
    ensures c !in Trim(p)
  {
    var lead, trail := TrimDecomposition(p);
    assert p == lead + Trim(p) + trail;
  }

  /** `.map(segment => segment.trim()).filter(Boolean)`. */
  function TrimSegments(parts: seq<string>): seq<string> {
    if parts == [] then []
    else
      var t := Trim(parts[0]);
      var rest := TrimSegments(parts[1..]);
      if t == [] then rest else [t] + rest
  }

  /** The segments kept are the non-empty trims of the parts. */
  lemma {:induction false} TrimSegmentsMembers(parts: seq<string>, x: string)
    ensures x in TrimSegments(parts) <==> x != [] && exists j :: 0 <= j < |parts| && Trim(parts[j]) == x
    decreases |parts|
  {
    if parts != [] {
      TrimSegmentsMembers(parts[1..], x);
      assert forall j :: 0 <= j < |parts| - 1 ==> parts[1..][j] == parts[j + 1];
      if x != [] && Trim(parts[0]) != x && (exists j :: 0 <= j < |parts| && Trim(parts[j]) == x) {
        var j :| 0 <= j < |parts| && Trim(parts[j]) == x;
        assert parts[1..][j - 1] == parts[j];
      }
    }
  }

  /** `splitAliasValue`: the trimmed, non-empty comma-separated segments of a string. */
  function SplitAliasValue(v: Value): (r: seq<string>)
    ensures !v.Str? ==> r == []
    ensures AllClean(r)
  {
    if !v.Str? then []
    else
      var parts := Split(v.s, ',');
      SegmentsClean(parts);
      TrimSegments(parts)
  }

  /** Segments of a comma-free list trim to clean aliases. */
  lemma SegmentsClean(parts: seq<string>)
    requires forall i :: 0 <= i < |parts| ==> ',' !in parts[i]
    ensures AllClean(TrimSegments(parts))
  {
    var r := TrimSegments(parts);
    forall i | 0 <= i < |r| ensures Clean(r[i]) {
      TrimSegmentsMembers(parts, r[i]);
      var j :| 0 <= j < |parts| && Trim(parts[j]) == r[i];
      TrimKeeps(parts[j], ',');
    }
  }

  /** The aliases of a string are the non-empty trims of its comma-separated segments. */
  lemma SplitAliasValueMembers(s: string, x: string)
    ensures x in SplitAliasValue(Str(s)) <==> x != [] && exists j :: 0 <= j < |Split(s, ',')| && Trim(Split(s, ',')[j]) == x
  {
    SplitAliasValueStr(s);
    TrimSegmentsMembers(Split(s, ','), x);
  }

  lemma SplitAliasValueStr(s: string)
    ensures SplitAliasValue(Str(s)) == TrimSegments(Split(s, ','))
  {
  }

  lemma IndexOfAfter(x: string, rest: string, c: char)
    requires c !in x && rest != [] && rest[0] == c
    ensures c in x + rest && IndexOf(x + rest, c) == |x|
  {
    if x != [] {
      assert (x + rest)[1..] == x[1..] + rest;
      IndexOfAfter(x[1..], rest, c);
    }
  }

  /** Joining pieces free of the separator and splitting again gives back the pieces. */
  lemma {:induction false} JoinSplit(xs: seq<string>, c: char)
    requires |xs| >= 1 && forall i :: 0 <= i < |xs| ==> c !in xs[i]
    ensures Split(Join(xs, [c]), c) == xs
    decreases |xs|
  {
    if |xs| > 1 {
      var rest := Join(xs[1..], [c]);
      JoinCons(xs[0], xs[1..], [c]);
      assert [xs[0]] + xs[1..] == xs;
      var s := xs[0] + [c] + rest;
      assert s == xs[0] + ([c] + rest);
      IndexOfAfter(xs[0], [c] + rest, c);
      assert s[..|xs[0]|] == xs[0];
      assert s[|xs[0]| + 1..] == rest;
      JoinSplit(xs[1..], c);
    }
  }

  lemma {:induction false} TrimSegmentsOfClean(xs: seq<string>)
    requires AllClean(xs)
    ensures TrimSegments(xs) == xs
    decreases |xs|
  {
    if xs != [] {
      TrimOfTrimmed(xs[0]);
      TrimSegmentsOfClean(xs[1..]);
    }
  }

  /** A comma-joined list of clean aliases splits back into the same list, in order. */
  lemma SplitAliasValueJoin(xs: seq<string>)
    requires xs != [] && AllClean(xs)
    ensures SplitAliasValue(Str(Join(xs, ","))) == xs
  {
    JoinSplit(xs, ',');
    TrimSegmentsOfClean(xs);
  }

  /** The split of every element, concatenated in order. */
  function SplitEach(es: seq<Value>): (r: seq<string>)
    ensures AllClean(r)
  {
    if es == [] then []
    else
      var init, last := SplitEach(es[..|es| - 1]), SplitAliasValue(es[|es| - 1]);
      AllCleanAppend(init, last);
      init + last
  }

  /** The aliases of `plant.aliases` when it is an array, none otherwise. */
  function ListedAliases(v: Value): (r: seq<string>)
    ensures !v.Arr? ==> r == []
    ensures AllClean(r)
  {
    if v.Arr? then SplitEach(v.elems) else []
  }

  /** What `collectAliases` returns. */
  function CollectedAliases(plant: Value): (r: seq<string>)
    ensures AllClean(r)
  {
    var listed := ListedAliases(Get(plant, "aliases"));
    var genus, species := SplitAliasValue(Get(plant, "genus")), SplitAliasValue(Get(plant, "species"));
    AllCleanAppend(listed, genus);
    AllCleanAppend(listed + genus, species);
    listed + genus + species
  }

  /**
   * `collectAliases`: the listed aliases, then the genus, then the species,
   * each split on commas.
   */
  method CollectAliases(plant: Value) returns (aliases: seq<string>)
    ensures aliases == CollectedAliases(plant)
  {
    aliases := [];
    var listed := Get(plant, "aliases");
    if listed.Arr? {
      aliases := SplitAll(listed.elems);
    }
    aliases := aliases + SplitAliasValue(Get(plant, "genus"));
    aliases := aliases + SplitAliasValue(Get(plant, "species"));
  }

  /** The loop of `collectAliases` over `plant.aliases`. */
  method SplitAll(es: seq<Value>) returns (aliases: seq<string>)
    ensures aliases == SplitEach(es)
  {
    aliases := [];
    for i := 0 to |es|
      invariant aliases == SplitEach(es[..i])
    {
      SplitEachTake(es, i);
      aliases := aliases + SplitAliasValue(es[i]);
    }
    assert es[..|es|] == es;
  }

  lemma SplitEachTake(es: seq<Value>, i: nat)
    requires i < |es|
    ensures SplitEach(es[..i + 1]) == SplitEach(es[..i]) + SplitAliasValue(es[i])
  {
    assert es[..i + 1][..i] == es[..i];
  }

  /** The index key of an alias, or None when `mergeAliases` skips it. */
  function MergeKey(alias: Value): (r: Option<string>)
    ensures r.None? <==> !alias.Str? || IsBlank(alias.s)
    ensures r.Some? ==> r.value == Trim(ToLower(alias.s))
  {
    if !alias.Str? || IsBlank(alias.s) then None
    else
      ToLowerBlank(alias.s);
      Some(Trim(ToLower(alias.s)))
  }

  lemma ToLowerBlank(s: string)
    ensures IsBlank(ToLower(s)) <==> IsBlank(s)
  {
    assert forall i :: 0 <= i < |s| ==> (IsWhitespace(ToLower(s)[i]) <==> IsWhitespace(s[i]));
  }

  /** Keys are non-empty, trimmed and lower case. */
  lemma MergeKeyNormal(alias: Value)
    requires MergeKey(alias).Some?
    ensures var k := MergeKey(alias).value; k != [] && Trimmed(k) && HasNoUpper(k)
  {
    var low := ToLower(alias.s);
    ToLowerBlank(alias.s);
    ToLowerIdempotent(alias.s);
    var lead, trail := TrimDecomposition(low);
    var k := Trim(low);
    forall i | 0 <= i < |k| ensures !IsUpper(k[i]) {
      assert k[i] == low[|lead| + i];
    }
    TrimOfTrimmed(k);
  }

  /** The list under a key, empty when absent. */
  function Lookup(m: Index, k: string): seq<string> {
    if k in m then m[k] else []
  }

  /** A list with slug added at the end unless already present. */
  function Extend(l: seq<string>, slug: string): (r: seq<string>)
    ensures slug in r && l <= r
    ensures NoDuplicates(l) ==> NoDuplicates(r)
  {
    if slug in l then l else l + [slug]
  }

  /** The keys `mergeAliases` computes for its aliases, None for a skipped one. */
  function MergeKeys(aliases: seq<Value>): (r: seq<Option<string>>)
    ensures |r| == |aliases| && forall i :: 0 <= i < |aliases| ==> r[i] == MergeKey(aliases[i])
  {
    seq(|aliases|, i requires 0 <= i < |aliases| => MergeKey(aliases[i]))
  }

  /** One iteration of the `mergeAliases` loop: the new map and what it adds to the counter. */
  function MergeStep(m: Index, key: Option<string>, slug: string): (Index, nat) {
    match key
    case None => (m, 0)
    case Some(k) =>
      if k in m && slug in m[k] then (m, 0)
      else (m[k := Lookup(m, k) + [slug]], 1)
  }

  /** One iteration after the earlier ones: the map so far and the running count. */
  function MergeNext(prev: (Index, nat), key: Option<string>, slug: string): (Index, nat) {
    var step := MergeStep(prev.0, key, slug);
    (step.0, prev.1 + step.1)
  }

  /** The `mergeAliases` loop over the aliases' keys: the map afterwards and the count. */
  function MergeAll(m: Index, keys: seq<Option<string>>, slug: string): (Index, nat) {
    if keys == [] then (m, 0)
    else MergeNext(MergeAll(m, keys[..|keys| - 1], slug), keys[|keys| - 1], slug)
  }

  lemma MergeAllSnoc(m: Index, keys: seq<Option<string>>, x: Option<string>, slug: string)
    ensures MergeAll(m, keys + [x], slug) == MergeNext(MergeAll(m, keys, slug), x, slug)
  {
    assert (keys + [x])[..|keys|] == keys;
  }

  /** The loop body's two updates, seen from the map before them. */
  lemma MergeStepSome(m: Index, mid: Index, k: string, slug: string, after: Index)
    requires mid == if k in m then m else m[k := []]
    requires after == if slug in mid[k] then mid else mid[k := mid[k] + [slug]]
    ensures after == MergeStep(m, Some(k), slug).0
    ensures MergeStep(m, Some(k), slug).1 == if slug in mid[k] then 0 else 1
  {
    if k !in m {
      assert m[k := []][k := [slug]] == m[k := [slug]];
    }
  }

  /** The keys that are not skipped. */
  function KeysOf(keys: seq<Option<string>>): set<string> {
    set o | o in keys && o.Some? :: o.value
  }

  /** The (key, slug) pairs an index holds. */
  function Pairs(m: Index): set<(string, string)> {
    set k, s | k in m && s in m[k] :: (k, s)
  }

  /** The pairs slug forms with each of the keys. */
  function SlugPairs(keys: set<string>, slug: string): set<(string, string)> {
    set k | k in keys :: (k, slug)
  }

  predicate NoDuplicateLists(m: Index) {
    forall k :: k in m ==> NoDuplicates(m[k])
  }

  lemma KeysOfSnoc(keys: seq<Option<string>>, x: Option<string>)
    ensures KeysOf(keys + [x]) == KeysOf(keys) + KeySet(x)
  {
    assert forall o :: o in keys + [x] <==> o in keys || o == x;
  }

  /**
   * After the loop the keys are the old ones plus the merged ones; every
   * merged key's list has slug appended unless it held it already, and every
   * other list is unchanged.
   */
  lemma {:induction false} MergeAllShape(m: Index, keys: seq<Option<string>>, slug: string)
    ensures ShapedBy(m, KeysOf(keys), slug, MergeAll(m, keys, slug).0)
    decreases |keys|
  {
    if keys != [] {
      var init := keys[..|keys| - 1];
      var x := keys[|keys| - 1];
      assert keys == init + [x];
      MergeAllShape(m, init, slug);
      MergeAllSnoc(m, init, x, slug);
      KeysOfSnoc(init, x);
      MergeStepShape(m, KeysOf(init), slug, MergeAll(m, init, slug).0, x);
    }
  }

  /**
   * r is m after merging slug under the keys ks: those keys are added, their
   * lists extended by slug, and every other list left as it was.
   */
  predicate ShapedBy(m: Index, ks: set<string>, slug: string, r: Index) {
    && r.Keys == m.Keys + ks
    && forall k :: k in r ==> r[k] == if k in ks then Extend(Lookup(m, k), slug) else m[k]
  }

  function KeySet(x: Option<string>): set<string> {
    if x.Some? then {x.value} else {}
  }

  lemma MergeStepShape(m: Index, ks: set<string>, slug: string, r: Index, x: Option<string>)
    requires ShapedBy(m, ks, slug, r)
    ensures ShapedBy(m, ks + KeySet(x), slug, MergeStep(r, x, slug).0)
  {
    if x.Some? {
      var k := x.value;
      if k in ks {
        assert slug in r[k];
      } else {
        ExtendFresh(m, ks, slug, r, k);
      }
    }
  }

  lemma ExtendFresh(m: Index, ks: set<string>, slug: string, r: Index, k: string)
    requires ShapedBy(m, ks, slug, r) && k !in ks
    ensures ShapedBy(m, ks + {k}, slug, MergeStep(r, Some(k), slug).0)
  {
    var r1 := MergeStep(r, Some(k), slug).0;
    assert Lookup(r, k) == Lookup(m, k);
    forall j | j in r1 ensures r1[j] == if j in ks + {k} then Extend(Lookup(m, j), slug) else m[j] {
      if j != k {
        assert r1[j] == r[j];
      }
    }
  }

  /** Every alias that is not skipped lists slug under its key afterwards. */
  lemma MergeAllListsSlug(m: Index, aliases: seq<Value>, slug: string, a: Value)
    requires a in aliases && a.Str? && !IsBlank(a.s)
    ensures var r := MergeAll(m, MergeKeys(aliases), slug).0; var k := Trim(ToLower(a.s));
      k in r && slug in r[k]
  {
    var keys := MergeKeys(aliases);
    var i :| 0 <= i < |aliases| && aliases[i] == a;
    assert keys[i] == MergeKey(a);
    MergeAllShape(m, keys, slug);
  }

  /** No list ever holds a slug twice. */
  lemma MergeAllNoDuplicates(m: Index, keys: seq<Option<string>>, slug: string)
    requires NoDuplicateLists(m)
    ensures NoDuplicateLists(MergeAll(m, keys, slug).0)
  {
    MergeAllShape(m, keys, slug);
  }

  lemma PairsAdd(m: Index, k: string, slug: string)
    requires !(k in m && slug in m[k])
    ensures Pairs(m[k := Lookup(m, k) + [slug]]) == Pairs(m) + {(k, slug)}
    ensures (k, slug) !in Pairs(m)
  {
    var m1 := m[k := Lookup(m, k) + [slug]];
    forall p | p in Pairs(m1) ensures p in Pairs(m) + {(k, slug)} {
      var k0, s0 :| k0 in m1 && s0 in m1[k0] && p == (k0, s0);
      if k0 == k && s0 != slug {
        assert s0 in m[k];
      }
    }
    forall p | p in Pairs(m) + {(k, slug)} ensures p in Pairs(m1) {
      if p != (k, slug) {
        var k0, s0 :| k0 in m && s0 in m[k0] && p == (k0, s0);
        assert s0 in m1[k0];
      } else {
        assert slug in m1[k];
      }
    }
  }

  lemma SlugPairsSnoc(keys: set<string>, x: Option<string>, slug: string)
    ensures SlugPairs(keys + KeySet(x), slug) == SlugPairs(keys, slug) + PairSet(x, slug)
  {
    if x.Some? {
      assert (x.value, slug) in SlugPairs(keys + {x.value}, slug);
    }
  }

  /**
   * The count `mergeAliases` returns is the number of (key, slug) pairs it
   * adds to the index: the pairs afterwards are the old ones plus slug under
   * every merged key.
   */
  lemma {:induction false} MergeAllCount(m: Index, keys: seq<Option<string>>, slug: string)
    ensures PairsCounted(m, MergeAll(m, keys, slug), SlugPairs(KeysOf(keys), slug))
    decreases |keys|
  {
    if keys != [] {
      var init, x := keys[..|keys| - 1], keys[|keys| - 1];
      assert keys == init + [x];
      MergeAllSnoc(m, init, x, slug);
      var prev := MergeAll(m, init, slug);
      MergeAllCount(m, init, slug);
      MergeStepCount(prev.0, x, slug);
      KeysOfSnoc(init, x);
      SlugPairsSnoc(KeysOf(init), x, slug);
      UnionStep(Pairs(m), SlugPairs(KeysOf(init), slug), Pairs(prev.0), PairSet(x, slug), Pairs(MergeStep(prev.0, x, slug).0));
    }
  }

  /**
   * r holds the pairs of m and the given pairs, and its count is the number
   * of pairs it holds beyond those of m.
   */
  predicate PairsCounted(m: Index, r: (Index, nat), pairs: set<(string, string)>) {
    Pairs(r.0) == Pairs(m) + pairs && |Pairs(r.0)| == |Pairs(m)| + r.1
  }

  /** The pair an alias key forms with slug, none for a skipped alias. */
  function PairSet(x: Option<string>, slug: string): set<(string, string)> {
    if x.Some? then {(x.value, slug)} else {}
  }

  lemma UnionStep<T>(a: set<T>, s0: set<T>, p0: set<T>, e: set<T>, p1: set<T>)
    requires p0 == a + s0 && p1 == p0 + e
    ensures p1 == a + (s0 + e)
  {
  }

  /** One loop iteration adds its (key, slug) pair and counts it when it is new. */
  lemma MergeStepCount(m: Index, x: Option<string>, slug: string)
    ensures PairsCounted(m, MergeStep(m, x, slug), PairSet(x, slug))
  {
    match x
    case None =>
    case Some(k) =>
      if !(k in m && slug in m[k]) {
        PairsAdd(m, k, slug);
      } else {
        assert (k, slug) in Pairs(m);
        assert Pairs(m) + {(k, slug)} == Pairs(m);
      }
  }

  /** Merging the same aliases for the same slug again adds nothing and changes nothing. */
  lemma MergeAllIdempotent(m: Index, keys: seq<Option<string>>, slug: string)
    ensures var r := MergeAll(m, keys, slug).0;
      MergeAll(r, keys, slug).0 == r && MergeAll(r, keys, slug).1 == 0
  {
    var r := MergeAll(m, keys, slug).0;
    var again := MergeAll(r, keys, slug);
    MergeAllShape(m, keys, slug);
    MergeAllShape(r, keys, slug);
    ShapeTwice(m, r, again.0, KeysOf(keys), slug);
    MergeAllCount(r, keys, slug);
  }

  /** The shape of MergeAllShape, applied twice, changes nothing the second time. */
  lemma ShapeTwice(m: Index, r: Index, r2: Index, keys: set<string>, slug: string)
    requires ShapedBy(m, keys, slug, r) && ShapedBy(r, keys, slug, r2)
    ensures r2 == r
  {
    forall k | k in r ensures r2[k] == r[k] {
      if k in keys {
        ExtendTwice(Lookup(m, k), slug);
      }
    }
    MapsEqual(r2, r);
  }

  lemma ExtendTwice(l: seq<string>, slug: string)
    ensures Extend(Extend(l, slug), slug) == Extend(l, slug)
  {
  }

  lemma MapsEqual(a: Index, b: Index)
    requires a.Keys == b.Keys && forall k :: k in b ==> a[k] == b[k]
    ensures a == b
  {
  }

  /** The alias map of `main`, updated in place by `mergeAliases`. */
  class AliasMap {
    var entries: Index

    constructor ()
      ensures entries == map[]
    {
      entries := map[];
    }

    /** `mergeAliases(aliases, slug, aliasMap)`. */
    method MergeAliases(aliases: seq<Value>, slug: string) returns (added: nat)
      modifies this
      ensures (entries, added) == MergeAll(old(entries), MergeKeys(aliases), slug)
    {
      added := 0;
      ghost var keys := MergeKeys(aliases);
      for i := 0 to |aliases|
        invariant (entries, added) == MergeAll(old(entries), keys[..i], slug)
      {
        TakeSnoc(keys, i);
        MergeAllSnoc(old(entries), keys[..i], keys[i], slug);
        var c := Insert(MergeKey(aliases[i]), slug);
        added := added + c;
      }
      assert keys[..|aliases|] == keys;
    }

    /** One iteration of the `mergeAliases` loop: a skipped key changes nothing. */
    method Insert(key: Option<string>, slug: string) returns (c: nat)
      modifies this
      ensures (entries, c) == MergeStep(old(entries), key, slug)
    {
      c := 0;
      if key.Some? {
        var k := key.value;
        if k !in entries {
          entries := entries[k := []];
        }
        ghost var mid := entries;
        if slug !in entries[k] {
          entries := entries[k := entries[k] + [slug]];
          c := 1;
        }
        MergeStepSome(old(entries), mid, k, slug, entries);
      }
    }
  }

  /** The aliases of a list of strings as JSON values. */
  function AsValues(ss: seq<string>): (r: seq<Value>)
    ensures |r| == |ss| && forall i :: 0 <= i < |ss| ==> r[i] == Str(ss[i])
  {
    seq(|ss|, i requires 0 <= i < |ss| => Str(ss[i]))
  }

  /** What a record contributes to the index. */
  datatype Contribution = Skipped | Aliased(slug: string, keys: seq<Option<string>>)

  /**
   * A record with a usable `scientificName` contributes the keys of its
   * collected aliases under its slug; any other record is skipped.
   */
  function ContributionOf(plant: Value): Contribution {
    match RecordSlug(plant)
    case Named(slug) => Aliased(slug, MergeKeys(AsValues(CollectedAliases(plant))))
    case _ => Skipped
  }

  /** Every collected alias of a record is kept, under its lower-cased form. */
  lemma ContributionKeys(plant: Value)
    requires RecordSlug(plant).Named?
    ensures KeysOf(ContributionOf(plant).keys) == set a | a in CollectedAliases(plant) :: ToLower(a)
  {
    KeysOfClean(CollectedAliases(plant));
  }

  lemma KeysOfClean(c: seq<string>)
    requires AllClean(c)
    ensures KeysOf(MergeKeys(AsValues(c))) == set a | a in c :: ToLower(a)
  {
    var keys := MergeKeys(AsValues(c));
    forall i | 0 <= i < |c| ensures keys[i] == Some(ToLower(c[i])) {
      assert AsValues(c)[i] == Str(c[i]);
      KeyOfClean(c[i]);
    }
    KeysOfLowered(keys, c);
  }

  /** A clean alias is its own key, lower-cased. */
  lemma KeyOfClean(a: string)
    requires Clean(a)
    ensures MergeKey(Str(a)) == Some(ToLower(a))
  {
    ToLowerBlank(a);
    ToLowerTrimmed(a);
  }

  lemma KeysOfLowered(keys: seq<Option<string>>, c: seq<string>)
    requires |keys| == |c| && forall i :: 0 <= i < |c| ==> keys[i] == Some(ToLower(c[i]))
    ensures KeysOf(keys) == set a | a in c :: ToLower(a)
  {
    forall a | a in c ensures ToLower(a) in KeysOf(keys) {
      var i :| 0 <= i < |c| && c[i] == a;
      assert keys[i] in keys;
    }
    forall k | k in KeysOf(keys) ensures exists a :: a in c && k == ToLower(a) {
      var i :| 0 <= i < |keys| && keys[i].Some? && keys[i].value == k;
      assert c[i] in c;
    }
  }

  lemma ToLowerTrimmed(a: string)
    requires Trimmed(a)
    ensures Trim(ToLower(a)) == ToLower(a)
  {
    TrimOfTrimmed(ToLower(a));
  }

  /** The contributions of the records, in order. */
  function Contributions(plants: seq<Value>): (r: seq<Contribution>)
    ensures |r| == |plants| && forall i :: 0 <= i < |plants| ==> r[i] == ContributionOf(plants[i])
  {
    MapSeq(ContributionOf, plants)
  }

  /** One record of `main`'s inner loop: a skipped record changes nothing. */
  function IndexStep(acc: (Index, nat), c: Contribution): (Index, nat) {
    match c
    case Aliased(slug, keys) =>
      var merged := MergeAll(acc.0, keys, slug);
      (merged.0, acc.1 + merged.1)
    case Skipped => acc
  }

  /** The index and the `aliasEntries` count after the contributions, in order. */
  function IndexAll(m: Index, cs: seq<Contribution>): (Index, nat) {
    if cs == [] then (m, 0)
    else IndexStep(IndexAll(m, cs[..|cs| - 1]), cs[|cs| - 1])
  }

  lemma IndexAllSnoc(m: Index, cs: seq<Contribution>, c: Contribution)
    ensures IndexAll(m, cs + [c]) == IndexStep(IndexAll(m, cs), c)
  {
    assert (cs + [c])[..|cs|] == cs;
  }

  /** The (key, slug) pairs the contributions hold. */
  function ContributedPairs(cs: seq<Contribution>): set<(string, string)> {
    set i, k | 0 <= i < |cs| && cs[i].Aliased? && k in KeysOf(cs[i].keys) :: (k, cs[i].slug)
  }

  lemma ContributedPairsSnoc(cs: seq<Contribution>, c: Contribution)
    ensures ContributedPairs(cs + [c]) ==
      ContributedPairs(cs) + (if c.Aliased? then SlugPairs(KeysOf(c.keys), c.slug) else {})
  {
    var all := cs + [c];
    forall p | p in ContributedPairs(all)
      ensures p in ContributedPairs(cs) + (if c.Aliased? then SlugPairs(KeysOf(c.keys), c.slug) else {})
    {
      var i, k :| 0 <= i < |all| && all[i].Aliased? && k in KeysOf(all[i].keys) && p == (k, all[i].slug);
      if i < |cs| {
        assert all[i] == cs[i];
      }
    }
    forall p | p in ContributedPairs(cs) ensures p in ContributedPairs(all) {
      var i, k :| 0 <= i < |cs| && cs[i].Aliased? && k in KeysOf(cs[i].keys) && p == (k, cs[i].slug);
      assert all[i] == cs[i];
    }
    if c.Aliased? {
      forall p | p in SlugPairs(KeysOf(c.keys), c.slug) ensures p in ContributedPairs(all) {
        assert all[|cs|] == c;
      }
    }
  }

  /**
   * The index holds exactly the contributed pairs, and the `aliasEntries`
   * count is the number of pairs added.
   */
  lemma {:induction false} IndexAllPairs(m: Index, cs: seq<Contribution>)
    ensures PairsCounted(m, IndexAll(m, cs), ContributedPairs(cs))
    decreases |cs|
  {
    if cs == [] {
      assert ContributedPairs(cs) == {};
    } else {
      var init := cs[..|cs| - 1];
      var last := cs[|cs| - 1];
      assert cs == init + [last];
      IndexAllPairs(m, init);
      IndexAllPairsStep(m, init, last);
    }
  }

  lemma IndexAllPairsStep(m: Index, init: seq<Contribution>, last: Contribution)
    requires PairsCounted(m, IndexAll(m, init), ContributedPairs(init))
    ensures PairsCounted(m, IndexAll(m, init + [last]), ContributedPairs(init + [last]))
  {
    IndexAllSnoc(m, init, last);
    var acc := IndexAll(m, init);
    ContributedPairsSnoc(init, last);
    match last
    case Aliased(slug, keys) =>
      var merged := MergeAll(acc.0, keys, slug);
      MergeAllCount(acc.0, keys, slug);
      UnionStep(Pairs(m), ContributedPairs(init), Pairs(acc.0), SlugPairs(KeysOf(keys), slug), Pairs(merged.0));
    case Skipped =>
  }

  /** The index keeps no duplicate slugs in a list. */
  lemma {:induction false} IndexAllNoDuplicates(m: Index, cs: seq<Contribution>)
    requires NoDuplicateLists(m)
    ensures NoDuplicateLists(IndexAll(m, cs).0)
    decreases |cs|
  {
    if cs != [] {
      IndexAllNoDuplicates(m, cs[..|cs| - 1]);
      match cs[|cs| - 1]
      case Aliased(slug, keys) =>
        MergeAllNoDuplicates(IndexAll(m, cs[..|cs| - 1]).0, keys, slug);
      case Skipped =>
    }
  }

  /** The records of the array files, in order; other files are skipped. */
  function ArrayRecords(files: seq<Value>): seq<Value> {
    if files == [] then []
    else
      var last := files[|files| - 1];
      ArrayRecords(files[..|files| - 1]) + (if last.Arr? then last.elems else [])
  }

  lemma ContributionsSnoc(plants: seq<Value>, x: Value)
    ensures Contributions(plants + [x]) == Contributions(plants) + [ContributionOf(x)]
  {
    MapSeqAppend(ContributionOf, plants, [x]);
  }

  /**
   * `main` over the parsed files: files that are not arrays are skipped; a
   * truthy non-string name makes `slugify` throw and ends the run with no
   * output. On success: the index, the `processed` count (every record,
   * skipped or not) and the `aliasEntries` count, which is the number of
   * (alias, slug) pairs in the index.
   */
  method BuildAliasMap(files: seq<Value>) returns (r: Result<(Index, nat, nat), (nat, nat)>)
    ensures r.Success? <==> AllNamesUsable(ArrayRecords(files))
    ensures r.Success? ==> var built := IndexAll(map[], Contributions(ArrayRecords(files)));
      && r.value.0 == built.0 && r.value.1 == |ArrayRecords(files)| && r.value.2 == built.1
      && r.value.2 == |Pairs(built.0)|
    ensures r.Failure? ==> var (f, p) := r.error;
      f < |files| && files[f].Arr? && p < |files[f].elems| && RecordSlug(files[f].elems[p]).NameNotString?
  {
    var aliasMap := new AliasMap();
    var processed := 0;
    var aliasEntries := 0;
    ghost var done: seq<Value> := [];
    for f := 0 to |files|
      invariant done == ArrayRecords(files[..f]) && AllNamesUsable(done)
      invariant aliasMap.entries == IndexAll(map[], Contributions(done)).0
      invariant aliasEntries == IndexAll(map[], Contributions(done)).1
      invariant processed == |done|
    {
      assert files[..f + 1][..f] == files[..f];
      if !files[f].Arr? {
        continue;
      }
      var plants := files[f].elems;
      ghost var before := aliasMap.entries;
      var result := IndexRecords(aliasMap, plants);
      if result.Failure? {
        BadNameFails(files, f, done, plants, result.error);
        return Failure((f, result.error));
      }
      FileStep(done, plants, before, aliasEntries, aliasMap.entries, result.value);
      processed := processed + |plants|;
      aliasEntries := aliasEntries + result.value;
      done := done + plants;
    }
    assert files[..|files|] == files;
    IndexAllPairs(map[], Contributions(done));
    return Success((aliasMap.entries, processed, aliasEntries));
  }

  /**
   * The inner loop of `main` over one file's records: each record counts as
   * processed; one without a truthy name is skipped; the others merge their
   * collected aliases under their slug. The result is the number of entries
   * added, or the position of a record whose name is not a string.
   */
  method IndexRecords(aliasMap: AliasMap, plants: seq<Value>) returns (r: Result<nat, nat>)
    modifies aliasMap
    ensures r.Success? <==> AllNamesUsable(plants)
    ensures r.Success? ==> var effect := IndexAll(old(aliasMap.entries), Contributions(plants));
      aliasMap.entries == effect.0 && r.value == effect.1
    ensures r.Failure? ==> r.error < |plants| && RecordSlug(plants[r.error]).NameNotString?
  {
    ghost var start := aliasMap.entries;
    var added := 0;
    assert Contributions(plants[..0]) == [];
    for p := 0 to |plants|
      invariant AllNamesUsable(plants[..p])
      invariant aliasMap.entries == IndexAll(start, Contributions(plants[..p])).0
      invariant added == IndexAll(start, Contributions(plants[..p])).1
    {
      ghost var d := plants[..p];
      TakeSnoc(plants, p);
      UsableSnoc(d, plants[p]);
      ghost var before := aliasMap.entries;
      var c := IndexRecord(aliasMap, plants[p]);
      if c.None? {
        BadNameInFile(plants, p);
        return Failure(p);
      }
      RecordStep(start, d, plants[p], before, added, aliasMap.entries, c.value);
      added := added + c.value;
    }
    assert plants[..|plants|] == plants;
    return Success(added);
  }

  /**
   * The body of `main`'s inner loop for one record: None when `slugify`
   * throws, otherwise the number of entries the record adds.
   */
  method IndexRecord(aliasMap: AliasMap, plant: Value) returns (r: Option<nat>)
    modifies aliasMap
    ensures r.None? <==> RecordSlug(plant).NameNotString?
    ensures r.Some? ==> var effect := IndexStep((old(aliasMap.entries), 0), ContributionOf(plant));
      aliasMap.entries == effect.0 && r.value == effect.1
  {
    match RecordSlug(plant) {
      case NoName =>
        SkippedStep(aliasMap.entries, plant);
        return Some(0);
      case NameNotString =>
        return None;
      case Named(slug) =>
        var aliases := CollectAliases(plant);
        var c := aliasMap.MergeAliases(AsValues(aliases), slug);
        NamedStep(old(aliasMap.entries), plant, slug, aliasMap.entries, c);
        return Some(c);
    }
  }

  /** One more record is one more step of the index: its own effect, added to the count so far. */
  lemma RecordStep(m: Index, d: seq<Value>, x: Value, e0: Index, c0: nat, e1: Index, c1: nat)
    requires e0 == IndexAll(m, Contributions(d)).0 && c0 == IndexAll(m, Contributions(d)).1
    requires e1 == IndexStep((e0, 0), ContributionOf(x)).0 && c1 == IndexStep((e0, 0), ContributionOf(x)).1
    ensures e1 == IndexAll(m, Contributions(d + [x])).0 && c0 + c1 == IndexAll(m, Contributions(d + [x])).1
  {
    ContributionsSnoc(d, x);
    IndexAllSnoc(m, Contributions(d), ContributionOf(x));
    IndexStepParts(IndexAll(m, Contributions(d)), ContributionOf(x));
  }

  /** One more file: its records follow those of the earlier files. */
  lemma FileStep(done: seq<Value>, plants: seq<Value>, e0: Index, c0: nat, e1: Index, c1: nat)
    requires e0 == IndexAll(map[], Contributions(done)).0 && c0 == IndexAll(map[], Contributions(done)).1
    requires e1 == IndexAll(e0, Contributions(plants)).0 && c1 == IndexAll(e0, Contributions(plants)).1
    ensures AllNamesUsable(done + plants) <==> AllNamesUsable(done) && AllNamesUsable(plants)
    ensures e1 == IndexAll(map[], Contributions(done + plants)).0
    ensures c0 + c1 == IndexAll(map[], Contributions(done + plants)).1
  {
    UsableAppend(done, plants);
    ContributionsAppend(done, plants);
    IndexAllAppend(map[], Contributions(done), Contributions(plants));
  }

  lemma ContributionsAppend(done: seq<Value>, plants: seq<Value>)
    ensures Contributions(done + plants) == Contributions(done) + Contributions(plants)
  {
    MapSeqAppend(ContributionOf, done, plants);
  }

  /** Indexing two runs of contributions in turn adds up their counts. */
  lemma {:induction false} IndexAllAppend(m: Index, a: seq<Contribution>, b: seq<Contribution>)
    ensures IndexAll(m, a + b).0 == IndexAll(IndexAll(m, a).0, b).0
    ensures IndexAll(m, a + b).1 == IndexAll(m, a).1 + IndexAll(IndexAll(m, a).0, b).1
    decreases |b|
  {
    if b == [] {
      assert a + b == a;
    } else {
      var init, x := b[..|b| - 1], b[|b| - 1];
      assert b == init + [x];
      assert a + b == (a + init) + [x];
      IndexAllAppend(m, a, init);
      var e := IndexAll(m, a).0;
      IndexAllSnoc(m, a + init, x);
      IndexAllSnoc(e, init, x);
      IndexStepParts(IndexAll(m, a + init), x);
      IndexStepParts(IndexAll(e, init), x);
    }
  }

  /** A step adds to the count it is given and does not look at it. */
  lemma IndexStepParts(acc: (Index, nat), x: Contribution)
    ensures IndexStep(acc, x).0 == IndexStep((acc.0, 0), x).0
    ensures IndexStep(acc, x).1 == acc.1 + IndexStep((acc.0, 0), x).1
  {
  }

  lemma NamedStep(m: Index, plant: Value, slug: string, entries: Index, added: nat)
    requires RecordSlug(plant) == Named(slug)
    requires (entries, added) == MergeAll(m, MergeKeys(AsValues(CollectedAliases(plant))), slug)
    ensures var effect := IndexStep((m, 0), ContributionOf(plant));
      entries == effect.0 && added == effect.1
  {
    var keys := MergeKeys(AsValues(CollectedAliases(plant)));
    assert ContributionOf(plant) == Aliased(slug, keys);
    AliasedStep(m, slug, keys, entries, added);
  }

  lemma SkippedStep(m: Index, plant: Value)
    requires RecordSlug(plant).NoName?
    ensures IndexStep((m, 0), ContributionOf(plant)) == (m, 0)
  {
  }

  lemma AliasedStep(m: Index, slug: string, keys: seq<Option<string>>, entries: Index, added: nat)
    requires (entries, added) == MergeAll(m, keys, slug)
    ensures var effect := IndexStep((m, 0), Aliased(slug, keys));
      entries == effect.0 && added == effect.1
  {
  }

  lemma {:induction false} ArrayRecordsPrefix(files: seq<Value>, f: nat) returns (rest: seq<Value>)
    requires f <= |files|
    ensures ArrayRecords(files) == ArrayRecords(files[..f]) + rest
    decreases |files|
  {
    if f == |files| {
      assert files[..f] == files;
      rest := [];
    } else {
      var init := files[..|files| - 1];
      var r0 := ArrayRecordsPrefix(init, f);
      assert init[..f] == files[..f];
      var last := files[|files| - 1];
      rest := r0 + (if last.Arr? then last.elems else []);
    }
  }

  lemma BadNameFails(files: seq<Value>, f: nat, done: seq<Value>, plants: seq<Value>, p: nat)
    requires f < |files| && files[f] == Arr(plants) && done == ArrayRecords(files[..f])
    requires p < |plants| && RecordSlug(plants[p]).NameNotString?
    ensures !AllNamesUsable(ArrayRecords(files))
  {
    var rest := ArrayRecordsPrefix(files, f + 1);
    ArrayRecordsSnoc(files, f);
    BadNameInMiddle(ArrayRecords(files), done, plants, rest, p);
  }

  lemma ArrayRecordsSnoc(files: seq<Value>, f: nat)
    requires f < |files|
    ensures ArrayRecords(files[..f + 1]) == ArrayRecords(files[..f]) + (if files[f].Arr? then files[f].elems else [])
  {
    assert files[..f + 1][..f] == files[..f];
  }

}
