/**
 * src/services/searchPlantService.ts: choosing the alias shard for a prefix,
 * collecting the slugs of the shard's aliases that start with the lower-cased
 * prefix, and turning slugs into at most 50 detail cards ordered by
 * popularity.  The precomputed shard map and details map are parameters, and
 * so is the shard map's default key; the logger calls are left out.
 */
module Search {
  import opened Text
  import opened Seqs
  import opened Js
  import opened BedrockRecord
  import opened Details

  /** One alias of a shard and its slug list. */
  type Entry = (string, seq<string>)

  /** A shard object's entries in `Object.entries` order. */
  type Shard = seq<Entry>

  type ShardMap = map<string, Shard>

  /** The first character of a non-blank string that is not white space: `value.trim().charAt(0)`. */
  function FirstNonBlank(s: string): (c: char)
    requires !IsBlank(s)
    ensures Trim(s) != [] && c == Trim(s)[0]
    ensures TrimStart(s) != [] && c == TrimStart(s)[0]
    ensures !IsWhitespace(c)
  {
    TrimFirst(s);
    Trim(s)[0]
  }

  /**
   * `resolveAliasShardKey`: the lower-cased first non-blank character when it
   * is a letter a-z, otherwise (blank input included) the default key.
   */
  function ResolveAliasShardKey(value: string, defaultKey: string): (r: string)
    ensures r == defaultKey || (|r| == 1 && IsLowerLetter(r[0]))
    ensures r != defaultKey ==> !IsBlank(value) && r == [ToLowerChar(FirstNonBlank(value))]
    ensures !IsBlank(value) && IsLowerLetter(ToLowerChar(FirstNonBlank(value))) ==> r == [ToLowerChar(FirstNonBlank(value))]
  {
    if IsBlank(value) then defaultKey
    else
      var c := ToLowerChar(FirstNonBlank(value));
      if IsLowerLetter(c) then [c] else defaultKey
  }

  /** `getAliasShard`: the prefix's shard, else the default shard, else no entries. */
  function GetAliasShard(prefix: string, shards: ShardMap, defaultKey: string): Shard {
    var key := ResolveAliasShardKey(prefix, defaultKey);
    if key in shards then shards[key]
    else if defaultKey in shards then shards[defaultKey]
    else []
  }

  /** The slug lists of the entries whose alias starts with `lower`, in entry order. */
  function MatchLists(shard: Shard, lower: string): seq<seq<string>>
    decreases |shard|
  {
    if shard == [] then []
    else
      var e := shard[|shard| - 1];
      MatchLists(shard[..|shard| - 1], lower) + (if StartsWith(e.0, lower) then [e.1] else [])
  }

  /** The slugs `matches` collects over a shard: every listed slug once, in order of first addition. */
  function Lookup(shard: Shard, lower: string): seq<string> {
    Dedup(Flatten(MatchLists(shard, lower)))
  }

  /** pk is listed under an alias of the shard that starts with `lower`. */
  ghost predicate Hit(shard: Shard, lower: string, pk: string) {
    exists e :: e in shard && StartsWith(e.0, lower) && pk in e.1
  }

  /** What `getPlantPKsByAliasPrefix` returns. */
  function PksByAliasPrefix(prefix: string, shards: ShardMap, defaultKey: string): seq<string> {
    if IsBlank(prefix) || |prefix| < 3 then []
    else Lookup(GetAliasShard(prefix, shards, defaultKey), ToLower(prefix))
  }

  lemma {:induction false} MatchListsHit(shard: Shard, lower: string, pk: string)
    ensures pk in Flatten(MatchLists(shard, lower)) <==> Hit(shard, lower, pk)
    decreases |shard|
  {
    if shard != [] {
      var init, e := shard[..|shard| - 1], shard[|shard| - 1];
      assert shard == init + [e];
      MatchListsHit(init, lower, pk);
      HitSnoc(init, e, lower, pk);
      var ms := MatchLists(init, lower);
      if StartsWith(e.0, lower) {
        assert MatchLists(shard, lower) == ms + [e.1];
        FlattenSnoc(ms, e.1);
      } else {
        assert MatchLists(shard, lower) == ms;
      }
    }
  }

  lemma HitSnoc(shard: Shard, e: Entry, lower: string, pk: string)
    ensures Hit(shard + [e], lower, pk) <==> Hit(shard, lower, pk) || (StartsWith(e.0, lower) && pk in e.1)
  {
    if Hit(shard + [e], lower, pk) {
      var e' :| e' in shard + [e] && StartsWith(e'.0, lower) && pk in e'.1;
      assert e' in shard || e' == e;
    }
    if Hit(shard, lower, pk) {
      var e' :| e' in shard && StartsWith(e'.0, lower) && pk in e'.1;
      assert e' in shard + [e];
    }
    if StartsWith(e.0, lower) && pk in e.1 {
      assert e in shard + [e];
    }
  }

  /** Sound and complete for the shard, and duplicate-free. */
  lemma LookupSpec(shard: Shard, lower: string)
    ensures NoDuplicates(Lookup(shard, lower))
    ensures forall pk :: pk in Lookup(shard, lower) <==> Hit(shard, lower, pk)
  {
    forall pk ensures pk in Lookup(shard, lower) <==> Hit(shard, lower, pk) {
      MatchListsHit(shard, lower, pk);
    }
  }

  lemma MatchListsSnoc(shard: Shard, e: Entry, lower: string)
    ensures StartsWith(e.0, lower) ==> MatchLists(shard + [e], lower) == MatchLists(shard, lower) + [e.1]
    ensures !StartsWith(e.0, lower) ==> MatchLists(shard + [e], lower) == MatchLists(shard, lower)
  {
    assert (shard + [e])[..|shard|] == shard;
    assert MatchLists(shard, lower) + [] == MatchLists(shard, lower);
  }

  /** `getPlantPKsByAliasPrefix`: the prefix guards, then the shard scan into an insertion-ordered set. */
  method GetPlantPKsByAliasPrefix(prefix: string, shards: ShardMap, defaultKey: string) returns (result: seq<string>)
    ensures result == PksByAliasPrefix(prefix, shards, defaultKey)
    ensures IsBlank(prefix) || |prefix| < 3 ==> result == []
    ensures NoDuplicates(result)
    ensures !IsBlank(prefix) && |prefix| >= 3 ==>
      forall pk :: pk in result <==> Hit(GetAliasShard(prefix, shards, defaultKey), ToLower(prefix), pk)
  {
    if IsBlank(prefix) {
      return [];
    }
    if |prefix| < 3 {
      return [];
    }
    var lower := ToLower(prefix);
    var shard := GetAliasShard(prefix, shards, defaultKey);
    result := ScanShard(shard, lower);
    LookupSpec(shard, lower);
  }

  /** The `for (const [alias, pks] of Object.entries(shard))` loop. */
  method ScanShard(shard: Shard, lower: string) returns (matches: seq<string>)
    ensures matches == Lookup(shard, lower)
  {
    matches := [];
    var i := 0;
    while i < |shard|
      invariant 0 <= i <= |shard|
      invariant matches == Dedup(Flatten(MatchLists(shard[..i], lower)))
    {
      var e := shard[i];
      var before := Flatten(MatchLists(shard[..i], lower));
      ScanStep(shard, i, lower);
      if StartsWith(e.0, lower) {
        matches := AddAll(matches, before, e.1);
      }
      i := i + 1;
    }
    assert shard[..i] == shard;
  }

  /** The flattened match lists of one more entry. */
  lemma ScanStep(shard: Shard, i: nat, lower: string)
    requires i < |shard|
    ensures StartsWith(shard[i].0, lower) ==>
      Flatten(MatchLists(shard[..i + 1], lower)) == Flatten(MatchLists(shard[..i], lower)) + shard[i].1
    ensures !StartsWith(shard[i].0, lower) ==>
      Flatten(MatchLists(shard[..i + 1], lower)) == Flatten(MatchLists(shard[..i], lower))
  {
    TakeSnoc(shard, i);
    MatchListsSnoc(shard[..i], shard[i], lower);
    if StartsWith(shard[i].0, lower) {
      FlattenSnoc(MatchLists(shard[..i], lower), shard[i].1);
    }
  }

  /** `for (const pk of pks) matches.add(pk)` on the set held as its insertion order. */
  method AddAll(matches: seq<string>, ghost before: seq<string>, pks: seq<string>) returns (r: seq<string>)
    requires matches == Dedup(before)
    ensures r == Dedup(before + pks)
  {
    r := matches;
    var j := 0;
    assert before + pks[..0] == before;
    while j < |pks|
      invariant 0 <= j <= |pks|
      invariant r == Dedup(before + pks[..j])
    {
      AppendTakeSnoc(before, pks, j);
      DedupSnoc(before + pks[..j], pks[j]);
      if pks[j] !in r {
        r := r + [pks[j]];
      }
      j := j + 1;
    }
    assert pks[..j] == pks;
  }

  // ---- shard invariance ----

  /** Every alias that starts with the lower-cased prefix resolves to the prefix's shard key. */
  lemma ResolveSharedPrefix(prefix: string, alias: string, defaultKey: string)
    requires !IsBlank(prefix) && StartsWith(alias, ToLower(prefix))
    ensures !IsBlank(alias)
    ensures ResolveAliasShardKey(alias, defaultKey) == ResolveAliasShardKey(prefix, defaultKey)
  {
    FirstNonBlankShared(prefix, alias);
    var c := FirstNonBlank(prefix);
    assert ToLowerChar(ToLowerChar(c)) == ToLowerChar(c);
  }

  /** An alias starting with the lower-cased prefix starts, after its white space, with the prefix's first character lower-cased. */
  lemma FirstNonBlankShared(prefix: string, alias: string)
    requires !IsBlank(prefix) && StartsWith(alias, ToLower(prefix))
    ensures !IsBlank(alias) && FirstNonBlank(alias) == ToLowerChar(FirstNonBlank(prefix))
  {
    var lower := ToLower(prefix);
    var rest := alias[|lower|..];
    assert alias == lower + rest;
    LowerNotBlank(prefix);
    AllWhitespaceAppend(lower, rest);
    TrimStartAppend(lower, rest);
    TrimStartToLower(prefix);
    var c := FirstNonBlank(prefix);
    var t := TrimStart(prefix);
    assert TrimStart(alias)[0] == ToLower(t)[0];
  }

  lemma LowerNotBlank(s: string)
    requires !IsBlank(s)
    ensures !IsBlank(ToLower(s))
  {
    var k :| 0 <= k < |s| && !IsWhitespace(s[k]);
    assert !IsWhitespace(ToLower(s)[k]);
  }

  /**
   * The hypothesis under which one shard suffices: every entry of every shard
   * comes from `all` and sits under its own alias's key, and every entry of
   * `all` is in the shard of its alias's key.
   */
  ghost predicate PartitionedBy(shards: ShardMap, all: Shard, defaultKey: string) {
    && (forall k, e :: k in shards && e in shards[k] ==> e in all && ResolveAliasShardKey(e.0, defaultKey) == k)
    && (forall e :: e in all ==>
          ResolveAliasShardKey(e.0, defaultKey) in shards && e in shards[ResolveAliasShardKey(e.0, defaultKey)])
  }

  /** Under a partition by shard key, scanning the selected shard finds exactly what scanning every alias finds. */
  lemma ShardInvariance(prefix: string, shards: ShardMap, all: Shard, defaultKey: string)
    requires PartitionedBy(shards, all, defaultKey)
    requires !IsBlank(prefix) && |prefix| >= 3
    ensures forall pk :: pk in PksByAliasPrefix(prefix, shards, defaultKey) <==> Hit(all, ToLower(prefix), pk)
  {
    var lower := ToLower(prefix);
    var shard := GetAliasShard(prefix, shards, defaultKey);
    assert PksByAliasPrefix(prefix, shards, defaultKey) == Lookup(shard, lower);
    LookupSpec(shard, lower);
    forall pk ensures Hit(shard, lower, pk) <==> Hit(all, lower, pk) {
      HitIff(prefix, shards, all, defaultKey, pk);
    }
  }

  lemma HitIff(prefix: string, shards: ShardMap, all: Shard, defaultKey: string, pk: string)
    requires PartitionedBy(shards, all, defaultKey) && !IsBlank(prefix)
    ensures Hit(GetAliasShard(prefix, shards, defaultKey), ToLower(prefix), pk) <==> Hit(all, ToLower(prefix), pk)
  {
    if Hit(GetAliasShard(prefix, shards, defaultKey), ToLower(prefix), pk) {
      ShardHitInAll(prefix, shards, all, defaultKey, pk);
    }
    if Hit(all, ToLower(prefix), pk) {
      AllHitInShard(prefix, shards, all, defaultKey, pk);
    }
  }

  lemma ShardHitInAll(prefix: string, shards: ShardMap, all: Shard, defaultKey: string, pk: string)
    requires PartitionedBy(shards, all, defaultKey)
    requires Hit(GetAliasShard(prefix, shards, defaultKey), ToLower(prefix), pk)
    ensures Hit(all, ToLower(prefix), pk)
  {
    var key := ResolveAliasShardKey(prefix, defaultKey);
    var e :| e in GetAliasShard(prefix, shards, defaultKey) && StartsWith(e.0, ToLower(prefix)) && pk in e.1;
    var k := if key in shards then key else defaultKey;
    assert e in shards[k];
  }

  lemma AllHitInShard(prefix: string, shards: ShardMap, all: Shard, defaultKey: string, pk: string)
    requires PartitionedBy(shards, all, defaultKey) && !IsBlank(prefix)
    requires Hit(all, ToLower(prefix), pk)
    ensures Hit(GetAliasShard(prefix, shards, defaultKey), ToLower(prefix), pk)
  {
    var e :| e in all && StartsWith(e.0, ToLower(prefix)) && pk in e.1;
    ResolveSharedPrefix(prefix, e.0, defaultKey);
    assert e in GetAliasShard(prefix, shards, defaultKey);
  }

  // ---- details by slug ----

  /** `b.popularity - a.popularity` reads a number: null and false as 0, true as 1. */
  function PopularityKey(c: DetailCard): int {
    match c.popularity
    case Num(n) => n
    case Bool(b) => if b then 1 else 0
    case _ => 0
  }

  /** `pks.map(pk => details[pk]).filter(Boolean)`: the cards of the slugs that have one, in order. */
  function CardsOf(pks: seq<string>, details: map<string, DetailCard>): (r: seq<DetailCard>)
    ensures |r| <= |pks|
    decreases |pks|
  {
    if pks == [] then []
    else
      var pk := pks[|pks| - 1];
      CardsOf(pks[..|pks| - 1], details) + (if pk in details then [details[pk]] else [])
  }

  lemma {:induction false} CardsOfMembers(pks: seq<string>, details: map<string, DetailCard>, c: DetailCard)
    ensures c in CardsOf(pks, details) <==> exists pk :: pk in pks && pk in details && details[pk] == c
    decreases |pks|
  {
    if pks != [] {
      var init, pk := pks[..|pks| - 1], pks[|pks| - 1];
      assert pks == init + [pk];
      CardsOfMembers(init, details, c);
      if exists p :: p in pks && p in details && details[p] == c {
        var p :| p in pks && p in details && details[p] == c;
        assert p in init || p == pk;
      }
    }
  }

  predicate Sorted(s: seq<DetailCard>) {
    forall i, j :: 0 <= i < j < |s| ==> PopularityKey(s[i]) >= PopularityKey(s[j])
  }

  /** Places x after every card whose popularity is at least x's. */
  function Insert(x: DetailCard, l: seq<DetailCard>): (r: seq<DetailCard>)
    ensures |r| == |l| + 1
    decreases |l|
  {
    if l == [] || PopularityKey(l[|l| - 1]) >= PopularityKey(x) then l + [x]
    else Insert(x, l[..|l| - 1]) + [l[|l| - 1]]
  }

  /** `cards.sort((a, b) => b.popularity - a.popularity)`: a stable sort, most popular first. */
  function SortByPopularity(s: seq<DetailCard>): (r: seq<DetailCard>)
    ensures |r| == |s|
    decreases |s|
  {
    if s == [] then [] else Insert(s[|s| - 1], SortByPopularity(s[..|s| - 1]))
  }

  /** The cards with popularity k, in order. */
  function WithKey(s: seq<DetailCard>, k: int): seq<DetailCard>
    decreases |s|
  {
    if s == [] then []
    else WithKey(s[..|s| - 1], k) + (if PopularityKey(s[|s| - 1]) == k then [s[|s| - 1]] else [])
  }

  lemma WithKeySnoc(s: seq<DetailCard>, x: DetailCard, k: int)
    ensures WithKey(s + [x], k) == WithKey(s, k) + (if PopularityKey(x) == k then [x] else [])
  {
    assert (s + [x])[..|s|] == s;
  }

  lemma {:induction false} InsertSorted(x: DetailCard, l: seq<DetailCard>)
    requires Sorted(l)
    ensures Sorted(Insert(x, l))
    ensures |l| > 0 ==> PopularityKey(Insert(x, l)[|l|]) <= PopularityKey(x) || Insert(x, l)[|l|] == l[|l| - 1]
    decreases |l|
  {
    if l != [] && PopularityKey(l[|l| - 1]) < PopularityKey(x) {
      var init, last := l[..|l| - 1], l[|l| - 1];
      InsertSorted(x, init);
      var m := Insert(x, init);
      assert forall i :: 0 <= i < |m| ==> PopularityKey(m[i]) >= PopularityKey(last) by {
        forall i | 0 <= i < |m| ensures PopularityKey(m[i]) >= PopularityKey(last) {
          InsertMember(x, init, i);
        }
      }
    }
  }

  /** Every card of Insert(x, l) is x or a card of l. */
  lemma InsertMember(x: DetailCard, l: seq<DetailCard>, i: nat)
    requires Sorted(l) && i < |Insert(x, l)|
    ensures Insert(x, l)[i] == x || Insert(x, l)[i] in l
  {
    InsertMultiset(x, l);
    assert Insert(x, l)[i] in multiset(Insert(x, l));
  }

  lemma {:induction false} InsertMultiset(x: DetailCard, l: seq<DetailCard>)
    ensures multiset(Insert(x, l)) == multiset(l) + multiset{x}
    decreases |l|
  {
    if l != [] && PopularityKey(l[|l| - 1]) < PopularityKey(x) {
      var init, last := l[..|l| - 1], l[|l| - 1];
      InsertMultiset(x, init);
      assert l == init + [last];
    }
  }

  /** Inserting x adds it after the cards with x's popularity and leaves every other popularity's cards alone. */
  lemma {:induction false} InsertWithKey(x: DetailCard, l: seq<DetailCard>, k: int)
    ensures WithKey(Insert(x, l), k) == WithKey(l, k) + (if PopularityKey(x) == k then [x] else [])
    decreases |l|
  {
    if l == [] || PopularityKey(l[|l| - 1]) >= PopularityKey(x) {
      WithKeySnoc(l, x, k);
    } else {
      var init, last := l[..|l| - 1], l[|l| - 1];
      assert l == init + [last];
      InsertWithKey(x, init, k);
      WithKeySnoc(Insert(x, init), last, k);
      WithKeySnoc(init, last, k);
    }
  }

  /** The sort orders by non-increasing popularity. */
  lemma {:induction false} SortSorted(s: seq<DetailCard>)
    ensures Sorted(SortByPopularity(s))
    decreases |s|
  {
    if s != [] {
      SortSorted(s[..|s| - 1]);
      InsertSorted(s[|s| - 1], SortByPopularity(s[..|s| - 1]));
    }
  }

  /** The sort is a permutation. */
  lemma {:induction false} SortPermutation(s: seq<DetailCard>)
    ensures multiset(SortByPopularity(s)) == multiset(s)
    decreases |s|
  {
    if s != [] {
      var init, last := s[..|s| - 1], s[|s| - 1];
      assert s == init + [last];
      SortPermutation(init);
      InsertMultiset(last, SortByPopularity(init));
    }
  }

  /** The sort is stable: the cards of each popularity keep their input order. */
  lemma {:induction false} SortStable(s: seq<DetailCard>, k: int)
    ensures WithKey(SortByPopularity(s), k) == WithKey(s, k)
    decreases |s|
  {
    if s != [] {
      var init, last := s[..|s| - 1], s[|s| - 1];
      assert s == init + [last];
      SortStable(init, k);
      InsertWithKey(last, SortByPopularity(init), k);
      WithKeySnoc(init, last, k);
    }
  }

  /** `getPlantDetailsByPKs`: project, sort by popularity, keep the first 50. */
  function GetPlantDetailsByPKs(pks: seq<string>, details: map<string, DetailCard>): seq<DetailCard> {
    Take(SortByPopularity(CardsOf(pks, details)), 50)
  }

  /** At most 50 cards, each the card of a requested slug, most popular first: the head of the sorted projection. */
  lemma DetailsByPKsSpec(pks: seq<string>, details: map<string, DetailCard>)
    ensures |GetPlantDetailsByPKs(pks, details)| == Min(|CardsOf(pks, details)|, 50)
    ensures GetPlantDetailsByPKs(pks, details) == SortByPopularity(CardsOf(pks, details))[..|GetPlantDetailsByPKs(pks, details)|]
    ensures Sorted(GetPlantDetailsByPKs(pks, details))
    ensures multiset(SortByPopularity(CardsOf(pks, details))) == multiset(CardsOf(pks, details))
    ensures forall c :: c in GetPlantDetailsByPKs(pks, details) ==> exists pk :: pk in pks && pk in details && details[pk] == c
  {
    var cards := CardsOf(pks, details);
    SortSorted(cards);
    SortPermutation(cards);
    forall c | c in GetPlantDetailsByPKs(pks, details) ensures exists pk :: pk in pks && pk in details && details[pk] == c {
      TakenCardIsRequested(pks, details, c);
    }
  }

  function Min(a: int, b: int): int { if a < b then a else b }

  lemma TakenCardIsRequested(pks: seq<string>, details: map<string, DetailCard>, c: DetailCard)
    requires c in GetPlantDetailsByPKs(pks, details)
    ensures exists pk :: pk in pks && pk in details && details[pk] == c
  {
    var cards := CardsOf(pks, details);
    SortPermutation(cards);
    assert c in SortByPopularity(cards);
    assert c in multiset(SortByPopularity(cards));
    CardsOfMembers(pks, details, c);
  }

  // ---- the details map the script builds ----

  /** Every card is stored under its own slug. */
  predicate KeyedBySlug(details: map<string, DetailCard>) {
    forall k :: k in details ==> details[k].slug == k
  }

  /** The map that scripts/generate_details.js writes is keyed by slug. */
  lemma BuiltDetailsKeyedBySlug(plants: seq<Value>)
    requires AllNamesUsable(plants)
    ensures KeyedBySlug(UpsertAll(map[], plants))
  {
    UpsertAllKeys(plants);
    forall k | k in UpsertAll(map[], plants) ensures UpsertAll(map[], plants)[k].slug == k {
      UpsertAllLastWins(plants, k);
    }
  }

  /** With a map keyed by slug, every card returned is the stored card of one of the requested slugs. */
  lemma DetailsBySlug(pks: seq<string>, details: map<string, DetailCard>)
    requires KeyedBySlug(details)
    ensures forall c :: c in GetPlantDetailsByPKs(pks, details) ==> c.slug in pks && c.slug in details && details[c.slug] == c
  {
    DetailsByPKsSpec(pks, details);
  }
}
