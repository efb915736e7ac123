/**
 * The GBIF enrichment script: each input line names a plant, the GBIF match
 * and species lookups answer with JSON, and the script merges both answers
 * into one taxon record.  The two lookups are inputs here (`matchFetch` and
 * `detailFetch` are what the fetch helper returned: the parsed body, or null
 * for a failed request); whether the detail lookup is made at all is decided
 * by the model, and a lemma shows its answer is ignored when it is not made.
 */
module GbifEnrich {
  import opened Wrappers
  import opened Text
  import opened Seqs
  import opened Js

  /** One line of the candidates file together with what parsing and the lookups gave. */
  datatype LineInput = LineInput(
    line: string,
    parsed: Option<Value>,   // None: the line is not valid JSON
    matchFetch: Value,       // answer of the species-match request
    detailFetch: Value)      // answer of the species-detail request, were it made

  /** The merged record; `taxonClass` holds the `class` rank. */
  datatype Taxon = Taxon(
    scientificName: Value,
    kingdom: Value,
    phylum: Value,
    taxonClass: Value,
    order: Value,
    family: Value,
    genus: Value,
    species: Value,
    images: Value,
    aliases: seq<string>)

  /**
   * What processing one line yields: nothing, the no-match record
   * `{name, match: null}`, a merged taxon, or a TypeError (reading a
   * property of a null document), which aborts the whole run.
   */
  datatype Outcome = Skipped | NoMatch(name: Value) | Merged(taxon: Taxon) | Crash

  /** `obj.scientific_name || obj.scientificName` */
  function NameOf(obj: Value): (r: Value)
    ensures Truthy(Get(obj, "scientific_name")) ==> r == Get(obj, "scientific_name")
    ensures !Truthy(Get(obj, "scientific_name")) ==> r == Get(obj, "scientificName")
  {
    Or(Get(obj, "scientific_name"), Get(obj, "scientificName"))
  }

  /** `match.usageKey || match.speciesKey || match.usageKey` */
  function UsageKey(found: Value): Value {
    Or(Or(Get(found, "usageKey"), Get(found, "speciesKey")), Get(found, "usageKey"))
  }

  /** The repeated `usageKey` at the end of the chain never changes whether there is a key, nor which one. */
  lemma UsageKeyRedundant(found: Value)
    ensures Truthy(Get(found, "usageKey")) ==> UsageKey(found) == Get(found, "usageKey")
    ensures !Truthy(Get(found, "usageKey")) && Truthy(Get(found, "speciesKey")) ==> UsageKey(found) == Get(found, "speciesKey")
    ensures Truthy(UsageKey(found)) <==> Truthy(Get(found, "usageKey")) || Truthy(Get(found, "speciesKey"))
  {
  }

  /** The detail document: the lookup's answer when there is a usage key, null otherwise. */
  function DetailOf(found: Value, detailFetch: Value): (r: Value)
    ensures Truthy(Get(found, "usageKey")) || Truthy(Get(found, "speciesKey")) ==> r == detailFetch
    ensures !Truthy(Get(found, "usageKey")) && !Truthy(Get(found, "speciesKey")) ==> r == Null
  {
    UsageKeyRedundant(found);
    if Truthy(UsageKey(found)) then detailFetch else Null
  }

  /** `(detail && detail.canonicalName) || match.canonicalName || match.scientificName || name` */
  function Canonical(detail: Value, found: Value, name: Value): (r: Value)
    ensures Truthy(detail) && Truthy(Get(detail, "canonicalName")) ==> r == Get(detail, "canonicalName")
    ensures !(Truthy(detail) && Truthy(Get(detail, "canonicalName"))) ==>
      r == Or(Or(Get(found, "canonicalName"), Get(found, "scientificName")), name)
    ensures Truthy(name) ==> Truthy(r)
  {
    Or(Or(Or(And(detail, Get(detail, "canonicalName")), Get(found, "canonicalName")), Get(found, "scientificName")), name)
  }

  /** The canonical name is one of the four candidates, the first truthy one. */
  lemma CanonicalFallback(detail: Value, found: Value, name: Value)
    requires !(Truthy(detail) && Truthy(Get(detail, "canonicalName")))
    ensures Truthy(Get(found, "canonicalName")) ==> Canonical(detail, found, name) == Get(found, "canonicalName")
    ensures !Truthy(Get(found, "canonicalName")) && Truthy(Get(found, "scientificName")) ==>
      Canonical(detail, found, name) == Get(found, "scientificName")
    ensures !Truthy(Get(found, "canonicalName")) && !Truthy(Get(found, "scientificName")) ==>
      Canonical(detail, found, name) == name
  {
  }

  /** A truthy own property, or undefined. */
  function OwnTruthy(v: Value, field: string): (r: Value)
    ensures r == Undefined || (HasOwn(v, field) && r == v.fields[field] && Truthy(r))
    ensures r == Undefined <==> !(HasOwn(v, field) && Truthy(v.fields[field]))
  {
    if Truthy(v) && HasOwn(v, field) && Truthy(v.fields[field]) then v.fields[field] else Undefined
  }

  /** `pick(field)`: the detail's truthy own field, else the match's, else undefined. */
  function Pick(detail: Value, found: Value, field: string): (r: Value)
    ensures r == Undefined || Truthy(r)
    ensures r != Undefined ==>
      (HasOwn(detail, field) && r == detail.fields[field]) || (HasOwn(found, field) && r == found.fields[field])
  {
    var d := OwnTruthy(detail, field);
    if d != Undefined then d else OwnTruthy(found, field)
  }

  /** A truthy own field of the detail wins whatever the match says. */
  lemma PickPrefersDetail(detail: Value, found: Value, other: Value, field: string)
    requires HasOwn(detail, field) && Truthy(detail.fields[field])
    ensures Pick(detail, found, field) == detail.fields[field]
    ensures Pick(detail, found, field) == Pick(detail, other, field)
  {
  }

  /** Without a truthy own field in the detail, pick answers as if there were no detail at all. */
  lemma PickFallsBack(detail: Value, found: Value, field: string)
    requires !(HasOwn(detail, field) && Truthy(detail.fields[field]))
    ensures Pick(detail, found, field) == Pick(Null, found, field)
    ensures HasOwn(found, field) && Truthy(found.fields[field]) ==> Pick(detail, found, field) == found.fields[field]
    ensures !(HasOwn(found, field) && Truthy(found.fields[field])) ==> Pick(detail, found, field) == Undefined
  {
  }

  // ---------------------------------------------------------------------
  // The alias set: successive `Set.add` calls, then `Array.from(set).filter(Boolean)`.
  // ---------------------------------------------------------------------

  /** `set.add(x)` on a set viewed as its insertion-ordered contents. */
  function SetAdd(s: seq<string>, x: string): (r: seq<string>)
    ensures x in s ==> r == s
    ensures x !in s ==> r == s + [x]
  {
    if x in s then s else s + [x]
  }

  /** `if (v) set.add(String(v))` */
  function AddIfTruthy(s: seq<string>, v: Value): (r: seq<string>)
    ensures !Truthy(v) ==> r == s
    ensures Truthy(v) ==> r == SetAdd(s, ToJsString(v))
  {
    if Truthy(v) then SetAdd(s, ToJsString(v)) else s
  }

  /** The six alias candidates, in the order of the script's guarded `add` calls. */
  function AliasCandidates(obj: Value, found: Value, detail: Value): (r: seq<Value>)
    ensures |r| == 6
  {
    [Get(obj, "common_name"), Get(obj, "slug"),
     And(found, Get(found, "scientificName")), And(found, Get(found, "canonicalName")),
     And(detail, Get(detail, "scientificName")), And(detail, Get(detail, "canonicalName"))]
  }

  /** One guarded `add` after another, starting from the empty set. */
  function AddAll(cs: seq<Value>): seq<string> {
    if cs == [] then [] else AddIfTruthy(AddAll(cs[..|cs| - 1]), cs[|cs| - 1])
  }

  /** The alias set as the script fills it. */
  function AliasSet(obj: Value, found: Value, detail: Value): seq<string> {
    AddAll(AliasCandidates(obj, found, detail))
  }

  predicate NonEmptyString(s: string) { s != [] }

  /** `Array.from(aliasesSet).filter(Boolean)` */
  function Aliases(obj: Value, found: Value, detail: Value): seq<string> {
    Filter(AliasSet(obj, found, detail), NonEmptyString)
  }

  /** `String(v)` of each truthy candidate, in order (the reference for the alias set). */
  function TruthyStrings(cs: seq<Value>): (r: seq<string>)
    ensures forall x :: x in r <==> exists i :: 0 <= i < |cs| && Truthy(cs[i]) && ToJsString(cs[i]) == x
  {
    if cs == [] then []
    else
      var init, last := cs[..|cs| - 1], cs[|cs| - 1];
      assert forall i :: 0 <= i < |init| ==> init[i] == cs[i];
      TruthyStrings(init) + (if Truthy(last) then [ToJsString(last)] else [])
  }

  lemma TruthyStringsSnoc(cs: seq<Value>, v: Value)
    ensures Truthy(v) ==> TruthyStrings(cs + [v]) == TruthyStrings(cs) + [ToJsString(v)]
    ensures !Truthy(v) ==> TruthyStrings(cs + [v]) == TruthyStrings(cs)
  {
    assert (cs + [v])[..|cs|] == cs;
  }

  /** One guarded `add` extends the deduplicated strings of the candidates seen so far. */
  lemma AddIfTruthyStep(cs: seq<Value>, v: Value)
    ensures AddIfTruthy(Dedup(TruthyStrings(cs)), v) == Dedup(TruthyStrings(cs + [v]))
  {
    TruthyStringsSnoc(cs, v);
    if Truthy(v) {
      DedupSnoc(TruthyStrings(cs), ToJsString(v));
    }
  }

  /** The set the script builds is the insertion-ordered dedup of the truthy candidates' strings. */
  lemma {:induction false} AddAllIsDedup(cs: seq<Value>)
    ensures AddAll(cs) == Dedup(TruthyStrings(cs))
  {
    if cs != [] {
      var init, last := cs[..|cs| - 1], cs[|cs| - 1];
      AddAllIsDedup(init);
      assert cs == init + [last];
      AddIfTruthyStep(init, last);
    }
  }

  /**
   * The aliases are distinct, non-empty, in order of first occurrence among the
   * candidates' strings, and are exactly the non-empty strings of the truthy candidates.
   */
  lemma AliasesSpec(obj: Value, found: Value, detail: Value)
    ensures Aliases(obj, found, detail) == Filter(Dedup(TruthyStrings(AliasCandidates(obj, found, detail))), NonEmptyString)
    ensures NoDuplicates(Aliases(obj, found, detail))
    ensures forall a :: a in Aliases(obj, found, detail) <==>
      a != [] && a in TruthyStrings(AliasCandidates(obj, found, detail))
  {
    AddAllSpec(AliasCandidates(obj, found, detail));
  }

  lemma AddAllSpec(cs: seq<Value>)
    ensures Filter(AddAll(cs), NonEmptyString) == Filter(Dedup(TruthyStrings(cs)), NonEmptyString)
    ensures NoDuplicates(Filter(AddAll(cs), NonEmptyString))
    ensures forall a :: a in Filter(AddAll(cs), NonEmptyString) <==> a != [] && a in TruthyStrings(cs)
  {
    AddAllIsDedup(cs);
    FilterNoDuplicates(Dedup(TruthyStrings(cs)), NonEmptyString);
  }

  /**
   * A truthy candidate can stringify to the empty string (an empty array
   * does); the set then holds it and only the final filter drops it.
   */
  lemma EmptyStringAliasDropped(obj: Value, found: Value, detail: Value)
    ensures "" in AliasSet(obj, found, detail) <==> "" in TruthyStrings(AliasCandidates(obj, found, detail))
    ensures "" !in Aliases(obj, found, detail)
  {
    AddAllIsDedup(AliasCandidates(obj, found, detail));
  }

  // ---------------------------------------------------------------------
  // One line, and the whole run.
  // ---------------------------------------------------------------------

  /** The merged record for a line whose name and match are present. */
  function MergeTaxon(obj: Value, name: Value, found: Value, detail: Value): Taxon {
    Taxon(
      Canonical(detail, found, name),
      Pick(detail, found, "kingdom"),
      Pick(detail, found, "phylum"),
      Pick(detail, found, "class"),
      Pick(detail, found, "order"),
      Pick(detail, found, "family"),
      Pick(detail, found, "genus"),
      Pick(detail, found, "species"),
      Get(obj, "image_url"),
      Aliases(obj, found, detail))
  }

  /** `processLine(line)` with the lookups' answers given. */
  function ProcessLine(input: LineInput): (r: Outcome)
    ensures r.Skipped? <==>
      IsBlank(input.line) || input.parsed.None?
      || (!IsNullish(input.parsed.value) && !Truthy(NameOf(input.parsed.value)))
    ensures r.Crash? <==> !IsBlank(input.line) && input.parsed.Some? && IsNullish(input.parsed.value)
    ensures r.NoMatch? <==>
      !IsBlank(input.line) && input.parsed.Some? && !IsNullish(input.parsed.value)
      && Truthy(NameOf(input.parsed.value)) && !Truthy(input.matchFetch)
    ensures r.NoMatch? ==> r.name == NameOf(input.parsed.value) && Truthy(r.name)
    ensures r.Merged? ==> Truthy(r.taxon.scientificName)
    ensures r.Merged? ==> NoDuplicates(r.taxon.aliases) && forall a :: a in r.taxon.aliases ==> a != []
  {
    if IsBlank(input.line) then Skipped
    else if input.parsed.None? then Skipped
    else
      var obj := input.parsed.value;
      if IsNullish(obj) then Crash
      else
        var name := NameOf(obj);
        if !Truthy(name) then Skipped
        else
          var found := input.matchFetch;
          if !Truthy(found) then NoMatch(name)
          else
            var detail := DetailOf(found, input.detailFetch);
            AliasesSpec(obj, found, detail);
            Merged(MergeTaxon(obj, name, found, detail))
  }

  /** Every rank of a merged record is `pick` of that rank, and the detail is used only with a usage key. */
  lemma ProcessLineMerged(input: LineInput)
    requires ProcessLine(input).Merged?
    ensures var t := ProcessLine(input).taxon;
      var found := input.matchFetch;
      var detail := DetailOf(found, input.detailFetch);
      && t.kingdom == Pick(detail, found, "kingdom") && t.phylum == Pick(detail, found, "phylum")
      && t.taxonClass == Pick(detail, found, "class") && t.order == Pick(detail, found, "order")
      && t.family == Pick(detail, found, "family") && t.genus == Pick(detail, found, "genus")
      && t.species == Pick(detail, found, "species")
      && t.scientificName == Canonical(detail, found, NameOf(input.parsed.value))
      && t.images == Get(input.parsed.value, "image_url")
      && t.aliases == Aliases(input.parsed.value, found, detail)
  {
  }

  /** Without a usage key the detail request is not made, so its answer cannot matter. */
  lemma DetailIgnoredWithoutUsageKey(input: LineInput, other: Value)
    requires !Truthy(Get(input.matchFetch, "usageKey")) && !Truthy(Get(input.matchFetch, "speciesKey"))
    ensures ProcessLine(input) == ProcessLine(input.(detailFetch := other))
  {
  }

  predicate IsRecord(o: Outcome) { o.NoMatch? || o.Merged? }

  /**
   * What `run` makes of the lines' outcomes, taken in order: the list of the
   * records (the truthy results), or the index of the first line that throws.
   */
  function Collect(outs: seq<Outcome>): (r: Result<seq<Outcome>, nat>)
    ensures r.Success? ==> |r.value| <= |outs|
    ensures r.Failure? ==> r.error < |outs|
  {
    if outs == [] then Success([])
    else
      var c := Collect(outs[..|outs| - 1]);
      var o := outs[|outs| - 1];
      if c.Failure? then c
      else if o.Crash? then Failure(|outs| - 1)
      else if o.Skipped? then c
      else Success(c.value + [o])
  }

  lemma CollectSnoc(outs: seq<Outcome>, o: Outcome)
    ensures Collect(outs).Failure? ==> Collect(outs + [o]) == Collect(outs)
    ensures Collect(outs).Success? && o.Crash? ==> Collect(outs + [o]) == Failure(|outs|)
    ensures Collect(outs).Success? && o.Skipped? ==> Collect(outs + [o]) == Collect(outs)
    ensures Collect(outs).Success? && IsRecord(o) ==> Collect(outs + [o]) == Success(Collect(outs).value + [o])
  {
    assert (outs + [o])[..|outs|] == outs;
  }

  /** A successful run met no throwing line and keeps exactly the records, in line order. */
  lemma {:induction false} CollectSuccess(outs: seq<Outcome>)
    requires Collect(outs).Success?
    ensures forall i :: 0 <= i < |outs| ==> !outs[i].Crash?
    ensures Collect(outs).value == Filter(outs, IsRecord)
    decreases |outs|
  {
    if outs != [] {
      var init, o := outs[..|outs| - 1], outs[|outs| - 1];
      assert outs == init + [o];
      CollectSnoc(init, o);
      CollectSuccess(init);
      FilterSnoc(init, o, IsRecord);
    }
  }

  /** A failed run names the first line whose processing throws. */
  lemma {:induction false} CollectFailure(outs: seq<Outcome>)
    requires Collect(outs).Failure?
    ensures outs[Collect(outs).error].Crash?
    ensures forall i :: 0 <= i < Collect(outs).error ==> !outs[i].Crash?
    decreases |outs|
  {
    var init, o := outs[..|outs| - 1], outs[|outs| - 1];
    assert outs == init + [o];
    CollectSnoc(init, o);
    if Collect(init).Failure? {
      CollectFailure(init);
      assert Collect(outs) == Collect(init);
      assert forall i :: 0 <= i < |init| ==> outs[i] == init[i];
    } else {
      CollectSuccess(init);
    }
  }

  lemma FilterSnoc<T(!new)>(s: seq<T>, x: T, p: T -> bool)
    ensures Filter(s + [x], p) == Filter(s, p) + (if p(x) then [x] else [])
  {
    if s != [] {
      assert (s + [x])[1..] == s[1..] + [x];
      FilterSnoc(s[1..], x, p);
    }
  }

  /** A failure in a prefix is the failure of the whole sequence. */
  lemma {:induction false} PrefixFailure(outs: seq<Outcome>, k: nat)
    requires k <= |outs| && Collect(outs[..k]).Failure?
    ensures Collect(outs) == Collect(outs[..k])
    decreases |outs| - k
  {
    if k < |outs| {
      CollectSnoc(outs[..k], outs[k]);
      assert outs[..k + 1] == outs[..k] + [outs[k]];
      PrefixFailure(outs, k + 1);
    } else {
      assert outs[..k] == outs;
    }
  }

  /** One more outcome, as the loop of `run` treats it. */
  lemma RunStep(outs: seq<Outcome>, i: nat, results: seq<Outcome>)
    requires i < |outs| && Collect(outs[..i]) == Success(results)
    ensures outs[i].Crash? ==> Collect(outs[..i + 1]).Failure? && Collect(outs[..i + 1]).error == i
    ensures outs[i].Skipped? ==> Collect(outs[..i + 1]) == Success(results)
    ensures IsRecord(outs[i]) ==> Collect(outs[..i + 1]) == Success(results + [outs[i]])
  {
    assert outs[..i + 1] == outs[..i] + [outs[i]];
    CollectSnoc(outs[..i], outs[i]);
  }

  /** `run`: process the lines in order and push every truthy result; a throw aborts the run. */
  method Run(inputs: seq<LineInput>) returns (r: Result<seq<Outcome>, nat>)
    ensures r == Collect(MapSeq(ProcessLine, inputs))
  {
    ghost var outs := MapSeq(ProcessLine, inputs);
    var results: seq<Outcome> := [];
    var i := 0;
    while i < |inputs|
      invariant i <= |inputs|
      invariant Collect(outs[..i]) == Success(results)
    {
      var o := ProcessLine(inputs[i]);
      RunStep(outs, i, results);
      if o.Crash? {
        PrefixFailure(outs, i + 1);
        return Failure(i);
      }
      if o.NoMatch? || o.Merged? {
        results := results + [o];
      }
      i := i + 1;
    }
    assert outs[..i] == outs;
    return Success(results);
  }
}
