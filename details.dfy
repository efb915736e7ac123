/**
 * scripts/generate_details.js: builds the details map, slug -> detail card,
 * from the parsed Bedrock files. Reading the files is not modelled: each
 * file arrives as its parsed JSON value.
 */
module Details {
  import opened Wrappers
  import opened Text
  import opened Seqs
  import opened Js
  import opened Slug
  import opened BedrockRecord

  /** The card stored under a slug; absent values are JSON null. */
  datatype DetailCard = DetailCard(slug: string, popularity: Value, species: Value, commonName: Value, image: Option<string>)

  /** A string with non-white-space content. */
  predicate IsImageUrl(v: Value) {
    v.Str? && !IsBlank(v.s)
  }

  /** `imagesField.find(entry => typeof entry === 'string' && entry.trim())`, as an index. */
  function FirstUrlIndex(es: seq<Value>): (i: nat)
    ensures i <= |es|
    ensures i < |es| ==> IsImageUrl(es[i])
    ensures forall j :: 0 <= j < i ==> !IsImageUrl(es[j])
  {
    if es == [] then 0
    else if IsImageUrl(es[0]) then 0
    else 1 + FirstUrlIndex(es[1..])
  }

  /**
   * `extractImage`: the first non-blank string of an array (untrimmed), a
   * string trimmed, null otherwise.
   */
  function ExtractImage(images: Value): (r: Option<string>)
    ensures r.Some? ==> !IsBlank(r.value)
    ensures images.Str? ==> r == if IsBlank(images.s) then None else Some(Trim(images.s))
    ensures images.Arr? ==> (r.None? <==> forall j :: 0 <= j < |images.elems| ==> !IsImageUrl(images.elems[j]))
    ensures images.Arr? && r.Some? ==>
      exists j :: 0 <= j < |images.elems| && images.elems[j] == Str(r.value) && (forall k :: 0 <= k < j ==> !IsImageUrl(images.elems[k]))
    ensures !images.Str? && !images.Arr? ==> r == None
  {
    match images
    case Arr(es) =>
      var i := FirstUrlIndex(es);
      if i < |es| then Some(es[i].s) else None
    case Str(s) =>
      var t := Trim(s);
      if t != [] then Some(t) else None
    case _ => None
  }

  /** `plant.popularity?.value ?? null`. */
  function PopularityOf(plant: Value): (r: Value)
    ensures r != Undefined
    ensures !IsNullish(Get(Get(plant, "popularity"), "value")) ==> r == Get(Get(plant, "popularity"), "value")
  {
    var pop := Get(plant, "popularity");
    Coalesce(if IsNullish(pop) then Undefined else Get(pop, "value"), Null)
  }

  function CardOf(slug: string, plant: Value): (c: DetailCard)
    ensures c.slug == slug
    ensures c.popularity != Undefined && c.species != Undefined && c.commonName != Undefined
  {
    DetailCard(slug, PopularityOf(plant), Coalesce(Get(plant, "species"), Null),
               Coalesce(Get(plant, "commonName"), Null), ExtractImage(Get(plant, "images")))
  }

  /** `upsertDetails` on the map as a value; None when `slugify` throws. */
  function Upsert(details: map<string, DetailCard>, plant: Value): (r: Option<map<string, DetailCard>>)
    ensures r.None? <==> RecordSlug(plant).NameNotString?
    ensures RecordSlug(plant).NoName? ==> r == Some(details)
    ensures RecordSlug(plant).Named? ==> var s := RecordSlug(plant).slug;
      && r.Some? && s in r.value && r.value[s] == CardOf(s, plant)
      && r.value.Keys == details.Keys + {s}
      && (forall k :: k in details && k != s ==> r.value[k] == details[k])
  {
    match RecordSlug(plant)
    case NoName => Some(details)
    case NameNotString => None
    case Named(s) => WithCard(details, s, CardOf(s, plant))
  }

  /** The map with c stored under s. */
  function WithCard(details: map<string, DetailCard>, s: string, c: DetailCard): (r: Option<map<string, DetailCard>>)
    ensures r.Some? && s in r.value && r.value[s] == c
    ensures r.value.Keys == details.Keys + {s}
    ensures forall k :: k in details && k != s ==> r.value[k] == details[k]
  {
    Some(details[s := c])
  }

  /** The map after upserting the records in order. */
  function UpsertAll(details: map<string, DetailCard>, plants: seq<Value>): map<string, DetailCard>
    requires AllNamesUsable(plants)
  {
    if plants == [] then details
    else
      OutcomesSnoc(plants);
      Upsert(UpsertAll(details, plants[..|plants| - 1]), plants[|plants| - 1]).value
  }

  /** The slugs of the records that are written. */
  function Slugs(plants: seq<Value>): set<string> {
    set o | o in Outcomes(plants) && o.Named? :: o.slug
  }

  /** The index of the last record written under slug s (|plants| when none). */
  function LastWith(plants: seq<Value>, s: string): (i: nat)
    ensures i <= |plants|
  {
    LastIndex(Outcomes(plants), Named(s))
  }

  lemma SlugsSnoc(plants: seq<Value>)
    requires plants != []
    ensures var last := RecordSlug(plants[|plants| - 1]);
      Slugs(plants) == Slugs(plants[..|plants| - 1]) + (if last.Named? then {last.slug} else {})
  {
    OutcomesSnoc(plants);
  }

  /** The entries written are exactly the slugs of the written records. */
  lemma {:induction false} UpsertAllKeys(plants: seq<Value>)
    requires AllNamesUsable(plants)
    ensures UpsertAll(map[], plants).Keys == Slugs(plants)
    decreases |plants|
  {
    if plants != [] {
      var n := |plants|;
      OutcomesSnoc(plants);
      UpsertAllKeys(plants[..n - 1]);
      SlugsSnoc(plants);
    }
  }

  /**
   * Later records with the same slug overwrite earlier ones: each entry holds
   * the card of the last record with that slug.
   */
  lemma {:induction false} UpsertAllLastWins(plants: seq<Value>, s: string)
    requires AllNamesUsable(plants) && s in Slugs(plants)
    ensures LastWith(plants, s) < |plants|
    ensures s in UpsertAll(map[], plants) && UpsertAll(map[], plants)[s] == CardOf(s, plants[LastWith(plants, s)])
    decreases |plants|
  {
    UpsertAllKeys(plants);
    assert plants != [] by {
      var o :| o in Outcomes(plants) && o.Named? && o.slug == s;
    }
    var n := |plants|;
    var init := plants[..n - 1];
    var last := plants[n - 1];
    OutcomesSnoc(plants);
    SlugsSnoc(plants);
    if RecordSlug(last) == Named(s) {
      LastIndexSnocHit(Outcomes(init), Named(s));
    } else {
      assert s in Slugs(init);
      UpsertAllLastWins(init, s);
      LastIndexSnocMiss(Outcomes(init), RecordSlug(last), Named(s));
      assert plants[LastWith(init, s)] == init[LastWith(init, s)];
    }
  }

  /** Number of entries written: the number of distinct slugs among the written records. */
  lemma UpsertAllCount(plants: seq<Value>)
    requires AllNamesUsable(plants)
    ensures |UpsertAll(map[], plants).Keys| == |Slugs(plants)|
  {
    UpsertAllKeys(plants);
  }

  /** One more usable record extends the upsert by one step. */
  lemma UpsertAllSnoc(done: seq<Value>, plant: Value)
    requires AllNamesUsable(done) && !RecordSlug(plant).NameNotString?
    ensures AllNamesUsable(done + [plant])
    ensures UpsertAll(map[], done + [plant]) == Upsert(UpsertAll(map[], done), plant).value
  {
    assert (done + [plant])[..|done|] == done;
    OutcomesSnoc(done + [plant]);
  }

  /** The outcome of `main`: the details map and the processed count, or the error that ends the run. */
  datatype BuildError = NotAnArray(file: nat) | NameNotAString(file: nat, record: nat)

  /** All records of the files, in order, assuming every file is an array. */
  function Records(files: seq<Value>): (r: seq<Value>)
    requires forall i :: 0 <= i < |files| ==> files[i].Arr?
  {
    if files == [] then []
    else Records(files[..|files| - 1]) + files[|files| - 1].elems
  }

  /**
   * `main` over the parsed files: a file that is not an array makes
   * `parsePlantsFile` throw; a truthy non-string name makes `slugify` throw;
   * either ends the run with no output.
   */
  method BuildDetails(files: seq<Value>) returns (r: Result<(map<string, DetailCard>, nat), BuildError>)
    ensures r.Success? <==> (forall i :: 0 <= i < |files| ==> files[i].Arr?) && AllNamesUsable(Records(files))
    ensures r.Success? ==> r.value.0 == UpsertAll(map[], Records(files)) && r.value.1 == |Records(files)|
    ensures r.Failure? && r.error.NotAnArray? ==> var f := r.error.file;
      f < |files| && !files[f].Arr? && forall i :: 0 <= i < f ==> files[i].Arr?
    ensures r.Failure? && r.error.NameNotAString? ==> var f := r.error.file; var p := r.error.record;
      && f < |files| && (forall i :: 0 <= i <= f ==> files[i].Arr?)
      && p < |files[f].elems| && RecordSlug(files[f].elems[p]).NameNotString?
  {
    var details: map<string, DetailCard> := map[];
    var processed := 0;
    ghost var done: seq<Value> := [];
    for f := 0 to |files|
      invariant forall i :: 0 <= i < f ==> files[i].Arr?
      invariant done == Records(files[..f])
      invariant AllNamesUsable(done)
      invariant details == UpsertAll(map[], done) && processed == |done|
    {
      if !files[f].Arr? {
        NotArrayFails(files, f);
        return Failure(NotAnArray(f));
      }
      var plants := files[f].elems;
      var result := UpsertRecords(details, done, plants);
      if result.Failure? {
        BadNameFails(files, f, done, plants, result.error);
        return Failure(NameNotAString(f, result.error));
      }
      RecordsSnoc(files, f);
      details := result.value;
      processed := processed + |plants|;
      done := done + plants;
    }
    assert files[..|files|] == files;
    return Success((details, processed));
  }

  /** The inner loop of `main` over one file's records, continuing from the records done before. */
  method UpsertRecords(details: map<string, DetailCard>, ghost done: seq<Value>, plants: seq<Value>)
    returns (r: Result<map<string, DetailCard>, nat>)
    requires AllNamesUsable(done) && details == UpsertAll(map[], done)
    ensures r.Success? <==> AllNamesUsable(plants)
    ensures r.Success? ==> AllNamesUsable(done + plants) && r.value == UpsertAll(map[], done + plants)
    ensures r.Failure? ==> r.error < |plants| && RecordSlug(plants[r.error]).NameNotString?
  {
    var m := details;
    assert done + plants[..0] == done;
    for p := 0 to |plants|
      invariant AllNamesUsable(done + plants[..p])
      invariant m == UpsertAll(map[], done + plants[..p])
    {
      var next := Upsert(m, plants[p]);
      if next.None? {
        BadNameInFile(plants, p);
        return Failure(p);
      }
      AppendTakeSnoc(done, plants, p);
      UpsertAllSnoc(done + plants[..p], plants[p]);
      m := next.value;
    }
    assert plants[..|plants|] == plants;
    UsableAppend(done, plants);
    return Success(m);
  }

  lemma RecordsSnoc(files: seq<Value>, f: nat)
    requires f < |files| && forall i :: 0 <= i <= f ==> files[i].Arr?
    ensures Records(files[..f + 1]) == Records(files[..f]) + files[f].elems
  {
    assert files[..f + 1][..f] == files[..f];
  }

  lemma {:induction false} RecordsPrefix(files: seq<Value>, f: nat) returns (rest: seq<Value>)
    requires f <= |files| && forall i :: 0 <= i < |files| ==> files[i].Arr?
    ensures Records(files) == Records(files[..f]) + rest
    decreases |files|
  {
    if f == |files| {
      assert files[..f] == files;
      rest := [];
    } else {
      var init := files[..|files| - 1];
      var r0 := RecordsPrefix(init, f);
      assert init[..f] == files[..f];
      rest := r0 + files[|files| - 1].elems;
    }
  }

  lemma NotArrayFails(files: seq<Value>, f: nat)
    requires f < |files| && !files[f].Arr?
    ensures !((forall i :: 0 <= i < |files| ==> files[i].Arr?) && AllNamesUsable(Records(files)))
  {
  }

  lemma BadNameFails(files: seq<Value>, f: nat, done: seq<Value>, plants: seq<Value>, p: nat)
    requires f < |files| && (forall i :: 0 <= i < f ==> files[i].Arr?) && files[f] == Arr(plants)
    requires done == Records(files[..f]) && p < |plants| && RecordSlug(plants[p]).NameNotString?
    ensures !((forall i :: 0 <= i < |files| ==> files[i].Arr?) && AllNamesUsable(Records(files)))
  {
    if forall i :: 0 <= i < |files| ==> files[i].Arr? {
      var rest := RecordsPrefix(files, f + 1);
      RecordsSnoc(files, f);
      BadNameInMiddle(Records(files), done, plants, rest, p);
    }
  }
}
