/**
 * The record-level test shared by scripts/generate_aliases.js and
 * scripts/generate_details.js: a plant record contributes only when it and
 * its `scientificName` are truthy, and its slug is `slugify(scientificName)`.
 * A truthy `scientificName` that is not a string has no `toLowerCase`, so the
 * call throws and the script's `main` exits with status 1.
 */
module BedrockRecord {
  import opened Js
  import opened Slug
  import opened Seqs

  datatype NameOutcome =
    | NoName              // `!plant || !plant.scientificName`: the record is skipped
    | Named(slug: string) // the record's slug
    | NameNotString       // `slugify` throws a TypeError

  function RecordSlug(plant: Value): NameOutcome
  {
    if !Truthy(plant) then NoName
    else
      var name := Get(plant, "scientificName");
      if !Truthy(name) then NoName
      else if name.Str? then Named(Slugify(name.s))
      else NameNotString
  }

  /** The three outcomes in terms of the record's `scientificName`. */
  lemma RecordSlugCases(plant: Value)
    ensures var r := RecordSlug(plant);
      && (r.NoName? <==> !Truthy(plant) || !Truthy(Get(plant, "scientificName")))
      && (r.Named? <==> Truthy(plant) && Get(plant, "scientificName").Str? && Get(plant, "scientificName").s != [])
      && (r.Named? ==> r.slug == Slugify(Get(plant, "scientificName").s) && IsSlug(r.slug, '_'))
  {
  }

  /** The name outcome of each record. */
  function Outcomes(plants: seq<Value>): (r: seq<NameOutcome>)
    ensures |r| == |plants| && forall i :: 0 <= i < |plants| ==> r[i] == RecordSlug(plants[i])
  {
    seq(|plants|, i requires 0 <= i < |plants| => RecordSlug(plants[i]))
  }

  lemma OutcomesSnoc(plants: seq<Value>)
    requires plants != []
    ensures Outcomes(plants) == Outcomes(plants[..|plants| - 1]) + [RecordSlug(plants[|plants| - 1])]
  {
  }

  /** Records none of whose names makes `slugify` throw. */
  predicate AllNamesUsable(plants: seq<Value>) {
    NameNotString !in Outcomes(plants)
  }

  lemma UsableAppend(done: seq<Value>, plants: seq<Value>)
    ensures AllNamesUsable(done + plants) <==> AllNamesUsable(done) && AllNamesUsable(plants)
  {
    assert Outcomes(done + plants) == Outcomes(done) + Outcomes(plants);
  }

  lemma UsableSnoc(d: seq<Value>, x: Value)
    ensures AllNamesUsable(d + [x]) <==> AllNamesUsable(d) && !RecordSlug(x).NameNotString?
  {
    assert (d + [x])[..|d|] == d;
    OutcomesSnoc(d + [x]);
  }

  lemma BadNameInFile(plants: seq<Value>, p: nat)
    requires p < |plants| && RecordSlug(plants[p]).NameNotString?
    ensures !AllNamesUsable(plants)
  {
    assert Outcomes(plants)[p] == NameNotString;
  }

  lemma BadNameInMiddle(all: seq<Value>, pre: seq<Value>, plants: seq<Value>, rest: seq<Value>, p: nat)
    requires all == pre + plants + rest
    requires p < |plants| && RecordSlug(plants[p]).NameNotString?
    ensures !AllNamesUsable(all)
  {
    IndexInMiddle(pre, plants, rest, p);
    BadNameInFile(all, |pre| + p);
  }
}
