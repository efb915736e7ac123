/**
 * The plant record store of src/services/plantService.ts. One table holds two
 * kinds of rows: plant rows keyed `PLANT#<id>` and alias rows keyed
 * `ALIAS#<id>#<slug>` that point back at their plant through `targetPK`. A
 * batch write is a sequence of Put/Delete requests applied in order.
 */
module PlantStore {
  import opened Wrappers
  import opened Text
  import opened Seqs
  import opened Slug
  import opened PlantModel

  const PlantPrefix := "PLANT#"
  const AliasPrefix := "ALIAS#"
  /** Default value of the GSI partition attribute on alias rows. */
  const AliasPartition := "ALIAS"
  const Unnamed := "unnamed"

  datatype Item =
    | PlantItem(plant: PlantTaxon)
    | AliasItem(pk: string, gsi1pk: string, alias: string, targetPk: string, createdAt: string)

  function ItemKey(item: Item): string {
    match item
    case PlantItem(p) => p.pk
    case AliasItem(k, _, _, _, _) => k
  }

  datatype Request = Put(item: Item) | Delete(key: string)

  type Rows = map<string, Item>

  function Apply(rows: Rows, req: Request): Rows {
    match req
    case Put(item) => rows[ItemKey(item) := item]
    case Delete(key) => rows - {key}
  }

  /** A batch applied request by request, in order. */
  function ApplyBatch(rows: Rows, reqs: seq<Request>): Rows
    decreases |reqs|
  {
    if reqs == [] then rows else Apply(ApplyBatch(rows, reqs[..|reqs| - 1]), reqs[|reqs| - 1])
  }

  // ---- table invariant ----

  /** Every row is stored under its own key. */
  predicate KeysMatch(rows: Rows) {
    forall k :: k in rows ==> ItemKey(rows[k]) == k
  }

  /** Rows under a `PLANT#` key are plant rows. */
  predicate PlantKeysHoldPlants(rows: Rows) {
    forall k :: k in rows && StartsWith(k, PlantPrefix) ==> rows[k].PlantItem?
  }

  predicate ValidRows(rows: Rows) {
    KeysMatch(rows) && PlantKeysHoldPlants(rows)
  }

  /** No request puts an alias row under a `PLANT#` key. */
  predicate WellFormedBatch(reqs: seq<Request>) {
    forall i :: 0 <= i < |reqs| && reqs[i].Put? && StartsWith(ItemKey(reqs[i].item), PlantPrefix) ==> reqs[i].item.PlantItem?
  }

  lemma {:induction false} ApplyBatchValid(rows: Rows, reqs: seq<Request>)
    requires ValidRows(rows) && WellFormedBatch(reqs)
    ensures ValidRows(ApplyBatch(rows, reqs))
    decreases |reqs|
  {
    if reqs != [] {
      var init := reqs[..|reqs| - 1];
      assert WellFormedBatch(init) by {
        forall i | 0 <= i < |init| ensures init[i] == reqs[i] { }
      }
      ApplyBatchValid(rows, init);
      assert reqs[|reqs| - 1] == reqs[|reqs| - 1];
    }
  }

  lemma ApplyBatchSnoc(rows: Rows, reqs: seq<Request>, r: Request)
    ensures ApplyBatch(rows, reqs + [r]) == Apply(ApplyBatch(rows, reqs), r)
  {
    assert (reqs + [r])[..|reqs|] == reqs;
  }

  lemma {:induction false} ApplyBatchAppend(rows: Rows, a: seq<Request>, b: seq<Request>)
    ensures ApplyBatch(rows, a + b) == ApplyBatch(ApplyBatch(rows, a), b)
    decreases |b|
  {
    if b == [] {
      assert a + b == a;
    } else {
      assert (a + b)[..|a + b| - 1] == a + b[..|b| - 1];
      assert (a + b)[|a + b| - 1] == b[|b| - 1];
      ApplyBatchAppend(rows, a, b[..|b| - 1]);
    }
  }

  // ---- keys ----

  /** `pk.replace(/^PLANT#/, '')`. */
  function StripPlantPrefix(pk: string): (r: string)
    ensures StartsWith(pk, PlantPrefix) ==> PlantPrefix + r == pk
    ensures !StartsWith(pk, PlantPrefix) ==> r == pk
  {
    if StartsWith(pk, PlantPrefix) then pk[|PlantPrefix|..] else pk
  }

  /** Key normalisation of updatePlant/deletePlant: `PLANT#` is prefixed only when missing. */
  function NormalizePlantKey(pkId: string): (r: string)
    ensures StartsWith(r, PlantPrefix)
    ensures StartsWith(pkId, PlantPrefix) ==> r == pkId
    ensures !StartsWith(pkId, PlantPrefix) ==> r == PlantPrefix + pkId
  {
    if StartsWith(pkId, PlantPrefix) then pkId else PlantPrefix + pkId
  }

  lemma NormalizePlantKeyIdempotent(pkId: string)
    ensures NormalizePlantKey(NormalizePlantKey(pkId)) == NormalizePlantKey(pkId)
  {
  }

  /** The id part of a normalised key: stripping undoes normalisation of an unprefixed id. */
  lemma StripNormalize(pkId: string)
    ensures PlantPrefix + StripPlantPrefix(NormalizePlantKey(pkId)) == NormalizePlantKey(pkId)
    ensures !StartsWith(pkId, PlantPrefix) ==> StripPlantPrefix(NormalizePlantKey(pkId)) == pkId
  {
    var n := NormalizePlantKey(pkId);
    if !StartsWith(pkId, PlantPrefix) {
      assert n[..|PlantPrefix|] == PlantPrefix;
      assert n[|PlantPrefix|..] == pkId;
    }
  }

  /** `ALIAS#<id>#<slug>`. */
  function AliasKey(id: string, alias: string): (k: string)
    ensures StartsWith(k, AliasPrefix) && !StartsWith(k, PlantPrefix)
  {
    var k := AliasPrefix + id + "#" + SlugifyName(alias);
    assert k[0] == 'A';
    k
  }

  lemma PlantKeyIsNoAliasKey(k: string, id: string, aliases: seq<string>)
    requires StartsWith(k, PlantPrefix)
    ensures k !in AliasKeys(id, aliases)
  {
  }

  /** The alias rows' keys derived from a plant's aliases. */
  function AliasKeys(id: string, aliases: seq<string>): set<string> {
    set a | a in aliases :: AliasKey(id, a)
  }

  /** The keys of the alias rows currently pointing at pk. */
  function AliasRowsTo(rows: Rows, pk: string): set<string> {
    set k | k in rows && rows[k].AliasItem? && rows[k].targetPk == pk
  }

  /** The slug of an alias does not depend on its case. */
  lemma SlugifyNameIgnoresCase(a: string)
    ensures SlugifyName(ToLower(a)) == SlugifyName(a)
  {
    ToLowerIdempotent(a);
  }

  // ---- putPlant ----

  /** `body.scientificName || 'unnamed'`. */
  function SciNameOf(body: PlantPatch): (r: string)
    ensures r != []
    ensures body.scientificName.Given? && body.scientificName.value != [] ==> r == body.scientificName.value
  {
    if body.scientificName.Given? && body.scientificName.value != [] then body.scientificName.value else Unnamed
  }

  /** `(body.PK && body.PK.replace(/^PLANT#/, '')) || slugifyName(scientificName)`. */
  function PlantId(body: PlantPatch): (id: string)
    ensures body.pk.Given? && StripPlantPrefix(body.pk.value) != [] ==> id == StripPlantPrefix(body.pk.value)
    ensures !(body.pk.Given? && StripPlantPrefix(body.pk.value) != []) ==> id == SlugifyName(SciNameOf(body)) && IsSlug(id, '_')
  {
    var fromKey := if body.pk.Given? && body.pk.value != [] then StripPlantPrefix(body.pk.value) else [];
    if fromKey != [] then fromKey else SlugifyName(SciNameOf(body))
  }

  function LowerAll(s: seq<string>): (r: seq<string>)
    ensures |r| == |s|
    ensures forall i :: 0 <= i < |s| ==> r[i] == ToLower(s[i]) && HasNoUpper(r[i])
  {
    seq(|s|, i requires 0 <= i < |s| => ToLowerIdempotent(s[i]); ToLower(s[i]))
  }

  /** Lower-casing aliases does not change the alias keys they derive. */
  lemma AliasKeysLowerAll(id: string, aliases: seq<string>)
    ensures AliasKeys(id, LowerAll(aliases)) == AliasKeys(id, aliases)
  {
    var l := LowerAll(aliases);
    forall k | k in AliasKeys(id, aliases) ensures k in AliasKeys(id, l) {
      var a :| a in aliases && k == AliasKey(id, a);
      var i :| 0 <= i < |aliases| && aliases[i] == a;
      SlugifyNameIgnoresCase(a);
      assert AliasKey(id, l[i]) == k;
    }
    forall k | k in AliasKeys(id, l) ensures k in AliasKeys(id, aliases) {
      var a :| a in l && k == AliasKey(id, a);
      var i :| 0 <= i < |l| && l[i] == a;
      SlugifyNameIgnoresCase(aliases[i]);
      assert AliasKey(id, aliases[i]) == k;
    }
  }

  /**
   * The main item of putPlant: only the listed properties are copied, so
   * `popularity` and `images` of the body are not stored.
   */
  function MainItem(body: PlantPatch, now: string): (p: PlantTaxon)
    ensures p.pk == PlantPrefix + PlantId(body)
    ensures p.scientificName == SciNameOf(body)
    ensures p.aliases == LowerAll(body.aliases.Else([]))
    ensures p.createdAt == p.updatedAt == now
    ensures p.popularity == None && p.images == None
  {
    PlantTaxon(
      PlantPrefix + PlantId(body), SciNameOf(body),
      body.kingdom.Get(), body.phylum.Get(), body.taxonClass.Get(), body.order.Get(), body.family.Get(),
      body.genus.Get(), body.species.Get(),
      LowerAll(body.aliases.Else([])),
      body.watering.Get(), body.light.Get(), body.humidity.Get(), body.temperature.Get(), body.soil.Get(),
      None, body.attributes.Get(), None,
      now, now)
  }

  /** The putPlant main key of a body: resubmitting the stored item writes to the same key. */
  lemma PlantIdStable(body: PlantPatch, now: string)
    ensures PlantId(body.(pk := Given(MainItem(body, now).pk))) == PlantId(body)
  {
    var id := PlantId(body);
    var b2 := body.(pk := Given(PlantPrefix + id));
    assert StartsWith(PlantPrefix + id, PlantPrefix);
    assert StripPlantPrefix(PlantPrefix + id) == id;
    assert SciNameOf(b2) == SciNameOf(body);
  }

  /** The alias row for one alias: `GSI1PK='ALIAS'`, lower-cased alias, `targetPK` the plant key. */
  function AliasRow(id: string, pk: string, alias: string, createdAt: string): (item: Item)
    ensures item.AliasItem? && ItemKey(item) == AliasKey(id, alias)
  {
    AliasItem(AliasKey(id, alias), AliasPartition, ToLower(alias), pk, createdAt)
  }

  function AliasPuts(id: string, pk: string, aliases: seq<string>, createdAt: string): (reqs: seq<Request>)
    ensures |reqs| == |aliases|
  {
    seq(|aliases|, i requires 0 <= i < |aliases| => Put(AliasRow(id, pk, aliases[i], createdAt)))
  }

  function AliasDeletes(id: string, aliases: seq<string>): (reqs: seq<Request>)
    ensures |reqs| == |aliases|
  {
    seq(|aliases|, i requires 0 <= i < |aliases| => Delete(AliasKey(id, aliases[i])))
  }

  lemma AliasPutsTake(id: string, pk: string, aliases: seq<string>, i: nat, createdAt: string)
    requires i < |aliases|
    ensures AliasPuts(id, pk, aliases[..i + 1], createdAt)
      == AliasPuts(id, pk, aliases[..i], createdAt) + [Put(AliasRow(id, pk, aliases[i], createdAt))]
  {
    TakeSnoc(aliases, i);
    AliasPutsSnoc(id, pk, aliases[..i], aliases[i], createdAt);
  }

  lemma AliasPutsSnoc(id: string, pk: string, aliases: seq<string>, a: string, createdAt: string)
    ensures AliasPuts(id, pk, aliases + [a], createdAt) == AliasPuts(id, pk, aliases, createdAt) + [Put(AliasRow(id, pk, a, createdAt))]
  {
  }

  lemma AliasDeletesTake(id: string, aliases: seq<string>, i: nat)
    requires i < |aliases|
    ensures AliasDeletes(id, aliases[..i + 1]) == AliasDeletes(id, aliases[..i]) + [Delete(AliasKey(id, aliases[i]))]
  {
    TakeSnoc(aliases, i);
    AliasDeletesSnoc(id, aliases[..i], aliases[i]);
  }

  lemma AliasDeletesSnoc(id: string, aliases: seq<string>, a: string)
    ensures AliasDeletes(id, aliases + [a]) == AliasDeletes(id, aliases) + [Delete(AliasKey(id, a))]
  {
  }

  /** Main item Put first, then one alias Put per alias, in order. */
  function PutBatch(body: PlantPatch, now: string): (reqs: seq<Request>)
    ensures |reqs| == 1 + |body.aliases.Else([])|
    ensures reqs[0] == Put(PlantItem(MainItem(body, now)))
    ensures forall i :: 1 <= i < |reqs| ==> reqs[i].Put? && reqs[i].item.AliasItem?
  {
    var main := MainItem(body, now);
    [Put(PlantItem(main))] + AliasPuts(PlantId(body), main.pk, main.aliases, now)
  }

  // ---- updatePlant ----

  /**
   * `{...existing, ...updates, aliases, metrics, updatedAt}`. Every property
   * present in the update overrides the stored one, a nullish one included.
   * The five metrics use `??`, so a nullish metric keeps the stored one. The
   * aliases come from the update when given, else from the record, and are
   * lower-cased.
   */
  function MergePlant(existing: PlantTaxon, updates: PlantPatch, now: string): (m: PlantTaxon)
    ensures m.aliases == LowerAll(updates.aliases.Else(existing.aliases))
    ensures m.updatedAt == now
    ensures updates.watering.Given? ==> m.watering == Some(updates.watering.value)
  {
    PlantTaxon(
      updates.pk.Else(existing.pk),
      updates.scientificName.Else(existing.scientificName),
      updates.kingdom.Spread(existing.kingdom),
      updates.phylum.Spread(existing.phylum),
      updates.taxonClass.Spread(existing.taxonClass),
      updates.order.Spread(existing.order),
      updates.family.Spread(existing.family),
      updates.genus.Spread(existing.genus),
      updates.species.Spread(existing.species),
      LowerAll(updates.aliases.Else(existing.aliases)),
      updates.watering.Or(existing.watering),
      updates.light.Or(existing.light),
      updates.humidity.Or(existing.humidity),
      updates.temperature.Or(existing.temperature),
      updates.soil.Or(existing.soil),
      updates.popularity.Spread(existing.popularity),
      updates.attributes.Spread(existing.attributes),
      updates.images.Spread(existing.images),
      updates.createdAt.Else(existing.createdAt),
      now)
  }

  /** The merged optional property `merged` of a spread: a present property wins, nullish or not. */
  predicate SpreadOver<T(==)>(f: Field<T>, stored: Option<T>, merged: Option<T>) {
    && (f.Given? ==> merged == Some(f.value))
    && (f.Nullish? ==> merged == None)
    && (f.Absent? ==> merged == stored)
  }

  /** The merged `??` property: only a given value wins. */
  predicate CoalescedOver<T(==)>(f: Field<T>, stored: Option<T>, merged: Option<T>) {
    && (f.Given? ==> merged == Some(f.value))
    && (!f.Given? ==> merged == stored)
  }

  /**
   * Outside the aliases, the metrics and `updatedAt`, every property is the
   * stored one unless the update carries it; a nullish rank, popularity,
   * attributes or images in the update clears the stored one.
   */
  lemma MergeSpreadsUpdates(existing: PlantTaxon, updates: PlantPatch, now: string)
    ensures var m := MergePlant(existing, updates, now);
      && (updates.pk.Given? ==> m.pk == updates.pk.value) && (!updates.pk.Given? ==> m.pk == existing.pk)
      && (updates.scientificName.Given? ==> m.scientificName == updates.scientificName.value)
      && (!updates.scientificName.Given? ==> m.scientificName == existing.scientificName)
      && (updates.createdAt.Given? ==> m.createdAt == updates.createdAt.value)
      && (!updates.createdAt.Given? ==> m.createdAt == existing.createdAt)
      && SpreadOver(updates.kingdom, existing.kingdom, m.kingdom)
      && SpreadOver(updates.phylum, existing.phylum, m.phylum)
      && SpreadOver(updates.taxonClass, existing.taxonClass, m.taxonClass)
      && SpreadOver(updates.order, existing.order, m.order)
      && SpreadOver(updates.family, existing.family, m.family)
      && SpreadOver(updates.genus, existing.genus, m.genus)
      && SpreadOver(updates.species, existing.species, m.species)
      && SpreadOver(updates.popularity, existing.popularity, m.popularity)
      && SpreadOver(updates.attributes, existing.attributes, m.attributes)
      && SpreadOver(updates.images, existing.images, m.images)
  {
  }

  /** An empty update only lower-cases the aliases and refreshes `updatedAt`. */
  lemma MergeEmptyPatch(existing: PlantTaxon, now: string)
    ensures MergePlant(existing, EmptyPatch, now) == existing.(aliases := LowerAll(existing.aliases), updatedAt := now)
  {
  }

  /** Applying the same update twice gives the record once updated. */
  lemma MergeTwice(existing: PlantTaxon, updates: PlantPatch, now: string)
    ensures MergePlant(MergePlant(existing, updates, now), updates, now) == MergePlant(existing, updates, now)
  {
    var m := MergePlant(existing, updates, now);
    var l := LowerAll(updates.aliases.Else(existing.aliases));
    if !updates.aliases.Given? {
      forall i | 0 <= i < |l| ensures ToLower(l[i]) == l[i] {
        ToLowerIdentity(l[i]);
      }
      assert LowerAll(m.aliases) == l;
    }
  }

  /**
   * Metrics are overridden, never gap-filled: a given value wins even over a
   * stored one, and only an absent or nullish one keeps the stored value.
   */
  lemma MergeOverridesMetrics(existing: PlantTaxon, updates: PlantPatch, now: string)
    ensures var m := MergePlant(existing, updates, now);
      && CoalescedOver(updates.watering, existing.watering, m.watering)
      && CoalescedOver(updates.light, existing.light, m.light)
      && CoalescedOver(updates.soil, existing.soil, m.soil)
      && CoalescedOver(updates.humidity, existing.humidity, m.humidity)
      && CoalescedOver(updates.temperature, existing.temperature, m.temperature)
  {
  }

  /** `existing.createdAt || now`. */
  function AliasCreatedAt(existing: PlantTaxon, now: string): (c: string)
    ensures c != [] || now == []
  {
    if existing.createdAt != [] then existing.createdAt else now
  }

  /** All old-alias Deletes, then the merged main Put, then the new-alias Puts. */
  function UpdateBatch(pk: string, existing: PlantTaxon, updates: PlantPatch, now: string): (reqs: seq<Request>)
    ensures |reqs| == |existing.aliases| + 1 + |MergePlant(existing, updates, now).aliases|
  {
    var id := StripPlantPrefix(pk);
    var merged := MergePlant(existing, updates, now);
    AliasDeletes(id, existing.aliases) + [Put(PlantItem(merged))]
      + AliasPuts(id, pk, merged.aliases, AliasCreatedAt(existing, now))
  }

  /** Every stored alias row's Delete, then the main row's Delete. */
  function DeleteBatch(pk: string, existing: PlantTaxon): (reqs: seq<Request>)
    ensures |reqs| == |existing.aliases| + 1 && reqs[|reqs| - 1] == Delete(pk)
  {
    AliasDeletes(StripPlantPrefix(pk), existing.aliases) + [Delete(pk)]
  }

  // ---- effect of the batches ----

  lemma AliasKeysSnoc(id: string, aliases: seq<string>, a: string)
    ensures AliasKeys(id, aliases + [a]) == AliasKeys(id, aliases) + {AliasKey(id, a)}
  {
    var l := aliases + [a];
    forall x | x in l ensures x in aliases || x == a { }
  }

  lemma MapMinusSnoc(rows: Rows, keys: set<string>, k: string)
    ensures rows - keys - {k} == rows - (keys + {k})
  {
  }

  lemma {:induction false} AliasDeletesEffect(rows: Rows, id: string, aliases: seq<string>)
    ensures ApplyBatch(rows, AliasDeletes(id, aliases)) == rows - AliasKeys(id, aliases)
    decreases |aliases|
  {
    if aliases == [] {
      assert AliasKeys(id, aliases) == {};
      assert rows - {} == rows;
    } else {
      var init, last := aliases[..|aliases| - 1], aliases[|aliases| - 1];
      assert aliases == init + [last];
      AliasDeletesEffect(rows, id, init);
      DeletesStep(rows, id, init, last);
    }
  }

  lemma DeletesStep(rows: Rows, id: string, init: seq<string>, last: string)
    requires ApplyBatch(rows, AliasDeletes(id, init)) == rows - AliasKeys(id, init)
    ensures ApplyBatch(rows, AliasDeletes(id, init + [last])) == rows - AliasKeys(id, init + [last])
  {
    var k := AliasKey(id, last);
    AliasDeletesSnoc(id, init, last);
    ApplyBatchSnoc(rows, AliasDeletes(id, init), Delete(k));
    MapMinusSnoc(rows, AliasKeys(id, init), k);
    AliasKeysSnoc(id, init, last);
  }

  /** What a run of alias Puts leaves in the table. */
  ghost predicate PutsOutcome(rows: Rows, after: Rows, keys: set<string>, pk: string) {
    && (forall k :: k in after <==> k in rows || k in keys)
    && (forall k :: k in keys ==> after[k].AliasItem? && after[k].targetPk == pk && after[k].gsi1pk == AliasPartition)
    && (forall k :: k in rows && k !in keys ==> after[k] == rows[k])
  }

  lemma PutsOutcomeSnoc(rows: Rows, mid: Rows, keys: set<string>, pk: string, item: Item)
    requires PutsOutcome(rows, mid, keys, pk)
    requires item.AliasItem? && item.targetPk == pk && item.gsi1pk == AliasPartition
    ensures PutsOutcome(rows, mid[ItemKey(item) := item], keys + {ItemKey(item)}, pk)
  {
  }

  lemma {:induction false} AliasPutsEffect(rows: Rows, id: string, pk: string, aliases: seq<string>, createdAt: string)
    ensures PutsOutcome(rows, ApplyBatch(rows, AliasPuts(id, pk, aliases, createdAt)), AliasKeys(id, aliases), pk)
    decreases |aliases|
  {
    if aliases == [] {
      assert AliasKeys(id, aliases) == {};
    } else {
      var init, last := aliases[..|aliases| - 1], aliases[|aliases| - 1];
      assert aliases == init + [last];
      AliasPutsEffect(rows, id, pk, init, createdAt);
      PutsStep(rows, id, pk, init, last, createdAt);
    }
  }

  lemma PutsStep(rows: Rows, id: string, pk: string, init: seq<string>, last: string, createdAt: string)
    requires PutsOutcome(rows, ApplyBatch(rows, AliasPuts(id, pk, init, createdAt)), AliasKeys(id, init), pk)
    ensures PutsOutcome(rows, ApplyBatch(rows, AliasPuts(id, pk, init + [last], createdAt)), AliasKeys(id, init + [last]), pk)
  {
    var item := AliasRow(id, pk, last, createdAt);
    var initReqs := AliasPuts(id, pk, init, createdAt);
    AliasPutsSnoc(id, pk, init, last, createdAt);
    ApplyBatchSnoc(rows, initReqs, Put(item));
    PutsOutcomeSnoc(rows, ApplyBatch(rows, initReqs), AliasKeys(id, init), pk, item);
    AliasKeysSnoc(id, init, last);
  }

  lemma AliasBatchesWellFormed(id: string, pk: string, aliases: seq<string>, createdAt: string)
    ensures WellFormedBatch(AliasPuts(id, pk, aliases, createdAt))
    ensures WellFormedBatch(AliasDeletes(id, aliases))
  {
  }

  lemma WellFormedAppend(a: seq<Request>, b: seq<Request>)
    requires WellFormedBatch(a) && WellFormedBatch(b)
    ensures WellFormedBatch(a + b)
  {
    forall i | 0 <= i < |a + b| ensures (a + b)[i] == if i < |a| then a[i] else b[i - |a|] { }
  }

  lemma PutBatchWellFormed(body: PlantPatch, now: string)
    ensures WellFormedBatch(PutBatch(body, now))
  {
    var main := MainItem(body, now);
    AliasBatchesWellFormed(PlantId(body), main.pk, main.aliases, now);
    WellFormedAppend([Put(PlantItem(main))], AliasPuts(PlantId(body), main.pk, main.aliases, now));
  }

  lemma UpdateBatchWellFormed(pk: string, existing: PlantTaxon, updates: PlantPatch, now: string)
    ensures WellFormedBatch(UpdateBatch(pk, existing, updates, now))
  {
    var id := StripPlantPrefix(pk);
    var merged := MergePlant(existing, updates, now);
    var dels := AliasDeletes(id, existing.aliases);
    AliasBatchesWellFormed(id, pk, merged.aliases, AliasCreatedAt(existing, now));
    AliasBatchesWellFormed(id, pk, existing.aliases, now);
    WellFormedAppend(dels, [Put(PlantItem(merged))]);
    WellFormedAppend(dels + [Put(PlantItem(merged))], AliasPuts(id, pk, merged.aliases, AliasCreatedAt(existing, now)));
  }

  lemma DeleteBatchWellFormed(pk: string, existing: PlantTaxon)
    ensures WellFormedBatch(DeleteBatch(pk, existing))
  {
    var id := StripPlantPrefix(pk);
    AliasBatchesWellFormed(id, pk, existing.aliases, "");
    WellFormedAppend(AliasDeletes(id, existing.aliases), [Delete(pk)]);
  }

  /** A main Put followed by its alias Puts, for any plant stored under a `PLANT#` key. */
  lemma MainThenAliasPuts(rows: Rows, main: PlantTaxon, id: string, createdAt: string)
    requires StartsWith(main.pk, PlantPrefix)
    ensures var keys := AliasKeys(id, main.aliases);
      var after := ApplyBatch(rows, [Put(PlantItem(main))] + AliasPuts(id, main.pk, main.aliases, createdAt));
      && main.pk in after && after[main.pk] == PlantItem(main)
      && keys <= AliasRowsTo(after, main.pk)
      && (forall k :: k in after <==> k in rows || k == main.pk || k in keys)
      && (forall k :: k in rows && k != main.pk && k !in keys ==> after[k] == rows[k])
      && (AliasRowsTo(rows, main.pk) == {} ==> AliasRowsTo(after, main.pk) == keys)
  {
    var keys := AliasKeys(id, main.aliases);
    var puts := AliasPuts(id, main.pk, main.aliases, createdAt);
    assert [Put(PlantItem(main))] + puts == [] + [Put(PlantItem(main))] + puts;
    BatchAroundPut(rows, [], PlantItem(main), puts);
    var first := rows[main.pk := PlantItem(main)];
    AliasPutsEffect(first, id, main.pk, main.aliases, createdAt);
    PlantKeyIsNoAliasKey(main.pk, id, main.aliases);
    PutsOverPlantRow(rows, ApplyBatch(first, puts), keys, main.pk, PlantItem(main));
  }

  /** Alias Puts for keys other than pk, made after a plant row was put under pk. */
  lemma PutsOverPlantRow(rows: Rows, after: Rows, keys: set<string>, pk: string, item: Item)
    requires item.PlantItem? && pk !in keys
    requires PutsOutcome(rows[pk := item], after, keys, pk)
    ensures && pk in after && after[pk] == item
      && keys <= AliasRowsTo(after, pk)
      && (forall k :: k in after <==> k in rows || k == pk || k in keys)
      && (forall k :: k in rows && k != pk && k !in keys ==> after[k] == rows[k])
      && (AliasRowsTo(rows, pk) == {} ==> AliasRowsTo(after, pk) == keys)
  {
    var first := rows[pk := item];
    assert keys <= AliasRowsTo(after, pk) by {
      forall k | k in keys ensures k in AliasRowsTo(after, pk) { }
    }
    if AliasRowsTo(rows, pk) == {} {
      forall k | k in after && k !in keys ensures k !in AliasRowsTo(after, pk) {
        assert after[k] == first[k];
        if k != pk {
          assert k !in AliasRowsTo(rows, pk);
        }
      }
    }
  }

  /**
   * After putPlant's batch the main row is stored, every alias key derived
   * from the stored aliases points at it, and no other row changed. For a
   * plant no alias row pointed at before, its alias rows are exactly those
   * derived from its aliases.
   */
  lemma PutBatchEffect(rows: Rows, body: PlantPatch, now: string)
    ensures var main := MainItem(body, now);
      var keys := AliasKeys(PlantId(body), body.aliases.Else([]));
      var after := ApplyBatch(rows, PutBatch(body, now));
      && main.pk in after && after[main.pk] == PlantItem(main)
      && keys <= AliasRowsTo(after, main.pk)
      && (forall k :: k in after <==> k in rows || k == main.pk || k in keys)
      && (forall k :: k in rows && k != main.pk && k !in keys ==> after[k] == rows[k])
      && (AliasRowsTo(rows, main.pk) == {} ==> AliasRowsTo(after, main.pk) == keys)
  {
    var main := MainItem(body, now);
    MainThenAliasPuts(rows, main, PlantId(body), now);
    AliasKeysLowerAll(PlantId(body), body.aliases.Else([]));
  }

  /** Deletes of the old alias keys, a main Put, then Puts of the new alias rows. */
  lemma DeletesThenPuts(rows: Rows, pk: string, id: string, oldAliases: seq<string>, main: PlantTaxon,
                        newAliases: seq<string>, createdAt: string)
    requires AliasRowsTo(rows, pk) <= AliasKeys(id, oldAliases)
    ensures var oldKeys := AliasKeys(id, oldAliases);
      var newKeys := AliasKeys(id, newAliases);
      var after := ApplyBatch(rows, AliasDeletes(id, oldAliases) + [Put(PlantItem(main))] + AliasPuts(id, pk, newAliases, createdAt));
      && AliasRowsTo(after, pk) == newKeys
      && (forall k :: k in rows && k != main.pk && k !in oldKeys && k !in newKeys ==> k in after && after[k] == rows[k])
      && (main.pk !in newKeys ==> main.pk in after && after[main.pk] == PlantItem(main))
  {
    var oldKeys := AliasKeys(id, oldAliases);
    var newKeys := AliasKeys(id, newAliases);
    var dels := AliasDeletes(id, oldAliases);
    var puts := AliasPuts(id, pk, newAliases, createdAt);
    BatchAroundPut(rows, dels, PlantItem(main), puts);
    AliasDeletesEffect(rows, id, oldAliases);
    var mid := (rows - oldKeys)[main.pk := PlantItem(main)];
    ClearedHasNoAliasRows(rows, oldKeys, pk, PlantItem(main));
    AliasPutsEffect(mid, id, pk, newAliases, createdAt);
    PutsOntoNoAliasRows(mid, ApplyBatch(mid, puts), newKeys, pk);
  }

  lemma BatchAroundPut(rows: Rows, a: seq<Request>, item: Item, b: seq<Request>)
    ensures ApplyBatch(rows, a + [Put(item)] + b) == ApplyBatch(ApplyBatch(rows, a)[ItemKey(item) := item], b)
  {
    ApplyBatchAppend(rows, a + [Put(item)], b);
    ApplyBatchAppend(rows, a, [Put(item)]);
    assert [Put(item)][..0] == [];
  }

  /** Once the old alias keys are deleted and a plant row put, no alias row points at pk. */
  lemma ClearedHasNoAliasRows(rows: Rows, oldKeys: set<string>, pk: string, item: Item)
    requires AliasRowsTo(rows, pk) <= oldKeys && item.PlantItem?
    ensures AliasRowsTo((rows - oldKeys)[ItemKey(item) := item], pk) == {}
  {
    var mid := (rows - oldKeys)[ItemKey(item) := item];
    forall k | k in mid && mid[k].AliasItem? ensures mid[k].targetPk != pk {
      assert k in rows && k !in oldKeys && mid[k] == rows[k];
      assert k !in AliasRowsTo(rows, pk);
    }
  }

  /** Alias Puts onto a table with no alias row pointing at pk leave exactly their keys pointing at it. */
  lemma PutsOntoNoAliasRows(rows: Rows, after: Rows, keys: set<string>, pk: string)
    requires PutsOutcome(rows, after, keys, pk) && AliasRowsTo(rows, pk) == {}
    ensures AliasRowsTo(after, pk) == keys
  {
    forall k | k in after && k !in keys ensures k !in AliasRowsTo(after, pk) {
      assert k in rows && after[k] == rows[k];
      assert k !in AliasRowsTo(rows, pk);
    }
  }

  /**
   * The realignment property of updatePlant: when the alias rows pointing at
   * pk are among those derived from the stored aliases, after the batch the
   * alias rows pointing at pk are exactly those derived from the merged
   * aliases; rows this update derives no key for are unchanged.
   */
  lemma UpdateBatchRealigns(rows: Rows, pk: string, existing: PlantTaxon, updates: PlantPatch, now: string)
    requires AliasRowsTo(rows, pk) <= AliasKeys(StripPlantPrefix(pk), existing.aliases)
    ensures var id := StripPlantPrefix(pk);
      var merged := MergePlant(existing, updates, now);
      var after := ApplyBatch(rows, UpdateBatch(pk, existing, updates, now));
      && AliasRowsTo(after, pk) == AliasKeys(id, merged.aliases)
      && AliasKeys(id, merged.aliases) == AliasKeys(id, updates.aliases.Else(existing.aliases))
      && (forall k :: k in rows && k != merged.pk && k !in AliasKeys(id, existing.aliases) && k !in AliasKeys(id, merged.aliases) ==> k in after && after[k] == rows[k])
      && (merged.pk !in AliasKeys(id, merged.aliases) ==> merged.pk in after && after[merged.pk] == PlantItem(merged))
  {
    var id := StripPlantPrefix(pk);
    var merged := MergePlant(existing, updates, now);
    DeletesThenPuts(rows, pk, id, existing.aliases, merged, merged.aliases, AliasCreatedAt(existing, now));
    AliasKeysLowerAll(id, updates.aliases.Else(existing.aliases));
  }

  /**
   * deletePlant's batch removes exactly the main row and the rows derived
   * from the stored aliases; if those were all the alias rows pointing at pk,
   * none remains.
   */
  lemma DeleteBatchEffect(rows: Rows, pk: string, existing: PlantTaxon)
    ensures var keys := AliasKeys(StripPlantPrefix(pk), existing.aliases);
      ApplyBatch(rows, DeleteBatch(pk, existing)) == rows - keys - {pk}
    ensures AliasRowsTo(rows, pk) <= AliasKeys(StripPlantPrefix(pk), existing.aliases) ==>
      AliasRowsTo(ApplyBatch(rows, DeleteBatch(pk, existing)), pk) == {}
  {
    var id := StripPlantPrefix(pk);
    ApplyBatchAppend(rows, AliasDeletes(id, existing.aliases), [Delete(pk)]);
    AliasDeletesEffect(rows, id, existing.aliases);
    var after := ApplyBatch(rows, DeleteBatch(pk, existing));
    if AliasRowsTo(rows, pk) <= AliasKeys(id, existing.aliases) {
      forall k | k in after && after[k].AliasItem? ensures after[k].targetPk != pk {
        assert k !in AliasRowsTo(rows, pk);
      }
    }
  }

  /** The alias rows pointing at pk are among those derived from the plant's stored aliases. */
  predicate AliasesIndexed(rows: Rows, pk: string)
  {
    pk in rows && rows[pk].PlantItem? &&
    AliasRowsTo(rows, pk) <= AliasKeys(StripPlantPrefix(pk), rows[pk].plant.aliases)
  }

  /** An update that keeps the key leaves the plant's alias rows indexed again. */
  lemma UpdateKeepsIndexed(rows: Rows, pk: string, existing: PlantTaxon, updates: PlantPatch, now: string)
    requires StartsWith(pk, PlantPrefix)
    requires AliasRowsTo(rows, pk) <= AliasKeys(StripPlantPrefix(pk), existing.aliases)
    requires MergePlant(existing, updates, now).pk == pk
    ensures AliasesIndexed(ApplyBatch(rows, UpdateBatch(pk, existing, updates, now)), pk)
  {
    UpdateBatchRealigns(rows, pk, existing, updates, now);
    var id := StripPlantPrefix(pk);
    var merged := MergePlant(existing, updates, now);
    PlantKeyIsNoAliasKey(pk, id, merged.aliases);
  }

  // ---- alias prefix query ----

  /** A row the alias index query returns: `GSI1PK = 'ALIAS' AND begins_with(alias, lower(prefix))`. */
  predicate IsAliasMatch(item: Item, prefix: string) {
    item.AliasItem? && item.gsi1pk == AliasPartition && StartsWith(item.alias, ToLower(prefix))
  }

  /** hits lists exactly the matching rows of the table, in the order the index returns them. */
  predicate IsAliasQuery(rows: Rows, prefix: string, hits: seq<Item>) {
    && (forall i :: 0 <= i < |hits| ==> ItemKey(hits[i]) in rows && rows[ItemKey(hits[i])] == hits[i] && IsAliasMatch(hits[i], prefix))
    && (forall k :: k in rows && IsAliasMatch(rows[k], prefix) ==> rows[k] in hits)
  }

  /** `i.targetPK || i.PK`. */
  function TargetOf(item: Item): (r: string)
    ensures item.AliasItem? && item.targetPk != [] ==> r == item.targetPk
  {
    if item.AliasItem? && item.targetPk != [] then item.targetPk else ItemKey(item)
  }

  function Targets(hits: seq<Item>): (r: seq<string>)
    ensures |r| == |hits| && forall i :: 0 <= i < |hits| ==> r[i] == TargetOf(hits[i])
  {
    seq(|hits|, i requires 0 <= i < |hits| => TargetOf(hits[i]))
  }

  /** getPlantPKsByAliasPrefix in plantService.ts: the distinct targets of the hits, in first-seen order. */
  function AliasQueryPKs(hits: seq<Item>): (r: seq<string>)
    ensures NoDuplicates(r)
    ensures forall x :: x in r <==> exists i :: 0 <= i < |hits| && TargetOf(hits[i]) == x
    ensures forall i, j :: 0 <= i < j < |r| ==>
      r[i] in Targets(hits) && r[j] in Targets(hits) && FirstIndex(Targets(hits), r[i]) < FirstIndex(Targets(hits), r[j])
  {
    var t := Targets(hits);
    DedupOrder(t);
    assert forall x :: x in t <==> exists i :: 0 <= i < |hits| && TargetOf(hits[i]) == x by {
      forall x | x in t ensures exists i :: 0 <= i < |hits| && TargetOf(hits[i]) == x {
        var i :| 0 <= i < |t| && t[i] == x;
      }
    }
    Dedup(t)
  }

  /** The query's pks are exactly the targets of the table's matching alias rows. */
  lemma AliasQuerySoundComplete(rows: Rows, prefix: string, hits: seq<Item>, x: string)
    requires IsAliasQuery(rows, prefix, hits)
    ensures x in AliasQueryPKs(hits) <==> exists k :: k in rows && IsAliasMatch(rows[k], prefix) && TargetOf(rows[k]) == x
  {
    if x in AliasQueryPKs(hits) {
      var i :| 0 <= i < |hits| && TargetOf(hits[i]) == x;
      assert rows[ItemKey(hits[i])] == hits[i];
    }
    if exists k :: k in rows && IsAliasMatch(rows[k], prefix) && TargetOf(rows[k]) == x {
      var k :| k in rows && IsAliasMatch(rows[k], prefix) && TargetOf(rows[k]) == x;
      var i :| 0 <= i < |hits| && hits[i] == rows[k];
    }
  }

  /** getPlantsByPKs: the stored rows of the given keys, absent ones dropped, in order. */
  function Lookups(rows: Rows, pks: seq<string>): (r: seq<Item>)
    requires KeysMatch(rows)
    ensures |r| <= |pks|
    ensures forall it :: it in r <==> ItemKey(it) in pks && ItemKey(it) in rows && rows[ItemKey(it)] == it
    ensures var stored := Filter(pks, k => k in rows);
      |r| == |stored| && forall i :: 0 <= i < |r| ==> stored[i] in rows && r[i] == rows[stored[i]]
  {
    if pks == [] then []
    else
      var rest := Lookups(rows, pks[1..]);
      (if pks[0] in rows then [rows[pks[0]]] else []) + rest
  }

  /** searchPlantByPrefix: no lookups when no alias matches. */
  function SearchByPrefix(rows: Rows, hits: seq<Item>): (r: seq<Item>)
    requires KeysMatch(rows)
    ensures forall it :: it in r <==> ItemKey(it) in AliasQueryPKs(hits) && ItemKey(it) in rows && rows[ItemKey(it)] == it
  {
    var pks := AliasQueryPKs(hits);
    if |pks| == 0 then [] else Lookups(rows, pks)
  }

  // ---- the table and the service operations ----

  class Table {
    var rows: Rows

    ghost predicate Valid()
      reads this
    {
      ValidRows(rows)
    }

    constructor ()
      ensures Valid() && rows == map[]
    {
      rows := map[];
    }

    /** GetCommand: the row under key, if any. */
    method GetItem(key: string) returns (r: Option<Item>)
      requires Valid()
      ensures r.Some? <==> key in rows
      ensures r.Some? ==> r.value == rows[key] && ItemKey(r.value) == key
      ensures r.Some? && StartsWith(key, PlantPrefix) ==> r.value.PlantItem?
    {
      if key in rows {
        r := Some(rows[key]);
      } else {
        r := None;
      }
    }

    /** BatchWriteCommand: the requests applied in order. */
    method BatchWrite(reqs: seq<Request>)
      requires Valid() && WellFormedBatch(reqs)
      modifies this
      ensures Valid()
      ensures rows == ApplyBatch(old(rows), reqs)
    {
      ghost var start := rows;
      var i := 0;
      while i < |reqs|
        invariant 0 <= i <= |reqs|
        invariant rows == ApplyBatch(start, reqs[..i])
      {
        assert reqs[..i + 1][..i] == reqs[..i];
        match reqs[i] {
          case Put(item) => rows := rows[ItemKey(item) := item];
          case Delete(key) => rows := rows - {key};
        }
        i := i + 1;
      }
      assert reqs[..i] == reqs;
      ApplyBatchValid(start, reqs);
    }
  }

  /** The alias Put loop of putPlant/updatePlant. */
  method BuildAliasPuts(id: string, pk: string, aliases: seq<string>, createdAt: string) returns (reqs: seq<Request>)
    ensures reqs == AliasPuts(id, pk, aliases, createdAt)
  {
    reqs := [];
    for i := 0 to |aliases|
      invariant reqs == AliasPuts(id, pk, aliases[..i], createdAt)
    {
      AliasPutsTake(id, pk, aliases, i, createdAt);
      reqs := reqs + [Put(AliasRow(id, pk, aliases[i], createdAt))];
    }
    assert aliases[..|aliases|] == aliases;
  }

  /** The alias Delete loop of updatePlant/deletePlant. */
  method BuildAliasDeletes(id: string, aliases: seq<string>) returns (reqs: seq<Request>)
    ensures reqs == AliasDeletes(id, aliases)
  {
    reqs := [];
    for i := 0 to |aliases|
      invariant reqs == AliasDeletes(id, aliases[..i])
    {
      AliasDeletesTake(id, aliases, i);
      reqs := reqs + [Delete(AliasKey(id, aliases[i]))];
    }
    assert aliases[..|aliases|] == aliases;
  }

  /** putPlant: writes the main item and its alias rows, and returns the main item. */
  method PutPlant(table: Table, body: PlantPatch, now: string) returns (item: PlantTaxon)
    requires table.Valid()
    modifies table
    ensures table.Valid()
    ensures item == MainItem(body, now)
    ensures table.rows == ApplyBatch(old(table.rows), PutBatch(body, now))
  {
    var id := PlantId(body);
    item := MainItem(body, now);
    var aliasReqs := BuildAliasPuts(id, item.pk, item.aliases, now);
    var writeRequests := [Put(PlantItem(item))] + aliasReqs;
    PutBatchWellFormed(body, now);
    table.BatchWrite(writeRequests);
  }

  /** updatePlant: None and no write when the record is absent. */
  method UpdatePlant(table: Table, pkId: string, updates: PlantPatch, now: string) returns (r: Option<PlantTaxon>)
    requires table.Valid()
    modifies table
    ensures table.Valid()
    ensures var pk := NormalizePlantKey(pkId);
      if pk in old(table.rows) then
        var existing := old(table.rows)[pk].plant;
        && r == Some(MergePlant(existing, updates, now))
        && table.rows == ApplyBatch(old(table.rows), UpdateBatch(pk, existing, updates, now))
      else
        r == None && table.rows == old(table.rows)
  {
    var pk := NormalizePlantKey(pkId);
    var found := table.GetItem(pk);
    if found.None? {
      return None;
    }
    var existing := found.value.plant;
    var merged := MergePlant(existing, updates, now);
    var id := StripPlantPrefix(pk);
    var deleteRequests := BuildAliasDeletes(id, existing.aliases);
    var aliasPuts := BuildAliasPuts(id, pk, merged.aliases, AliasCreatedAt(existing, now));
    var putRequests := [Put(PlantItem(merged))] + aliasPuts;
    var requests := deleteRequests + putRequests;
    assert requests == UpdateBatch(pk, existing, updates, now);
    UpdateBatchWellFormed(pk, existing, updates, now);
    if |requests| > 0 {
      table.BatchWrite(requests);
    }
    r := Some(merged);
  }

  /** deletePlant: false and no write when the record is absent. */
  method DeletePlant(table: Table, pkId: string) returns (deleted: bool)
    requires table.Valid()
    modifies table
    ensures table.Valid()
    ensures var pk := NormalizePlantKey(pkId);
      && (deleted <==> pk in old(table.rows))
      && (deleted ==> table.rows == ApplyBatch(old(table.rows), DeleteBatch(pk, old(table.rows)[pk].plant)))
      && (!deleted ==> table.rows == old(table.rows))
  {
    var pk := NormalizePlantKey(pkId);
    var found := table.GetItem(pk);
    if found.None? {
      return false;
    }
    var existing := found.value.plant;
    var aliasDeletes := BuildAliasDeletes(StripPlantPrefix(pk), existing.aliases);
    var deleteRequests := aliasDeletes + [Delete(pk)];
    DeleteBatchWellFormed(pk, existing);
    if |deleteRequests| > 0 {
      table.BatchWrite(deleteRequests);
    }
    deleted := true;
  }
}
