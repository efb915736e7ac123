/**
 * The record types of src/models/plant.ts. Optional (`?`) properties are
 * `Option`s; a JavaScript number is an `int` for metric values and a `real`
 * for confidences.
 */
module PlantModel {
  import opened Wrappers

  datatype SoilType = Loamy | Clay | Sandy | Peaty | Saline | Chalky | Silty

  /** The string value each enum member stands for. */
  function SoilName(t: SoilType): (r: string)
    ensures ParseSoil(r) == Some(t)
  {
    match t
    case Loamy => "loamy"
    case Clay => "clay"
    case Sandy => "sandy"
    case Peaty => "peaty"
    case Saline => "saline"
    case Chalky => "chalky"
    case Silty => "silty"
  }

  /** The enum member whose value is s, if any. */
  function ParseSoil(s: string): (r: Option<SoilType>)
  {
    if s == "loamy" then Some(Loamy)
    else if s == "clay" then Some(Clay)
    else if s == "sandy" then Some(Sandy)
    else if s == "peaty" then Some(Peaty)
    else if s == "saline" then Some(Saline)
    else if s == "chalky" then Some(Chalky)
    else if s == "silty" then Some(Silty)
    else None
  }

  /** Parsing only accepts the seven enum values, each naming its member. */
  lemma ParseSoilInverse(s: string)
    ensures ParseSoil(s).Some? ==> SoilName(ParseSoil(s).value) == s
  {
  }

  /** Confidence is documented as lying in 0.0 - 1.0 but is not enforced. */
  datatype Metric<T> = Metric(value: T, confidence: real)

  datatype PlantImages = PlantImages(thumbnail: Option<string>, gallery: Option<seq<string>>)

  datatype PlantAttributes = PlantAttributes(
    toxicity: Option<string>,
    origin: Option<string>,
    nativeHeight: Option<string>,
    leafSize: Option<string>,
    growthRate: Option<string>,
    maintenanceLevel: Option<string>,
    airPurifying: Option<string>,
    petFriendly: Option<string>)

  /** A stored plant record; `taxonClass` is the `class` rank. */
  datatype PlantTaxon = PlantTaxon(
    pk: string,
    scientificName: string,
    kingdom: Option<string>,
    phylum: Option<string>,
    taxonClass: Option<string>,
    order: Option<string>,
    family: Option<string>,
    genus: Option<string>,
    species: Option<string>,
    aliases: seq<string>,
    watering: Option<Metric<int>>,
    light: Option<Metric<int>>,
    humidity: Option<Metric<int>>,
    temperature: Option<Metric<string>>,
    soil: Option<Metric<string>>,
    popularity: Option<Metric<int>>,
    attributes: Option<PlantAttributes>,
    images: Option<PlantImages>,
    createdAt: string,
    updatedAt: string)

  /**
   * One property of a `Partial<PlantTaxon>` body: left out, present with
   * `null` or `undefined`, or present with a value. Object spread copies a
   * present property even when it is nullish; `??` and `||` skip it.
   */
  datatype Field<+T> = Absent | Nullish | Given(value: T) {
    /** The property as a stored optional value: a nullish one stores nothing. */
    function Get(): Option<T> {
      if Given? then Some(value) else None
    }

    /** `property ?? other`. */
    function Or(other: Option<T>): Option<T> {
      if Given? then Some(value) else other
    }

    /** The property after `{...stored, ...patch}`: only an absent one keeps the stored value. */
    function Spread(stored: Option<T>): Option<T> {
      if Absent? then stored else Get()
    }

    /** The given value, else `other`. */
    function Else(other: T): T {
      if Given? then value else other
    }
  }

  /** `Partial<PlantTaxon>`: a request body or an update, every property optional. */
  datatype PlantPatch = PlantPatch(
    pk: Field<string>,
    scientificName: Field<string>,
    kingdom: Field<string>,
    phylum: Field<string>,
    taxonClass: Field<string>,
    order: Field<string>,
    family: Field<string>,
    genus: Field<string>,
    species: Field<string>,
    aliases: Field<seq<string>>,
    watering: Field<Metric<int>>,
    light: Field<Metric<int>>,
    humidity: Field<Metric<int>>,
    temperature: Field<Metric<string>>,
    soil: Field<Metric<string>>,
    popularity: Field<Metric<int>>,
    attributes: Field<PlantAttributes>,
    images: Field<PlantImages>,
    createdAt: Field<string>,
    updatedAt: Field<string>)

  /** The patch with no property set. */
  const EmptyPatch := PlantPatch(Absent, Absent, Absent, Absent, Absent, Absent, Absent, Absent, Absent, Absent,
                                 Absent, Absent, Absent, Absent, Absent, Absent, Absent, Absent, Absent, Absent)

  /** `PlantCard`: the short card type the model file declares. */
  datatype PlantCard = PlantCard(id: Option<string>, scientificName: Option<string>, thumbnail: Option<string>)
}
