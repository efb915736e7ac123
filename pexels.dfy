/**
 * Plant imagery from the Pexels search API: the guards before the request,
 * the search query built from the plant's names, and the normalisation,
 * filtering and capping of the returned photos.  The HTTP exchange is an
 * input: what the request ended with.
 */
module Pexels {
  import opened Wrappers
  import opened Text
  import opened Seqs
  import opened Js

  /** How the search request ended. */
  datatype Response =
    | Threw           // the request, or reading its JSON body, threw
    | NotOk           // a response whose `ok` is false
    | Ok(body: Value) // the parsed JSON body of a successful response

  /** One normalised image. */
  datatype Image = Image(small: Value, regular: Value, author: Value, source: Value)

  /** The result is capped at this many images (the request also asks for `per_page=5`). */
  const MaxImages: nat := 5

  /** `Boolean(s)` for a name that may be missing. */
  predicate Present(name: Option<string>) { name.Some? && name.value != [] }

  /** `[plant.scientificName, plant.commonName].filter(Boolean)` */
  function QueryParts(scientificName: string, commonName: Option<string>): (r: seq<string>)
    ensures forall i :: 0 <= i < |r| ==> r[i] != []
  {
    (if scientificName != [] then [scientificName] else [])
    + (if Present(commonName) then [commonName.value] else [])
  }

  /** `` `"${queryParts.join('" "')}" plant`.trim() `` */
  function Query(scientificName: string, commonName: Option<string>): string {
    Trim("\"" + Join(QueryParts(scientificName, commonName), "\" \"") + "\" plant")
  }

  /** Each present name is quoted, in order, and the word `plant` follows; the trim changes nothing. */
  lemma QueryShape(scientificName: string, commonName: Option<string>)
    ensures scientificName != [] && Present(commonName) ==>
      Query(scientificName, commonName) == "\"" + scientificName + "\" \"" + commonName.value + "\" plant"
    ensures scientificName != [] && !Present(commonName) ==>
      Query(scientificName, commonName) == "\"" + scientificName + "\" plant"
    ensures scientificName == [] && Present(commonName) ==>
      Query(scientificName, commonName) == "\"" + commonName.value + "\" plant"
  {
    var parts := QueryParts(scientificName, commonName);
    if |parts| == 2 {
      assert parts[1..] == [parts[1]];
      assert Join(parts, "\" \"") == parts[0] + "\" \"" + parts[1];
      assert "\"" + (parts[0] + "\" \"" + parts[1]) + "\" plant"
          == "\"" + parts[0] + "\" \"" + parts[1] + "\" plant";
    }
    var q := "\"" + Join(parts, "\" \"") + "\" plant";
    TrimIdentity(q);
  }

  /** Trimming a string that starts and ends with a printing character leaves it alone. */
  lemma TrimIdentity(s: string)
    requires s != [] && s[0] == '"' && s[|s| - 1] == 't'
    ensures Trim(s) == s
  {
    assert TrimStart(s) == s;
    assert TrimEnd(s) == s;
  }

  /** `photo => ({ small: photo?.src?.medium, regular: photo?.src?.large, ... })` */
  function ToImage(photo: Value): Image {
    Image(
      Get(Get(photo, "src"), "medium"),
      Get(Get(photo, "src"), "large"),
      Coalesce(Get(photo, "photographer"), Null),
      Coalesce(Get(photo, "url"), Null))
  }

  /** `img => img.small && img.regular` */
  predicate Usable(img: Image) { Truthy(img.small) && Truthy(img.regular) }

  /** The photos of the body, when `data?.photos` is an array. */
  function Photos(body: Value): Option<seq<Value>> {
    var photos := Get(body, "photos");
    if photos.Arr? then Some(photos.elems) else None
  }

  /** The normalised, usable images of a photo list, at most five of them. */
  function Normalise(photos: seq<Value>): seq<Image> {
    Take(Filter(MapSeq(ToImage, photos), Usable), MaxImages)
  }

  /** `fetchPexelsImages(plant, logger)` with the API key and the request's outcome given. */
  function FetchPexelsImages(apiKey: Option<string>, scientificName: string, commonName: Option<string>,
                             response: Response): (r: seq<Image>)
    ensures !Present(apiKey) ==> r == []
    ensures scientificName == [] && !Present(commonName) ==> r == []
    ensures response.Threw? || response.NotOk? ==> r == []
    ensures response.Ok? && Photos(response.body).None? ==> r == []
    ensures Present(apiKey) && (scientificName != [] || Present(commonName)) && response.Ok? && Photos(response.body).Some? ==>
      r == Normalise(Photos(response.body).value)
    ensures |r| <= MaxImages
  {
    if !Present(apiKey) then []
    else if scientificName == [] && !Present(commonName) then []
    else match response
      case Threw => []
      case NotOk => []
      case Ok(body) =>
        match Photos(body)
        case None => []
        case Some(photos) => Normalise(photos)
  }

  /**
   * The images kept are the normalised photos in their order with the unusable
   * ones left out; they all have a small and a regular picture, and they are
   * the first five usable ones (all of them when there are no more than five).
   */
  lemma NormaliseSpec(photos: seq<Value>)
    ensures IsSubsequence(Normalise(photos), MapSeq(ToImage, photos))
    ensures forall i :: 0 <= i < |Normalise(photos)| ==> Usable(Normalise(photos)[i])
    ensures |Normalise(photos)| == Min(|Filter(MapSeq(ToImage, photos), Usable)|, MaxImages)
    ensures Normalise(photos) == Filter(MapSeq(ToImage, photos), Usable)[..|Normalise(photos)|]
    ensures |Filter(MapSeq(ToImage, photos), Usable)| <= MaxImages ==>
      forall img :: img in MapSeq(ToImage, photos) && Usable(img) ==> img in Normalise(photos)
  {
    var kept := Filter(MapSeq(ToImage, photos), Usable);
    FilterSubsequence(MapSeq(ToImage, photos), Usable);
    PrefixSubsequence(kept, MapSeq(ToImage, photos), |Normalise(photos)|);
    assert forall i :: 0 <= i < |Normalise(photos)| ==> Normalise(photos)[i] in kept;
  }

  function Min(a: nat, b: nat): nat { if a < b then a else b }

  /** Each image takes the medium picture as small, the large one as regular, and null for a missing author or page. */
  lemma ToImageFields(photo: Value)
    ensures HasOwn(photo, "src") && HasOwn(photo.fields["src"], "medium") ==>
      ToImage(photo).small == photo.fields["src"].fields["medium"]
    ensures !HasOwn(photo, "src") ==> ToImage(photo).small == Undefined && ToImage(photo).regular == Undefined
    ensures !IsNullish(ToImage(photo).author) || ToImage(photo).author == Null
    ensures HasOwn(photo, "photographer") && !IsNullish(photo.fields["photographer"]) ==>
      ToImage(photo).author == photo.fields["photographer"]
    ensures !HasOwn(photo, "url") ==> ToImage(photo).source == Null
  {
  }
}
