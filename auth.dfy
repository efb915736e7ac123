/**
 * The API-key check of the HTTP handlers: the key sent in one of three
 * header spellings must equal the `API_KEY` environment value.
 */
module Auth {
  import opened Wrappers
  import opened Js

  /** The three header spellings, in the order they are tried. */
  const HeaderNames: seq<string> := ["x-api-key", "X-Api-Key", "x-api_key"]

  /** `event?.headers?.['x-api-key'] || event?.headers?.['X-Api-Key'] || event?.headers?.['x-api_key']` */
  function SentKey(event: Value): (r: Value)
    ensures Truthy(Get(Get(event, "headers"), HeaderNames[0])) ==> r == Get(Get(event, "headers"), HeaderNames[0])
    ensures !Truthy(Get(Get(event, "headers"), HeaderNames[0])) && Truthy(Get(Get(event, "headers"), HeaderNames[1])) ==>
      r == Get(Get(event, "headers"), HeaderNames[1])
    ensures !Truthy(Get(Get(event, "headers"), HeaderNames[0])) && !Truthy(Get(Get(event, "headers"), HeaderNames[1])) ==>
      r == Get(Get(event, "headers"), HeaderNames[2])
  {
    var headers := Get(event, "headers");
    Or(Or(Get(headers, "x-api-key"), Get(headers, "X-Api-Key")), Get(headers, "x-api_key"))
  }

  /** `checkApiKey(event)` with `process.env.API_KEY` given. */
  function CheckApiKey(event: Value, apiKey: Option<string>): (ok: bool)
    ensures apiKey.None? || apiKey.value == [] ==> !ok
    ensures !Truthy(SentKey(event)) ==> !ok
    ensures ok <==> apiKey.Some? && apiKey.value != [] && SentKey(event) == Str(apiKey.value)
  {
    if apiKey.None? || apiKey.value == [] then false
    else
      var header := SentKey(event);
      if !Truthy(header) then false
      else header == Str(apiKey.value)
  }

  /**
   * Only the first spelling that carries a value is compared: a correct key
   * under a later spelling does not help when an earlier one holds another value.
   */
  lemma FirstSpellingDecides(event: Value, apiKey: Option<string>, i: nat)
    requires i < 3 && Truthy(Get(Get(event, "headers"), HeaderNames[i]))
    requires forall j :: 0 <= j < i ==> !Truthy(Get(Get(event, "headers"), HeaderNames[j]))
    ensures CheckApiKey(event, apiKey) <==>
      apiKey.Some? && apiKey.value != [] && Get(Get(event, "headers"), HeaderNames[i]) == Str(apiKey.value)
  {
    if i > 0 {
      assert !Truthy(Get(Get(event, "headers"), HeaderNames[0]));
    }
    if i > 1 {
      assert !Truthy(Get(Get(event, "headers"), HeaderNames[1]));
    }
  }

  /** An accepted request carries the exact key, as a string, under one of the spellings. */
  lemma AcceptedCarriesKey(event: Value, apiKey: Option<string>)
    requires CheckApiKey(event, apiKey)
    ensures exists i :: 0 <= i < 3 && Get(Get(event, "headers"), HeaderNames[i]) == Str(apiKey.value)
  {
    var headers := Get(event, "headers");
    if Truthy(Get(headers, HeaderNames[0])) {
      assert Get(headers, HeaderNames[0]) == Str(apiKey.value);
    } else if Truthy(Get(headers, HeaderNames[1])) {
      assert Get(headers, HeaderNames[1]) == Str(apiKey.value);
    } else {
      assert Get(headers, HeaderNames[2]) == Str(apiKey.value);
    }
  }

  /** The error `requireApiKey` throws. */
  datatype HttpError = HttpError(message: string, statusCode: nat)

  /** `requireApiKey(event)`: returns normally, or throws `Unauthorized` with status 401. */
  function RequireApiKey(event: Value, apiKey: Option<string>): (r: Result<(), HttpError>)
    ensures r.Failure? <==> !CheckApiKey(event, apiKey)
    ensures r.Failure? ==> r.error == HttpError("Unauthorized", 401)
  {
    if !CheckApiKey(event, apiKey) then Failure(HttpError("Unauthorized", 401)) else Success(())
  }
}
