/**
 * The Seedream generation client (`generateSeedreamPoster`): the missing-endpoint guard,
 * the request it builds, and how it turns the service's reply into an image reference
 * or an error. The HTTP call, file reading and image decoding are parameters.
 */
module Seedream {
  import opened JsValues
  import opened Text
  import Decimal
  import Resolution

  const MissingModelMessage := "Seedream Endpoint ID is missing. Please configure VITE_SEEDREAM_ENDPOINT_ID."
  const NoImageMessage := "No image data received from Seedream API"
  const StatusMessagePrefix := "API Request failed with status "
  const PngDataUrlPrefix := "data:image/png;base64,"

  /** One element of the reply's `data` array. */
  datatype ImageObject = ImageObject(b64Json: Option<string>, url: Option<string>)

  /**
   * What `fetch` yields: the `ok` flag and status; for a failed call, `error.message` of the
   * JSON body (None when absent or when the body is not JSON); for a successful call, the
   * `data` array (None when absent).
   */
  datatype Reply = Reply(ok: bool, status: nat, errorMessage: Option<string>, data: Option<seq<ImageObject>>)

  /** The JSON payload posted to the generation endpoint (the fixed prompt text is left out). */
  datatype Payload = Payload(model: string, image: string, size: string, encodingFormat: string, watermark: bool)

  /** The request that was sent, if any, and what the call resolves to. */
  datatype Generation = Generation(request: Option<Payload>, result: Result<string>)

  /** The displayable image for a successful reply's data, or the "no image" error. */
  function PickImage(data: Option<seq<ImageObject>>): (r: Result<string>)
    ensures data.None? || |data.value| == 0 ==> r == Err(NoImageMessage)
    ensures data.Some? && |data.value| > 0 && Truthy(data.value[0].b64Json) ==>
              r == Ok(PngDataUrlPrefix + data.value[0].b64Json.value)
    ensures data.Some? && |data.value| > 0 && !Truthy(data.value[0].b64Json) && Truthy(data.value[0].url) ==>
              r == Ok(data.value[0].url.value)
    ensures r.Err? <==>
              data.None? || |data.value| == 0 || (!Truthy(data.value[0].b64Json) && !Truthy(data.value[0].url))
  {
    if data.Some? && |data.value| > 0 then
      var obj := data.value[0];
      if Truthy(obj.b64Json) then Ok(PngDataUrlPrefix + obj.b64Json.value)
      else if Truthy(obj.url) then Ok(obj.url.value)
      else Err(NoImageMessage)
    else Err(NoImageMessage)
  }

  /** The error thrown for a non-OK status: the upstream message if it has one, else a message naming the status. */
  function StatusError(reply: Reply): (msg: string)
    ensures Truthy(reply.errorMessage) ==> msg == reply.errorMessage.value
    ensures !Truthy(reply.errorMessage) ==>
              |msg| > |StatusMessagePrefix| && msg[..|StatusMessagePrefix|] == StatusMessagePrefix &&
              Decimal.ParseNat(msg[|StatusMessagePrefix|..]) == Some(reply.status) &&
              (|msg| > |StatusMessagePrefix| + 1 ==> msg[|StatusMessagePrefix|] != '0')
  {
    if Truthy(reply.errorMessage) then reply.errorMessage.value
    else
      var digits := Decimal.NatToString(reply.status);
      Decimal.ParseNatToString(reply.status);
      assert (StatusMessagePrefix + digits)[|StatusMessagePrefix|..] == digits;
      StatusMessagePrefix + digits
  }

  /** Two failed calls without an upstream message but with different statuses report different errors. */
  lemma {:induction false} StatusErrorNamesStatus(a: Reply, b: Reply)
    requires !Truthy(a.errorMessage) && !Truthy(b.errorMessage) && a.status != b.status
    ensures StatusError(a) != StatusError(b)
  {
  }

  /**
   * Interpretation of the service's reply: an image exactly when the call succeeded and
   * the first data object carries a usable image; otherwise the status error or the
   * fixed "no image" message.
   */
  function Interpret(reply: Reply): (r: Result<string>)
    ensures r.Ok? <==>
              reply.ok && reply.data.Some? && |reply.data.value| > 0 &&
              (Truthy(reply.data.value[0].b64Json) || Truthy(reply.data.value[0].url))
    ensures r.Ok? && Truthy(reply.data.value[0].b64Json) ==> r.value == PngDataUrlPrefix + reply.data.value[0].b64Json.value
    ensures r.Ok? && !Truthy(reply.data.value[0].b64Json) ==> r.value == reply.data.value[0].url.value
    ensures r.Err? && reply.ok ==> r.message == NoImageMessage
    ensures !reply.ok ==> r.Err? && r.message == StatusError(reply)
  {
    if !reply.ok then Err(StatusError(reply)) else PickImage(reply.data)
  }

  /** The file once read as a data URL and measured: what `Promise.all([fileToBase64(…), getImageDimensions(…)])` yields. */
  datatype LoadedImage = LoadedImage(dataUrl: string, width: nat, height: nat)

  /**
   * `generateSeedreamPoster(file, apiKey, model)`, given the outcome of reading and measuring
   * the file (a rejection of either read is an `Err`) and the outcome of `fetch` (a network
   * failure is an `Err`). Every rejection is rethrown unchanged.
   */
  function Generate(model: Option<string>, loaded: Result<LoadedImage>, response: Result<Reply>): (g: Generation)
    ensures g.request.Some? <==> Truthy(model) && loaded.Ok?
    ensures !Truthy(model) ==> g.result == Err(MissingModelMessage)
    ensures Truthy(model) && loaded.Err? ==> g.result == Err(loaded.message)
    ensures g.request.Some? ==>
              g.request.value == Payload(model.value, loaded.value.dataUrl,
                                         Resolution.BestResolution(loaded.value.width, loaded.value.height), "base64", false)
    ensures g.request.Some? && response.Err? ==> g.result == Err(response.message)
    ensures g.request.Some? && response.Ok? ==> g.result == Interpret(response.value)
  {
    if !Truthy(model) then Generation(None, Err(MissingModelMessage))
    else match loaded
      case Err(msg) => Generation(None, Err(msg))
      case Ok(image) =>
        var size := Resolution.BestResolution(image.width, image.height);
        var payload := Payload(model.value, image.dataUrl, size, "base64", false);
        match response
        case Err(msg) => Generation(Some(payload), Err(msg))
        case Ok(reply) => Generation(Some(payload), Interpret(reply))
  }

  /** Only the first element of `data` is looked at: what follows it never changes the outcome. */
  lemma {:induction false} OnlyFirstObjectMatters(first: ImageObject, rest1: seq<ImageObject>, rest2: seq<ImageObject>)
    ensures PickImage(Some([first] + rest1)) == PickImage(Some([first] + rest2))
  {
  }

  /** The inline payload is preferred over the URL whenever both are present. */
  lemma {:induction false} InlineWinsOverUrl(b64: string, url: string, rest: seq<ImageObject>)
    requires b64 != "" && url != ""
    ensures PickImage(Some([ImageObject(Some(b64), Some(url))] + rest)) == Ok(PngDataUrlPrefix + b64)
  {
  }

  /**
   * The data URL built from an inline payload gives the payload back when split at its
   * last ";base64," (which is how the email handlers extract an attachment), provided the
   * payload itself holds no ";base64," — base64 text never does.
   */
  lemma {:induction false} DataUrlRoundTrip(b64: string)
    requires !Contains(b64, ";base64,")
    ensures AfterLast(PngDataUrlPrefix + b64, ";base64,") == b64
  {
    var sep := ";base64,";
    var s := PngDataUrlPrefix + b64;
    assert PngDataUrlPrefix == "data:image/png" + sep;
    assert s == "data:image/png" + sep + b64;
    assert !Contains("data:image/png", sep) by {
      var head := "data:image/png";
      assert forall k :: 0 <= k < |head| ==> head[k] != ';';
      forall j: nat | j + |sep| <= |head| ensures !OccursAt(head, sep, j) {
        assert head[j..j + |sep|][0] == head[j];
      }
    }
    FirstOccurrenceAfter("data:image/png", sep, b64, 0, s);
    assert FindFrom(s, sep, 0) == Some(14);
    assert s[14 + |sep|..] == b64;
    assert s[..14] == "data:image/png";
    SplitFree(b64, sep);
    assert Split(s, sep) == [s[..14]] + Split(b64, sep);
  }
}
