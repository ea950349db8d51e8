/**
 * The alternate Gemini generation client (`generateRetroPoster`, `fileToGenerativePart`):
 * the image part it sends and the choice among the parts of the model's reply.
 * The SDK call is a parameter.
 */
module Gemini {
  import opened JsValues
  import opened Text

  const NoContentMessage := "No content generated."
  const NoImageMessage := "No image generated."
  const TextMessagePrefix := "Model returned text: "

  datatype InlineData = InlineData(mimeType: string, data: string)

  /** One part of a reply's content: it may carry inline image data, text, both or neither. */
  datatype Part = Part(inlineData: Option<InlineData>, text: Option<string>)

  datatype Content = Content(parts: Option<seq<Part>>)

  datatype Candidate = Candidate(content: Option<Content>)

  datatype GenerateResponse = GenerateResponse(candidates: Option<seq<Candidate>>)

  /** The image part of the request: the data URL's payload (undefined without a comma) and the file's type. */
  datatype ImagePart = ImagePart(data: Option<string>, mimeType: string)

  /** The image part that was sent, if the file could be read, and what the call resolves to. */
  datatype Generation = Generation(request: Option<ImagePart>, result: Result<string>)

  /** `response.candidates?.[0]?.content?.parts`: undefined as soon as one link of the chain is missing. */
  function PartsOf(response: GenerateResponse): (r: Option<seq<Part>>)
    ensures r.None? <==>
              || response.candidates.None?
              || |response.candidates.value| == 0
              || response.candidates.value[0].content.None?
              || response.candidates.value[0].content.value.parts.None?
    ensures r.Some? ==> r.value == response.candidates.value[0].content.value.parts.value
  {
    match response.candidates
    case None => None
    case Some(cs) =>
      if |cs| == 0 then None
      else match cs[0].content
        case None => None
        case Some(content) => content.parts
  }

  predicate HasImage(p: Part)
  {
    p.inlineData.Some?
  }

  predicate HasText(p: Part)
  {
    Truthy(p.text)
  }

  /** Part i carries inline data and no earlier part does. */
  predicate IsFirstImage(ps: seq<Part>, i: nat)
  {
    i < |ps| && HasImage(ps[i]) && forall j :: 0 <= j < i ==> !HasImage(ps[j])
  }

  /** Part i carries non-empty text and no earlier part does. */
  predicate IsFirstText(ps: seq<Part>, i: nat)
  {
    i < |ps| && HasText(ps[i]) && forall j :: 0 <= j < i ==> !HasText(ps[j])
  }

  /** The index of the element `xs.find(p)` returns: the first one that satisfies p. */
  function FirstIndex<T>(xs: seq<T>, p: T -> bool): (r: Option<nat>)
    ensures r.Some? ==> r.value < |xs| && p(xs[r.value])
    ensures r.Some? ==> forall j :: 0 <= j < r.value ==> !p(xs[j])
    ensures r.None? ==> forall j :: 0 <= j < |xs| ==> !p(xs[j])
  {
    if |xs| == 0 then None
    else if p(xs[0]) then Some(0)
    else match FirstIndex(xs[1..], p)
      case None => None
      case Some(i) => Some(i + 1)
  }

  /** The data URL returned for an inline image. */
  function DataUrl(d: InlineData): string
  {
    "data:" + d.mimeType + ";base64," + d.data
  }

  /** The first part with inline data wins; otherwise the first non-empty text becomes the error. */
  function InterpretParts(parts: Option<seq<Part>>): (r: Result<string>)
    ensures parts.None? ==> r == Err(NoContentMessage)
    ensures parts.Some? ==> forall i: nat :: IsFirstImage(parts.value, i) ==>
              r == Ok(DataUrl(parts.value[i].inlineData.value))
    ensures parts.Some? && (forall j :: 0 <= j < |parts.value| ==> !HasImage(parts.value[j])) ==>
              forall i: nat :: IsFirstText(parts.value, i) ==> r == Err(TextMessagePrefix + parts.value[i].text.value)
    ensures parts.Some? && (forall j :: 0 <= j < |parts.value| ==> !HasImage(parts.value[j]) && !HasText(parts.value[j])) ==>
              r == Err(NoImageMessage)
    ensures r.Ok? <==> parts.Some? && exists i :: 0 <= i < |parts.value| && HasImage(parts.value[i])
  {
    match parts
    case None => Err(NoContentMessage)
    case Some(ps) =>
      match FirstIndex(ps, HasImage)
      case Some(i) => Ok(DataUrl(ps[i].inlineData.value))
      case None =>
        match FirstIndex(ps, HasText)
        case Some(i) => Err(TextMessagePrefix + ps[i].text.value)
        case None => Err(NoImageMessage)
  }

  /** An image part anywhere in the list wins over text parts, even ones that come before it. */
  lemma {:induction false} ImageBeatsEarlierText(ps: seq<Part>, k: nat)
    requires k < |ps| && HasImage(ps[k])
    ensures InterpretParts(Some(ps)).Ok?
  {
  }

  /** An empty parts list is not falsy: it gets "No image generated.", not "No content generated.". */
  lemma EmptyPartsList()
    ensures InterpretParts(Some([])) == Err(NoImageMessage)
  {
  }

  /** The segment after the first comma of a data URL, up to any second comma: `dataUrl.split(',')[1]`. */
  function SecondPiece(dataUrl: string): Option<string>
  {
    var pieces := Split(dataUrl, ",");
    if |pieces| >= 2 then Some(pieces[1]) else None
  }

  /** Every way of reading the data URL as header "," payload, with no other comma, sends that payload. */
  lemma {:induction false} PayloadOfEveryLayout(dataUrl: string)
    ensures forall header: string, payload: string ::
              dataUrl == header + "," + payload && !Contains(header, ",") && !Contains(payload, ",") ==>
                SecondPiece(dataUrl) == Some(payload)
  {
    forall header: string, payload: string |
      dataUrl == header + "," + payload && !Contains(header, ",") && !Contains(payload, ",")
      ensures SecondPiece(dataUrl) == Some(payload)
    {
      PayloadAfterComma(header, payload);
    }
  }

  /** `fileToGenerativePart(file)`, with the file already read as a data URL. */
  function ToImagePart(dataUrl: string, fileType: string): (part: ImagePart)
    ensures part.mimeType == fileType
    ensures part.data.None? <==> !Contains(dataUrl, ",")
    ensures forall header: string, payload: string ::
              dataUrl == header + "," + payload && !Contains(header, ",") && !Contains(payload, ",") ==>
                part.data == Some(payload)
  {
    SplitCount(dataUrl, ",");
    PayloadOfEveryLayout(dataUrl);
    ImagePart(SecondPiece(dataUrl), fileType)
  }

  /** For a well-formed data URL, header "," payload with no other comma, the payload is exactly what is sent. */
  lemma {:induction false} PayloadAfterComma(header: string, payload: string)
    requires !Contains(header, ",") && !Contains(payload, ",")
    ensures SecondPiece(header + "," + payload) == Some(payload)
  {
    var s := header + "," + payload;
    assert header[0..] == header;
    FirstOccurrenceAfter(header, ",", payload, 0, s);
    assert s[..|header|] == header && s[|header| + 1..] == payload;
    SplitFree(payload, ",");
    assert Split(s, ",") == [header] + [payload];
  }

  /**
   * `generateRetroPoster(file, apiKey)`, given the outcome of reading the file as a data URL
   * (a `FileReader` failure is an `Err`) and the SDK's answer (a thrown error is an `Err`).
   * Every rejection is rethrown unchanged.
   */
  function GenerateRetro(read: Result<string>, fileType: string, response: Result<GenerateResponse>): (g: Generation)
    ensures g.request.Some? <==> read.Ok?
    ensures read.Ok? ==> g.request.value.mimeType == fileType
    ensures read.Ok? ==> (g.request.value.data.None? <==> !Contains(read.value, ","))
    ensures read.Ok? ==> g.request.value.data == SecondPiece(read.value)
    ensures read.Err? ==> g.result == Err(read.message)
    ensures read.Ok? && response.Err? ==> g.result == Err(response.message)
    ensures read.Ok? && response.Ok? ==> g.result == InterpretParts(PartsOf(response.value))
    ensures read.Ok? && response.Ok? ==> (g.result == Err(NoContentMessage) <==> PartsOf(response.value).None?)
    ensures read.Ok? && response.Ok? ==>
              (g.result.Ok? <==>
                 PartsOf(response.value).Some? &&
                 exists i :: 0 <= i < |PartsOf(response.value).value| && HasImage(PartsOf(response.value).value[i]))
  {
    match read
    case Err(msg) => Generation(None, Err(msg))
    case Ok(dataUrl) =>
      var part := ToImagePart(dataUrl, fileType);
      match response
      case Err(msg) => Generation(Some(part), Err(msg))
      case Ok(resp) =>
        var parts := PartsOf(resp);
        NoContentOnlyWithoutParts(parts);
        Generation(Some(part), InterpretParts(parts))
  }

  /** "No content generated." is reported only when there is no parts list at all. */
  lemma {:induction false} NoContentOnlyWithoutParts(parts: Option<seq<Part>>)
    ensures InterpretParts(parts) == Err(NoContentMessage) <==> parts.None?
  {
    if parts.Some? {
      var r := InterpretParts(parts);
      if r.Err? && r.message != NoImageMessage {
        var ps := parts.value;
        var i := FirstIndex(ps, HasText).value;
        assert r.message == TextMessagePrefix + ps[i].text.value;
        assert r.message[0] == 'M';
      }
    }
  }
}
