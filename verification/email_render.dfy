/**
 * The card template renderer both email handlers run: the data-URI image becomes a
 * `cid:` attachment, the name tokens are replaced everywhere, and the first IMAGE and
 * MESSAGE blocks are replaced by fixed fragments that embed the image source and the
 * message (line breaks turned into `<br/>`).
 */
module EmailRender {
  import opened Text
  import opened LazyBlock
  import Seedream

  const RecipientToken := "[Recipient Name]"
  const SenderToken := "[Sender Name]"
  const ImageStart := "<!-- IMAGE_START -->"
  const ImageEnd := "<!-- IMAGE_END -->"
  const MessageStart := "<!-- MESSAGE_START -->"
  const MessageEnd := "<!-- MESSAGE_END -->"

  const DataImagePrefix := "data:image"
  const Base64Separator := ";base64,"
  const AttachmentFilename := "card.png"
  const ContentId := "card-image"
  /** The image source once the image travels as an attachment (a Content-ID URL, section 2 of RFC 2392). */
  const CidSource := "cid:card-image"
  const LineBreak := "<br/>"

  /** The fixed text of the two fragments around their markers and slots. */
  const FragmentLead := "\n            "
  const FragmentTrail := "\n        "
  const ImageOpen := "\n            <div class=\"image-frame\" style=\"padding: 0; background: none; border: 3px double #1C4E4F; border-radius: 16px; overflow: hidden;\">\n                <img "
  const ImageClose := " alt=\"Vintage Card\" style=\"width: 100%; height: auto; display: block; border-radius: 14px;\" />\n            </div>\n            "
  const MessageOpen := "\n            <div class=\"lines-container\" style=\"background-color: rgba(249, 249, 249, 0.6); border-radius: 8px; padding: 15px; margin-top: 10px;\">\n                <div style=\"font-family: 'Handwritten', cursive; font-size: 18px; font-weight: 600; color: #1C4E4F; line-height: 1.6; text-align: center; text-shadow: 1px 1px 0px rgba(232, 220, 202, 0.5);\">\n                    "
  const MessageClose := "\n                </div>\n            </div>\n            "

  /** An email attachment; `content` is the base64 text that the handlers hand to `Buffer.from(…, 'base64')`. */
  datatype Attachment = Attachment(filename: string, content: string, contentId: string)

  /** The `src` the image fragment embeds, and the attachments that go with it. */
  datatype ImageSource = ImageSource(src: string, attachments: seq<Attachment>)

  datatype Rendered = Rendered(html: string, attachments: seq<Attachment>)

  /**
   * A `data:image…` source becomes one attachment, holding the text after the last
   * ";base64,", and is referenced as `cid:card-image`; any other source is used as is.
   */
  function PrepareImage(image: string): (p: ImageSource)
    ensures |p.attachments| <= 1
    ensures |p.attachments| == 1 <==> StartsWith(image, DataImagePrefix)
    ensures |p.attachments| == 0 ==> p.src == image
    ensures |p.attachments| == 1 ==> p.src == CidSource
    ensures |p.attachments| == 1 ==>
              p.attachments[0].filename == AttachmentFilename && p.attachments[0].contentId == ContentId
    ensures |p.attachments| == 1 ==> !Contains(p.attachments[0].content, Base64Separator)
    ensures |p.attachments| == 1 && Contains(image, Base64Separator) ==>
              EndsWith(image, Base64Separator + p.attachments[0].content)
    ensures |p.attachments| == 1 && !Contains(image, Base64Separator) ==> p.attachments[0].content == image
  {
    if StartsWith(image, DataImagePrefix) then
      AfterLastShape(image, Base64Separator);
      ImageSource(CidSource, [Attachment(AttachmentFilename, AfterLast(image, Base64Separator), ContentId)])
    else
      ImageSource(image, [])
  }

  /** `message.replace(/\n/g, '<br/>')`. */
  function MessageHtml(message: string): (r: string)
    ensures r == MapChar(message, '\n', LineBreak)
    ensures '\n' !in r
    ensures '\n' !in message ==> r == message
  {
    ReplaceCharIsMap(message, '\n', LineBreak);
    ReplaceAll(message, "\n", LineBreak)
  }

  /** The `src="…"` attribute of the card's `<img>` tag. */
  function SrcAttribute(src: string): string
  {
    "src=\"" + src + "\""
  }

  /** A replacement fragment: the start marker, a body and the end marker, in fixed indentation. */
  function Frame(start: string, body: string, end: string): string
  {
    FragmentLead + start + body + end + FragmentTrail
  }

  function ImageFragment(src: string): string
  {
    Frame(ImageStart, ImageOpen + SrcAttribute(src) + ImageClose, ImageEnd)
  }

  function MessageFragment(message: string): string
  {
    Frame(MessageStart, MessageOpen + MessageHtml(message) + MessageClose, MessageEnd)
  }

  /** Every "[Recipient Name]" becomes toName, then every "[Sender Name]" becomes fromName. */
  function SubstituteNames(template: string, toName: string, fromName: string): string
  {
    ReplaceAll(ReplaceAll(template, RecipientToken, toName), SenderToken, fromName)
  }

  /**
   * The order of the two global replacements matters: a recipient name that itself reads
   * "[Sender Name]" is replaced again by the sender's name.
   */
  lemma {:induction false} NamesReplacedInOrder(fromName: string)
    ensures SubstituteNames(RecipientToken, SenderToken, fromName) == fromName
  {
    ReplaceWhole(RecipientToken, SenderToken);
    ReplaceWhole(SenderToken, fromName);
  }

  /** The handlers' render steps, in source order. */
  function Render(template: string, toName: string, fromName: string, message: string, image: string): (r: Rendered)
    ensures r.attachments == PrepareImage(image).attachments
  {
    var source := PrepareImage(image);
    var named := SubstituteNames(template, toName, fromName);
    var withImage := ReplaceFirstBlock(named, ImageStart, ImageEnd, ImageFragment(source.src));
    var html := ReplaceFirstBlock(withImage, MessageStart, MessageEnd, MessageFragment(message));
    Rendered(html, source.attachments)
  }

  /** A frame is one START…END block sitting right after the lead indentation. */
  lemma {:induction false} FrameIsBlock(start: string, body: string, end: string)
    ensures BlockAt(Frame(start, body, end), start, end, |FragmentLead|, |Frame(start, body, end)| - |FragmentTrail|)
  {
    var lead := FragmentLead;
    var f := Frame(start, body, end);
    var k := |f| - |FragmentTrail|;
    assert f[|lead|..|lead| + |start|] == start;
    assert f[k - |end|..k] == end;
  }

  /** The fragments re-emit their markers: each fragment is itself one START…END block. */
  lemma {:induction false} FragmentsKeepMarkers(src: string, message: string)
    ensures BlockAt(ImageFragment(src), ImageStart, ImageEnd, |FragmentLead|, |ImageFragment(src)| - |FragmentTrail|)
    ensures BlockAt(MessageFragment(message), MessageStart, MessageEnd,
                    |FragmentLead|, |MessageFragment(message)| - |FragmentTrail|)
  {
    ImageFragmentIsBlock(src);
    MessageFragmentIsBlock(message);
  }

  lemma {:induction false} ImageFragmentIsBlock(src: string)
    ensures BlockAt(ImageFragment(src), ImageStart, ImageEnd, |FragmentLead|, |ImageFragment(src)| - |FragmentTrail|)
  {
    FrameIsBlock(ImageStart, ImageOpen + SrcAttribute(src) + ImageClose, ImageEnd);
  }

  lemma {:induction false} MessageFragmentIsBlock(message: string)
    ensures BlockAt(MessageFragment(message), MessageStart, MessageEnd,
                    |FragmentLead|, |MessageFragment(message)| - |FragmentTrail|)
  {
    FrameIsBlock(MessageStart, MessageOpen + MessageHtml(message) + MessageClose, MessageEnd);
  }

  /** The image fragment embeds the source in its `src` attribute. */
  lemma {:induction false} ImageFragmentEmbedsSource(src: string)
    ensures Contains(ImageFragment(src), SrcAttribute(src))
  {
    var lead := FragmentLead + ImageStart + ImageOpen;
    var trail := ImageClose + ImageEnd + FragmentTrail;
    Regroup(FragmentLead, ImageStart, ImageOpen, SrcAttribute(src), ImageClose, ImageEnd, FragmentTrail);
    ContainsInside(lead, SrcAttribute(src), trail, ImageFragment(src));
  }

  lemma {:induction false} Regroup(x1: string, x2: string, x3: string, x4: string, x5: string, x6: string, x7: string)
    ensures x1 + x2 + (x3 + x4 + x5) + x6 + x7 == (x1 + x2 + x3) + x4 + (x5 + x6 + x7)
  {
  }

  lemma MarkersLeadUnique()
    ensures LeadIsUnique(ImageStart) && LeadIsUnique(ImageEnd)
    ensures LeadIsUnique(MessageStart) && LeadIsUnique(MessageEnd)
  {
  }

  /**
   * For a template whose name-substituted text is laid out as
   * a IMAGE_START b IMAGE_END c MESSAGE_START d MESSAGE_END e, with no earlier marker to
   * confuse the search, the old IMAGE block b and MESSAGE block d are replaced by the
   * fragments and a, c and e are kept verbatim.
   */
  lemma {:induction false} RenderLaidOut(template: string, toName: string, fromName: string, message: string, image: string,
                      a: string, b: string, c: string, d: string, e: string)
    requires SubstituteNames(template, toName, fromName) ==
               a + ImageStart + b + ImageEnd + c + MessageStart + d + MessageEnd + e
    requires !Contains(a, ImageStart) && !Contains(b, ImageEnd) && !Contains(d, MessageEnd)
    requires !Contains(a + ImageFragment(PrepareImage(image).src) + c, MessageStart)
    ensures Render(template, toName, fromName, message, image).html ==
              a + ImageFragment(PrepareImage(image).src) + c + MessageFragment(message) + e
  {
    MarkersLeadUnique();
    var frag := ImageFragment(PrepareImage(image).src);
    var named := SubstituteNames(template, toName, fromName);
    var y := c + MessageStart + d + MessageEnd + e;
    SplitAfterFourth(a, ImageStart, b, ImageEnd, c, MessageStart, d, MessageEnd, e);
    ReplaceLaidOut(a, ImageStart, b, ImageEnd, y, frag);
    var withImage := ReplaceFirstBlock(named, ImageStart, ImageEnd, frag);
    JoinAfterFirst(a, frag, c, MessageStart, d, MessageEnd, e);
    ReplaceLaidOut(a + frag + c, MessageStart, d, MessageEnd, e, MessageFragment(message));
  }

  lemma {:induction false} SplitAfterFourth(x1: string, x2: string, x3: string, x4: string, x5: string, x6: string, x7: string,
                         x8: string, x9: string)
    ensures x1 + x2 + x3 + x4 + x5 + x6 + x7 + x8 + x9 == x1 + x2 + x3 + x4 + (x5 + x6 + x7 + x8 + x9)
  {
  }

  lemma {:induction false} JoinAfterFirst(x1: string, x2: string, x3: string, x4: string, x5: string, x6: string, x7: string)
    ensures x1 + x2 + (x3 + x4 + x5 + x6 + x7) == (x1 + x2 + x3) + x4 + x5 + x6 + x7
  {
  }

  /** A template without IMAGE_START and MESSAGE_START only gets its name tokens replaced. */
  lemma {:induction false} RenderWithoutBlocks(template: string, toName: string, fromName: string, message: string, image: string)
    requires !Contains(SubstituteNames(template, toName, fromName), ImageStart)
    requires !Contains(SubstituteNames(template, toName, fromName), MessageStart)
    ensures Render(template, toName, fromName, message, image).html == SubstituteNames(template, toName, fromName)
  {
    var named := SubstituteNames(template, toName, fromName);
    forall i: nat, k: nat ensures !BlockAt(named, ImageStart, ImageEnd, i, k) {
    }
    var source := PrepareImage(image);
    ReplacesLazyMatch(named, ImageStart, ImageEnd, ImageFragment(source.src));
    assert ReplaceFirstBlock(named, ImageStart, ImageEnd, ImageFragment(source.src)) == named;
    forall i: nat, k: nat ensures !BlockAt(named, MessageStart, MessageEnd, i, k) {
    }
    ReplacesLazyMatch(named, MessageStart, MessageEnd, MessageFragment(message));
  }

  /** An image produced by the Seedream client travels as one `card.png` attachment holding its base64 payload. */
  lemma {:induction false} GeneratedImageAttachment(b64: string)
    requires !Contains(b64, Base64Separator)
    ensures PrepareImage(Seedream.PngDataUrlPrefix + b64) ==
              ImageSource(CidSource, [Attachment(AttachmentFilename, b64, ContentId)])
  {
    Seedream.DataUrlRoundTrip(b64);
    var s := Seedream.PngDataUrlPrefix + b64;
    assert s[..|DataImagePrefix|] == DataImagePrefix;
  }

  /** One line break between two single-line texts becomes one `<br/>` between them. */
  lemma {:induction false} TwoLines(x: string, z: string)
    requires '\n' !in x && '\n' !in z
    ensures MessageHtml(x + "\n" + z) == x + LineBreak + z
  {
    MapCharAppend(x + "\n", z, '\n', LineBreak);
    MapCharAppend(x, "\n", '\n', LineBreak);
    assert MapChar("\n", '\n', LineBreak) == LineBreak + MapChar("", '\n', LineBreak);
  }

  /** Example: "Hi\nThere" renders as "Hi<br/>There". */
  lemma ExampleMessage()
    ensures MessageHtml("Hi\nThere") == "Hi<br/>There"
  {
    TwoLines("Hi", "There");
    ExampleLines();
  }

  lemma ExampleLines()
    ensures "Hi" + "\n" + "There" == "Hi\nThere"
    ensures "Hi" + LineBreak + "There" == "Hi<br/>There"
  {
  }

  /** Example: a small PNG data URI becomes one `card.png` attachment referenced by `cid:card-image`. */
  lemma ExampleImage()
    ensures PrepareImage("data:image/png;base64,AAAA") ==
              ImageSource("cid:card-image", [Attachment("card.png", "AAAA", "card-image")])
  {
    assert !Contains("AAAA", Base64Separator);
    GeneratedImageAttachment("AAAA");
    assert Seedream.PngDataUrlPrefix + "AAAA" == "data:image/png;base64,AAAA";
  }
}
