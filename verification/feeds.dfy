/** `RSSFeedValidator`: one feed in, one `ValidationResult` out.

    The XML parser, the HTTP session and `urlparse` are library code and are
    not part of this model. The parsed document reaches the model as an
    `Element` tree; the network as a `Web` value that says what fetching a
    feed URL gives and what status codes probing an image URL (with the feed
    URL as `Referer`) gives; `urlparse` as a function giving the scheme and
    network location of a URL. */
module Feeds {
  import opened Wrappers
  import opened Text
  import opened Html
  import opened Captions

  /** An `xml.etree.ElementTree.Element`: its tag (namespaced tags carry the
      `{uri}` prefix), attributes, text and children in document order. */
  datatype Element = Element(tag: string, attrs: map<string, string>, text: Option<string>, children: seq<Element>)

  const AtomNs := "{http://www.w3.org/2005/Atom}"
  const ContentEncodedTag := "{http://purl.org/rss/1.0/modules/content/}encoded"

  const NoChannelMessage := "No channel element found in RSS"
  const NoItemsMessage := "No items found in RSS feed"
  const NoEntriesMessage := "No entries found in Atom feed"
  const PromoMessage := "Feed contains only generic promotional content"
  const HotlinkMessage := "Image has hotlink protection (403 Forbidden)"
  const NoRssImageMessage := "No valid image found in enclosure, description, or content:encoded"
  const NoAtomImageMessage := "No valid image found in summary or content"
  /** What `str()` of the `AttributeError` raised by `None.text` reads. */
  const NoneTextError := "'NoneType' object has no attribute 'text'"
  const UnexpectedErrorPrefix := "Unexpected error: "

  datatype FeedType = Rss | Atom

  /** `image_source`: `'enclosure'`, `'description'`, `'content:encoded'` or
      `'summary'` (the Atom path uses `'summary'` whether the text came from
      `summary` or from `content`). */
  datatype ImageSource = Enclosure | Description | ContentEncoded | Summary

  /** The `ValidationResult` dataclass. */
  datatype ValidationResult = ValidationResult(
    url: string,
    isValid: bool,
    name: Option<string>,
    errorMessage: Option<string>,
    comicTitle: Option<string>,
    imageUrl: Option<string>,
    imageSource: Option<ImageSource>,
    feedType: Option<FeedType>,
    link: Option<string>,
    caption: Option<string>)

  function Failure(url: string, name: Option<string>, message: string, feedType: Option<FeedType>): ValidationResult {
    ValidationResult(url, false, name, Some(message), None, None, None, feedType, None, None)
  }

  function Success(url: string, name: Option<string>, title: Option<string>, imageUrl: string,
                   source: ImageSource, feedType: FeedType, link: Option<string>,
                   caption: Option<string>): ValidationResult {
    ValidationResult(url, true, name, None, title, Some(imageUrl), Some(source), Some(feedType), link, caption)
  }

  /** The two parts of `urlparse(url)` the validator looks at. */
  datatype UrlParts = UrlParts(scheme: string, netloc: string)

  datatype Libs = Libs(html: HtmlParsers, splitUrl: string -> UrlParts)

  /** The status codes of the `HEAD` probe and of the `GET` retry; `None`
      where the request raised a `requests.RequestException`. */
  datatype ProbeReply = ProbeReply(head: Option<int>, get: Option<int>)

  /** Fetching a feed: a request failure (including an HTTP error status), a
      document the XML parser rejects, or the parsed root element. */
  datatype FetchOutcome = RequestFailed(reason: string) | Malformed(reason: string) | Fetched(root: Element)

  datatype Web = Web(fetch: string -> FetchOutcome, probe: (string, string) -> ProbeReply)

  /** Index of the first child of `cs` with tag `tag`, or `|cs|`. */
  function FirstWithTag(cs: seq<Element>, tag: string): (i: nat)
    ensures i <= |cs|
    ensures forall j :: 0 <= j < i ==> cs[j].tag != tag
    ensures i < |cs| ==> cs[i].tag == tag
    decreases |cs|
  {
    if cs == [] || cs[0].tag == tag then 0 else 1 + FirstWithTag(cs[1..], tag)
  }

  /** `e.find(tag)` (and `e.findall(tag)[0]`) for a plain tag. */
  function Find(e: Element, tag: string): Option<Element> {
    var i := FirstWithTag(e.children, tag);
    if i < |e.children| then Some(e.children[i]) else None
  }

  /** `e.find(first)`, falling back to `e.find(second)` when that is `None`. */
  function FindEither(e: Element, first: string, second: string): Option<Element> {
    var a := Find(e, first);
    if a.Some? then a else Find(e, second)
  }

  function TextOf(e: Option<Element>): Option<string> {
    if e.Some? then e.value.text else None
  }

  function AttrOf(e: Option<Element>, name: string): Option<string> {
    if e.Some? then Get(e.value.attrs, name) else None
  }

  /** `elem.text if elem is not None else "Untitled"`. */
  function TitleOf(e: Option<Element>): Option<string> {
    if e.Some? then e.value.text else Some("Untitled")
  }

  /** Python's `a or b` on optional strings. */
  function Or(a: Option<string>, b: Option<string>): Option<string> {
    if Truthy(a) then a else b
  }

  /** A fresh `ImageExtractor` fed `text`, when `text` is non-empty. */
  function ImageIn(html: HtmlParsers, text: Option<string>): Option<ImageInfo> {
    if Truthy(text) then Some(ExtractImage(html.tokenize(text.value))) else None
  }

  function SrcIn(html: HtmlParsers, text: Option<string>): Option<string> {
    var info := ImageIn(html, text);
    if info.Some? then info.value.src else None
  }

  /** `_is_valid_image_url`: non-empty, with a scheme and a network location
      (the `scheme` and `authority` parts of RFC 3986, sections 3.1 and 3.2). */
  predicate IsValidImageUrl(splitUrl: string -> UrlParts, url: string) {
    url != "" && splitUrl(url).scheme != "" && splitUrl(url).netloc != ""
  }

  /** `image_url and self._is_valid_image_url(image_url)`. */
  predicate Usable(splitUrl: string -> UrlParts, url: Option<string>) {
    Truthy(url) && IsValidImageUrl(splitUrl, url.value)
  }

  /** `_test_image_access`: a `HEAD` answered 403 (Forbidden, RFC 9110
      section 15.5.4) means hotlink protection; another error status is
      retried with `GET`, whose error status (403 or not) also means no access;
      a request that raises counts as accessible. */
  function ImageAccessible(reply: ProbeReply): (r: bool)
    ensures reply.head == Some(403) ==> !r
    ensures reply.head.None? ==> r
    ensures reply.head.Some? && reply.head.value < 400 ==> r
    ensures reply.head.Some? && reply.head.value >= 400 && reply.head.value != 403
            ==> (r <==> reply.get.None? || reply.get.value < 400)
  {
    match reply.head
    case None => true
    case Some(head) =>
      if head == 403 then false
      else if head >= 400 then
        match reply.get
        case None => true
        case Some(get) => if get == 403 then false else if get >= 400 then false else true
      else true
  }

  /** The link's last path segment carries a digit (a dated strip). */
  predicate LinkHasDate(link: Option<string>) {
    Truthy(link) && HasDigit(LastSegment(link.value))
  }

  predicate IsPromoImageUrl(lowered: string) {
    Contains(lowered, "generic_fb") || Contains(lowered, "social_fb_generic") || Contains(lowered, "gocomicscmsassets")
  }

  predicate HasArchiveBlurb(lowered: string) {
    Contains(lowered, "explore the archive") && Contains(lowered, "read extra content")
  }

  /** The rule `_is_generic_promo_rss` and `_is_generic_promo_atom` share:
      `link` is the item's link text or the entry's `href`, `body` the text of
      the item's `description` or the entry's `summary`. */
  predicate IsGenericPromo(html: HtmlParsers, link: Option<string>, body: Option<string>) {
    !LinkHasDate(link) && Truthy(body) &&
    var src := ExtractImage(html.tokenize(body.value)).src;
    (Truthy(src) && IsPromoImageUrl(Lower(src.value))) || HasArchiveBlurb(Lower(body.value))
  }

  predicate IsGenericPromoRss(html: HtmlParsers, item: Element) {
    IsGenericPromo(html, TextOf(Find(item, "link")), TextOf(Find(item, "description")))
  }

  function AtomFind(e: Element, tag: string): Option<Element> {
    FindEither(e, tag, AtomNs + tag)
  }

  predicate IsGenericPromoAtom(html: HtmlParsers, entry: Element) {
    IsGenericPromo(html, AttrOf(AtomFind(entry, "link"), "href"), TextOf(AtomFind(entry, "summary")))
  }

  /** A digit after the link's last `/` rules out the promo verdict,
      whatever the body holds. */
  lemma DatedLinkIsNeverPromo(html: HtmlParsers, link: string, body: Option<string>, i: nat)
    requires i < |link| && IsDigit(link[i]) && '/' !in link[i..]
    ensures !IsGenericPromo(html, Some(link), body)
  {
    var r := LastSegment(link);
    assert r[|r| - (|link| - i)] == link[i];
    assert HasDigit(r);
  }

  /** Without a date in the link, a body whose first image URL names one of
      the generic promo assets, or that carries the archive blurb, is promo;
      with neither signal, or with no body, it is not. */
  lemma PromoSignals(html: HtmlParsers, link: Option<string>, body: Option<string>)
    ensures !Truthy(body) ==> !IsGenericPromo(html, link, body)
    ensures !LinkHasDate(link) && Truthy(body) && HasArchiveBlurb(Lower(body.value)) ==> IsGenericPromo(html, link, body)
    ensures (&& !LinkHasDate(link) && Truthy(body)
             && var src := ExtractImage(html.tokenize(body.value)).src;
                Truthy(src) && IsPromoImageUrl(Lower(src.value)))
            ==> IsGenericPromo(html, link, body)
    ensures (&& Truthy(body) && !HasArchiveBlurb(Lower(body.value))
             && var src := ExtractImage(html.tokenize(body.value)).src;
                !(Truthy(src) && IsPromoImageUrl(Lower(src.value))))
            ==> !IsGenericPromo(html, link, body)
  {
  }

  /** `image_url and self._is_valid_image_url(image_url)`: the empty-string
      test inside `_is_valid_image_url` already covers the first half, so a
      URL is usable exactly when it is present and valid. */
  lemma UsableIsValid(splitUrl: string -> UrlParts, url: Option<string>)
    ensures Usable(splitUrl, url) <==> url.Some? && IsValidImageUrl(splitUrl, url.value)
    ensures url.Some? && IsValidImageUrl(splitUrl, url.value) ==> url.value != ""
  {
  }

  function EnclosureUrl(item: Element): Option<string> {
    AttrOf(Find(item, "enclosure"), "url")
  }

  function ContentEncodedOf(item: Element): Option<Element> {
    FindEither(item, ContentEncodedTag, "content:encoded")
  }

  /** The image candidates of an RSS item, in the order they are tried. */
  function RssCandidates(html: HtmlParsers, item: Element): seq<(ImageSource, Option<string>)> {
    [ (Enclosure, EnclosureUrl(item)),
      (Description, SrcIn(html, TextOf(Find(item, "description")))),
      (ContentEncoded, SrcIn(html, TextOf(ContentEncodedOf(item)))) ]
  }

  /** Index of the first candidate with a usable URL, or `|cands|`. */
  function FirstUsable(splitUrl: string -> UrlParts, cands: seq<(ImageSource, Option<string>)>): (k: nat)
    ensures k <= |cands|
    ensures forall j :: 0 <= j < k ==> !Usable(splitUrl, cands[j].1)
    ensures k < |cands| ==> Usable(splitUrl, cands[k].1)
    decreases |cands|
  {
    if cands == [] || Usable(splitUrl, cands[0].1) then 0 else 1 + FirstUsable(splitUrl, cands[1..])
  }

  /** The extractor whose fields `_extract_caption` reads, by where the
      image came from: for an enclosure, a fresh one fed the
      `content:encoded` text or else the `description` text; otherwise the
      one that found the image. */
  function RssCaptionParser(html: HtmlParsers, item: Element, source: ImageSource): Option<ImageInfo> {
    match source
    case Enclosure => ImageIn(html, Or(TextOf(ContentEncodedOf(item)), TextOf(Find(item, "description"))))
    case Description => ImageIn(html, TextOf(Find(item, "description")))
    case _ => ImageIn(html, TextOf(ContentEncodedOf(item)))
  }

  /** The `description_html` argument: the `description` text on the
      enclosure and description paths, none on the `content:encoded` path. */
  function RssCaptionHtml(item: Element, source: ImageSource): Option<string> {
    if source == Enclosure || source == Description then TextOf(Find(item, "description")) else None
  }

  /** What every result promises: a valid one has a usable image URL, its
      source and feed type, and a caption (if any) that passed the filter;
      an invalid one has an error message and no image, title, link or
      caption. */
  predicate Coherent(splitUrl: string -> UrlParts, r: ValidationResult) {
    if r.isValid then
      && r.errorMessage.None?
      && Usable(splitUrl, r.imageUrl)
      && r.imageSource.Some? && r.feedType.Some?
      && (r.feedType == Some(Atom) <==> r.imageSource == Some(Summary))
      && (r.caption.Some? ==> 0 < |r.caption.value| <= 200 && !IsGenericCaption(r.caption.value))
    else
      && r.errorMessage.Some?
      && r.imageUrl.None? && r.imageSource.None?
      && r.comicTitle.None? && r.link.None? && r.caption.None?
  }

  predicate Describes(splitUrl: string -> UrlParts, r: ValidationResult, url: string, name: Option<string>, t: FeedType) {
    r.url == url && r.name == name && r.feedType == Some(t) && Coherent(splitUrl, r)
  }

  /** `_validate_rss_feed` from the first item on. `Err` is the exception the
      code raises when an enclosure is accepted and the item has no
      `description` element. */
  function ValidateRssItem(libs: Libs, web: Web, item: Element, url: string, name: Option<string>)
    : (r: Result<ValidationResult, string>)
    ensures r.Ok? ==> Describes(libs.splitUrl, r.value, url, name, Rss)
    ensures r.Ok? && r.value.isValid ==> r.value.imageSource != Some(Summary)
    // the promo check comes before any image lookup
    ensures IsGenericPromoRss(libs.html, item) ==> r == Ok(Failure(url, name, PromoMessage, Some(Rss)))
    // image priority: the first usable candidate decides, and an inaccessible one ends the search
    ensures !IsGenericPromoRss(libs.html, item) ==>
              var cands := RssCandidates(libs.html, item);
              var k := FirstUsable(libs.splitUrl, cands);
              && (k == |cands| ==> r == Ok(Failure(url, name, NoRssImageMessage, Some(Rss))))
              && (k < |cands| && !ImageAccessible(web.probe(cands[k].1.value, url))
                  ==> r == Ok(Failure(url, name, HotlinkMessage, Some(Rss))))
              && (k < |cands| && ImageAccessible(web.probe(cands[k].1.value, url)) ==>
                    && (r.Err? <==> k == 0 && Find(item, "description").None?)
                    && (r.Ok? ==>
                          && r.value.isValid
                          && r.value.imageUrl == cands[k].1
                          && r.value.imageSource == Some(cands[k].0)
                          && r.value.comicTitle == TitleOf(Find(item, "title"))
                          && r.value.link == TextOf(Find(item, "link"))))
    // the caption is `_extract_caption` on the extractor and HTML of the image's path
    ensures r.Ok? && r.value.isValid ==>
              r.value.caption == ExtractCaption(RssCaptionParser(libs.html, item, r.value.imageSource.value),
                                                TitleOf(Find(item, "title")), name,
                                                RssCaptionHtml(item, r.value.imageSource.value), libs.html)
  {
    if IsGenericPromoRss(libs.html, item) then Ok(Failure(url, name, PromoMessage, Some(Rss)))
    else
      var cands := RssCandidates(libs.html, item);
      var enclosureUrl := EnclosureUrl(item);
      if Usable(libs.splitUrl, enclosureUrl) then
        assert FirstUsable(libs.splitUrl, cands) == 0;
        RssImageFound(libs, web, item, url, name, Enclosure, enclosureUrl.value)
      else
        var fromDescription := ImageIn(libs.html, TextOf(Find(item, "description")));
        if fromDescription.Some? && Usable(libs.splitUrl, fromDescription.value.src) then
          assert FirstUsable(libs.splitUrl, cands) == 1;
          RssImageFound(libs, web, item, url, name, Description, fromDescription.value.src.value)
        else
          var fromContent := ImageIn(libs.html, TextOf(ContentEncodedOf(item)));
          assert !Usable(libs.splitUrl, cands[1].1);
          if fromContent.Some? && Usable(libs.splitUrl, fromContent.value.src) then
            assert Usable(libs.splitUrl, cands[2].1);
            assert FirstUsable(libs.splitUrl, cands) == 2;
            RssImageFound(libs, web, item, url, name, ContentEncoded, fromContent.value.src.value)
          else
            assert FirstUsable(libs.splitUrl, cands) == 3;
            Ok(Failure(url, name, NoRssImageMessage, Some(Rss)))
  }

  /** The end of each of the three RSS image paths, once a usable image URL
      is found: the hotlink probe, then the result with its caption. On the
      enclosure path the caption step reads `description.text`, which raises
      when the item has no `description`. */
  function RssImageFound(libs: Libs, web: Web, item: Element, url: string, name: Option<string>,
                         source: ImageSource, imageUrl: string): (r: Result<ValidationResult, string>)
    requires source != Summary && Usable(libs.splitUrl, Some(imageUrl))
    ensures !ImageAccessible(web.probe(imageUrl, url)) ==> r == Ok(Failure(url, name, HotlinkMessage, Some(Rss)))
    ensures r.Err? <==> ImageAccessible(web.probe(imageUrl, url)) && source == Enclosure && Find(item, "description").None?
    ensures r.Err? ==> r.error == NoneTextError
    ensures r.Ok? ==> Describes(libs.splitUrl, r.value, url, name, Rss) && r.value.imageSource != Some(Summary)
    ensures r.Ok? && ImageAccessible(web.probe(imageUrl, url)) ==>
              r.value == Success(url, name, TitleOf(Find(item, "title")), imageUrl, source, Rss, TextOf(Find(item, "link")),
                                 ExtractCaption(RssCaptionParser(libs.html, item, source), TitleOf(Find(item, "title")),
                                                name, RssCaptionHtml(item, source), libs.html))
  {
    var title := TitleOf(Find(item, "title"));
    if !ImageAccessible(web.probe(imageUrl, url)) then Ok(Failure(url, name, HotlinkMessage, Some(Rss)))
    else if source == Enclosure && Find(item, "description").None? then Err(NoneTextError)
    else
      Ok(Success(url, name, title, imageUrl, source, Rss, TextOf(Find(item, "link")),
                 ExtractCaption(RssCaptionParser(libs.html, item, source), title, name, RssCaptionHtml(item, source), libs.html)))
  }

  /** `_validate_rss_feed`: a `channel` with at least one `item` is needed. */
  function ValidateRss(libs: Libs, web: Web, root: Element, url: string, name: Option<string>)
    : (r: Result<ValidationResult, string>)
    ensures r.Ok? ==> Describes(libs.splitUrl, r.value, url, name, Rss)
    ensures Find(root, "channel").None? ==> r == Ok(Failure(url, name, NoChannelMessage, Some(Rss)))
    ensures Find(root, "channel").Some? && Find(Find(root, "channel").value, "item").None?
            ==> r == Ok(Failure(url, name, NoItemsMessage, Some(Rss)))
    ensures r.Err? ==> r.error == NoneTextError
    // with a channel and an item, the first item decides
    ensures Find(root, "channel").Some? && Find(Find(root, "channel").value, "item").Some?
            ==> r == ValidateRssItem(libs, web, Find(Find(root, "channel").value, "item").value, url, name)
  {
    match Find(root, "channel")
    case None => Ok(Failure(url, name, NoChannelMessage, Some(Rss)))
    case Some(channel) =>
      match Find(channel, "item")
      case None => Ok(Failure(url, name, NoItemsMessage, Some(Rss)))
      case Some(item) => ValidateRssItem(libs, web, item, url, name)
  }

  /** The text the Atom path looks for an image in: the `summary` text when
      it is non-empty, otherwise the `content` text when that is. */
  function AtomBodyText(entry: Element): Option<string> {
    var summary := TextOf(AtomFind(entry, "summary"));
    if Truthy(summary) then summary
    else
      var content := TextOf(AtomFind(entry, "content"));
      if Truthy(content) then content else None
  }

  /** The first entry: plain `entry` children first, namespaced ones only
      when there is no plain one. */
  function FirstEntry(root: Element): Option<Element> {
    AtomFind(root, "entry")
  }

  /** `_validate_atom_feed` from the first entry on. */
  function ValidateAtomEntry(libs: Libs, web: Web, entry: Element, url: string, name: Option<string>)
    : (r: ValidationResult)
    ensures Describes(libs.splitUrl, r, url, name, Atom)
    ensures IsGenericPromoAtom(libs.html, entry) ==> r == Failure(url, name, PromoMessage, Some(Atom))
    ensures !IsGenericPromoAtom(libs.html, entry) ==>
              var src := SrcIn(libs.html, AtomBodyText(entry));
              && (!Usable(libs.splitUrl, src) ==> r == Failure(url, name, NoAtomImageMessage, Some(Atom)))
              && (Usable(libs.splitUrl, src) && !ImageAccessible(web.probe(src.value, url))
                  ==> r == Failure(url, name, HotlinkMessage, Some(Atom)))
              && (Usable(libs.splitUrl, src) && ImageAccessible(web.probe(src.value, url)) ==>
                    && r.isValid && r.imageUrl == src
                    && r.comicTitle == TitleOf(AtomFind(entry, "title"))
                    && r.link == AttrOf(AtomFind(entry, "link"), "href"))
    // the caption is `_extract_caption` on the extractor that found the image, without HTML
    ensures r.isValid ==>
              r.caption == ExtractCaption(ImageIn(libs.html, AtomBodyText(entry)), TitleOf(AtomFind(entry, "title")),
                                          name, None, libs.html)
    // a non-empty summary without a usable image is final: `content` is not tried
    ensures !IsGenericPromoAtom(libs.html, entry)
            && Truthy(TextOf(AtomFind(entry, "summary")))
            && !Usable(libs.splitUrl, SrcIn(libs.html, TextOf(AtomFind(entry, "summary"))))
            ==> r == Failure(url, name, NoAtomImageMessage, Some(Atom))
  {
    var title := TitleOf(AtomFind(entry, "title"));
    var link := AttrOf(AtomFind(entry, "link"), "href");
    if IsGenericPromoAtom(libs.html, entry) then Failure(url, name, PromoMessage, Some(Atom))
    else
      var summary := AtomFind(entry, "summary");
      var content := AtomFind(entry, "content");
      var descriptionText :=
        if summary.Some? && Truthy(summary.value.text) then summary.value.text
        else if content.Some? && Truthy(content.value.text) then content.value.text
        else None;
      var parser := ImageIn(libs.html, descriptionText);
      if parser.Some? && Usable(libs.splitUrl, parser.value.src) then
        var imageUrl := parser.value.src.value;
        if !ImageAccessible(web.probe(imageUrl, url)) then Failure(url, name, HotlinkMessage, Some(Atom))
        else
          Success(url, name, title, imageUrl, Summary, Atom, link, ExtractCaption(parser, title, name, None, libs.html))
      else Failure(url, name, NoAtomImageMessage, Some(Atom))
  }

  /** `_validate_atom_feed`: at least one entry is needed. */
  function ValidateAtom(libs: Libs, web: Web, root: Element, url: string, name: Option<string>): (r: ValidationResult)
    ensures Describes(libs.splitUrl, r, url, name, Atom)
    ensures FirstEntry(root).None? ==> r == Failure(url, name, NoEntriesMessage, Some(Atom))
    // otherwise the first entry decides
    ensures FirstEntry(root).Some? ==> r == ValidateAtomEntry(libs, web, FirstEntry(root).value, url, name)
  {
    match FirstEntry(root)
    case None => Failure(url, name, NoEntriesMessage, Some(Atom))
    case Some(entry) => ValidateAtomEntry(libs, web, entry, url, name)
  }

  predicate IsRssTag(tag: string) {
    tag == "rss" || EndsWith(tag, "}rss")
  }

  predicate IsAtomTag(tag: string) {
    tag == "feed" || EndsWith(tag, "}feed")
  }

  /** `validate_feed`: fetch, parse, dispatch on the root tag, and turn every
      exception into an invalid result. */
  function ValidateFeed(libs: Libs, web: Web, url: string, name: Option<string>): (r: ValidationResult)
    ensures r.url == url && r.name == name && Coherent(libs.splitUrl, r)
    ensures web.fetch(url).RequestFailed? ==>
              r == Failure(url, name, "Request failed: " + web.fetch(url).reason, None)
    ensures web.fetch(url).Malformed? ==>
              r == Failure(url, name, "XML parsing failed: " + web.fetch(url).reason, None)
    ensures web.fetch(url).Fetched? ==>
              var root := web.fetch(url).root;
              && (IsRssTag(root.tag) ==>
                    r.feedType == Some(Rss) || r == Failure(url, name, UnexpectedErrorPrefix + NoneTextError, None))
              && (!IsRssTag(root.tag) && IsAtomTag(root.tag) ==> r.feedType == Some(Atom))
              // the root tag picks the validator, whose result is returned
              && (IsRssTag(root.tag) && ValidateRss(libs, web, root, url, name).Ok? ==>
                    r == ValidateRss(libs, web, root, url, name).value)
              && (IsRssTag(root.tag) && ValidateRss(libs, web, root, url, name).Err? ==>
                    r == Failure(url, name, UnexpectedErrorPrefix + NoneTextError, None))
              && (!IsRssTag(root.tag) && IsAtomTag(root.tag) ==> r == ValidateAtom(libs, web, root, url, name))
              && (!IsRssTag(root.tag) && !IsAtomTag(root.tag) ==>
                    r == Failure(url, name, "Unknown feed type: " + root.tag, None))
    // an accepted enclosure in an item without `description` ends in the generic handler
    ensures web.fetch(url).Fetched? && IsRssTag(web.fetch(url).root.tag) ==>
              var channel := Find(web.fetch(url).root, "channel");
              channel.Some? && Find(channel.value, "item").Some? ==>
                var item := Find(channel.value, "item").value;
                !IsGenericPromoRss(libs.html, item) && Usable(libs.splitUrl, EnclosureUrl(item))
                && ImageAccessible(web.probe(EnclosureUrl(item).value, url))
                && Find(item, "description").None?
                ==> r == Failure(url, name, UnexpectedErrorPrefix + NoneTextError, None)
    ensures r.isValid ==> web.fetch(url).Fetched?
  {
    match web.fetch(url)
    case RequestFailed(reason) => Failure(url, name, "Request failed: " + reason, None)
    case Malformed(reason) => Failure(url, name, "XML parsing failed: " + reason, None)
    case Fetched(root) =>
      if IsRssTag(root.tag) then
        match ValidateRss(libs, web, root, url, name)
        case Ok(result) => result
        case Err(error) => Failure(url, name, UnexpectedErrorPrefix + error, None)
      else if IsAtomTag(root.tag) then ValidateAtom(libs, web, root, url, name)
      else Failure(url, name, "Unknown feed type: " + root.tag, None)
  }
}
