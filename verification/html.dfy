/** The HTML side of the validator: `ImageExtractor`, an `html.parser`
    subclass that remembers the `src`, `title` and `alt` of an `<img>`.

    The tokenizer itself (`HTMLParser.feed`) is library code and is not part
    of this model: a fragment reaches the model as the sequence of its start
    tags, in document order, each with its lower-cased name and its attributes
    as `dict(attrs)` would give them (a later duplicate wins; an attribute
    written without a value is absent, which `dict.get` cannot tell apart). */
module Html {
  import opened Wrappers

  datatype StartTag = StartTag(name: string, attrs: map<string, string>)

  /** What the extractor has recorded: its `image_url`, `image_title` and
      `image_alt` fields. */
  datatype ImageInfo = ImageInfo(src: Option<string>, title: Option<string>, alt: Option<string>)

  /** The foreign parsers the validator relies on for HTML fragments. */
  datatype HtmlParsers = HtmlParsers(
    /** `HTMLParser.feed`: the start tags of a fragment, in document order. */
    tokenize: string -> seq<StartTag>,
    /** BeautifulSoup: `soup.find('img')` followed by `find_next('p')`;
        `None` when the fragment has no `<img>` or no `<p>` after it. */
    paragraphAfterImage: string -> Option<Paragraph>)

  /** The `<p>` found after the first image: its `get_text()` (not yet
      stripped) and whether its markup signals italics (a `style` attribute
      containing `italic`, or an `<i>`/`<em>` inside it). */
  datatype Paragraph = Paragraph(text: string, italicMarkup: bool)

  const NoImage := ImageInfo(None, None, None)

  /** Python truthiness of an optional string: present and non-empty. */
  predicate Truthy(s: Option<string>) {
    s.Some? && s.value != ""
  }

  function Get(attrs: map<string, string>, name: string): Option<string> {
    if name in attrs then Some(attrs[name]) else None
  }

  predicate IsImg(tag: StartTag) {
    tag.name == "img"
  }

  /** An `<img>` whose `src` is present and non-empty. */
  predicate HasSrc(tag: StartTag) {
    IsImg(tag) && Truthy(Get(tag.attrs, "src"))
  }

  /** The triple an `<img>` tag's attributes give. */
  function FromAttrs(tag: StartTag): ImageInfo {
    ImageInfo(Get(tag.attrs, "src"), Get(tag.attrs, "title"), Get(tag.attrs, "alt"))
  }

  /** One `handle_starttag` call: an `<img>` overwrites all three fields as
      long as no non-empty `src` has been recorded yet. */
  function Step(info: ImageInfo, tag: StartTag): ImageInfo {
    if IsImg(tag) && !Truthy(info.src) then FromAttrs(tag) else info
  }

  /** The fields after `handle_starttag` has seen each tag of `tags` in turn. */
  function ScanFrom(init: ImageInfo, tags: seq<StartTag>): ImageInfo
    decreases |tags|
  {
    if tags == [] then init else Step(ScanFrom(init, tags[..|tags| - 1]), tags[|tags| - 1])
  }

  /** A fresh extractor fed one fragment. */
  function ExtractImage(tags: seq<StartTag>): ImageInfo {
    ScanFrom(NoImage, tags)
  }

  class ImageExtractor {
    var imageUrl: Option<string>
    var imageTitle: Option<string>
    var imageAlt: Option<string>

    function Info(): ImageInfo
      reads this
    {
      ImageInfo(imageUrl, imageTitle, imageAlt)
    }

    constructor ()
      ensures Info() == NoImage
    {
      imageUrl, imageTitle, imageAlt := None, None, None;
    }

    method HandleStartTag(tag: StartTag)
      modifies this
      ensures Info() == Step(old(Info()), tag)
    {
      if tag.name == "img" && !Truthy(imageUrl) {
        imageUrl := Get(tag.attrs, "src");
        imageTitle := Get(tag.attrs, "title");
        imageAlt := Get(tag.attrs, "alt");
      }
    }

    /** `feed`: the tokenizer's start-tag callbacks, one after another. */
    method Feed(tags: seq<StartTag>)
      modifies this
      ensures Info() == ScanFrom(old(Info()), tags)
    {
      var i := 0;
      while i < |tags|
        invariant 0 <= i <= |tags|
        invariant Info() == ScanFrom(old(Info()), tags[..i])
      {
        assert tags[..i + 1][..i] == tags[..i];
        HandleStartTag(tags[i]);
        i := i + 1;
      }
      assert tags[..|tags|] == tags;
    }
  }

  /** How the validator uses the class: a new extractor fed one fragment's
      tags ends up holding `ExtractImage` of them. */
  method RunExtractor(tags: seq<StartTag>) returns (info: ImageInfo)
    ensures info == ExtractImage(tags)
  {
    var parser := new ImageExtractor();
    parser.Feed(tags);
    info := parser.Info();
  }

  /** While no `<img>` with a non-empty `src` has been seen, the recorded `src`
      is empty or absent. */
  lemma {:induction false} NoSrcYet(tags: seq<StartTag>)
    requires forall j :: 0 <= j < |tags| ==> !HasSrc(tags[j])
    ensures !Truthy(ExtractImage(tags).src)
    decreases |tags|
  {
    if tags != [] {
      var prefix := tags[..|tags| - 1];
      assert forall j :: 0 <= j < |prefix| ==> prefix[j] == tags[j];
      NoSrcYet(prefix);
    }
  }

  /** The first `<img>` with a non-empty `src` supplies all three fields, and
      no later tag changes them. */
  lemma {:induction false} FirstImageWithSrcWins(tags: seq<StartTag>, i: nat)
    requires i < |tags| && HasSrc(tags[i])
    requires forall j :: 0 <= j < i ==> !HasSrc(tags[j])
    ensures ExtractImage(tags) == FromAttrs(tags[i])
    decreases |tags|
  {
    var prefix := tags[..|tags| - 1];
    assert forall j :: 0 <= j < |prefix| ==> prefix[j] == tags[j];
    if |tags| == i + 1 {
      NoSrcYet(prefix);
    } else {
      FirstImageWithSrcWins(prefix, i);
    }
  }

  /** With no non-empty `src` anywhere, the last `<img>` supplies the fields. */
  lemma {:induction false} LastImageWhenNoSrc(tags: seq<StartTag>, i: nat)
    requires i < |tags| && IsImg(tags[i])
    requires forall j :: 0 <= j < |tags| ==> !HasSrc(tags[j])
    requires forall j :: i < j < |tags| ==> !IsImg(tags[j])
    ensures ExtractImage(tags) == FromAttrs(tags[i])
    decreases |tags|
  {
    var prefix := tags[..|tags| - 1];
    assert forall j :: 0 <= j < |prefix| ==> prefix[j] == tags[j];
    if |tags| == i + 1 {
      NoSrcYet(prefix);
    } else {
      LastImageWhenNoSrc(prefix, i);
    }
  }

  /** A fragment without `<img>` leaves all three fields `None`. */
  lemma {:induction false} NoImageWithoutImg(tags: seq<StartTag>)
    requires forall j :: 0 <= j < |tags| ==> !IsImg(tags[j])
    ensures ExtractImage(tags) == NoImage
    decreases |tags|
  {
    if tags != [] {
      var prefix := tags[..|tags| - 1];
      assert forall j :: 0 <= j < |prefix| ==> prefix[j] == tags[j];
      NoImageWithoutImg(prefix);
    }
  }
}
