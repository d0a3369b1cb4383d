/** Caption derivation (`RSSFeedValidator._extract_caption`) and the
    genericness filter (`RSSFeedValidator._is_generic_caption`).

    Each regular expression of the source is written out as a predicate over
    the already lower-cased text. A pattern of the form `x\s*y` is decided by
    skipping the longest run of whitespace, which is exact whenever what
    follows cannot itself start with whitespace; every pattern here has that
    shape. */
module Captions {
  import opened Wrappers
  import opened Text
  import opened Html

  /** The literal phrases whose presence anywhere makes a caption generic. */
  const GenericPhrases: seq<string> := [
    "comic strip for", "comic for", "daily comic", "today's comic",
    "this week's comic", "strip for", "panel for"]

  /** Words whose presence makes an `alt` text a generic description. */
  const GenericAltWords: seq<string> := ["comic", "cartoon", "image", "picture", "illustration"]

  const EmDash := '\U{2014}'
  const LeftDoubleQuote := '\U{201C}'

  function SkipSpaces(s: string): string {
    TrimStart(s, IsSpace)
  }

  predicate StartsWithSpace(s: string) {
    |s| > 0 && IsSpace(s[0])
  }

  predicate IsDateSep(c: char) {
    c == '/' || c == '\\' || c == '-'
  }

  /** `\d{4}[/\\\-]\d{2}[/\\\-]\d{2}$`, matched from the start of `t`. */
  predicate IsNumericDate(t: string) {
    && |t| == 10
    && IsDigit(t[0]) && IsDigit(t[1]) && IsDigit(t[2]) && IsDigit(t[3])
    && IsDateSep(t[4]) && IsDigit(t[5]) && IsDigit(t[6])
    && IsDateSep(t[7]) && IsDigit(t[8]) && IsDigit(t[9])
  }

  /** `\w+\s+\d{1,2},\s*\d{4}$`, matched from the start of `t` (a spelled
      date such as `may 5, 2024`). */
  predicate IsSpelledDate(t: string) {
    var w := Span(t, IsWordChar);
    w >= 1 && StartsWithSpace(t[w..]) &&
    var r := SkipSpaces(t[w..]);
    var d := Span(r, IsDigit);
    1 <= d <= 2 && d < |r| && r[d] == ',' &&
    var y := SkipSpaces(r[d + 1..]);
    |y| == 4 && IsDigit(y[0]) && IsDigit(y[1]) && IsDigit(y[2]) && IsDigit(y[3])
  }

  /** `\s*(?:for|from)?\s*` followed by something `tail` accepts. */
  predicate ForFromThen(r: string, tail: string -> bool) {
    var s := SkipSpaces(r);
    tail(s)
    || ("for" <= s && tail(SkipSpaces(s[3..])))
    || ("from" <= s && tail(SkipSpaces(s[4..])))
  }

  /** `^comic\s*(?:strip|panel)?\s*(?:for|from)?\s*` followed by `tail`. */
  predicate ComicPrefixThen(t: string, tail: string -> bool) {
    "comic" <= t &&
    var r := SkipSpaces(t[5..]);
    ForFromThen(r, tail)
    || ("strip" <= r && ForFromThen(r[5..], tail))
    || ("panel" <= r && ForFromThen(r[5..], tail))
  }

  /** `\s+the\s+day$` */
  predicate SpacesTheDay(x: string) {
    StartsWithSpace(x) &&
    var y := SkipSpaces(x);
    "the" <= y && StartsWithSpace(y[3..]) && SkipSpaces(y[3..]) == "day"
  }

  /** `^comic\s*(?:of|for)\s+the\s+day$` */
  predicate IsComicOfTheDay(t: string) {
    "comic" <= t &&
    var r := SkipSpaces(t[5..]);
    ("of" <= r && SpacesTheDay(r[2..])) || ("for" <= r && SpacesTheDay(r[3..]))
  }

  /** `^daily\s+comic$` */
  predicate IsDailyComic(t: string) {
    "daily" <= t && StartsWithSpace(t[5..]) && SkipSpaces(t[5..]) == "comic"
  }

  /** `^today[^\w]*s?\s+comic$`. The run of non-word characters after `today`
      is taken whole: when `s` follows it, it must end right before the `s`;
      otherwise `\s+` is its own tail, so it must end in whitespace. */
  predicate IsTodaysComic(t: string) {
    "today" <= t &&
    var r := t[5..];
    var n := Span(r, c => !IsWordChar(c));
    var u := r[n..];
    ("s" <= u && StartsWithSpace(u[1..]) && SkipSpaces(u[1..]) == "comic")
    || (n >= 1 && IsSpace(r[n - 1]) && u == "comic")
  }

  /** `^strip\s+for\s+` followed by a numeric date. */
  predicate IsStripForDate(t: string) {
    "strip" <= t && StartsWithSpace(t[5..]) &&
    var y := SkipSpaces(t[5..]);
    "for" <= y && StartsWithSpace(y[3..]) && IsNumericDate(SkipSpaces(y[3..]))
  }

  /** `^for\s+` followed by a numeric date. */
  predicate IsForDate(t: string) {
    "for" <= t && StartsWithSpace(t[3..]) && IsNumericDate(SkipSpaces(t[3..]))
  }

  /** The seven anchored generic-caption patterns. */
  predicate MatchesGenericPattern(t: string) {
    || ComicPrefixThen(t, IsNumericDate)
    || ComicPrefixThen(t, IsSpelledDate)
    || IsComicOfTheDay(t)
    || IsDailyComic(t)
    || IsTodaysComic(t)
    || IsStripForDate(t)
    || IsForDate(t)
  }

  predicate HasGenericPhrase(t: string) {
    exists i :: 0 <= i < |GenericPhrases| && Contains(t, GenericPhrases[i])
  }

  /** The two date-only patterns. */
  predicate IsDateOnly(t: string) {
    IsNumericDate(t) || IsSpelledDate(t)
  }

  /** `_is_generic_caption`: empty, or (lower-cased and stripped) a generic
      pattern, a generic phrase, or a bare date. */
  predicate IsGenericCaption(caption: string) {
    caption == "" ||
    var t := Strip(Lower(caption));
    MatchesGenericPattern(t) || HasGenericPhrase(t) || IsDateOnly(t)
  }

  /** `panel\s*\d+` somewhere in `t`. */
  predicate HasPanelNumber(t: string)
    decreases |t|
  {
    ("panel" <= t && var r := SkipSpaces(t[5..]); |r| > 0 && IsDigit(r[0]))
    || (|t| > 0 && HasPanelNumber(t[1..]))
  }

  /** `re.search(r"panel\s*\d+|^panel|narration|sfx|:", t, re.IGNORECASE)`. */
  predicate LooksLikeTranscript(t: string) {
    var l := Lower(t);
    HasPanelNumber(l) || "panel" <= l || Contains(l, "narration") || Contains(l, "sfx") || Contains(l, ":")
  }

  /** The quote-or-emphasis signal of a paragraph (its stripped text `p`). */
  predicate HasItalicSignal(para: Paragraph, p: string) {
    para.italicMarkup || '"' in p || LeftDoubleQuote in p
  }

  /** `re.fullmatch(r"[A-Z][a-z]+", t)`: one capitalised word, such as a
      comic's own name. */
  predicate IsSingleCapitalisedWord(t: string) {
    |t| >= 2 && 'A' <= t[0] <= 'Z' && forall k :: 1 <= k < |t| ==> 'a' <= t[k] <= 'z'
  }

  /** The lower-cased `alt` equals the lower-cased item title or feed name. */
  predicate EchoesMetadata(normalized: string, itemTitle: Option<string>, feedName: Option<string>) {
    (Truthy(itemTitle) && normalized == Lower(itemTitle.value))
    || (Truthy(feedName) && normalized == Lower(feedName.value))
  }

  predicate HasGenericAltWord(normalized: string) {
    exists i :: 0 <= i < |GenericAltWords| && Contains(normalized, GenericAltWords[i])
  }

  /** The stripped text of the `<p>` after the first image, when the item
      HTML is available and has one. */
  function ParagraphText(html: Option<string>, parsers: HtmlParsers): Option<string> {
    if Truthy(html) then
      match parsers.paragraphAfterImage(html.value)
      case Some(para) => Some(Strip(para.text))
      case None => None
    else None
  }

  /** The paragraph candidate is looked at (1 to 200 characters). */
  predicate ParagraphConsidered(html: Option<string>, parsers: HtmlParsers) {
    var p := ParagraphText(html, parsers);
    p.Some? && 0 < |p.value| <= 200
  }

  /** The paragraph candidate is accepted as the caption. */
  predicate ParagraphAccepted(html: Option<string>, parsers: HtmlParsers) {
    ParagraphConsidered(html, parsers) &&
    var para := parsers.paragraphAfterImage(html.value);
    var p := Strip(para.value.text);
    !IsGenericCaption(p) && HasItalicSignal(para.value, p) && !LooksLikeTranscript(p)
  }

  /** The paragraph settles the caption: it is generic (no caption at all)
      or it is accepted. */
  predicate ParagraphDecides(html: Option<string>, parsers: HtmlParsers) {
    (ParagraphConsidered(html, parsers) && IsGenericCaption(ParagraphText(html, parsers).value))
    || ParagraphAccepted(html, parsers)
  }

  /** The `title` attribute is accepted as the caption. */
  predicate TitleAccepted(info: ImageInfo) {
    Truthy(info.title) &&
    var t := Strip(info.title.value);
    0 < |t| <= 200 && !IsGenericCaption(t)
  }

  /** The `alt` attribute (already stripped) is accepted as the caption. */
  predicate AltAccepted(text: string, itemTitle: Option<string>, feedName: Option<string>) {
    && !LooksLikeTranscript(text)
    && EmDash !in text
    && !EchoesMetadata(Lower(text), itemTitle, feedName)
    && !IsSingleCapitalisedWord(text)
    && !HasGenericAltWord(Lower(text))
    && !IsGenericCaption(text)
    && 0 < |text| <= 140
  }

  /** `_extract_caption`. `parser` is the extractor run on the item HTML
      (`None` when no HTML was fed); `html` is the `description_html`
      argument, which only the enclosure and description paths pass. */
  function ExtractCaption(parser: Option<ImageInfo>, itemTitle: Option<string>, feedName: Option<string>,
                          html: Option<string>, parsers: HtmlParsers): (r: Option<string>)
    ensures parser.None? ==> r.None?
    // whatever is returned is short, stripped and passes the genericness filter
    ensures r.Some? ==> 0 < |r.value| <= 200 && Strip(r.value) == r.value && !IsGenericCaption(r.value)
    // fixed priority: paragraph, then title, then alt
    ensures parser.Some? && ParagraphAccepted(html, parsers) ==> r == ParagraphText(html, parsers)
    ensures parser.Some? && ParagraphConsidered(html, parsers) && IsGenericCaption(ParagraphText(html, parsers).value)
            ==> r.None?
    ensures parser.Some? && !ParagraphDecides(html, parsers) && TitleAccepted(parser.value)
            ==> r == Some(Strip(parser.value.title.value))
    // last comes the alt: returned when it passes every alt check, and otherwise nothing
    ensures parser.Some? && !ParagraphDecides(html, parsers) && !TitleAccepted(parser.value) ==>
              if Truthy(parser.value.alt) && AltAccepted(Strip(parser.value.alt.value), itemTitle, feedName)
              then r == Some(Strip(parser.value.alt.value))
              else r.None?
    // and the caption always comes from one of the three sources, accepted by its own rule
    ensures r.Some? ==>
              || (ParagraphAccepted(html, parsers) && r == ParagraphText(html, parsers))
              || (TitleAccepted(parser.value) && r.value == Strip(parser.value.title.value))
              || (parser.value.alt.Some? && r.value == Strip(parser.value.alt.value)
                  && AltAccepted(r.value, itemTitle, feedName))
  {
    if parser.None? then None
    else
      var info := parser.value;
      var p := ParagraphText(html, parsers);
      if ParagraphConsidered(html, parsers) && IsGenericCaption(p.value) then None
      else if ParagraphAccepted(html, parsers) then
        StripWhereIdempotent(parsers.paragraphAfterImage(html.value).value.text, IsSpace);
        p
      else if TitleAccepted(info) then
        StripWhereIdempotent(info.title.value, IsSpace);
        Some(Strip(info.title.value))
      else if Truthy(info.alt) && AltAccepted(Strip(info.alt.value), itemTitle, feedName) then
        StripWhereIdempotent(info.alt.value, IsSpace);
        Some(Strip(info.alt.value))
      else None
  }

  /** The documented example: a strip caption that only names a date. */
  lemma DatedStripCaptionIsGeneric()
    ensures IsGenericCaption("Comic strip for 2026/02/04")
  {
    var caption := "Comic strip for 2026/02/04";
    var lowered := Lower(caption);
    assert lowered == "comic strip for 2026/02/04";
    StripWhereFixed(lowered, IsSpace);
    assert OccursAt(lowered, GenericPhrases[0], 0);
    ContainsAt(lowered, GenericPhrases[0], 0);
  }

  /** `str.lower()` applied twice changes nothing more. */
  lemma LowerIdempotent(s: string)
    ensures Lower(Lower(s)) == Lower(s)
  {
    assert forall i :: 0 <= i < |s| ==> LowerChar(LowerChar(s[i])) == LowerChar(s[i]);
  }

  /** The filter ignores case: a caption and its lower-cased form get the
      same verdict. */
  lemma GenericCaptionIgnoresCase(caption: string)
    ensures IsGenericCaption(Lower(caption)) <==> IsGenericCaption(caption)
  {
    LowerIdempotent(caption);
  }

  /** Stripping keeps every occurrence of a phrase that neither starts nor
      ends with a blank. */
  lemma ContainedInStrip(l: string, p: string)
    requires p != [] && !IsSpace(p[0]) && !IsSpace(p[|p| - 1]) && Contains(l, p)
    ensures Contains(Strip(l), p)
  {
    ContainsIff(l, p);
    var i: nat :| OccursAt(l, p, i);
    OccurrenceInsideStrip(l, p, i);
    ContainsAt(Strip(l), p, i - Span(l, IsSpace));
  }

  /** A non-blank character lies at or after the leading blanks. */
  lemma NonBlankAfterLead(l: string, i: nat)
    requires i < |l| && !IsSpace(l[i])
    ensures Span(l, IsSpace) <= i
  {
  }

  /** A non-blank character lies before the trailing blanks. */
  lemma NonBlankBeforeTail(l: string, e: nat)
    requires e < |l| && !IsSpace(l[e])
    ensures e < Span(l, IsSpace) + |StripWhere(l, IsSpace)|
  {
  }

  /** The occurrence at `i` survives stripping, shifted by the leading
      blanks. */
  lemma OccurrenceInsideStrip(l: string, p: string, i: nat)
    requires p != [] && !IsSpace(p[0]) && !IsSpace(p[|p| - 1]) && OccursAt(l, p, i)
    ensures Span(l, IsSpace) <= i && OccursAt(StripWhere(l, IsSpace), p, i - Span(l, IsSpace))
  {
    var n := Span(l, IsSpace);
    var r := StripWhere(l, IsSpace);
    var e := i + |p| - 1;
    assert l[i] == p[0] && l[e] == p[|p| - 1] by { assert l[i..i + |p|][|p| - 1] == l[e]; }
    NonBlankAfterLead(l, i);
    NonBlankBeforeTail(l, e);
    assert r == l[n..n + |r|];
    assert r[i - n..i - n + |p|] == l[n..n + |r|][i - n..i - n + |p|];
  }

  /** A generic phrase anywhere in the caption, in any letter case, makes it
      generic. */
  lemma PhraseAnywhereIsGeneric(caption: string, j: nat)
    requires j < |GenericPhrases| && Contains(Lower(caption), GenericPhrases[j])
    ensures IsGenericCaption(caption)
  {
    var p := GenericPhrases[j];
    assert |p| > 0 && !IsSpace(p[0]) && !IsSpace(p[|p| - 1]);
    ContainedInStrip(Lower(caption), p);
  }

  /** `comic strip for` followed by any numeric date is generic. */
  lemma ComicStripForDateIsGeneric(d: string)
    requires IsNumericDate(d)
    ensures IsGenericCaption("comic strip for " + d)
  {
    var c := "comic strip for " + d;
    assert Lower(c)[..15] == GenericPhrases[0] by {
      forall k | 0 <= k < 15 ensures Lower(c)[k] == GenericPhrases[0][k] {
        assert c[k] == GenericPhrases[0][k];
      }
    }
    assert OccursAt(Lower(c), GenericPhrases[0], 0);
    ContainsAt(Lower(c), GenericPhrases[0], 0);
    PhraseAnywhereIsGeneric(c, 0);
  }

  /** Every bare numeric date such as `2026-02-04` is generic. */
  lemma NumericDateIsGeneric(t: string)
    requires IsNumericDate(t)
    ensures IsGenericCaption(t)
  {
    assert forall i :: 0 <= i < |t| ==> LowerChar(t[i]) == t[i];
    assert Lower(t) == t;
    StripWhereFixed(t, IsSpace);
  }

  /** A text lacking one character of a phrase does not hold the phrase. */
  lemma {:induction false} MissingCharRulesOut(s: string, t: string, c: char)
    requires c in t && c !in s
    ensures !Contains(s, t)
    decreases |s|
  {
    if |s| > 0 {
      MissingCharRulesOut(s[1..], t, c);
    }
  }

  /** Every generic phrase holds a `c` or an `f`, so a text with neither
      holds none of them. */
  lemma NoPhraseWithoutCF(t: string)
    requires 'c' !in t && 'f' !in t
    ensures !HasGenericPhrase(t)
  {
    var p := GenericPhrases;
    assert p[0][0] == 'c' && p[1][0] == 'c' && p[2][6] == 'c' && p[3][8] == 'c' && p[4][12] == 'c';
    assert p[5][6] == 'f' && p[6][6] == 'f';
    MissingCharRulesOut(t, p[0], 'c');
    MissingCharRulesOut(t, p[1], 'c');
    MissingCharRulesOut(t, p[2], 'c');
    MissingCharRulesOut(t, p[3], 'c');
    MissingCharRulesOut(t, p[4], 'c');
    MissingCharRulesOut(t, p[5], 'f');
    MissingCharRulesOut(t, p[6], 'f');
  }

  /** A text that opens with a word, one blank and then neither a blank nor
      a digit is no bare date. */
  lemma WordThenNonDigitIsNoDate(t: string, w: nat)
    requires 1 <= w && w + 1 < |t| && !IsDigit(t[0])
    requires forall k :: 0 <= k < w ==> IsWordChar(t[k])
    requires t[w] == ' ' && !IsSpace(t[w + 1]) && !IsDigit(t[w + 1])
    ensures !IsDateOnly(t)
  {
    assert Span(t, IsWordChar) == w;
    assert Span(t[w..], IsSpace) == 1;
    assert SkipSpaces(t[w..]) == t[w + 1..];
    assert Span(t[w + 1..], IsDigit) == 0;
  }

  /** Every anchored pattern starts with `comic`, `daily`, `today`, `strip`
      or `for`. */
  lemma NoPatternFromOtherLetter(t: string)
    requires t != [] && t[0] != 'c' && t[0] != 'd' && t[0] != 't' && t[0] != 's' && t[0] != 'f'
    ensures !MatchesGenericPattern(t)
  {
  }

  const QuotedCaption := "He muttered, \"not again.\""
  const QuotedCaptionLowered := "he muttered, \"not again.\""

  lemma LowerQuotedCaption()
    ensures Lower(QuotedCaption) == QuotedCaptionLowered
    ensures 'c' !in QuotedCaptionLowered && 'f' !in QuotedCaptionLowered
  {
  }

  /** `he` followed by a blank and then a letter is no spelled date. */
  lemma QuotedCaptionNoDate()
    ensures !IsDateOnly(QuotedCaptionLowered)
  {
    var t := QuotedCaptionLowered;
    assert t[0] == 'h' && t[1] == 'e' && t[2] == ' ' && t[3] == 'm';
    WordThenNonDigitIsNoDate(t, 2);
  }

  /** An example of a real caption: quoted dialogue is not generic. */
  lemma QuotedCaptionIsNotGeneric()
    ensures !IsGenericCaption(QuotedCaption)
  {
    LowerQuotedCaption();
    StripWhereFixed(QuotedCaptionLowered, IsSpace);
    NoPhraseWithoutCF(QuotedCaptionLowered);
    NoPatternFromOtherLetter(QuotedCaptionLowered);
    QuotedCaptionNoDate();
  }

  /** `panel\s*\d+` needs a `p`. */
  lemma {:induction false} NoPanelWithoutP(t: string)
    requires 'p' !in t
    ensures !HasPanelNumber(t) && !("panel" <= t)
    decreases |t|
  {
    if |t| > 0 {
      assert t[0] != "panel"[0];
      assert 'p' !in t[1..] by {
        assert forall k :: 0 <= k < |t[1..]| ==> t[1..][k] == t[k + 1];
      }
      NoPanelWithoutP(t[1..]);
    }
  }

  /** A text in which `a` is never followed by `b` holds no phrase that
      starts with `a` then `b`. */
  lemma {:induction false} MissingPairRulesOut(s: string, t: string, a: char, b: char)
    requires |t| >= 2 && t[0] == a && t[1] == b
    requires forall k :: 0 <= k < |s| - 1 && s[k] == a ==> s[k + 1] != b
    ensures !Contains(s, t)
    decreases |s|
  {
    if |s| > 0 {
      var r := s[1..];
      forall k | 0 <= k < |r| - 1 && r[k] == a ensures r[k + 1] != b {
        assert s[k + 1] == a;
      }
      MissingPairRulesOut(r, t, a, b);
    }
  }

  /** A text whose lower-cased form has no `p`, no `f`, no colon, and no
      `n` followed by `a` is no transcript. */
  lemma NoTranscriptWithout(t: string)
    requires var l := Lower(t);
             && 'p' !in l && 'f' !in l && ':' !in l
             && forall k :: 0 <= k < |l| - 1 && l[k] == 'n' ==> l[k + 1] != 'a'
    ensures !LooksLikeTranscript(t)
  {
    var l := Lower(t);
    NoPanelWithoutP(l);
    MissingPairRulesOut(l, "narration", 'n', 'a');
    MissingCharRulesOut(l, "sfx", 'f');
    MissingCharRulesOut(l, ":", ':');
  }

  /** A stripped, non-generic paragraph of 1 to 200 characters after the
      image, with a double quote in it and no transcript marker, is the
      caption, whatever the title and alt hold. */
  lemma QuotedParagraphIsKept(info: ImageInfo, itemTitle: Option<string>, feedName: Option<string>,
                              html: Option<string>, parsers: HtmlParsers, text: string)
    requires Truthy(html) && parsers.paragraphAfterImage(html.value) == Some(Paragraph(text, false))
    requires Strip(text) == text && 0 < |text| <= 200
    requires !IsGenericCaption(text) && '"' in text && !LooksLikeTranscript(text)
    ensures ExtractCaption(Some(info), itemTitle, feedName, html, parsers) == Some(text)
  {
    assert ParagraphAccepted(html, parsers);
  }

  /** The characters of the lowered example the transcript test looks at. */
  lemma QuotedCaptionLetters()
    ensures 'p' !in QuotedCaptionLowered && ':' !in QuotedCaptionLowered
    ensures forall k :: 0 <= k < |QuotedCaptionLowered| - 1 && QuotedCaptionLowered[k] == 'n'
                        ==> QuotedCaptionLowered[k + 1] != 'a'
  {
  }

  /** The example is no transcript: it names no panel, no narration, no
      sound effect and holds no colon. */
  lemma QuotedCaptionNoTranscript()
    ensures !LooksLikeTranscript(QuotedCaption)
  {
    LowerQuotedCaption();
    QuotedCaptionLetters();
    NoTranscriptWithout(QuotedCaption);
  }

  /** The example is stripped, short, and holds a double quote. */
  lemma QuotedCaptionShape()
    ensures Strip(QuotedCaption) == QuotedCaption && 0 < |QuotedCaption| <= 200 && '"' in QuotedCaption
  {
    StripWhereFixed(QuotedCaption, IsSpace);
    assert QuotedCaption[13] == '"';
  }

  /** The example is kept: as the quoted paragraph after the image (without
      italic markup) it is the caption, whatever the title and alt hold. */
  lemma QuotedCaptionIsKept(info: ImageInfo, itemTitle: Option<string>, feedName: Option<string>,
                            html: Option<string>, parsers: HtmlParsers)
    requires Truthy(html) && parsers.paragraphAfterImage(html.value) == Some(Paragraph(QuotedCaption, false))
    ensures ExtractCaption(Some(info), itemTitle, feedName, html, parsers) == Some(QuotedCaption)
  {
    QuotedCaptionShape();
    QuotedCaptionNoTranscript();
    QuotedCaptionIsNotGeneric();
    QuotedParagraphIsKept(info, itemTitle, feedName, html, parsers, QuotedCaption);
  }
}
