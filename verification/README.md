# Comic feed validation and plugin option generation, in Dafny

This project models the decision logic of the comic RSS plugin's maintenance
scripts:

- `scripts/rss_feed_validator.py`: one feed URL in, one `ValidationResult` out.
  - The root tag is classified as RSS 2.0 or Atom (RFC 4287, sections 4.1.1
    and 4.1.2).
  - The first item or entry is taken, and generic promotional items are
    rejected.
  - An image is looked for in a fixed order: `enclosure`, then the
    `description` HTML, then `content:encoded` for RSS; `summary`, falling
    back to `content`, for Atom.
  - The image URL must have a scheme and a network location (RFC 3986,
    sections 3.1 and 3.2).
  - A `HEAD` probe with the feed as `Referer` (and a `GET` retry) decides
    hotlink protection (403 Forbidden, RFC 9110 section 15.5.4).
  - An optional caption is derived through a priority chain and a
    genericness filter.
  - A batch of feeds is split into valid and invalid results, and the failed
    ones are turned into a report.
- `scripts/generate-options.py`:
  - the language test and the `EXCLUSIONS` parsing;
  - the loops that sort comics into regular, other-language and political
    feed dicts;
  - the selection of the validated comics;
  - the option lists with their display names, sorted case-insensitively,
    and the total in the About text.
- `scripts/upload_plugin.py`: the `plugins.env` parser `load_env_file` and
  `resolve_root`.

The library code the scripts call reaches the model as inputs:

- An XML document is an `Element` tree.
- `HTMLParser` tokenising is a function from HTML text to start tags.
- BeautifulSoup's "first `<p>` after the first `<img>`" is a function to a
  `Paragraph` (its text and whether it has italic or emphasis markup).
- `urlparse` is a function to a (scheme, netloc) pair.
- The network is a `Web` value:
  - fetching a feed URL gives a request failure, a parse failure or a root
    element;
  - probing an image gives the `HEAD` and `GET` status codes, where `None`
    stands for a request exception.

Modules:

| file | module | models |
|---|---|---|
| `wrappers.dfy` | `Wrappers` | `Option` and `Result` |
| `text.dfy` | `Text` | `str.strip`, `lower`, `split`, `in` on strings, the last path segment |
| `sorting.dfy` | `Sorting` | `sorted` / `list.sort` with a key: a stable sort by string key |
| `html.dfy` | `Html` | `ImageExtractor` (a class whose fields change per start tag) |
| `captions.dfy` | `Captions` | `_extract_caption` and `_is_generic_caption` |
| `feeds.dfy` | `Feeds` | `validate_feed` and everything it calls |
| `batch.dfy` | `Batch` | `validate_multiple_feeds` and the report of `save_failed_feeds_report` |
| `options.dfy` | `Options` | the helpers and loops of `create_updated_settings` |
| `envfile.dfy` | `EnvFile` | `load_env_file` and `resolve_root` |

Several invariants tie the pieces together:

- Every result satisfies `Feeds.Coherent`. A valid result has a usable image
  URL, an image source, a feed type and a filtered caption. An invalid one has
  an error message and no image.
- Loops are proved against fold functions. Examples are `Html.ScanFrom`,
  `Batch.Keep`, `Options.FeedsOf` and `EnvFile.EnvOf`.
- The source's promises are stated as lemmas about those functions.

## Model

| member | source | states |
|---|---|---|
| Html.ImageExtractor.constructor | scripts/rss_feed_validator.py:29-33 | a new extractor holds no `src`, `title` or `alt` |
| Html.ImageExtractor.HandleStartTag | scripts/rss_feed_validator.py:35-40 | one start tag changes the three fields exactly as one step of the scan does: an `<img>` overwrites all three while no non-empty `src` is held, anything else leaves them |
| Html.ImageExtractor.Feed | scripts/rss_feed_validator.py:35-40 | feeding a run of start tags leaves the fields equal to the left fold of the steps over the run |
| Html.FirstImageWithSrcWins | scripts/rss_feed_validator.py:35-40 | the first `<img>` with a non-empty `src` supplies `src`, `title` and `alt`, and no later tag changes them |
| Html.LastImageWhenNoSrc | scripts/rss_feed_validator.py:35-40 | when no `<img>` has a non-empty `src`, the last `<img>` supplies the three fields |
| Html.NoImageWithoutImg | scripts/rss_feed_validator.py:35-40 | HTML without `<img>` leaves all three fields `None` |
| Html.RunExtractor | scripts/rss_feed_validator.py:28-40 | a new `ImageExtractor` fed a document's start tags holds exactly the image the scan of those tags selects |
| Html.NoSrcYet | scripts/rss_feed_validator.py:35-40 | while no `<img>` with a non-empty `src` has been seen, the held `src` is empty or absent |
| Captions.ExtractCaption | scripts/rss_feed_validator.py:53-125 | no parser gives no caption. A caption is 1-200 characters, stripped and not generic. An accepted paragraph wins. A generic paragraph gives `None` without trying title or alt. Otherwise an accepted title wins. Otherwise the stripped alt is returned when it passes every alt check, and `None` when it fails one or is empty. Any caption is the paragraph, the title or the alt, each accepted by its own rule |
| Captions.DatedStripCaptionIsGeneric | scripts/rss_feed_validator.py:127-175 | "Comic strip for 2026/02/04" is a generic caption |
| Captions.GenericCaptionIgnoresCase | scripts/rss_feed_validator.py:133 | the genericness test does not depend on letter case: a caption and its lower-cased form get the same verdict |
| Captions.NumericDateIsGeneric | scripts/rss_feed_validator.py:164-171 | a bare `dddd/dd/dd` date (with `/`, `\` or `-` between the parts) is generic |
| Captions.PhraseAnywhereIsGeneric | scripts/rss_feed_validator.py:133-161 | a caption holding one of the seven generic phrases anywhere, in any letter case, is generic: stripping never cuts an occurrence |
| Captions.ComicStripForDateIsGeneric | scripts/rss_feed_validator.py:127-161 | `comic strip for ` followed by any numeric date is generic |
| Captions.NoPhraseWithoutCF | scripts/rss_feed_validator.py:150-161 | a caption holding neither `c` nor `f` contains none of the seven generic phrases |
| Captions.NoPatternFromOtherLetter | scripts/rss_feed_validator.py:136-148 | a caption that does not start with `c`, `d`, `t`, `s` or `f` matches none of the seven generic patterns |
| Captions.WordThenNonDigitIsNoDate | scripts/rss_feed_validator.py:164-171 | a caption that opens with a word not starting with a digit, then one space, then a character that is neither a blank nor a digit, matches neither date-only pattern |
| Captions.QuotedCaptionIsNotGeneric | scripts/rss_feed_validator.py:127-175 | `He muttered, "not again."` is not generic |
| Captions.NoTranscriptWithout | scripts/rss_feed_validator.py:81-82 | a text whose lower-cased form has no `p`, no `f`, no colon and no `n` followed by `a` matches none of `panel\s*\d+`, `^panel`, `narration`, `sfx` and `:` |
| Captions.QuotedParagraphIsKept | scripts/rss_feed_validator.py:61-83 | a stripped, non-generic paragraph of 1 to 200 characters after the image, holding a double quote and no transcript marker, is returned as the caption whatever the title and alt hold |
| Captions.QuotedCaptionIsKept | scripts/rss_feed_validator.py:61-83 | `He muttered, "not again."` as the paragraph after the image, without italic markup, is returned as the caption |
| Feeds.FirstWithTag | scripts/rss_feed_validator.py:278-300 | `find` returns the first child with the tag: no earlier child has it |
| Feeds.ImageAccessible | scripts/rss_feed_validator.py:238-273 | a `HEAD` 403 means no access; a `HEAD` below 400 or a request exception means access; another `HEAD` error defers to `GET`, where any status of 400 or more means no access |
| Feeds.DatedLinkIsNeverPromo | scripts/rss_feed_validator.py:530-587 | a digit after the link's last `/` rules out the promo verdict, whatever the description or summary holds |
| Feeds.PromoSignals | scripts/rss_feed_validator.py:530-587 | with no body there is no promo verdict. With an undated link, a first image whose lower-cased URL holds `generic_fb`, `social_fb_generic` or `gocomicscmsassets` makes the item promo, and so does a body holding both "explore the archive" and "read extra content" in any case. With neither signal the item is not promo |
| Feeds.UsableIsValid | scripts/rss_feed_validator.py:589-598 | an image URL is usable iff it is present and `_is_valid_image_url` accepts it, which needs a non-empty URL with a scheme and a network location |
| Feeds.FirstUsable | scripts/rss_feed_validator.py:326-432 | the candidate chosen is the first whose URL is non-empty with a scheme and a host |
| Feeds.ValidateRssItem | scripts/rss_feed_validator.py:300-432 | the promo check comes before any image lookup. The first usable candidate (enclosure, description image, `content:encoded` image) decides. An inaccessible one fails with the hotlink message and no fallback. None usable gives the "No valid image" failure. Success carries that URL, source, title and link. Its caption is `_extract_caption` run on the image parser of `content:encoded` or else `description` (enclosure), of `description` (description) or of `content:encoded` (content), with the `description` HTML passed for the first two sources only. The raised error happens exactly for an accepted enclosure without `description`. Every result is coherent |
| Feeds.RssImageFound | scripts/rss_feed_validator.py:326-421 | once a usable candidate is chosen: an inaccessible image fails with the hotlink message; an accessible enclosure without `description` raises; otherwise success with that URL, source, title, link and caption |
| Feeds.ValidateRss | scripts/rss_feed_validator.py:275-300 | no `channel` and no `item` give their failures; the only exception is the `None.text` error; with a channel and an item, the result is the first item's result |
| Feeds.ValidateAtomEntry | scripts/rss_feed_validator.py:452-528 | promo first; the image comes from the summary text, or the content text only when the summary is empty; a non-empty summary without a usable image fails without trying `content`; hotlink failure or success with URL, title and `href` link; source always `summary`; a valid result's caption is `_extract_caption` run on the image parser of that text, with the entry title and no description HTML |
| Feeds.ValidateAtom | scripts/rss_feed_validator.py:434-452 | no plain or namespaced `entry` gives the "No entries" failure; otherwise the result is the first entry's result |
| Feeds.ValidateFeed | scripts/rss_feed_validator.py:177-236 | request and parse failures map to their messages. A root `rss`/`…}rss` takes the RSS path, a root `feed`/`…}feed` the Atom path, and any other root tag gives "Unknown feed type: <tag>"; the result is then exactly the RSS result (an error inside it becomes "Unexpected error: …") or the Atom result. The enclosure-without-description case ends as "Unexpected error: …". A valid result implies a fetched document, and every result keeps the url and name and is coherent |
| Batch.ValidateMultipleFeeds | scripts/rss_feed_validator.py:600-621 | one result per entry. `valid` and `invalid` are the valid and invalid results in entry order, and together they are a permutation of all results. `len(valid) + len(invalid) == len(feeds)`. Valid results are coherent; invalid ones have an error and no image |
| Batch.KeepSplits | scripts/rss_feed_validator.py:612-619 | the valid and invalid lists together hold each result exactly once |
| Batch.KeepSound | scripts/rss_feed_validator.py:612-619 | a result in a list comes from the input and has that list's verdict |
| Batch.ResultsOfFacts | scripts/rss_feed_validator.py:612-613 | every result of a batch is coherent and carries the name and URL of its entry |
| Batch.SaveFailedFeedsReport | scripts/rss_feed_validator.py:637-658 | the report equals `ReportFor` of the failed results: no report for an empty list. Otherwise `total_failed` is the count and there is one entry per failed result, in order, with its name, url, error, feed type and `needs_investigation` |
| Sorting.SortBy | scripts/generate-options.py:278-292 | the sorted list is a permutation of the input, ordered by key |
| Sorting.SortByStable | scripts/generate-options.py:278-292 | elements with equal keys keep their relative order |
| Sorting.StrLessEqTotal | scripts/generate-options.py:292 | the key order compares any two strings |
| Sorting.StrLessEqTrans | scripts/generate-options.py:292 | the key order is transitive |
| Options.IsOtherLanguage | scripts/generate-options.py:38-47 | false for an empty name; otherwise true iff one of "en español", "espanol", "spanish" occurs in the lower-cased name, slug or author |
| Options.StrippedPieces | scripts/generate-options.py:53 | the kept pieces are exactly the non-empty stripped pieces; each is non-empty and stripped |
| Options.StrippedPiecesAvoid | scripts/generate-options.py:53 | stripping adds no character: pieces free of a character stay free of it, so no kept exclusion holds a comma |
| Options.GetExcludedFeeds | scripts/generate-options.py:50-57 | an empty variable gives `[]`; a URL is listed iff it is a non-empty stripped comma-separated piece; no listed URL is empty, holds a comma or has surrounding blanks |
| Options.ExcludedExactly | scripts/generate-options.py:110-112 | a URL is excluded iff it equals a non-empty stripped piece of `EXCLUSIONS` |
| Options.SingleExclusion | scripts/generate-options.py:110-112 | the exclusion test matches whole URLs: with one URL in `EXCLUSIONS`, that URL is excluded and no other, not even a longer one that starts with it |
| Options.OrderedMap.Put | scripts/generate-options.py:151 | a dict assignment keeps the dict well formed and sets the key's value; a new key goes last and an existing key keeps its place |
| Options.CollectFeeds | scripts/generate-options.py:141-189 | a category loop builds the dict the fold defines, and that dict is well formed |
| Options.FeedsOfKeys | scripts/generate-options.py:141-189 | a name is a key iff some eligible comic has it, and every value is `https://comiccaster.xyz/rss/` plus a slug |
| Options.FeedsOfLastWins | scripts/generate-options.py:151 | a repeated name keeps the URL of its last eligible comic |
| Options.RegularOrOtherLanguage | scripts/generate-options.py:141-172 | with unique names, a comic that has a slug and is neither political nor excluded is in exactly one of the regular and other-language dicts, chosen by the language test; a comic without a slug is in neither |
| Options.KeptExtras | scripts/generate-options.py:196-204 | the filtered extra feeds are well formed; every kept item is an original item whose URL is not excluded, and every original item whose URL is not excluded is kept |
| Options.FilterExtraFeeds | scripts/generate-options.py:196-204 | the extra-feed loop builds exactly that filtered dict |
| Options.ByName | scripts/generate-options.py:208 | the validated-extras dict is well formed; its keys are exactly the results' names and every value is the URL of one of the results |
| Options.ByNameLastWins | scripts/generate-options.py:208 | a repeated name keeps the URL of the last result carrying it |
| Options.ByNameCount | scripts/generate-options.py:208 | the dict has one key per distinct result name |
| Options.Filter | scripts/generate-options.py:248 | a list comprehension with a condition keeps exactly the elements that satisfy it |
| Options.CollectValidComics | scripts/generate-options.py:226-244 | the loop gives exactly the listed comics with a validated regular name, then those with a validated other-language name, and no comic lands in both |
| Options.ValidPolitical | scripts/generate-options.py:247-248 | a political comic is kept iff its `name` is among the validated political names |
| Options.DisplayName | scripts/generate-options.py:284 | the label is "name by author" iff the author is non-empty and differs from the name, and the bare name otherwise |
| Options.FeedOptionsOfFacts | scripts/generate-options.py:279-285 | one option per comic with a slug: every such comic's `{display name: feed URL}` option is offered, and every option is that of a comic with a slug |
| Options.ExtraOptionsOf | scripts/generate-options.py:288-289 | one option per validated extra feed |
| Options.ExtraOptionsOfFacts | scripts/generate-options.py:288-289 | every validated extra feed gives the option `{name: url}`, every option is such a pair, and no two options share a label |
| Options.ComicsOptions | scripts/generate-options.py:277-292 | the comics options are the options of the name-sorted regular comics, then the extra feeds, sorted by lower-cased label |
| Options.SlugOptions | scripts/generate-options.py:305-332 | one `{display name: slug}` option per comic, in name order |
| Options.ComicsOptionsCount | scripts/generate-options.py:250-292 | the comics field offers one option per regular comic plus one per validated extra feed |
| Options.ComicsOptionSources | scripts/generate-options.py:277-292 | every comics option is a feed URL, or the URL of an extra feed that is not excluded |
| Options.ValidatedExtraSources | scripts/generate-options.py:196-208 | the validated extra feeds' URLs come from `extra_feeds.yml` and are not excluded |
| Options.ValidateCategory | scripts/generate-options.py:139-191 | one category's feed loop followed by `validate_multiple_feeds`: the valid and invalid results of validating that category's feed dict |
| Options.ValidateExtras | scripts/generate-options.py:194-208 | the exclusion filter, `validate_multiple_feeds` and the `{name: url}` dict: the dict built from the valid results of the filtered extra feeds, and the invalid ones |
| Options.AssembleSettings | scripts/generate-options.py:226-332 | the loop over the validated comics, the political filter, the total and the three option lists give the settings `SettingsFrom` defines |
| Options.CreateUpdatedSettings | scripts/generate-options.py:115-332 | the written settings are `SettingsOf` the inputs: validation of the three categories and the filtered extras, the failed-feeds report over all invalid results in category order, and the assembled options |
| Options.SettingsCounts | scripts/generate-options.py:250-292 | `total_all` is the number of options across the three fields, and the comics options are sorted by lower-cased label |
| Options.SettingsComicsOptions | scripts/generate-options.py:226-292 | the comics field offers `{display name: feed URL}` for every comic that landed in `regular_comics` and `{name: url}` for every validated extra feed, and nothing else |
| Options.SettingsSlugOptions | scripts/generate-options.py:226-332 | the other-language and political fields offer `{display name: slug}` for exactly the comics that landed in those lists |
| Options.SlugOptionsOfMembers | scripts/generate-options.py:305-332 | the slug options of the name-sorted comics are one per comic and no other |
| Options.ValidatedExtrasOfSources | scripts/generate-options.py:194-208 | the URLs of `validated_extra_feeds` come from `extra_feeds.yml` and are not excluded |
| Options.SettingsOfSources | scripts/generate-options.py:194-292 | every option of the written comics field is a feed URL or a non-excluded URL of `extra_feeds.yml` |
| EnvFile.ParseLine | scripts/upload_plugin.py:44-48 | a parsed pair has a key free of `=` that neither starts with a blank nor starts a comment, and a value without a quote at either end |
| EnvFile.ParseLineShape | scripts/upload_plugin.py:44-48 | blank, `#` and `=`-free lines give nothing; otherwise the key is the trimmed line up to the first `=`, with no `=` in it, and the value is the rest with surrounding quotes removed |
| EnvFile.ParseLineRoundTrip | scripts/upload_plugin.py:47-48 | a `key=value` line whose key has no `=` and does not start a comment, and whose value has no blanks or quotes at its ends, reads back as that pair, even when the value holds `=` |
| EnvFile.LoadEnvFile | scripts/upload_plugin.py:40-49 | the loop builds the dict the fold over the lines defines |
| EnvFile.EnvOfKeys | scripts/upload_plugin.py:43-48 | a key is present iff some line parses to it |
| EnvFile.EnvOfLastWins | scripts/upload_plugin.py:48 | a key's value comes from the last line that parses to it |
| EnvFile.ResolveRoot | scripts/upload_plugin.py:52-54 | the parent is returned iff the current directory is named `scripts`, the current directory otherwise |
| Text.SplitJoin | scripts/generate-options.py:53 | splitting a join of `sep`-free pieces gives the pieces back |
| Text.StripWhereIdempotent | scripts/generate-options.py:53 | stripping twice is stripping once |
| Text.ContainsIff | scripts/generate-options.py:44 | substring membership means an occurrence at some position |
| Text.JoinSplit | scripts/generate-options.py:53 | joining the pieces of a split with the separator gives the string back |
| Text.LastSegment | scripts/rss_feed_validator.py:536 | the result is the longest slash-free suffix: a suffix without `/`, preceded by `/` unless it is the whole string |
| EnvFile.FoldKeys | scripts/upload_plugin.py:43-48 | a key is in the dict iff some parsed entry sets it |
| EnvFile.FoldLastWins | scripts/upload_plugin.py:48 | a key's value is the one set by the last entry that sets it |

## Left out

- HTTP traffic (`session.get`, `head`, timeouts, headers) is not modelled. The `Web` input gives, per URL, what the request would produce; the same request always gives the same answer.
- XML parsing, HTML tokenising, BeautifulSoup and `urlparse` are library code and are inputs of the model. `urlparse`'s `ValueError` on malformed URLs is not modelled.
- `_extract_caption`'s bare `except` around the BeautifulSoup lookup is not modelled. That lookup is a total function here.
- The regular expressions are written out as string predicates, not as a regex engine.
  - `\w`, `\d` and `str.isdigit` are approximated on ASCII.
  - `str.lower` is approximated on ASCII and Latin-1.
  - `re.IGNORECASE` is approximated by lowering the subject.
  - Blanks for `strip` and `\s` are the full set of characters Python's `str.isspace` accepts.
- Printing, the percentage summaries (floating point), YAML reading and dumping, file writes and the `datetime.now()` timestamp are left out. The report date is a parameter.
- The About text and the other fixed field contents of the settings file are left out. The model keeps the count, the three option lists and the report.
- In the comics JSON, a key with a `null` value is treated like a missing key, so `.get` defaults apply to it. The source behaves differently for a `null` name:
  - `is_other_language(None, …)` returns False, where the model tests the name "Unknown";
  - the feed dict gets the key `None`;
  - the option sort's `name.lower()` raises on it.
- Options.ByName: requires every result to carry a name. `validate_multiple_feeds` always passes one.
- Options.RegularOrOtherLanguage: requires unique comic names. With repeated names a later comic overwrites an earlier one (see Options.FeedsOfLastWins).
- Sorting.SortBy: Python's in-place Timsort is modelled as a pure stable sort on sequences with the same result, not as an in-place algorithm.
- `load_environment`, `get_comics_data`, the path helpers and `load_extra_feeds` are file and network access and are not modelled. `load_extra_feeds` arrives as a parsed ordered map.
- EnvFile.LoadEnvFile: the file arrives as its lines. Line splitting with universal newlines and file errors are not modelled.
- `scripts/generate_comic_overview.py`, `scripts/generate_rss_aggregator.py`, `scripts/test_rss_feed_validator.py` and the zip, upload and exit flow of `upload_plugin.main` are not part of this model.
