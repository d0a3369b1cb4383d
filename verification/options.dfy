/** The feed-selection side of `generate-options.py`: which comics become
    feeds in which category, which URLs the `EXCLUSIONS` variable removes,
    and the option lists (with the total) written to the plugin settings.

    A comic is one object of the comics-list JSON; a key that is missing is
    `None`. The extra feeds are the `{name: url}` mapping of `extra_feeds.yml`. */
module Options {
  import opened Wrappers
  import opened Text
  import opened Sorting
  import opened Html
  import opened Feeds
  import opened Batch

  datatype Comic = Comic(name: Option<string>, slug: Option<string>, author: Option<string>)

  const OtherLanguageKeywords: seq<string> := ["en espa\U{F1}ol", "espanol", "spanish"]
  const FeedUrlPrefix := "https://comiccaster.xyz/rss/"

  /** `comic.get("name", "Unknown")` */
  function NameOf(c: Comic): string {
    c.name.GetOr("Unknown")
  }

  /** `comic.get("author", "")` */
  function AuthorOf(c: Comic): string {
    c.author.GetOr("")
  }

  function FeedUrl(slug: string): string {
    FeedUrlPrefix + slug
  }

  predicate MentionedIn(keyword: string, name: string, slug: string, author: string) {
    Contains(name, keyword) || Contains(slug, keyword) || Contains(author, keyword)
  }

  /** The keyword search from position `i` of the keyword list on. */
  function KeywordFrom(name: string, slug: string, author: string, i: nat): (found: bool)
    requires i <= |OtherLanguageKeywords|
    ensures found <==> exists k :: i <= k < |OtherLanguageKeywords|
                                   && MentionedIn(OtherLanguageKeywords[k], name, slug, author)
    decreases |OtherLanguageKeywords| - i
  {
    if i == |OtherLanguageKeywords| then false
    else MentionedIn(OtherLanguageKeywords[i], name, slug, author) || KeywordFrom(name, slug, author, i + 1)
  }

  /** `is_other_language`: never for an empty name; otherwise some keyword
      occurs in the lower-cased name, slug or author. */
  function IsOtherLanguage(name: string, slug: string, author: string): (r: bool)
    ensures name == "" ==> !r
    ensures r <==> name != "" && exists k :: 0 <= k < |OtherLanguageKeywords|
                                   && MentionedIn(OtherLanguageKeywords[k], Lower(name), Lower(slug), Lower(author))
  {
    name != "" && KeywordFrom(Lower(name), Lower(slug), Lower(author), 0)
  }

  /** Stripping never brings in a character the string lacks. */
  lemma StripKeepsOut(s: string, c: char)
    requires c !in s
    ensures c !in Strip(s)
  {
  }

  /** `[p.strip() for p in parts if p.strip()]` */
  function StrippedPieces(parts: seq<string>): (r: seq<string>)
    ensures forall u :: u in r <==> u != "" && exists p :: p in parts && Strip(p) == u
    ensures forall i :: 0 <= i < |r| ==> r[i] != "" && Strip(r[i]) == r[i]
    decreases |parts|
  {
    if parts == [] then []
    else
      var t := Strip(parts[0]);
      StripWhereIdempotent(parts[0], IsSpace);
      var rest := StrippedPieces(parts[1..]);
      assert forall p :: p in parts <==> p == parts[0] || p in parts[1..];
      (if t != "" then [t] else []) + rest
  }

  /** A character that no piece holds is in no kept piece. */
  lemma {:induction false} StrippedPiecesAvoid(parts: seq<string>, c: char)
    requires forall p :: p in parts ==> c !in p
    ensures forall u :: u in StrippedPieces(parts) ==> c !in u
    decreases |parts|
  {
    if parts != [] {
      assert forall p :: p in parts[1..] ==> p in parts;
      StrippedPiecesAvoid(parts[1..], c);
      StripKeepsOut(parts[0], c);
    }
  }

  /** `get_excluded_feeds`: `EXCLUSIONS` (the empty string when unset) split
      on commas, each piece trimmed, empty pieces dropped. */
  function GetExcludedFeeds(exclusions: string): (r: seq<string>)
    ensures exclusions == "" ==> r == []
    ensures forall u :: u in r <==> u != "" && exists p :: p in Split(exclusions, ',') && Strip(p) == u
    ensures forall i :: 0 <= i < |r| ==> r[i] != "" && ',' !in r[i] && Strip(r[i]) == r[i]
  {
    if exclusions == "" then
      assert Split(exclusions, ',') == [""] by {
        assert IndexOf(exclusions, ',') == 0;
      }
      assert Strip("") == "";
      []
    else
      StrippedPiecesAvoid(Split(exclusions, ','), ',');
      StrippedPieces(Split(exclusions, ','))
  }

  /** `should_exclude_feed`: exact membership. */
  predicate ShouldExcludeFeed(feedUrl: string, excluded: seq<string>) {
    feedUrl in excluded
  }

  /** A URL is excluded exactly when it is one of the trimmed, non-empty
      comma-separated pieces of `EXCLUSIONS`. */
  lemma ExcludedExactly(exclusions: string, feedUrl: string)
    ensures ShouldExcludeFeed(feedUrl, GetExcludedFeeds(exclusions))
            <==> feedUrl != "" && exists p :: p in Split(exclusions, ',') && Strip(p) == feedUrl
  {
  }

  /** The match is on the whole URL: with one URL in `EXCLUSIONS`, that URL
      is excluded and no other, not even one that starts with it. */
  lemma SingleExclusion(excludedUrl: string, feedUrl: string)
    requires excludedUrl != "" && ',' !in excludedUrl && Strip(excludedUrl) == excludedUrl
    ensures ShouldExcludeFeed(feedUrl, GetExcludedFeeds(excludedUrl)) <==> feedUrl == excludedUrl
  {
    assert Split(excludedUrl, ',') == [excludedUrl] by {
      assert IndexOf(excludedUrl, ',') == |excludedUrl|;
    }
    ExcludedExactly(excludedUrl, feedUrl);
  }

  /** `political_slugs` */
  function PoliticalSlugs(political: seq<Comic>): set<string> {
    set c | c in political && Truthy(c.slug) :: c.slug.value
  }

  /** The three feed dicts `create_updated_settings` fills. */
  datatype Category = Regular | OtherLanguage | Political

  /** The condition under which a comic's feed goes into a category's dict. */
  predicate Eligible(c: Comic, cat: Category, politicalSlugs: set<string>, excluded: seq<string>) {
    Truthy(c.slug) && !ShouldExcludeFeed(FeedUrl(c.slug.value), excluded) &&
    match cat
    case Regular => !IsOtherLanguage(NameOf(c), c.slug.value, AuthorOf(c)) && c.slug.value !in politicalSlugs
    case OtherLanguage => IsOtherLanguage(NameOf(c), c.slug.value, AuthorOf(c)) && c.slug.value !in politicalSlugs
    case Political => true
  }

  /** A Python `dict` of strings: keys in insertion order, values by key. */
  datatype OrderedMap = OrderedMap(keys: seq<string>, values: map<string, string>) {
    predicate Valid() {
      && (forall i, j :: 0 <= i < j < |keys| ==> keys[i] != keys[j])
      && (forall k :: k in keys ==> k in values)
      && (forall k :: k in values ==> k in keys)
    }

    /** `d[k] = v`: a new key goes last, an existing key keeps its place. */
    function Put(k: string, v: string): (m: OrderedMap)
      ensures Valid() ==> m.Valid()
      ensures m.values == values[k := v]
      ensures m.keys == if k in values then keys else keys + [k]
    {
      if k in values then OrderedMap(keys, values[k := v]) else OrderedMap(keys + [k], values[k := v])
    }

    /** `d.items()` */
    function Items(): seq<(string, string)>
      requires Valid()
    {
      seq(|keys|, i requires 0 <= i < |keys| => (keys[i], values[keys[i]]))
    }
  }

  const EmptyMap := OrderedMap([], map[])

  /** The dict the category's loop leaves behind. */
  function FeedsOf(comics: seq<Comic>, cat: Category, politicalSlugs: set<string>, excluded: seq<string>)
    : OrderedMap
    decreases |comics|
  {
    if comics == [] then EmptyMap
    else
      var m := FeedsOf(comics[..|comics| - 1], cat, politicalSlugs, excluded);
      var c := comics[|comics| - 1];
      if Eligible(c, cat, politicalSlugs, excluded) then m.Put(NameOf(c), FeedUrl(c.slug.value)) else m
  }

  lemma {:induction false} FeedsOfValid(comics: seq<Comic>, cat: Category, politicalSlugs: set<string>, excluded: seq<string>)
    ensures FeedsOf(comics, cat, politicalSlugs, excluded).Valid()
    decreases |comics|
  {
    if comics != [] {
      FeedsOfValid(comics[..|comics| - 1], cat, politicalSlugs, excluded);
    }
  }

  /** One of the three feed-partition loops. */
  method CollectFeeds(comics: seq<Comic>, cat: Category, politicalSlugs: set<string>, excluded: seq<string>)
    returns (feeds: OrderedMap)
    ensures feeds == FeedsOf(comics, cat, politicalSlugs, excluded)
    ensures feeds.Valid()
  {
    feeds := EmptyMap;
    var i := 0;
    while i < |comics|
      invariant 0 <= i <= |comics|
      invariant feeds == FeedsOf(comics[..i], cat, politicalSlugs, excluded)
    {
      var c := comics[i];
      assert comics[..i + 1][..i] == comics[..i];
      if Eligible(c, cat, politicalSlugs, excluded) {
        feeds := feeds.Put(NameOf(c), FeedUrl(c.slug.value));
      }
      i := i + 1;
    }
    assert comics[..i] == comics;
    FeedsOfValid(comics, cat, politicalSlugs, excluded);
  }

  /** A name is a key exactly when some eligible comic carries it, and every
      value is a feed URL. */
  lemma {:induction false} FeedsOfKeys(comics: seq<Comic>, cat: Category, politicalSlugs: set<string>, excluded: seq<string>)
    ensures forall name :: name in FeedsOf(comics, cat, politicalSlugs, excluded).values <==>
              exists i :: 0 <= i < |comics| && Eligible(comics[i], cat, politicalSlugs, excluded) && NameOf(comics[i]) == name
    ensures forall name :: name in FeedsOf(comics, cat, politicalSlugs, excluded).values ==>
              FeedUrlPrefix <= FeedsOf(comics, cat, politicalSlugs, excluded).values[name]
    decreases |comics|
  {
    if comics != [] {
      var init := comics[..|comics| - 1];
      var c := comics[|comics| - 1];
      FeedsOfKeys(init, cat, politicalSlugs, excluded);
      assert forall i :: 0 <= i < |init| ==> init[i] == comics[i];
      var m0 := FeedsOf(init, cat, politicalSlugs, excluded);
      var m := FeedsOf(comics, cat, politicalSlugs, excluded);
      if Eligible(c, cat, politicalSlugs, excluded) {
        assert m.values == m0.values[NameOf(c) := FeedUrl(c.slug.value)];
        assert FeedUrlPrefix <= FeedUrl(c.slug.value);
      } else {
        assert m == m0;
      }
      forall name
        ensures name in m.values <==>
          exists i :: 0 <= i < |comics| && Eligible(comics[i], cat, politicalSlugs, excluded) && NameOf(comics[i]) == name
      {
        if name in m0.values {
          var i :| 0 <= i < |init| && Eligible(init[i], cat, politicalSlugs, excluded) && NameOf(init[i]) == name;
          assert comics[i] == init[i];
        } else if name in m.values {
          assert Eligible(c, cat, politicalSlugs, excluded) && NameOf(c) == name;
          assert comics[|comics| - 1] == c;
        }
        if exists i :: 0 <= i < |comics| && Eligible(comics[i], cat, politicalSlugs, excluded) && NameOf(comics[i]) == name {
          var i :| 0 <= i < |comics| && Eligible(comics[i], cat, politicalSlugs, excluded) && NameOf(comics[i]) == name;
          if i < |init| {
            assert init[i] == comics[i];
          }
        }
      }
      forall name | name in m.values
        ensures FeedUrlPrefix <= m.values[name]
      {
        if name !in m0.values || (Eligible(c, cat, politicalSlugs, excluded) && name == NameOf(c)) {
          assert m.values[name] == FeedUrl(c.slug.value);
        } else {
          assert m.values[name] == m0.values[name];
        }
      }
    }
  }

  /** A repeated name keeps the URL of its last eligible comic. */
  lemma {:induction false} FeedsOfLastWins(comics: seq<Comic>, cat: Category, politicalSlugs: set<string>,
                                           excluded: seq<string>, i: nat)
    requires i < |comics| && Eligible(comics[i], cat, politicalSlugs, excluded)
    requires forall j :: i < j < |comics| && Eligible(comics[j], cat, politicalSlugs, excluded)
                         ==> NameOf(comics[j]) != NameOf(comics[i])
    ensures var m := FeedsOf(comics, cat, politicalSlugs, excluded);
            NameOf(comics[i]) in m.values && m.values[NameOf(comics[i])] == FeedUrl(comics[i].slug.value)
    decreases |comics|
  {
    if i < |comics| - 1 {
      var init := comics[..|comics| - 1];
      assert init[i] == comics[i];
      FeedsOfLastWins(init, cat, politicalSlugs, excluded, i);
    }
  }

  /** With unique names, a listed comic (a slug, not political, not excluded)
      is a regular or an other-language feed and never both, decided by the
      language test; a comic without a slug is neither. */
  lemma RegularOrOtherLanguage(comics: seq<Comic>, politicalSlugs: set<string>, excluded: seq<string>, i: nat)
    requires forall a, b :: 0 <= a < b < |comics| ==> NameOf(comics[a]) != NameOf(comics[b])
    requires i < |comics|
    ensures Listed(comics[i], politicalSlugs, excluded) ==>
              && (NameOf(comics[i]) in FeedsOf(comics, Regular, politicalSlugs, excluded).values
                  <==> !IsOtherLanguage(NameOf(comics[i]), comics[i].slug.value, AuthorOf(comics[i])))
              && ((NameOf(comics[i]) in FeedsOf(comics, Regular, politicalSlugs, excluded).values)
                  != (NameOf(comics[i]) in FeedsOf(comics, OtherLanguage, politicalSlugs, excluded).values))
    ensures !Truthy(comics[i].slug) ==>
              && NameOf(comics[i]) !in FeedsOf(comics, Regular, politicalSlugs, excluded).values
              && NameOf(comics[i]) !in FeedsOf(comics, OtherLanguage, politicalSlugs, excluded).values
  {
    var c := comics[i];
    FeedsOfKeys(comics, Regular, politicalSlugs, excluded);
    FeedsOfKeys(comics, OtherLanguage, politicalSlugs, excluded);
    assert forall j :: 0 <= j < |comics| && NameOf(comics[j]) == NameOf(c) ==> j == i;
  }

  /** The items of `d` whose URL is not excluded (the extra-feeds filter). */
  function KeptExtras(keys: seq<string>, values: map<string, string>, excluded: seq<string>): (m: OrderedMap)
    requires forall k :: k in keys ==> k in values
    ensures m.Valid()
    ensures forall k :: k in m.values ==> k in values && m.values[k] == values[k]
                                          && !ShouldExcludeFeed(values[k], excluded)
    ensures forall k :: k in keys && !ShouldExcludeFeed(values[k], excluded) ==> k in m.values
    decreases |keys|
  {
    if keys == [] then EmptyMap
    else
      var m := KeptExtras(keys[..|keys| - 1], values, excluded);
      var k := keys[|keys| - 1];
      if !ShouldExcludeFeed(values[k], excluded) then m.Put(k, values[k]) else m
  }

  /** The extra-feeds loop building `filtered_extra_feeds`. */
  method FilterExtraFeeds(extraFeeds: OrderedMap, excluded: seq<string>) returns (filtered: OrderedMap)
    requires extraFeeds.Valid()
    ensures filtered == KeptExtras(extraFeeds.keys, extraFeeds.values, excluded)
  {
    filtered := EmptyMap;
    var keys := extraFeeds.keys;
    var i := 0;
    while i < |keys|
      invariant 0 <= i <= |keys|
      invariant filtered == KeptExtras(keys[..i], extraFeeds.values, excluded)
    {
      var name := keys[i];
      var url := extraFeeds.values[name];
      assert keys[..i + 1][..i] == keys[..i];
      if !ShouldExcludeFeed(url, excluded) {
        filtered := filtered.Put(name, url);
      }
      i := i + 1;
    }
    assert keys[..i] == keys;
  }

  /** `{result.name: result.url for result in rs}` */
  function ByName(rs: seq<ValidationResult>): (m: OrderedMap)
    requires forall r :: r in rs ==> r.name.Some?
    ensures m.Valid()
    ensures forall k :: k in m.values <==> k in NamesOf(rs)
    ensures forall k :: k in m.values ==> exists r :: r in rs && m.values[k] == r.url
    decreases |rs|
  {
    if rs == [] then EmptyMap
    else
      var init := rs[..|rs| - 1];
      var last := rs[|rs| - 1];
      assert rs == init + [last];
      assert forall r :: r in init ==> r in rs;
      var m := ByName(init);
      assert NamesOf(rs) == NamesOf(init) + {last.name.value};
      m.Put(last.name.value, last.url)
  }

  /** `{result.name for result in rs}` */
  function NamesOf(rs: seq<ValidationResult>): set<string> {
    set r | r in rs && r.name.Some? :: r.name.value
  }

  /** A name's URL is that of the last result carrying the name. */
  lemma {:induction false} ByNameLastWins(rs: seq<ValidationResult>, i: nat)
    requires forall r :: r in rs ==> r.name.Some?
    requires i < |rs|
    requires forall j :: i < j < |rs| ==> rs[j].name != rs[i].name
    ensures rs[i].name.value in ByName(rs).values
    ensures ByName(rs).values[rs[i].name.value] == rs[i].url
    decreases |rs|
  {
    if i < |rs| - 1 {
      var init := rs[..|rs| - 1];
      assert forall r :: r in init ==> r in rs;
      assert init[i] == rs[i];
      ByNameLastWins(init, i);
    }
  }

  /** A sequence without repeats has as many elements as its set. */
  lemma {:induction false} DistinctCard(keys: seq<string>)
    requires forall i, j :: 0 <= i < j < |keys| ==> keys[i] != keys[j]
    ensures |set k | k in keys| == |keys|
    decreases |keys|
  {
    if keys != [] {
      var init := keys[..|keys| - 1];
      DistinctCard(init);
      var last := keys[|keys| - 1];
      assert (set k | k in keys) == (set k | k in init) + {last};
      assert last !in init;
    }
  }

  /** The dict has one entry per distinct name, so `len()` of it counts the
      names. */
  lemma ByNameCount(rs: seq<ValidationResult>)
    requires forall r :: r in rs ==> r.name.Some?
    ensures |ByName(rs).keys| == |NamesOf(rs)|
  {
    var m := ByName(rs);
    DistinctCard(m.keys);
    assert (set k | k in m.keys) == NamesOf(rs);
  }

  /** The elements of `s` that satisfy `p`, in order. */
  function Filter<T(!new)>(s: seq<T>, p: T -> bool): (r: seq<T>)
    ensures |r| <= |s|
    ensures forall x :: x in r <==> x in s && p(x)
    decreases |s|
  {
    if s == [] then []
    else
      var init := s[..|s| - 1];
      assert s == init + [s[|s| - 1]];
      Filter(init, p) + (if p(s[|s| - 1]) then [s[|s| - 1]] else [])
  }

  /** A comic that still has a feed (a slug, not political, not excluded). */
  predicate Listed(c: Comic, politicalSlugs: set<string>, excluded: seq<string>) {
    Truthy(c.slug) && c.slug.value !in politicalSlugs && !ShouldExcludeFeed(FeedUrl(c.slug.value), excluded)
  }

  /** The comic goes to `regular_comics` (`cat == Regular`) or to
      `other_language_comics`: a validated regular name wins over a validated
      other-language one. */
  predicate Lands(c: Comic, cat: Category, politicalSlugs: set<string>, excluded: seq<string>,
                  validRegular: set<string>, validOther: set<string>) {
    Listed(c, politicalSlugs, excluded) &&
    if cat == Regular then NameOf(c) in validRegular
    else NameOf(c) !in validRegular && NameOf(c) in validOther
  }

  function ValidComicsOf(comics: seq<Comic>, cat: Category, politicalSlugs: set<string>, excluded: seq<string>,
                         validRegular: set<string>, validOther: set<string>): seq<Comic> {
    Filter(comics, (c: Comic) => Lands(c, cat, politicalSlugs, excluded, validRegular, validOther))
  }

  /** The loop that separates the validated regular and other-language
      comics. */
  method CollectValidComics(comics: seq<Comic>, politicalSlugs: set<string>, excluded: seq<string>,
                            validRegular: set<string>, validOther: set<string>)
    returns (regular: seq<Comic>, other: seq<Comic>)
    ensures regular == ValidComicsOf(comics, Regular, politicalSlugs, excluded, validRegular, validOther)
    ensures other == ValidComicsOf(comics, OtherLanguage, politicalSlugs, excluded, validRegular, validOther)
    ensures forall c :: c in regular ==> c in comics && Listed(c, politicalSlugs, excluded) && NameOf(c) in validRegular
    ensures forall c :: c in other ==> c in comics && Listed(c, politicalSlugs, excluded) && NameOf(c) in validOther
    ensures forall c :: c in regular ==> c !in other
  {
    regular, other := [], [];
    var i := 0;
    while i < |comics|
      invariant 0 <= i <= |comics|
      invariant regular == ValidComicsOf(comics[..i], Regular, politicalSlugs, excluded, validRegular, validOther)
      invariant other == ValidComicsOf(comics[..i], OtherLanguage, politicalSlugs, excluded, validRegular, validOther)
    {
      var c := comics[i];
      assert comics[..i + 1][..i] == comics[..i];
      assert comics[..i + 1][i] == c;
      if Listed(c, politicalSlugs, excluded) {
        if NameOf(c) in validRegular {
          regular := regular + [c];
        } else if NameOf(c) in validOther {
          other := other + [c];
        }
      }
      i := i + 1;
    }
    assert comics[..i] == comics;
  }

  /** The political comics whose `name` key (no default here) is among the
      validated political names. */
  function ValidPolitical(political: seq<Comic>, validNames: set<string>): (r: seq<Comic>)
    ensures forall c :: c in r <==> c in political && c.name.Some? && c.name.value in validNames
  {
    Filter(political, (c: Comic) => c.name.Some? && c.name.value in validNames)
  }

  /** One entry of a select field's `options`: `{label: value}`. */
  datatype OptionEntry = OptionEntry(display: string, value: string)

  /** `f"{name} by {author}" if author and author != name else name` */
  function DisplayName(name: string, author: string): (r: string)
    ensures r == name + " by " + author <==> author != "" && author != name
    ensures r == name <==> author == "" || author == name
  {
    if author != "" && author != name then name + " by " + author else name
  }

  function NameKey(c: Comic): string {
    Lower(NameOf(c))
  }

  function LabelKey(o: OptionEntry): string {
    Lower(o.display)
  }

  /** The comics-field option of a comic with a slug: its display name and
      its feed URL. */
  function FeedOption(c: Comic): OptionEntry
    requires c.slug.Some?
  {
    OptionEntry(DisplayName(NameOf(c), AuthorOf(c)), FeedUrl(c.slug.value))
  }

  /** The option a comic gets in the other-language or political field: its
      display name and its slug. */
  function SlugOption(c: Comic): OptionEntry {
    OptionEntry(DisplayName(NameOf(c), AuthorOf(c)), SlugOrUnknown(c))
  }

  predicate HasSlug(c: Comic) {
    Truthy(c.slug)
  }

  /** The options of the comics field built from comics (those with a slug). */
  function FeedOptionsOf(comics: seq<Comic>): seq<OptionEntry>
    decreases |comics|
  {
    if comics == [] then []
    else
      var init := FeedOptionsOf(comics[..|comics| - 1]);
      var c := comics[|comics| - 1];
      if Truthy(c.slug) then init + [FeedOption(c)] else init
  }

  lemma FeedOptionsOfSnoc(comics: seq<Comic>, i: nat)
    requires i < |comics|
    ensures FeedOptionsOf(comics[..i + 1])
            == FeedOptionsOf(comics[..i])
               + (if Truthy(comics[i].slug) then [FeedOption(comics[i])] else [])
  {
    assert comics[..i + 1][..i] == comics[..i];
  }

  /** The comics with a slug give one option each, and the options are
      exactly theirs: display name and feed URL. */
  lemma {:induction false} FeedOptionsOfFacts(comics: seq<Comic>)
    ensures |FeedOptionsOf(comics)| == |Filter(comics, HasSlug)|
    ensures (forall c :: c in comics ==> Truthy(c.slug)) ==> |FeedOptionsOf(comics)| == |comics|
    ensures forall c :: c in comics && Truthy(c.slug) ==> FeedOption(c) in FeedOptionsOf(comics)
    ensures forall o :: o in FeedOptionsOf(comics) ==> exists c :: c in comics && Truthy(c.slug) && o == FeedOption(c)
    decreases |comics|
  {
    if comics != [] {
      var init := comics[..|comics| - 1];
      var last := comics[|comics| - 1];
      assert comics == init + [last];
      assert forall c :: c in init ==> c in comics;
      assert forall c :: c in comics ==> c in init || c == last;
      FeedOptionsOfFacts(init);
    }
  }

  /** The options the validated extra feeds add: `{name: url}`. */
  function ExtraOptionsOf(extras: OrderedMap): (r: seq<OptionEntry>)
    requires extras.Valid()
    ensures |r| == |extras.keys|
  {
    seq(|extras.keys|, i requires 0 <= i < |extras.keys| => OptionEntry(extras.keys[i], extras.values[extras.keys[i]]))
  }

  /** Every extra feed gets exactly one option, `{name: url}`, and no other
      option is added. */
  lemma ExtraOptionsOfFacts(extras: OrderedMap)
    requires extras.Valid()
    ensures forall o :: o in ExtraOptionsOf(extras) ==> o.display in extras.values && o.value == extras.values[o.display]
    ensures forall k :: k in extras.values ==> OptionEntry(k, extras.values[k]) in ExtraOptionsOf(extras)
    ensures forall i, j :: 0 <= i < j < |ExtraOptionsOf(extras)| ==>
              ExtraOptionsOf(extras)[i].display != ExtraOptionsOf(extras)[j].display
  {
    var r := ExtraOptionsOf(extras);
    forall k | k in extras.values
      ensures OptionEntry(k, extras.values[k]) in r
    {
      var i :| 0 <= i < |extras.keys| && extras.keys[i] == k;
      assert r[i] == OptionEntry(k, extras.values[k]);
    }
  }

  /** Appending the next element of `b` to `a + b[..j]`. */
  lemma AppendNext<T>(a: seq<T>, b: seq<T>, j: nat)
    requires j < |b|
    ensures a + b[..j] + [b[j]] == a + b[..j + 1]
  {
    assert b[..j + 1] == b[..j] + [b[j]];
  }

  /** `comics_options`: the regular comics sorted by lower-cased name, each
      with a slug turned into an option, then the extra feeds, and the whole
      list sorted again by lower-cased label. */
  method ComicsOptions(regularComics: seq<Comic>, extras: OrderedMap) returns (options: seq<OptionEntry>)
    requires extras.Valid()
    ensures options == SortBy(FeedOptionsOf(SortBy(regularComics, NameKey)) + ExtraOptionsOf(extras), LabelKey)
  {
    var sorted := SortBy(regularComics, NameKey);
    options := [];
    var i := 0;
    while i < |sorted|
      invariant 0 <= i <= |sorted|
      invariant options == FeedOptionsOf(sorted[..i])
    {
      var c := sorted[i];
      FeedOptionsOfSnoc(sorted, i);
      if Truthy(c.slug) {
        options := options + [FeedOption(c)];
      }
      i := i + 1;
    }
    assert sorted[..i] == sorted;
    var extraOptions := ExtraOptionsOf(extras);
    var j := 0;
    while j < |extras.keys|
      invariant 0 <= j <= |extras.keys|
      invariant options == FeedOptionsOf(sorted) + extraOptions[..j]
    {
      var name := extras.keys[j];
      options := options + [OptionEntry(name, extras.values[name])];
      AppendNext(FeedOptionsOf(sorted), extraOptions, j);
      j := j + 1;
    }
    assert extraOptions[..j] == extraOptions;
    options := SortBy(options, LabelKey);
  }

  /** `comic.get("slug", "unknown")` */
  function SlugOrUnknown(c: Comic): string {
    c.slug.GetOr("unknown")
  }

  function SlugOptionsOf(comics: seq<Comic>): (r: seq<OptionEntry>)
    ensures |r| == |comics|
  {
    seq(|comics|, i requires 0 <= i < |comics| => SlugOption(comics[i]))
  }

  /** `other_lang_options` and `political_options`: sorted by lower-cased
      name, one `{display name: slug}` option per comic. */
  method SlugOptions(comics: seq<Comic>) returns (options: seq<OptionEntry>)
    ensures options == SlugOptionsOf(SortBy(comics, NameKey))
    ensures |options| == |comics|
  {
    var sorted := SortBy(comics, NameKey);
    options := [];
    var i := 0;
    while i < |sorted|
      invariant 0 <= i <= |sorted|
      invariant options == SlugOptionsOf(sorted[..i])
    {
      var c := sorted[i];
      options := options + [SlugOption(c)];
      i := i + 1;
    }
    assert sorted[..i] == sorted;
  }

  /** What `create_updated_settings` writes: the count in the About text,
      the three option lists, and the failed-feeds report. */
  datatype Settings = Settings(
    totalAll: nat,
    comicsOptions: seq<OptionEntry>,
    otherLanguageOptions: seq<OptionEntry>,
    politicalOptions: seq<OptionEntry>,
    failedReport: Option<Report>)

  /** `x in SortBy(s, key)` only for members of `s`. */
  lemma InSorted<T>(s: seq<T>, key: T -> string, x: T)
    requires x in SortBy(s, key)
    ensures x in s
  {
    assert x in multiset(SortBy(s, key));
  }

  /** Where every comics option comes from: a feed URL, or the URL of an
      extra feed that is not excluded. */
  lemma ComicsOptionSources(regularComics: seq<Comic>, validated: OrderedMap, extraFeeds: OrderedMap,
                            excluded: seq<string>, o: OptionEntry)
    requires validated.Valid()
    requires forall k :: k in validated.values ==> validated.values[k] in extraFeeds.values.Values
                                                   && !ShouldExcludeFeed(validated.values[k], excluded)
    requires o in SortBy(FeedOptionsOf(SortBy(regularComics, NameKey)) + ExtraOptionsOf(validated), LabelKey)
    ensures FeedUrlPrefix <= o.value || (o.value in extraFeeds.values.Values && !ShouldExcludeFeed(o.value, excluded))
  {
    InSorted(FeedOptionsOf(SortBy(regularComics, NameKey)) + ExtraOptionsOf(validated), LabelKey, o);
    if o in FeedOptionsOf(SortBy(regularComics, NameKey)) {
      FeedOptionsOfFacts(SortBy(regularComics, NameKey));
    }
  }

  /** The comics options number the regular comics (all of which have a
      slug) plus the validated extra feeds. */
  lemma ComicsOptionsCount(regularComics: seq<Comic>, validated: OrderedMap)
    requires validated.Valid()
    requires forall c :: c in regularComics ==> Truthy(c.slug)
    ensures |SortBy(FeedOptionsOf(SortBy(regularComics, NameKey)) + ExtraOptionsOf(validated), LabelKey)|
            == |regularComics| + |validated.keys|
  {
    var sorted := SortBy(regularComics, NameKey);
    forall c | c in sorted ensures Truthy(c.slug) {
      InSorted(regularComics, NameKey, c);
    }
    FeedOptionsOfFacts(sorted);
  }

  /** The URLs of the validated extra feeds are URLs of `extra_feeds.yml`
      that are not excluded. */
  lemma ValidatedExtraSources(extraFeeds: OrderedMap, excluded: seq<string>, extraValid: seq<ValidationResult>)
    requires extraFeeds.Valid()
    requires forall r :: r in extraValid ==>
               r.name.Some? && (r.name.value, r.url) in KeptExtras(extraFeeds.keys, extraFeeds.values, excluded).Items()
    ensures forall k :: k in ByName(extraValid).values ==>
              && ByName(extraValid).values[k] in extraFeeds.values.Values
              && !ShouldExcludeFeed(ByName(extraValid).values[k], excluded)
  {
    var filtered := KeptExtras(extraFeeds.keys, extraFeeds.values, excluded);
    var validated := ByName(extraValid);
    forall k | k in validated.values
      ensures validated.values[k] in extraFeeds.values.Values && !ShouldExcludeFeed(validated.values[k], excluded)
    {
      var r :| r in extraValid && validated.values[k] == r.url;
      var items := filtered.Items();
      var n :| 0 <= n < |items| && items[n] == (r.name.value, r.url);
      var key := filtered.keys[n];
      assert items[n] == (key, filtered.values[key]);
      assert key in filtered.values;
      assert extraFeeds.values[key] == r.url;
    }
  }

  /** `validate_multiple_feeds(d)`: the results whose verdict is `wanted`. */
  function ValidatedAs(libs: Libs, web: Web, feeds: OrderedMap, wanted: bool): seq<ValidationResult>
    requires feeds.Valid()
  {
    Keep(ResultsOf(libs, web, feeds.Items()), wanted)
  }

  /** The feed dict of one category, built from `list` (`comics_data` or
      `political_data`). */
  function CategoryFeeds(list: seq<Comic>, cat: Category, politicalSlugs: set<string>, excluded: seq<string>)
    : (m: OrderedMap)
    ensures m.Valid()
  {
    FeedsOfValid(list, cat, politicalSlugs, excluded);
    FeedsOf(list, cat, politicalSlugs, excluded)
  }

  /** The names whose feed in that category validated. */
  function ValidNamesOf(libs: Libs, web: Web, list: seq<Comic>, cat: Category, politicalSlugs: set<string>,
                        excluded: seq<string>): set<string> {
    NamesOf(ValidatedAs(libs, web, CategoryFeeds(list, cat, politicalSlugs, excluded), true))
  }

  /** `validated_extra_feeds`, from `filtered_extra_feeds`. */
  function ValidatedExtrasOf(libs: Libs, web: Web, extraFeeds: OrderedMap, excluded: seq<string>): (m: OrderedMap)
    requires extraFeeds.Valid()
    ensures m.Valid()
  {
    var filtered := KeptExtras(extraFeeds.keys, extraFeeds.values, excluded);
    KeepSound(ResultsOf(libs, web, filtered.Items()), true);
    ResultsOfFacts(libs, web, filtered.Items());
    ByName(ValidatedAs(libs, web, filtered, true))
  }

  /** `all_invalid_results`: regular, other-language, political, then extra. */
  function FailedOf(libs: Libs, web: Web, comics: seq<Comic>, political: seq<Comic>, extraFeeds: OrderedMap,
                    politicalSlugs: set<string>, excluded: seq<string>): seq<ValidationResult>
    requires extraFeeds.Valid()
  {
    ValidatedAs(libs, web, CategoryFeeds(comics, Regular, politicalSlugs, excluded), false)
    + ValidatedAs(libs, web, CategoryFeeds(comics, OtherLanguage, politicalSlugs, excluded), false)
    + ValidatedAs(libs, web, CategoryFeeds(political, Political, politicalSlugs, excluded), false)
    + ValidatedAs(libs, web, KeptExtras(extraFeeds.keys, extraFeeds.values, excluded), false)
  }

  /** What `create_updated_settings` assembles once the feeds are validated:
      `validRegular`, `validOther` and `validPolitical` are the names whose
      feed validated in each category, `extras` is `validated_extra_feeds`
      and `report` the failed-feeds report. */
  function SettingsFrom(comics: seq<Comic>, political: seq<Comic>, politicalSlugs: set<string>, excluded: seq<string>,
                        validRegular: set<string>, validOther: set<string>, validPolitical: set<string>,
                        extras: OrderedMap, report: Option<Report>): Settings
    requires extras.Valid()
  {
    var regular := ValidComicsOf(comics, Regular, politicalSlugs, excluded, validRegular, validOther);
    var other := ValidComicsOf(comics, OtherLanguage, politicalSlugs, excluded, validRegular, validOther);
    var politicalComics := ValidPolitical(political, validPolitical);
    Settings(
      |regular| + |other| + |politicalComics| + |extras.keys|,
      SortBy(FeedOptionsOf(SortBy(regular, NameKey)) + ExtraOptionsOf(extras), LabelKey),
      SlugOptionsOf(SortBy(other, NameKey)),
      SlugOptionsOf(SortBy(politicalComics, NameKey)),
      report)
  }

  /** What `create_updated_settings` writes, in terms of its inputs. */
  function SettingsOf(libs: Libs, web: Web, exclusions: string, comics: seq<Comic>, political: seq<Comic>,
                      extraFeeds: OrderedMap, reportDate: string): Settings
    requires extraFeeds.Valid()
  {
    var excluded := GetExcludedFeeds(exclusions);
    var slugs := PoliticalSlugs(political);
    SettingsFrom(comics, political, slugs, excluded,
                 ValidNamesOf(libs, web, comics, Regular, slugs, excluded),
                 ValidNamesOf(libs, web, comics, OtherLanguage, slugs, excluded),
                 ValidNamesOf(libs, web, political, Political, slugs, excluded),
                 ValidatedExtrasOf(libs, web, extraFeeds, excluded),
                 ReportFor(FailedOf(libs, web, comics, political, extraFeeds, slugs, excluded), reportDate))
  }

  /** `x in SortBy(s, key)` exactly for the members of `s`. */
  lemma InSortedIff<T>(s: seq<T>, key: T -> string, x: T)
    ensures x in SortBy(s, key) <==> x in s
  {
    assert x in multiset(SortBy(s, key)) <==> x in multiset(s);
  }

  /** `total_all` is the number of options offered in the three fields, and
      the comics field is in label order. */
  lemma SettingsCounts(comics: seq<Comic>, political: seq<Comic>, politicalSlugs: set<string>, excluded: seq<string>,
                       validRegular: set<string>, validOther: set<string>, validPolitical: set<string>,
                       extras: OrderedMap, report: Option<Report>)
    requires extras.Valid()
    ensures var s := SettingsFrom(comics, political, politicalSlugs, excluded, validRegular, validOther,
                                  validPolitical, extras, report);
            && s.totalAll == |s.comicsOptions| + |s.otherLanguageOptions| + |s.politicalOptions|
            && SortedBy(s.comicsOptions, LabelKey)
  {
    var regular := ValidComicsOf(comics, Regular, politicalSlugs, excluded, validRegular, validOther);
    ComicsOptionsCount(regular, extras);
  }

  /** The comics field offers `{display name: feed URL}` for every comic that
      landed in `regular_comics` and `{name: url}` for every validated extra
      feed, and nothing else. */
  lemma SettingsComicsOptions(comics: seq<Comic>, political: seq<Comic>, politicalSlugs: set<string>,
                              excluded: seq<string>, validRegular: set<string>, validOther: set<string>,
                              validPolitical: set<string>, extras: OrderedMap, report: Option<Report>)
    requires extras.Valid()
    ensures var s := SettingsFrom(comics, political, politicalSlugs, excluded, validRegular, validOther,
                                  validPolitical, extras, report);
            && (forall c :: c in comics && Lands(c, Regular, politicalSlugs, excluded, validRegular, validOther) ==>
                  FeedOption(c) in s.comicsOptions)
            && (forall k :: k in extras.values ==> OptionEntry(k, extras.values[k]) in s.comicsOptions)
            && (forall o :: o in s.comicsOptions ==>
                  || (exists c :: c in comics && Lands(c, Regular, politicalSlugs, excluded, validRegular, validOther)
                                 && o == FeedOption(c))
                  || (o.display in extras.values && o.value == extras.values[o.display]))
  {
    var regular := ValidComicsOf(comics, Regular, politicalSlugs, excluded, validRegular, validOther);
    var sorted := SortBy(regular, NameKey);
    var all := FeedOptionsOf(sorted) + ExtraOptionsOf(extras);
    FeedOptionsOfFacts(sorted);
    ExtraOptionsOfFacts(extras);
    forall c | c in comics && Lands(c, Regular, politicalSlugs, excluded, validRegular, validOther)
      ensures FeedOption(c) in SortBy(all, LabelKey)
    {
      InSortedIff(regular, NameKey, c);
      InSortedIff(all, LabelKey, FeedOption(c));
    }
    forall k | k in extras.values ensures OptionEntry(k, extras.values[k]) in SortBy(all, LabelKey) {
      InSortedIff(all, LabelKey, OptionEntry(k, extras.values[k]));
    }
    forall o | o in SortBy(all, LabelKey)
      ensures || (exists c :: c in comics && Lands(c, Regular, politicalSlugs, excluded, validRegular, validOther)
                              && o == FeedOption(c))
              || (o.display in extras.values && o.value == extras.values[o.display])
    {
      InSortedIff(all, LabelKey, o);
      if o in FeedOptionsOf(sorted) {
        var c :| c in sorted && Truthy(c.slug) && o == FeedOption(c);
        InSortedIff(regular, NameKey, c);
      }
    }
  }

  /** The other-language and political fields offer `{display name: slug}`
      for exactly the comics that landed in those lists. */
  lemma SettingsSlugOptions(comics: seq<Comic>, political: seq<Comic>, politicalSlugs: set<string>,
                            excluded: seq<string>, validRegular: set<string>, validOther: set<string>,
                            validPolitical: set<string>, extras: OrderedMap, report: Option<Report>)
    requires extras.Valid()
    ensures var s := SettingsFrom(comics, political, politicalSlugs, excluded, validRegular, validOther,
                                  validPolitical, extras, report);
            && (forall c :: c in comics && Lands(c, OtherLanguage, politicalSlugs, excluded, validRegular, validOther)
                  ==> SlugOption(c) in s.otherLanguageOptions)
            && (forall o :: o in s.otherLanguageOptions ==>
                  exists c :: c in comics && Lands(c, OtherLanguage, politicalSlugs, excluded, validRegular, validOther)
                              && o == SlugOption(c))
            && (forall c :: c in political && c.name.Some? && c.name.value in validPolitical
                  ==> SlugOption(c) in s.politicalOptions)
            && (forall o :: o in s.politicalOptions ==>
                  exists c :: c in political && c.name.Some? && c.name.value in validPolitical && o == SlugOption(c))
  {
    var other := ValidComicsOf(comics, OtherLanguage, politicalSlugs, excluded, validRegular, validOther);
    var politicalComics := ValidPolitical(political, validPolitical);
    SlugOptionsOfMembers(other);
    SlugOptionsOfMembers(politicalComics);
  }

  /** One option per comic of the (sorted) list, and no other. */
  lemma SlugOptionsOfMembers(comics: seq<Comic>)
    ensures forall c :: c in comics ==> SlugOption(c) in SlugOptionsOf(SortBy(comics, NameKey))
    ensures forall o :: o in SlugOptionsOf(SortBy(comics, NameKey)) ==> exists c :: c in comics && o == SlugOption(c)
  {
    var sorted := SortBy(comics, NameKey);
    var r := SlugOptionsOf(sorted);
    forall c | c in comics ensures SlugOption(c) in r {
      InSortedIff(comics, NameKey, c);
      var i :| 0 <= i < |sorted| && sorted[i] == c;
      assert r[i] == SlugOption(c);
    }
    forall o | o in r ensures exists c :: c in comics && o == SlugOption(c) {
      var i :| 0 <= i < |r| && r[i] == o;
      InSortedIff(comics, NameKey, sorted[i]);
    }
  }

  /** The URLs of `validated_extra_feeds` come from `extra_feeds.yml` and are
      not excluded. */
  lemma ValidatedExtrasOfSources(libs: Libs, web: Web, extraFeeds: OrderedMap, excluded: seq<string>)
    requires extraFeeds.Valid()
    ensures var m := ValidatedExtrasOf(libs, web, extraFeeds, excluded);
            forall k :: k in m.values ==> m.values[k] in extraFeeds.values.Values && !ShouldExcludeFeed(m.values[k], excluded)
  {
    var filtered := KeptExtras(extraFeeds.keys, extraFeeds.values, excluded);
    KeepSound(ResultsOf(libs, web, filtered.Items()), true);
    ResultsOfFacts(libs, web, filtered.Items());
    ValidatedExtraSources(extraFeeds, excluded, ValidatedAs(libs, web, filtered, true));
  }

  /** Every option of the comics field written by `create_updated_settings`
      is a feed URL or a non-excluded URL of `extra_feeds.yml`. */
  lemma SettingsOfSources(libs: Libs, web: Web, exclusions: string, comics: seq<Comic>, political: seq<Comic>,
                          extraFeeds: OrderedMap, reportDate: string)
    requires extraFeeds.Valid()
    ensures forall o :: o in SettingsOf(libs, web, exclusions, comics, political, extraFeeds, reportDate).comicsOptions ==>
              || FeedUrlPrefix <= o.value
              || (o.value in extraFeeds.values.Values && !ShouldExcludeFeed(o.value, GetExcludedFeeds(exclusions)))
  {
    var excluded := GetExcludedFeeds(exclusions);
    var slugs := PoliticalSlugs(political);
    var extras := ValidatedExtrasOf(libs, web, extraFeeds, excluded);
    ValidatedExtrasOfSources(libs, web, extraFeeds, excluded);
    var regular := ValidComicsOf(comics, Regular, slugs, excluded,
                                 ValidNamesOf(libs, web, comics, Regular, slugs, excluded),
                                 ValidNamesOf(libs, web, comics, OtherLanguage, slugs, excluded));
    forall o | o in SettingsOf(libs, web, exclusions, comics, political, extraFeeds, reportDate).comicsOptions
      ensures || FeedUrlPrefix <= o.value
              || (o.value in extraFeeds.values.Values && !ShouldExcludeFeed(o.value, excluded))
    {
      ComicsOptionSources(regular, extras, extraFeeds, excluded, o);
    }
  }

  /** One category: its feed loop, then `validate_multiple_feeds`. */
  method ValidateCategory(libs: Libs, web: Web, list: seq<Comic>, cat: Category, politicalSlugs: set<string>,
                          excluded: seq<string>)
    returns (valid: seq<ValidationResult>, invalid: seq<ValidationResult>)
    ensures valid == ValidatedAs(libs, web, CategoryFeeds(list, cat, politicalSlugs, excluded), true)
    ensures invalid == ValidatedAs(libs, web, CategoryFeeds(list, cat, politicalSlugs, excluded), false)
  {
    var feeds := CollectFeeds(list, cat, politicalSlugs, excluded);
    valid, invalid := ValidateMultipleFeeds(libs, web, feeds.Items());
  }

  /** The extra feeds: the exclusion filter, `validate_multiple_feeds`, and
      the `{name: url}` dict of the valid ones. */
  method ValidateExtras(libs: Libs, web: Web, extraFeeds: OrderedMap, excluded: seq<string>)
    returns (validated: OrderedMap, invalid: seq<ValidationResult>)
    requires extraFeeds.Valid()
    ensures validated == ValidatedExtrasOf(libs, web, extraFeeds, excluded)
    ensures invalid == ValidatedAs(libs, web, KeptExtras(extraFeeds.keys, extraFeeds.values, excluded), false)
  {
    var filteredExtra := FilterExtraFeeds(extraFeeds, excluded);
    var extraValid, extraInvalid := ValidateMultipleFeeds(libs, web, filteredExtra.Items());
    validated := ByName(extraValid);
    invalid := extraInvalid;
  }

  /** The second half of `create_updated_settings`: the loop over the
      validated comics, the political filter, the total and the three
      option lists. */
  method AssembleSettings(comics: seq<Comic>, political: seq<Comic>, politicalSlugs: set<string>,
                          excluded: seq<string>, validRegular: set<string>, validOther: set<string>,
                          validPolitical: set<string>, extras: OrderedMap, report: Option<Report>)
    returns (settings: Settings)
    requires extras.Valid()
    ensures settings == SettingsFrom(comics, political, politicalSlugs, excluded, validRegular, validOther,
                                     validPolitical, extras, report)
  {
    var regularComics, otherComics :=
      CollectValidComics(comics, politicalSlugs, excluded, validRegular, validOther);
    var politicalComics := ValidPolitical(political, validPolitical);
    var totalAll := |regularComics| + |otherComics| + |politicalComics| + |extras.keys|;

    var comicsOptions := ComicsOptions(regularComics, extras);
    var otherOptions := SlugOptions(otherComics);
    var politicalOptions := SlugOptions(politicalComics);

    settings := Settings(totalAll, comicsOptions, otherOptions, politicalOptions, report);
  }

  /** `create_updated_settings` without the printing, the YAML files and the
      network: `exclusions` is `EXCLUSIONS`, `comics` and `political` the two
      downloaded lists, `extraFeeds` the parsed `extra_feeds.yml`, and
      `reportDate` the report's timestamp. */
  method CreateUpdatedSettings(libs: Libs, web: Web, exclusions: string, comics: seq<Comic>,
                               political: seq<Comic>, extraFeeds: OrderedMap, reportDate: string)
    returns (settings: Settings)
    requires extraFeeds.Valid()
    ensures settings == SettingsOf(libs, web, exclusions, comics, political, extraFeeds, reportDate)
  {
    var excluded := GetExcludedFeeds(exclusions);
    var politicalSlugs := PoliticalSlugs(political);

    var regularValid, regularInvalid := ValidateCategory(libs, web, comics, Regular, politicalSlugs, excluded);
    var otherValid, otherInvalid := ValidateCategory(libs, web, comics, OtherLanguage, politicalSlugs, excluded);
    var politicalValid, politicalInvalid := ValidateCategory(libs, web, political, Political, politicalSlugs, excluded);
    var validatedExtra, extraInvalid := ValidateExtras(libs, web, extraFeeds, excluded);

    var report := SaveFailedFeedsReport(regularInvalid + otherInvalid + politicalInvalid + extraInvalid, reportDate);

    settings := AssembleSettings(comics, political, politicalSlugs, excluded, NamesOf(regularValid),
                                 NamesOf(otherValid), NamesOf(politicalValid), validatedExtra, report);
  }
}
