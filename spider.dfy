/**
 * The Fandom spider (`FandomSpider`): which links of a category page are
 * followed, which images are accepted and how they are cleaned, how the
 * fields of a character record are picked from a page, and the page
 * counter that bounds how many character pages are requested.
 *
 * The HTML selectors are not modelled: a page is given as the strings its
 * selectors return (`CategoryPage`, `CharacterPage`). `urljoin` and
 * `unquote` are given as functions.
 */
module Spider {
  import opened Optional
  import opened Text
  import opened Items
  import Decimal
  import UrlParse

  // ---------------------------------------------------------------------
  // Configuration: fandom_url, fandom_name, max_pages, start_urls
  // ---------------------------------------------------------------------

  /** The pages under `/wiki/` where crawling starts, in request order. */
  const StartPages: seq<string> := [
    "Special:AllPages", "Category:Characters", "Category:Character", "Category:People",
    "Category:Heroes", "Category:Villains", "Category:Champions", "Category:Pokemon",
    "Category:Jedi"
  ]

  /** The nine start URLs, written out as the spider lists them. */
  function StartUrls(base: string): (r: seq<string>)
    ensures |r| == |StartPages| == 9
    ensures forall i :: 0 <= i < |r| ==> r[i] == base + "/wiki/" + StartPages[i]
  {
    [
      base + "/wiki/Special:AllPages",
      base + "/wiki/Category:Characters",
      base + "/wiki/Category:Character",
      base + "/wiki/Category:People",
      base + "/wiki/Category:Heroes",
      base + "/wiki/Category:Villains",
      base + "/wiki/Category:Champions",
      base + "/wiki/Category:Pokemon",
      base + "/wiki/Category:Jedi"
    ]
  }

  /**
   * `fandom_name`: the first '.'-separated label of the URL's host name,
   * or "unknown" when the URL has none.
   */
  function FandomNameOf(url: string): (r: string)
    ensures '.' !in r
    ensures UrlParse.Hostname(url).None? ==> r == "unknown"
    ensures UrlParse.Hostname(url).Some? ==> IsPrefix(r, UrlParse.Hostname(url).value)
    ensures UrlParse.Hostname(url).Some? ==>
      r == UrlParse.Hostname(url).value || IsPrefix(r + ".", UrlParse.Hostname(url).value)
  {
    var host := UrlParse.Hostname(url);
    if host.None? then "unknown"
    else
      var first := CutAt(host.value, ".");
      ContainsChar(first, '.');
      FirstLabel(host.value, first);
      first
  }

  /** The cut at the first '.' is the whole first label: the string itself, or the text before a '.'. */
  lemma FirstLabel(host: string, first: string)
    requires first == CutAt(host, ".")
    ensures first == host || IsPrefix(first + ".", host)
  {
    if Contains(host, ".") {
      PrefixThen(first, ".", host);
    }
  }

  /**
   * `int(max_pages) if max_pages else None`: an absent or empty argument
   * means no budget; anything else must be a decimal number.
   */
  function MaxPagesOf(arg: Option<string>): (r: Result<Option<int>>)
    ensures arg.None? || arg == Some("") ==> r == Ok(None)
    ensures r.Ok? && r.value.Some? ==> arg.Some? && Decimal.ParseDecimal(arg.value) == Some(r.value.value)
    ensures r.Err? <==> arg.Some? && arg.value != "" && Decimal.ParseDecimal(arg.value).None?
    ensures arg.Some? && arg.value != "" && Decimal.ParseDecimal(arg.value).Some? ==> r == Ok(Decimal.ParseDecimal(arg.value))
  {
    if arg.None? || arg.value == [] then Ok(None)
    else match Decimal.ParseDecimal(arg.value)
      case None => Err("invalid literal for int() with base 10")
      case Some(n) => Ok(Some(n))
  }

  /** The argument the launcher passes as `max_pages=<n>` is read back as n. */
  lemma MaxPagesArgumentRoundTrip(n: int)
    ensures MaxPagesOf(Some(Decimal.IntToString(n))) == Ok(Some(n))
  {
    Decimal.IntToStringRoundTrip(n);
  }

  // ---------------------------------------------------------------------
  // Link filtering (is_valid_character_page)
  // ---------------------------------------------------------------------

  const ExcludedLinkPatterns: seq<string> := [
    "/wiki/Special:", "/wiki/Category:", "/wiki/Template:", "/wiki/File:",
    "/wiki/User:", "/wiki/Talk:", "/wiki/Help:", "/wiki/MediaWiki:",
    "action=edit", "redlink=1", "#"
  ]

  /** Some pattern of the list occurs in s (the source's loop with early return). */
  function ContainsAny(s: string, patterns: seq<string>): (r: bool)
    ensures r <==> exists i :: 0 <= i < |patterns| && Contains(s, patterns[i])
  {
    if patterns == [] then false
    else Contains(s, patterns[0]) || ContainsAny(s, patterns[1..])
  }

  /** A link is followed when it is non-empty and contains none of the excluded patterns. */
  function IsValidCharacterPage(link: string): (r: bool)
    ensures r <==> link != [] && forall i :: 0 <= i < |ExcludedLinkPatterns| ==> !Contains(link, ExcludedLinkPatterns[i])
  {
    link != [] && !ContainsAny(link, ExcludedLinkPatterns)
  }

  // ---------------------------------------------------------------------
  // Images (is_valid_image_url, clean_image_url, extract_main_image,
  // extract_additional_images)
  // ---------------------------------------------------------------------

  const ImageExtensions: seq<string> := [".jpg", ".jpeg", ".png", ".gif", ".webp"]

  const ExcludedImagePatterns: seq<string> := [
    "edit-icon", "commons-logo", "wikia-logo", "fandom-logo", "blank.gif", "pixel.gif", "/thumb/"
  ]

  /**
   * An image URL is accepted when, lower-cased, it contains no excluded
   * pattern and contains one of the image extensions.
   */
  function IsValidImageUrl(url: string): (r: bool)
    ensures r <==>
      && url != []
      && (forall i :: 0 <= i < |ExcludedImagePatterns| ==> !Contains(Lower(url), ExcludedImagePatterns[i]))
      && (exists i :: 0 <= i < |ImageExtensions| && Contains(Lower(url), ImageExtensions[i]))
  {
    var lowered := Lower(url);
    url != [] && !ContainsAny(lowered, ExcludedImagePatterns) && ContainsAny(lowered, ImageExtensions)
  }

  /** The image test ignores letter case. */
  lemma ImageUrlCaseInsensitive(url: string)
    ensures IsValidImageUrl(Lower(url)) == IsValidImageUrl(url)
  {
    LowerIdempotent(url);
  }

  /** Everything from the first "/revision/", then everything from the first '?', removed. */
  function CleanImageUrl(url: string): (r: string)
    ensures IsPrefix(r, url)
    ensures !Contains(r, "/revision/") && !Contains(r, "?")
    ensures forall i :: 0 <= i < |r| ==> !OccursAt(url, "/revision/", i) && url[i] != '?'
    ensures |r| == |url| || url[|r|] == '?' || OccursAt(url, "/revision/", |r|)
  {
    var noRevision := CutAt(url, "/revision/");
    var r := CutAt(noRevision, "?");
    PrefixKeepsAbsence(r, noRevision, "/revision/");
    CleanCutsAtFirst(url, noRevision, r);
    r
  }

  /**
   * The two cuts keep exactly the text before the first "/revision/" or
   * the first '?' of the URL, whichever comes first.
   */
  lemma CleanCutsAtFirst(url: string, noRevision: string, r: string)
    requires noRevision == CutAt(url, "/revision/") && r == CutAt(noRevision, "?")
    ensures forall i :: 0 <= i < |r| ==> !OccursAt(url, "/revision/", i) && url[i] != '?'
    ensures |r| == |url| || url[|r|] == '?' || OccursAt(url, "/revision/", |r|)
  {
    ContainsChar(r, '?');
    assert forall i :: 0 <= i < |r| ==> url[i] == r[i];
    if |r| < |noRevision| {
      ContainsChar(noRevision, '?');
      assert noRevision[|r|..][0] == '?';
      assert url[|r|] == noRevision[|r|];
    } else if |noRevision| < |url| {
      assert noRevision != url;
    }
  }

  /**
   * `clean_image_url` as written: the two `re.sub(... '.*$', '', url)`
   * calls, which cut only where no line feed follows but a final one. On a
   * URL without line feeds it is `CleanImageUrl`.
   */
  function CleanImageUrlAsWritten(url: string): (r: string)
    ensures (forall i :: 0 <= i < |url| ==> url[i] != '\n') ==> r == CleanImageUrl(url)
  {
    CleanAgreesWithoutLineFeed(url);
    SubToEnd(SubToEnd(url, "/revision/"), "?")
  }

  lemma CleanAgreesWithoutLineFeed(url: string)
    ensures (forall i :: 0 <= i < |url| ==> url[i] != '\n') ==>
      SubToEnd(SubToEnd(url, "/revision/"), "?") == CleanImageUrl(url)
  {
    SubToEndWithoutLineFeed(url, "/revision/");
    var noRevision := CutAt(url, "/revision/");
    assert forall i :: 0 <= i < |noRevision| ==> noRevision[i] == url[i];
    SubToEndWithoutLineFeed(noRevision, "?");
  }

  /** Cleaning a cleaned URL changes nothing. */
  lemma CleanImageUrlIdempotent(url: string)
    ensures CleanImageUrl(CleanImageUrl(url)) == CleanImageUrl(url)
  {
  }

  function Flatten(lists: seq<seq<string>>): (r: seq<string>)
    ensures forall x :: x in r <==> exists i :: 0 <= i < |lists| && x in lists[i]
  {
    if lists == [] then [] else lists[0] + Flatten(lists[1..])
  }

  /** The index of the first accepted image URL. */
  function FirstValidImage(images: seq<string>): (r: Option<nat>)
    ensures r.Some? ==> r.value < |images| && IsValidImageUrl(images[r.value])
    ensures r.Some? ==> forall j :: 0 <= j < r.value ==> !IsValidImageUrl(images[j])
    ensures r.None? ==> forall j :: 0 <= j < |images| ==> !IsValidImageUrl(images[j])
  {
    if images == [] then None
    else if IsValidImageUrl(images[0]) then Some(0)
    else match FirstValidImage(images[1..])
      case None => None
      case Some(k) => Some(k + 1)
  }

  /**
   * `extract_main_image`: the first accepted image, selector by selector,
   * made absolute and cleaned; None when no image is accepted.
   */
  function ExtractMainImage(pageUrl: string, candidates: seq<seq<string>>, urljoin: (string, string) -> string): (r: Option<string>)
    ensures r.None? <==> forall x :: x in Flatten(candidates) ==> !IsValidImageUrl(x)
    ensures r.Some? ==> exists i ::
      && 0 <= i < |Flatten(candidates)| && IsValidImageUrl(Flatten(candidates)[i])
      && (forall j :: 0 <= j < i ==> !IsValidImageUrl(Flatten(candidates)[j]))
      && r.value == CleanImageUrl(urljoin(pageUrl, Flatten(candidates)[i]))
  {
    var images := Flatten(candidates);
    match FirstValidImage(images)
    case None => None
    case Some(k) => Some(CleanImageUrl(urljoin(pageUrl, images[k])))
  }

  /** The accepted images of a list, made absolute and cleaned, in order. */
  function CleanedValidImages(pageUrl: string, images: seq<string>, urljoin: (string, string) -> string): (r: seq<string>)
    ensures |r| <= |images|
    ensures forall i :: 0 <= i < |r| ==> !Contains(r[i], "?") && !Contains(r[i], "/revision/")
  {
    if images == [] then []
    else
      var init := CleanedValidImages(pageUrl, images[..|images| - 1], urljoin);
      var last := images[|images| - 1];
      if IsValidImageUrl(last) then init + [CleanImageUrl(urljoin(pageUrl, last))] else init
  }

  /** The images f makes of the elements keep accepts, in order. */
  function FilterMap<A, B>(xs: seq<A>, keep: A -> bool, f: A -> B): seq<B> {
    if xs == [] then []
    else (if keep(xs[0]) then [f(xs[0])] else []) + FilterMap(xs[1..], keep, f)
  }

  lemma {:induction false} FilterMapAppend<A, B>(xs: seq<A>, ys: seq<A>, keep: A -> bool, f: A -> B)
    ensures FilterMap(xs + ys, keep, f) == FilterMap(xs, keep, f) + FilterMap(ys, keep, f)
  {
    if xs != [] {
      var head := if keep(xs[0]) then [f(xs[0])] else [];
      assert (xs + ys)[0] == xs[0] && (xs + ys)[1..] == xs[1..] + ys;
      assert FilterMap(xs + ys, keep, f) == head + FilterMap(xs[1..] + ys, keep, f);
      FilterMapAppend(xs[1..], ys, keep, f);
      assert FilterMap(xs, keep, f) == head + FilterMap(xs[1..], keep, f);
    } else {
      assert xs + ys == ys;
    }
  }

  /** y is kept exactly when it is the image of an accepted element. */
  lemma {:induction false} FilterMapElements<A, B>(xs: seq<A>, keep: A -> bool, f: A -> B, y: B)
    ensures y in FilterMap(xs, keep, f) <==> exists j :: 0 <= j < |xs| && keep(xs[j]) && y == f(xs[j])
  {
    if xs != [] {
      var rest := xs[1..];
      FilterMapElements(rest, keep, f, y);
      if exists j :: 0 <= j < |xs| && keep(xs[j]) && y == f(xs[j]) {
        var j :| 0 <= j < |xs| && keep(xs[j]) && y == f(xs[j]);
        if j > 0 {
          assert rest[j - 1] == xs[j];
        }
      }
      if exists j :: 0 <= j < |rest| && keep(rest[j]) && y == f(rest[j]) {
        var j :| 0 <= j < |rest| && keep(rest[j]) && y == f(rest[j]);
        assert xs[j + 1] == rest[j];
      }
    }
  }

  /** The accepted images, cleaned, as a filter followed by a map. */
  lemma {:induction false} CleanedValidImagesAsFilterMap(
    pageUrl: string, images: seq<string>, urljoin: (string, string) -> string, clean: string -> string)
    requires forall u :: clean(u) == CleanImageUrl(urljoin(pageUrl, u))
    ensures CleanedValidImages(pageUrl, images, urljoin) == FilterMap(images, IsValidImageUrl, clean)
  {
    if images != [] {
      var init := images[..|images| - 1];
      var last := images[|images| - 1];
      assert images == init + [last];
      CleanedValidImagesAsFilterMap(pageUrl, init, urljoin, clean);
      FilterMapAppend(init, [last], IsValidImageUrl, clean);
      assert FilterMap([last], IsValidImageUrl, clean) == (if IsValidImageUrl(last) then [clean(last)] else []);
    }
  }

  /** The kept images are exactly the cleaned absolute URLs of the accepted images. */
  lemma {:induction false} CleanedValidImagesElements(pageUrl: string, images: seq<string>, urljoin: (string, string) -> string, x: string)
    ensures x in CleanedValidImages(pageUrl, images, urljoin) <==>
      exists j :: 0 <= j < |images| && IsValidImageUrl(images[j]) && x == CleanImageUrl(urljoin(pageUrl, images[j]))
  {
    var clean := u => CleanImageUrl(urljoin(pageUrl, u));
    CleanedValidImagesAsFilterMap(pageUrl, images, urljoin, clean);
    FilterMapElements(images, IsValidImageUrl, clean, x);
  }

  const MaxAdditionalImages := 5

  /** `images[:5]`. */
  function FirstImages(images: seq<string>): (r: seq<string>)
    ensures |r| <= MaxAdditionalImages && r <= images
    ensures |images| <= MaxAdditionalImages ==> r == images
    ensures |r| == if |images| < MaxAdditionalImages then |images| else MaxAdditionalImages
  {
    images[..if |images| < MaxAdditionalImages then |images| else MaxAdditionalImages]
  }

  /** `extract_additional_images`: the accepted images among the first five of the content. */
  method ExtractAdditionalImages(pageUrl: string, images: seq<string>, urljoin: (string, string) -> string)
    returns (result: seq<string>)
    ensures |result| <= MaxAdditionalImages
    ensures result == CleanedValidImages(pageUrl, FirstImages(images), urljoin)
  {
    var head := FirstImages(images);
    result := [];
    var i := 0;
    while i < |head|
      invariant 0 <= i <= |head|
      invariant result == CleanedValidImages(pageUrl, head[..i], urljoin)
    {
      assert head[..i + 1][..i] == head[..i];
      if head[i] != [] && IsValidImageUrl(head[i]) {
        result := result + [CleanImageUrl(urljoin(pageUrl, head[i]))];
      }
      i := i + 1;
    }
    assert head[..|head|] == head;
  }

  // ---------------------------------------------------------------------
  // Text fields (extract_name, extract_description, extract_character_type)
  // ---------------------------------------------------------------------

  /** The candidate is set and its stripped text is longer than `minLength`. */
  predicate LongEnough(candidate: Option<string>, minLength: nat) {
    candidate.Some? && |Strip(candidate.value)| > minLength
  }

  /** The index of the first true flag. */
  function FirstTrue(flags: seq<bool>): (r: Option<nat>)
    ensures r.Some? ==> r.value < |flags| && flags[r.value]
    ensures r.Some? ==> forall j :: 0 <= j < r.value ==> !flags[j]
    ensures r.None? ==> forall j :: 0 <= j < |flags| ==> !flags[j]
  {
    if flags == [] then None
    else if flags[0] then Some(0)
    else match FirstTrue(flags[1..])
      case None => None
      case Some(k) => Some(k + 1)
  }

  /** The first candidate whose stripped text is longer than `minLength`, stripped. */
  function FirstStrippedLongerThan(candidates: seq<Option<string>>, minLength: nat): (r: Option<string>)
    ensures r.Some? ==> |r.value| > minLength
    ensures r.Some? ==> exists i ::
      && 0 <= i < |candidates| && LongEnough(candidates[i], minLength) && r.value == Strip(candidates[i].value)
      && forall j :: 0 <= j < i ==> !LongEnough(candidates[j], minLength)
    ensures r.None? <==> forall i :: 0 <= i < |candidates| ==> !LongEnough(candidates[i], minLength)
  {
    var flags := LongEnoughFlags(candidates, minLength);
    match FirstTrue(flags)
    case None => None
    case Some(k) =>
      var r := Strip(candidates[k].value);
      assert LongEnough(candidates[k], minLength) && r == Strip(candidates[k].value);
      Some(r)
  }

  /** Which candidates are long enough, one flag per candidate. */
  function LongEnoughFlags(candidates: seq<Option<string>>, minLength: nat): (r: seq<bool>)
    ensures |r| == |candidates|
    ensures forall i :: 0 <= i < |r| ==> r[i] == LongEnough(candidates[i], minLength)
  {
    if candidates == [] then []
    else [LongEnough(candidates[0], minLength)] + LongEnoughFlags(candidates[1..], minLength)
  }

  /** The text after the last '/' of a URL, '_' read as space, cut at the first '?' and then the first '#'. */
  function UrlNameBeforeDecoding(url: string): (r: string)
    ensures '/' !in r && '_' !in r && '?' !in r && '#' !in r
    ensures |r| <= |url|
    ensures IsPrefix(r, ReplaceChar(AfterLast(url, '/'), '_', ' '))
    ensures var s := ReplaceChar(AfterLast(url, '/'), '_', ' '); |r| == |s| || s[|r|] == '?' || s[|r|] == '#'
  {
    var urlName := ReplaceChar(AfterLast(url, '/'), '_', ' ');
    UrlNameChars(url);
    CutQueryAndFragment(urlName);
    CutStopsAtMark(urlName);
    CutAt(CutAt(urlName, "?"), "#")
  }

  /** The last segment with '_' replaced holds neither '/' nor '_', and is no longer than the URL. */
  lemma UrlNameChars(url: string)
    ensures var urlName := ReplaceChar(AfterLast(url, '/'), '_', ' ');
      '/' !in urlName && '_' !in urlName && |urlName| <= |url|
  {
    var last := AfterLast(url, '/');
    var urlName := ReplaceChar(last, '_', ' ');
    forall i | 0 <= i < |urlName| ensures urlName[i] != '/' && urlName[i] != '_' {
      assert last[i] in last;
    }
  }

  /** Cutting at the first '?' and then the first '#' keeps a prefix free of both, and of what the text lacked. */
  lemma CutQueryAndFragment(s: string)
    ensures var r := CutAt(CutAt(s, "?"), "#");
      && IsPrefix(r, s) && '?' !in r && '#' !in r
      && (forall c :: c !in s ==> c !in r)
  {
    var noQuery := CutAt(s, "?");
    var r := CutAt(noQuery, "#");
    PrefixKeepsAbsence(r, noQuery, "?");
    ContainsChar(r, '?');
    ContainsChar(r, '#');
    forall c | c in r ensures c in s {
      var i :| 0 <= i < |r| && r[i] == c;
      assert s[i] == c;
    }
  }

  /** The cut ends the text or stops at a '?' or a '#'. */
  lemma CutStopsAtMark(s: string)
    ensures var r := CutAt(CutAt(s, "?"), "#"); |r| == |s| || s[|r|] == '?' || s[|r|] == '#'
  {
    var noQuery := CutAt(s, "?");
    var r := CutAt(noQuery, "#");
    if r != noQuery {
      assert noQuery[|r|] == '#';
      assert s[|r|] == noQuery[|r|];
    } else if noQuery != s {
      assert s[|noQuery|..][0] == '?';
    }
  }

  /**
   * `extract_name`: the first heading that is not blank, stripped;
   * otherwise the decoded last segment of the page URL.
   */
  function ExtractName(headings: seq<Option<string>>, url: string, unquote: string -> string): (r: string)
    ensures FirstStrippedLongerThan(headings, 0).None? ==> r == unquote(UrlNameBeforeDecoding(url))
    ensures FirstStrippedLongerThan(headings, 0).Some? ==> r == FirstStrippedLongerThan(headings, 0).value
    ensures FirstStrippedLongerThan(headings, 0).Some? ==> r != [] && Trimmed(r)
  {
    match FirstStrippedLongerThan(headings, 0)
    case Some(name) => name
    case None => unquote(UrlNameBeforeDecoding(url))
  }

  /** `p.strip()` of every paragraph whose stripped text is not empty. */
  function NonBlankStripped(paragraphs: seq<string>): (r: seq<string>)
    ensures |r| <= |paragraphs|
    ensures forall i :: 0 <= i < |r| ==> r[i] != [] && Trimmed(r[i])
  {
    if paragraphs == [] then []
    else
      var rest := NonBlankStripped(paragraphs[1..]);
      var first := Strip(paragraphs[0]);
      if first != [] then PrependNonBlankTrimmed(first, rest); [first] + rest else rest
  }

  lemma PrependNonBlankTrimmed(first: string, rest: seq<string>)
    requires first != [] && Trimmed(first)
    requires forall i :: 0 <= i < |rest| ==> rest[i] != [] && Trimmed(rest[i])
    ensures forall i :: 0 <= i < |[first] + rest| ==> ([first] + rest)[i] != [] && Trimmed(([first] + rest)[i])
  {
  }

  /** The non-blank paragraphs, stripped, as a filter followed by a map. */
  lemma {:induction false} NonBlankStrippedAsFilterMap(paragraphs: seq<string>, nonBlank: string -> bool)
    requires forall p :: nonBlank(p) == (Strip(p) != [])
    ensures NonBlankStripped(paragraphs) == FilterMap(paragraphs, nonBlank, Strip)
  {
    if paragraphs != [] {
      NonBlankStrippedAsFilterMap(paragraphs[1..], nonBlank);
    }
  }

  /** The kept parts are exactly the non-blank paragraphs, stripped. */
  lemma {:induction false} NonBlankStrippedElements(paragraphs: seq<string>, x: string)
    ensures x in NonBlankStripped(paragraphs) <==>
      exists j :: 0 <= j < |paragraphs| && Strip(paragraphs[j]) != [] && x == Strip(paragraphs[j])
  {
    var nonBlank := p => Strip(p) != [];
    NonBlankStrippedAsFilterMap(paragraphs, nonBlank);
    FilterMapElements(paragraphs, nonBlank, Strip, x);
  }

  /** Joining trimmed, non-empty parts with a space gives a trimmed text. */
  lemma {:induction false} JoinTrimmed(parts: seq<string>)
    requires forall i :: 0 <= i < |parts| ==> parts[i] != [] && Trimmed(parts[i])
    ensures Trimmed(Join(" ", parts))
    ensures parts != [] ==> Join(" ", parts) != []
  {
    if |parts| > 1 {
      JoinTrimmed(parts[1..]);
      var tail := Join(" ", parts[1..]);
      assert Join(" ", parts) == parts[0] + " " + tail;
    }
  }

  const DescriptionMinLength := 50
  const MaxJoinedParagraphs := 3

  /**
   * `extract_description`: the first lead paragraph longer than 50
   * characters once stripped; otherwise the stripped, non-blank paragraphs
   * among the first three, joined by spaces; otherwise "".
   */
  function ExtractDescription(leads: seq<Option<string>>, paragraphs: seq<string>): (r: string)
    ensures Trimmed(r)
    ensures FirstStrippedLongerThan(leads, DescriptionMinLength).Some? ==> |r| > DescriptionMinLength
    ensures FirstStrippedLongerThan(leads, DescriptionMinLength).Some? ==> r == FirstStrippedLongerThan(leads, DescriptionMinLength).value
    ensures FirstStrippedLongerThan(leads, DescriptionMinLength).None? && paragraphs == [] ==> r == []
    ensures FirstStrippedLongerThan(leads, DescriptionMinLength).None? && paragraphs != [] ==>
      r == Join(" ", NonBlankStripped(paragraphs[..if |paragraphs| < MaxJoinedParagraphs then |paragraphs| else MaxJoinedParagraphs]))
  {
    match FirstStrippedLongerThan(leads, DescriptionMinLength)
    case Some(d) => d
    case None =>
      if paragraphs == [] then []
      else
        var parts := NonBlankStripped(paragraphs[..if |paragraphs| < MaxJoinedParagraphs then |paragraphs| else MaxJoinedParagraphs]);
        JoinTrimmed(parts);
        Join(" ", parts)
  }

  /** The first candidate that is present and non-empty. */
  function FirstTruthy(candidates: seq<Option<string>>): (r: Option<string>)
    ensures r.Some? ==> r.value != [] && Some(r.value) in candidates
    ensures r.Some? ==> exists i :: 0 <= i < |candidates| && candidates[i] == r && forall j :: 0 <= j < i ==> !Truthy(candidates[j])
    ensures r.None? <==> forall i :: 0 <= i < |candidates| ==> !Truthy(candidates[i])
  {
    if candidates == [] then None
    else if Truthy(candidates[0]) then candidates[0]
    else
      var r := FirstTruthy(candidates[1..]);
      assert forall i :: 1 <= i < |candidates| ==> candidates[i] == candidates[1..][i - 1];
      r
  }

  const CategoryTypeWords: seq<string> := ["character", "hero", "villain", "champion"]

  /** The first footer category that, lower-cased, mentions one of the type words. */
  function FirstTypeCategory(categories: seq<string>): (r: Option<string>)
    ensures r.Some? ==> exists i ::
      && 0 <= i < |categories| && categories[i] == r.value && ContainsAny(Lower(r.value), CategoryTypeWords)
      && forall j :: 0 <= j < i ==> !ContainsAny(Lower(categories[j]), CategoryTypeWords)
    ensures r.None? <==> forall i :: 0 <= i < |categories| ==> !ContainsAny(Lower(categories[i]), CategoryTypeWords)
  {
    if categories == [] then None
    else if ContainsAny(Lower(categories[0]), CategoryTypeWords) then Some(categories[0])
    else
      var r := FirstTypeCategory(categories[1..]);
      assert forall i :: 1 <= i < |categories| ==> categories[i] == categories[1..][i - 1];
      r
  }

  /**
   * `extract_character_type`: the first infobox value found for the type
   * labels (given in label order), stripped; otherwise the first matching
   * footer category; otherwise "Character".
   */
  function ExtractCharacterType(labelValues: seq<Option<string>>, categories: seq<string>): (r: string)
    ensures FirstTruthy(labelValues).Some? ==> r == Strip(FirstTruthy(labelValues).value)
    ensures FirstTruthy(labelValues).None? && FirstTypeCategory(categories).Some? ==> r == FirstTypeCategory(categories).value
    ensures FirstTruthy(labelValues).None? && FirstTypeCategory(categories).None? ==> r == "Character"
  {
    match FirstTruthy(labelValues)
    case Some(v) => Strip(v)
    case None =>
      match FirstTypeCategory(categories)
      case Some(c) => c
      case None => "Character"
  }

  // ---------------------------------------------------------------------
  // Infobox and attributes (extract_infobox_data, extract_attributes)
  // ---------------------------------------------------------------------

  /** One infobox row: its label text and its value text, as the row selectors return them. */
  datatype InfoboxRow = InfoboxRow(labelText: Option<string>, valueText: Option<string>)

  predicate RowKept(row: InfoboxRow) {
    Truthy(row.labelText) && Truthy(row.valueText)
  }

  function RowKey(row: InfoboxRow): string
    requires RowKept(row)
  {
    Lower(Strip(row.labelText.value))
  }

  /** Row i is kept and stored under key k. */
  predicate KeptWithKey(rows: seq<InfoboxRow>, i: int, k: string) {
    0 <= i < |rows| && RowKept(rows[i]) && RowKey(rows[i]) == k
  }

  /** The infobox dictionary after the rows up to the end of `rows` have been stored. */
  function InfoboxOf(rows: seq<InfoboxRow>): map<string, string> {
    if rows == [] then map[]
    else
      var last := rows[|rows| - 1];
      var before := InfoboxOf(rows[..|rows| - 1]);
      if RowKept(last) then before[RowKey(last) := Strip(last.valueText.value)] else before
  }

  lemma InfoboxStep(rows: seq<InfoboxRow>, k: string)
    requires rows != []
    ensures var last := rows[|rows| - 1];
      k in InfoboxOf(rows) <==> k in InfoboxOf(rows[..|rows| - 1]) || (RowKept(last) && RowKey(last) == k)
  {
  }

  /** Every kept row's normalised label is a key of the infobox. */
  lemma {:induction false} InfoboxHasKeptKey(rows: seq<InfoboxRow>, i: int, k: string)
    requires KeptWithKey(rows, i, k)
    ensures k in InfoboxOf(rows)
  {
    var init := rows[..|rows| - 1];
    InfoboxStep(rows, k);
    if i < |rows| - 1 {
      assert init[i] == rows[i];
      InfoboxHasKeptKey(init, i, k);
    }
  }

  /** Every key of the infobox is the normalised label of some kept row. */
  lemma {:induction false} InfoboxKeyIsKept(rows: seq<InfoboxRow>, k: string) returns (i: int)
    requires k in InfoboxOf(rows)
    ensures KeptWithKey(rows, i, k)
  {
    var init := rows[..|rows| - 1];
    var last := rows[|rows| - 1];
    InfoboxStep(rows, k);
    if RowKept(last) && RowKey(last) == k {
      i := |rows| - 1;
    } else {
      i := InfoboxKeyIsKept(init, k);
      assert init[i] == rows[i];
    }
  }

  /** The keys of the infobox are the normalised labels of the kept rows. */
  lemma {:induction false} InfoboxKeys(rows: seq<InfoboxRow>, k: string)
    ensures k in InfoboxOf(rows) <==> exists i :: KeptWithKey(rows, i, k)
  {
    if k in InfoboxOf(rows) {
      var i := InfoboxKeyIsKept(rows, k);
    }
    if exists i :: KeptWithKey(rows, i, k) {
      var i :| KeptWithKey(rows, i, k);
      InfoboxHasKeptKey(rows, i, k);
    }
  }

  /** A key holds the stripped value of the LAST kept row with that label. */
  lemma {:induction false} InfoboxLastRowWins(rows: seq<InfoboxRow>, i: nat)
    requires i < |rows| && RowKept(rows[i])
    requires forall j :: i < j < |rows| && RowKept(rows[j]) ==> RowKey(rows[j]) != RowKey(rows[i])
    ensures RowKey(rows[i]) in InfoboxOf(rows)
    ensures InfoboxOf(rows)[RowKey(rows[i])] == Strip(rows[i].valueText.value)
  {
    var init := rows[..|rows| - 1];
    if i < |rows| - 1 {
      assert init[i] == rows[i];
      assert forall j :: i < j < |init| ==> init[j] == rows[j];
      InfoboxLastRowWins(init, i);
    }
  }

  lemma InfoboxPrefixStep(rows: seq<InfoboxRow>, i: nat)
    requires i < |rows|
    ensures InfoboxOf(rows[..i + 1]) ==
      if RowKept(rows[i]) then InfoboxOf(rows[..i])[RowKey(rows[i]) := Strip(rows[i].valueText.value)]
      else InfoboxOf(rows[..i])
  {
    assert rows[..i + 1][..i] == rows[..i];
  }

  /** `extract_infobox_data`: every row with a label and a value stored under its normalised label. */
  method ExtractInfoboxData(rows: seq<InfoboxRow>) returns (data: map<string, string>)
    ensures data == InfoboxOf(rows)
  {
    data := map[];
    var i := 0;
    while i < |rows|
      invariant 0 <= i <= |rows|
      invariant data == InfoboxOf(rows[..i])
    {
      var row := rows[i];
      InfoboxPrefixStep(rows, i);
      if RowKept(row) {
        data := data[RowKey(row) := Strip(row.valueText.value)];
      }
      i := i + 1;
    }
    assert rows[..|rows|] == rows;
  }

  const AttributePriorities: seq<string> := [
    "power", "ability", "element", "weapon", "class", "rarity",
    "affiliation", "village", "clan", "devil_fruit", "quirk",
    "height", "weight", "age", "birthplace", "status",
    "first_appearance", "creator", "voice_actor"
  ]

  /** The indices of the keys present in the infobox, in increasing order. */
  function PresentIndices(keys: seq<string>, data: map<string, string>): (r: seq<nat>)
    ensures forall a :: 0 <= a < |r| ==> r[a] < |keys| && keys[r[a]] in data
    ensures forall a, b :: 0 <= a < b < |r| ==> r[a] < r[b]
    ensures forall j :: 0 <= j < |keys| && keys[j] in data ==> j in r
  {
    if keys == [] then []
    else
      var before := PresentIndices(keys[..|keys| - 1], data);
      if keys[|keys| - 1] in data then before + [|keys| - 1] else before
  }

  /** Whether the character before index i is a letter; `afterLetter` stands for the one before s. */
  predicate LetterBefore(s: string, i: nat, afterLetter: bool)
    requires i < |s|
  {
    if i == 0 then afterLetter else IsAsciiLetter(s[i - 1])
  }

  /** `str.title()` on one character, given whether a letter precedes it. */
  function TitleChar(c: char, afterLetter: bool): char {
    if !IsAsciiLetter(c) then c else if afterLetter then LowerChar(c) else UpperChar(c)
  }

  /** `str.title()` of s when s follows a letter (afterLetter) or not. */
  function TitleAfter(s: string, afterLetter: bool): (r: string)
    ensures |r| == |s|
  {
    if s == [] then [] else [TitleChar(s[0], afterLetter)] + TitleAfter(s[1..], IsAsciiLetter(s[0]))
  }

  lemma {:induction false} TitleAfterAt(s: string, afterLetter: bool, i: nat)
    requires i < |s|
    ensures TitleAfter(s, afterLetter)[i] == TitleChar(s[i], LetterBefore(s, i, afterLetter))
  {
    if i > 0 {
      TitleAfterAt(s[1..], IsAsciiLetter(s[0]), i - 1);
      assert s[1..][i - 1] == s[i];
      if i > 1 {
        assert s[1..][i - 2] == s[i - 1];
      }
    }
  }

  /**
   * Python's `str.title()` on ASCII text: a letter is upper-cased when it
   * starts a word (no letter before it) and lower-cased otherwise.
   */
  function Title(s: string): (r: string)
    ensures |r| == |s|
    ensures forall i :: 0 <= i < |s| ==> r[i] == TitleChar(s[i], i > 0 && IsAsciiLetter(s[i - 1]))
  {
    var r := TitleAfter(s, false);
    assert forall i :: 0 <= i < |s| ==> r[i] == TitleChar(s[i], LetterBefore(s, i, false)) by {
      forall i | 0 <= i < |s| ensures r[i] == TitleChar(s[i], LetterBefore(s, i, false)) {
        TitleAfterAt(s, false, i);
      }
    }
    r
  }

  /** An attribute as stored: "Key: value" with the key title-cased. */
  function FormatAttribute(key: string, value: string): (r: string)
    ensures IsPrefix(Title(key) + ": ", r) && IsSuffix(value, r)
    ensures |r| == |key| + 2 + |value|
  {
    Title(key) + ": " + value
  }

  /** The two optional structured attributes of a record. */
  datatype Attributes = Attributes(attribute1: Option<string>, attribute2: Option<string>)

  /** The attributes `extract_attributes` assigns for an infobox. */
  function AttributesOf(data: map<string, string>): (r: Attributes)
    ensures r.attribute2.Some? ==> r.attribute1.Some?
    ensures r.attribute1.Some? ==> exists k :: k in data && IsSuffix(data[k], r.attribute1.value)
    ensures r.attribute2.Some? ==> exists k :: k in data && IsSuffix(data[k], r.attribute2.value)
  {
    var present := PresentIndices(AttributePriorities, data);
    Attributes(
      if |present| >= 1 then Some(FormatAttribute(AttributePriorities[present[0]], data[AttributePriorities[present[0]]])) else None,
      if |present| >= 2 then Some(FormatAttribute(AttributePriorities[present[1]], data[AttributePriorities[present[1]]])) else None)
  }

  /**
   * The attributes follow the priority list: attribute 1 comes from the
   * highest-priority key present, attribute 2 from the next one, and
   * attribute 2 is set only when attribute 1 is.
   */
  lemma AttributesFollowPriority(data: map<string, string>)
    ensures AttributesOf(data).attribute2.Some? ==> AttributesOf(data).attribute1.Some?
    ensures AttributesOf(data).attribute1.None? <==> forall j :: 0 <= j < |AttributePriorities| ==> AttributePriorities[j] !in data
    ensures AttributesOf(data).attribute1.Some? ==> exists j ::
      && 0 <= j < |AttributePriorities| && AttributePriorities[j] in data
      && AttributesOf(data).attribute1 == Some(FormatAttribute(AttributePriorities[j], data[AttributePriorities[j]]))
      && forall i :: 0 <= i < j ==> AttributePriorities[i] !in data
    ensures AttributesOf(data).attribute2.Some? ==> exists j1, j2 ::
      && 0 <= j1 < j2 < |AttributePriorities| && AttributePriorities[j1] in data && AttributePriorities[j2] in data
      && AttributesOf(data).attribute2 == Some(FormatAttribute(AttributePriorities[j2], data[AttributePriorities[j2]]))
      && forall i :: 0 <= i < j2 && i != j1 ==> AttributePriorities[i] !in data
  {
    var present := PresentIndices(AttributePriorities, data);
    if |present| >= 1 {
      forall i | 0 <= i < present[0] ensures AttributePriorities[i] !in data {
        PresentIndicesComplete(AttributePriorities, data, i);
      }
    }
    if |present| >= 2 {
      forall i | 0 <= i < present[1] && i != present[0] ensures AttributePriorities[i] !in data {
        PresentIndicesComplete(AttributePriorities, data, i);
      }
    }
    if |present| == 0 {
      forall j | 0 <= j < |AttributePriorities| ensures AttributePriorities[j] !in data {
        PresentIndicesComplete(AttributePriorities, data, j);
      }
    }
  }

  /** Two keys of the priority list both present in the infobox. */
  predicate TwoPresent(data: map<string, string>) {
    exists j1, j2 :: 0 <= j1 < j2 < |AttributePriorities| && AttributePriorities[j1] in data && AttributePriorities[j2] in data
  }

  /** Attribute 2 is set exactly when at least two keys of the priority list are in the infobox. */
  lemma SecondAttributeIffTwoPresent(data: map<string, string>)
    ensures AttributesOf(data).attribute2.Some? <==> TwoPresent(data)
  {
    var present := PresentIndices(AttributePriorities, data);
    if TwoPresent(data) {
      var j1, j2 :| 0 <= j1 < j2 < |AttributePriorities| && AttributePriorities[j1] in data && AttributePriorities[j2] in data;
      PresentIndicesComplete(AttributePriorities, data, j1);
      PresentIndicesComplete(AttributePriorities, data, j2);
    }
    if |present| >= 2 {
      assert AttributePriorities[present[0]] in data && AttributePriorities[present[1]] in data;
    }
  }

  /** A present key lies at or after the first present index, and at or after the second unless it is the first. */
  lemma PresentIndicesComplete(keys: seq<string>, data: map<string, string>, j: nat)
    requires j < |keys|
    ensures keys[j] in data ==> |PresentIndices(keys, data)| > 0 && PresentIndices(keys, data)[0] <= j
    ensures keys[j] in data && j != PresentIndices(keys, data)[0] ==>
      |PresentIndices(keys, data)| > 1 && PresentIndices(keys, data)[1] <= j
  {
    var r := PresentIndices(keys, data);
    if keys[j] in data {
      assert j in r;
      var a :| 0 <= a < |r| && r[a] == j;
      if a > 1 {
        assert r[1] < r[a];
      }
    }
  }

  /** `found` pairs the first two of the present indices with their keys and values. */
  predicate FoundFirstTwo(found: seq<(string, string)>, present: seq<nat>, keys: seq<string>, data: map<string, string>) {
    && |found| == (if |present| < 2 then |present| else 2)
    && forall a :: 0 <= a < |found| ==> present[a] < |keys| && keys[present[a]] in data && found[a] == (keys[present[a]], data[keys[present[a]]])
  }

  /** One step of the loop keeps `found` paired with the present indices. */
  lemma FoundStep(found: seq<(string, string)>, present: seq<nat>, keys: seq<string>, data: map<string, string>, i: nat)
    requires i < |keys| && FoundFirstTwo(found, present, keys, data)
    ensures var next := present + if keys[i] in data then [i] else [];
      FoundFirstTwo(if keys[i] in data && |found| < 2 then found + [(keys[i], data[keys[i]])] else found, next, keys, data)
  {
  }

  /** The loop of `extract_attributes`: the first two keys of `keys` present in the infobox, with their values. */
  method FirstTwoPresent(keys: seq<string>, data: map<string, string>) returns (found: seq<(string, string)>)
    ensures FoundFirstTwo(found, PresentIndices(keys, data), keys, data)
  {
    found := [];
    ghost var present: seq<nat> := [];
    var i := 0;
    while i < |keys|
      invariant 0 <= i <= |keys|
      invariant present == PresentIndices(keys[..i], data)
      invariant FoundFirstTwo(found, present, keys, data)
    {
      var key := keys[i];
      PresentIndicesStep(keys, data, i);
      FoundStep(found, present, keys, data, i);
      if key in data && |found| < 2 {
        found := found + [(key, data[key])];
      }
      present := present + if key in data then [i] else [];
      i := i + 1;
    }
    assert keys[..i] == keys;
  }

  /** `extract_attributes`: the first two keys of the priority list present in the infobox, formatted. */
  method ExtractAttributes(data: map<string, string>) returns (attributes: Attributes)
    ensures attributes == AttributesOf(data)
  {
    var found := FirstTwoPresent(AttributePriorities, data);
    var attribute1 := if |found| >= 1 then Some(FormatAttribute(found[0].0, found[0].1)) else None;
    var attribute2 := if |found| >= 2 then Some(FormatAttribute(found[1].0, found[1].1)) else None;
    attributes := Attributes(attribute1, attribute2);
  }

  lemma PresentIndicesStep(keys: seq<string>, data: map<string, string>, i: nat)
    requires i < |keys|
    ensures PresentIndices(keys[..i + 1], data) ==
      PresentIndices(keys[..i], data) + (if keys[i] in data then [i] else [])
  {
    assert keys[..i + 1][..i] == keys[..i];
  }

  // ---------------------------------------------------------------------
  // The crawl (parse_category_page, parse_character_page, handle_error)
  // ---------------------------------------------------------------------

  /** What the selectors of a category page return. */
  datatype CategoryPage = CategoryPage(
    url: string,
    memberLinks: seq<seq<string>>,     // one list of hrefs per member selector
    nextLinks: seq<Option<string>>)    // one optional href per pagination selector

  /** What the selectors of a character page return. */
  datatype CharacterPage = CharacterPage(
    url: string,
    headings: seq<Option<string>>,        // one per title selector
    images: seq<seq<string>>,             // one list per image selector
    leads: seq<Option<string>>,           // one per description selector
    paragraphs: seq<string>,              // every paragraph text of the content
    typeValues: seq<Option<string>>,      // one per type label, in label order
    footerCategories: seq<string>,
    infoboxRows: seq<InfoboxRow>,
    contentImages: seq<string>)

  /** The absolute URLs of the followed links of a category page, in selector order, repeats kept. */
  function FollowedLinks(pageUrl: string, links: seq<string>, urljoin: (string, string) -> string): (r: seq<string>)
    ensures forall u :: u in r <==> exists l :: l in links && IsValidCharacterPage(l) && u == urljoin(pageUrl, l)
  {
    if links == [] then []
    else
      var rest := FollowedLinks(pageUrl, links[1..], urljoin);
      assert forall l :: l in links <==> l == links[0] || l in links[1..];
      if links[0] != [] && IsValidCharacterPage(links[0]) then [urljoin(pageUrl, links[0])] + rest else rest
  }

  /** The pagination link that is followed: the first non-empty one, made absolute. */
  function NextPageOf(page: CategoryPage, urljoin: (string, string) -> string): (r: Option<string>)
    ensures r.Some? <==> exists i :: 0 <= i < |page.nextLinks| && Truthy(page.nextLinks[i])
    ensures r.Some? ==> exists i ::
      && 0 <= i < |page.nextLinks| && Truthy(page.nextLinks[i])
      && (forall j :: 0 <= j < i ==> !Truthy(page.nextLinks[j]))
      && r.value == urljoin(page.url, page.nextLinks[i].value)
  {
    match FirstTruthy(page.nextLinks)
    case None => None
    case Some(href) => Some(urljoin(page.url, href))
  }

  predicate NoDuplicates(s: seq<string>) {
    forall i, j :: 0 <= i < j < |s| ==> s[i] != s[j]
  }

  /** The record of a character page, or None when the page has no usable main image. */
  function CharacterItemOf(
    fandomUrl: string, fandomName: string, page: CharacterPage, scrapedAt: string,
    urljoin: (string, string) -> string, unquote: string -> string): (r: Option<Record>)
    ensures (forall i :: 0 <= i < |Flatten(page.images)| ==> !IsValidImageUrl(Flatten(page.images)[i])) ==> r.None?
    ensures r.Some? ==> exists i :: 0 <= i < |Flatten(page.images)| && IsValidImageUrl(Flatten(page.images)[i])
    ensures r.Some? ==> r.value.imageUrl == ExtractMainImage(page.url, page.images, urljoin) && r.value.imageUrl != Some("")
    ensures r.Some? ==>
      && r.value.pageUrl == Some(page.url) && r.value.fandomUrl == Some(fandomUrl)
      && r.value.fandomName == Some(fandomName) && r.value.scrapedAt == Some(scrapedAt)
      && r.value.categories == Some(page.footerCategories)
      && r.value.infoboxData == Some(InfoboxOf(page.infoboxRows))
  {
    var image := ExtractMainImage(page.url, page.images, urljoin);
    if image.None? || image.value == [] then None
    else
      var infobox := InfoboxOf(page.infoboxRows);
      var attributes := AttributesOf(infobox);
      var extra := FirstImages(page.contentImages);
      Some(Record(
        name := Some(ExtractName(page.headings, page.url, unquote)),
        imageUrl := image,
        description := Some(ExtractDescription(page.leads, page.paragraphs)),
        characterType := Some(ExtractCharacterType(page.typeValues, page.footerCategories)),
        attribute1 := Some(attributes.attribute1.GetOr("")),
        attribute2 := Some(attributes.attribute2.GetOr("")),
        fandomUrl := Some(fandomUrl),
        fandomName := Some(fandomName),
        pageUrl := Some(page.url),
        scrapedAt := Some(scrapedAt),
        additionalImages := Some(CleanedValidImages(page.url, extra, urljoin)),
        categories := Some(page.footerCategories),
        infoboxData := Some(infobox)))
  }

  /**
   * A yielded record has every field set, a non-empty image URL without
   * "/revision/" or '?', a trimmed description, attribute 2 only next to
   * attribute 1, and at most five additional images.
   */
  lemma YieldedItemShape(
    fandomUrl: string, fandomName: string, page: CharacterPage, scrapedAt: string,
    urljoin: (string, string) -> string, unquote: string -> string)
    ensures var item := CharacterItemOf(fandomUrl, fandomName, page, scrapedAt, urljoin, unquote);
      item.Some? ==>
        && Truthy(item.value.imageUrl)
        && !Contains(item.value.imageUrl.value, "/revision/") && !Contains(item.value.imageUrl.value, "?")
        && item.value.name.Some? && item.value.description.Some? && item.value.characterType.Some?
        && Trimmed(item.value.description.value)
        && (item.value.attribute2 != Some("") ==> item.value.attribute1 != Some(""))
        && |item.value.additionalImages.value| <= MaxAdditionalImages
        && item.value.fandomName == Some(fandomName)
        && item.value.pageUrl == Some(page.url)
    ensures CharacterItemOf(fandomUrl, fandomName, page, scrapedAt, urljoin, unquote).None? <==>
      var image := ExtractMainImage(page.url, page.images, urljoin);
      image.None? || image.value == []
  {
    var item := CharacterItemOf(fandomUrl, fandomName, page, scrapedAt, urljoin, unquote);
    if item.Some? {
      var attributes := AttributesOf(InfoboxOf(page.infoboxRows));
      AttributesFollowPriority(InfoboxOf(page.infoboxRows));
      if attributes.attribute2.Some? {
        assert attributes.attribute2.value != [];
        assert attributes.attribute1.value != [];
      }
    }
  }

  class FandomSpider {
    const fandomUrl: string
    const maxPages: Option<int>
    const fandomName: string
    const startUrls: seq<string>
    var pagesScraped: int
    var errors: seq<string>

    /** The spider's invariant: the configuration derived from the URL it was created with. */
    ghost predicate Valid()
      reads this
    {
      && pagesScraped >= 0
      && startUrls == StartUrls(fandomUrl)
    }

    /** `__init__` once its arguments have been accepted (see `NewSpider`). */
    constructor (url: string, maxPages: Option<int>)
      ensures Valid()
      ensures this.fandomUrl == StripEndChar(url, '/')
      ensures this.maxPages == maxPages
      ensures this.fandomName == FandomNameOf(url)
      ensures this.startUrls == StartUrls(this.fandomUrl)
      ensures this.pagesScraped == 0 && this.errors == []
    {
      this.fandomUrl := StripEndChar(url, '/');
      this.maxPages := maxPages;
      this.pagesScraped := 0;
      this.errors := [];
      this.fandomName := FandomNameOf(url);
      this.startUrls := StartUrls(StripEndChar(url, '/'));
    }

    /**
     * `if self.max_pages and self.pages_scraped >= self.max_pages`: the
     * budget is spent. No budget or a budget of 0 never stops the spider; a
     * negative one stops it from the start.
     */
    function BudgetReached(): (r: bool)
      reads this
      ensures maxPages.None? || maxPages == Some(0) ==> !r
      ensures maxPages.Some? && maxPages.value > 0 ==> (r <==> pagesScraped >= maxPages.value)
      ensures maxPages.Some? && maxPages.value < 0 && pagesScraped >= 0 ==> r
    {
      maxPages.Some? && maxPages.value != 0 && pagesScraped >= maxPages.value
    }

    /**
     * `parse_category_page`: the followed links of the page, without
     * repeats and in an unspecified order, each requested unless the page
     * budget is already spent; and the pagination link, if any.
     */
    method ParseCategoryPage(page: CategoryPage, urljoin: (string, string) -> string)
      returns (requests: seq<string>, nextPage: Option<string>)
      ensures NoDuplicates(requests)
      ensures BudgetReached() ==> requests == []
      ensures !BudgetReached() ==> forall u :: u in requests <==> u in FollowedLinks(page.url, Flatten(page.memberLinks), urljoin)
      ensures nextPage == NextPageOf(page, urljoin)
    {
      var links := CollectLinks(page.memberLinks);
      var valid := ValidLinks(page.url, links, urljoin);
      var unique := Deduplicate(valid);
      requests := [];
      var k := 0;
      while k < |unique|
        invariant 0 <= k <= |unique|
        invariant requests == unique[..k]
        invariant BudgetReached() ==> k == 0
      {
        if BudgetReached() {
          break;
        }
        requests := requests + [unique[k]];
        k := k + 1;
      }
      if !BudgetReached() {
        assert unique[..|unique|] == unique;
      }
      nextPage := NextPageOf(page, urljoin);
    }

    /**
     * `parse_character_page`: counts the page, whether or not it yields a
     * record, and yields the page's record when it has a main image.
     */
    method ParseCharacterPage(
      page: CharacterPage, scrapedAt: string,
      urljoin: (string, string) -> string, unquote: string -> string)
      returns (item: Option<Record>)
      requires Valid()
      modifies this
      ensures Valid()
      ensures pagesScraped == old(pagesScraped) + 1
      ensures errors == old(errors)
      ensures item == CharacterItemOf(fandomUrl, fandomName, page, scrapedAt, urljoin, unquote)
    {
      pagesScraped := pagesScraped + 1;
      var image := ExtractMainImage(page.url, page.images, urljoin);
      if image.None? || image.value == [] {
        return None;
      }
      var infobox := ExtractInfoboxData(page.infoboxRows);
      var attributes := ExtractAttributes(infobox);
      var extra := ExtractAdditionalImages(page.url, page.contentImages, urljoin);
      item := Some(Record(
        name := Some(ExtractName(page.headings, page.url, unquote)),
        imageUrl := image,
        description := Some(ExtractDescription(page.leads, page.paragraphs)),
        characterType := Some(ExtractCharacterType(page.typeValues, page.footerCategories)),
        attribute1 := Some(attributes.attribute1.GetOr("")),
        attribute2 := Some(attributes.attribute2.GetOr("")),
        fandomUrl := Some(fandomUrl),
        fandomName := Some(fandomName),
        pageUrl := Some(page.url),
        scrapedAt := Some(scrapedAt),
        additionalImages := Some(extra),
        categories := Some(page.footerCategories),
        infoboxData := Some(infobox)));
    }

    /** `handle_error`: a failed request is recorded, nothing else changes. */
    method HandleError(url: string, reason: string)
      requires Valid()
      modifies this
      ensures Valid()
      ensures errors == old(errors) + ["Request failed for " + url + ": " + reason]
      ensures pagesScraped == old(pagesScraped)
    {
      errors := errors + ["Request failed for " + url + ": " + reason];
    }
  }

  /** `character_links.extend(...)` for each member selector, in order. */
  method CollectLinks(lists: seq<seq<string>>) returns (links: seq<string>)
    ensures links == Flatten(lists)
  {
    links := [];
    var s := 0;
    while s < |lists|
      invariant 0 <= s <= |lists|
      invariant links == Flatten(lists[..s])
    {
      FlattenStep(lists, s);
      links := links + lists[s];
      s := s + 1;
    }
    assert lists[..s] == lists;
  }

  /** `valid_links`: the followed links, made absolute, in order. */
  method ValidLinks(pageUrl: string, links: seq<string>, urljoin: (string, string) -> string) returns (valid: seq<string>)
    ensures valid == FollowedLinks(pageUrl, links, urljoin)
  {
    valid := [];
    var i := |links|;
    while i > 0
      invariant 0 <= i <= |links|
      invariant valid == FollowedLinks(pageUrl, links[i..], urljoin)
    {
      i := i - 1;
      assert links[i..][1..] == links[i + 1..];
      if links[i] != [] && IsValidCharacterPage(links[i]) {
        valid := [urljoin(pageUrl, links[i])] + valid;
      }
    }
  }

  /** `list(set(xs))`: the same elements without repeats, in an order the set chooses. */
  method Deduplicate(xs: seq<string>) returns (unique: seq<string>)
    ensures NoDuplicates(unique)
    ensures forall u :: u in unique <==> u in xs
  {
    var remaining := set u | u in xs;
    unique := [];
    while remaining != {}
      invariant NoDuplicates(unique)
      invariant forall u :: u in unique ==> u !in remaining
      invariant forall u :: u in xs <==> u in unique || u in remaining
      decreases |remaining|
    {
      var u :| u in remaining;
      unique := unique + [u];
      remaining := remaining - {u};
    }
  }

  lemma FlattenStep(lists: seq<seq<string>>, s: nat)
    requires s < |lists|
    ensures Flatten(lists[..s + 1]) == Flatten(lists[..s]) + lists[s]
  {
    if s > 0 {
      FlattenStep(lists[1..], s - 1);
      assert lists[1..][..s] == lists[..s + 1][1..];
      assert lists[1..][..s - 1] == lists[..s][1..];
    } else {
      assert lists[..1] == [lists[0]];
    }
  }

  /**
   * `__init__`: refuses an empty `fandom_url` and a `max_pages` that is not
   * a number, and otherwise creates the spider.
   */
  method NewSpider(url: string, maxPagesArg: Option<string>) returns (r: Result<FandomSpider>)
    ensures url == [] ==> r == Err("fandom_url parameter is required")
    ensures url != [] ==> (r.Ok? <==> MaxPagesOf(maxPagesArg).Ok?)
    ensures r.Ok? ==>
      && fresh(r.value) && r.value.Valid()
      && r.value.fandomUrl == StripEndChar(url, '/')
      && MaxPagesOf(maxPagesArg) == Ok(r.value.maxPages)
      && r.value.pagesScraped == 0
  {
    if url == [] {
      return Err("fandom_url parameter is required");
    }
    match MaxPagesOf(maxPagesArg)
    case Err(message) =>
      r := Err(message);
    case Ok(maxPages) =>
      var spider := new FandomSpider(url, maxPages);
      r := Ok(spider);
  }
}
