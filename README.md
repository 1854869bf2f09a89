# Fandom character scraper — a Dafny model of its rules

The system scrapes character pages from Fandom wikis (`*.fandom.com`) and shows them in a web front end. This project models its deterministic core in Dafny and proves properties of that model:

- **The Scrapy spider** (`FandomSpider`). This covers:
  - its configuration: the fandom URL, fandom name, page budget and start URLs;
  - which links of a category page it follows;
  - which image URLs it accepts and how it cleans them;
  - how it fills each field of a character record from a page;
  - the page counter that guards the budget.
- **The item pipelines.** Validation and clean-up of a record, duplicate tracking by normalised name, and the JSON writer's list of accepted records.
- **The command-line launcher** (`run_scraper.py`). Its Fandom URL check, the Scrapy command line it builds, and the order of its effects.
- **The Express backend's helpers.** These are:
  - the fandom id read from a wiki URL;
  - the display name and URL generated from an id;
  - the validation of a scrape request and the command it spawns;
  - the `_latest.json` listing.
- **The explore page's list logic.** The list of types, the search and type filter, the in-place sort and the sort toggle.
- **The compare page's list logic.** The two candidate lists, the ten-option cap and the select/clear state of the two slots.

Modules, one per file:

| Module | Contents |
|---|---|
| `Optional` | `Option`, `Result` |
| `Text` | substring search, cutting, Python's `strip`, ASCII case mapping, code-unit order |
| `Decimal` | `str(int)` and `int(str)` |
| `UrlParse` | the `hostname` of `urlparse` |
| `Items` | the character record |
| `Spider` | the spider |
| `Pipelines` | the item pipelines |
| `Server` | the backend helpers |
| `Explore` | the explore page |
| `Compare` | the compare page |
| `RunScraper` | the launcher |

State that the source updates in place is modelled as a Dafny class whose fields its methods reassign:

- the spider's page counter and error list;
- the item object shared by the pipelines;
- the duplicate pipeline's seen-name set;
- the writer's list of records;
- the explore page's sort state;
- the compare page's two selections.

Several loops of the source are methods with loop invariants, each proved against a specification function. Examples:

- the link collection and the infobox dictionary;
- the attribute search and the additional images;
- the JavaScript in-place array sort.

## Model

| member | source | states |
|---|---|---|
| Spider.StartUrls | scraper/fandom_scrap/fandom_scrap/spiders/fandom_spider.py:30-40 | exactly nine start URLs, the i-th being the fandom URL + "/wiki/" + the i-th fixed page |
| Spider.FandomNameOf | scraper/fandom_scrap/fandom_scrap/spiders/fandom_spider.py:26-27 | "unknown" when the URL has no host name; otherwise the first label of the host name: dot-free, and either the whole host name or the text before its first "." |
| Spider.MaxPagesOf | scraper/fandom_scrap/fandom_scrap/spiders/fandom_spider.py:20 | an absent or empty argument means no budget; otherwise the int() error exactly when the argument is not a decimal integer, and else its value (0 arriving as no budget) |
| Spider.MaxPagesArgumentRoundTrip | scraper/fandom_scrap/fandom_scrap/spiders/fandom_spider.py:20 | the decimal text of any integer is read back as that integer |
| Spider.ContainsAny | scraper/fandom_scrap/fandom_scrap/spiders/fandom_spider.py:134-136 | true exactly when some pattern of the list occurs in the string |
| Spider.IsValidCharacterPage | scraper/fandom_scrap/fandom_scrap/spiders/fandom_spider.py:114-138 | a link is followed iff it is non-empty and contains none of the eleven excluded patterns (`/wiki/Special:` … `action=edit`, `redlink=1`, `#`) |
| Spider.IsValidImageUrl | scraper/fandom_scrap/fandom_scrap/spiders/fandom_spider.py:252-276 | an image URL is accepted iff it is non-empty, its lower-cased form contains no excluded pattern (including `/thumb/`), and it contains one of the five extensions |
| Spider.ImageUrlCaseInsensitive | scraper/fandom_scrap/fandom_scrap/spiders/fandom_spider.py:252-276 | the image test gives the same answer for a URL and its lower-cased form |
| Spider.CleanImageUrl | scraper/fandom_scrap/fandom_scrap/spiders/fandom_spider.py:278-284 | the cleaned URL is a prefix of the input without "/revision/" or "?"; no "/revision/" starts and no "?" stands before its end, and it ends the URL or stops exactly at a "?" or at the start of a "/revision/": the text before the first occurrence of either |
| Spider.CleanImageUrlAsWritten | scraper/fandom_scrap/fandom_scrap/spiders/fandom_spider.py:278-284 | the two `re.sub(..., '.*$', ...)` calls as written, which cut only where no line feed follows; on a URL without line feeds they give `CleanImageUrl` |
| Spider.CleanImageUrlIdempotent | scraper/fandom_scrap/fandom_scrap/spiders/fandom_spider.py:278-284 | cleaning twice equals cleaning once |
| Spider.FirstValidImage | scraper/fandom_scrap/fandom_scrap/spiders/fandom_spider.py:242-248 | the index of an accepted image with no accepted image before it, or None when none is accepted |
| Spider.ExtractMainImage | scraper/fandom_scrap/fandom_scrap/spiders/fandom_spider.py:219-250 | None iff no candidate image is accepted; otherwise the cleaned absolute URL of the first accepted candidate in selector order |
| Spider.CleanedValidImages | scraper/fandom_scrap/fandom_scrap/spiders/fandom_spider.py:388-391 | no more images than given, each free of "?" and "/revision/" |
| Spider.CleanedValidImagesElements | scraper/fandom_scrap/fandom_scrap/spiders/fandom_spider.py:388-391 | a URL is kept iff it is the cleaned, absolute form of some image that passes the validity test |
| Spider.FirstImages | scraper/fandom_scrap/fandom_scrap/spiders/fandom_spider.py:388 | `images[:5]`: a prefix of exactly min(5, number of images) images, so the whole list when it is that short |
| Spider.ExtractAdditionalImages | scraper/fandom_scrap/fandom_scrap/spiders/fandom_spider.py:383-393 | at most five images, equal to the cleaned accepted images among the first five, in order |
| Spider.FirstStrippedLongerThan | scraper/fandom_scrap/fandom_scrap/spiders/fandom_spider.py:295-298 | the stripped text of the first candidate longer than the bound (no earlier candidate qualifies); None iff there is none |
| Spider.UrlNameBeforeDecoding | scraper/fandom_scrap/fandom_scrap/spiders/fandom_spider.py:208-214 | the fallback name before decoding holds no '/', '_', '?' or '#'; it is the last URL segment with '_' read as a space, cut where that segment first has a '?' or a '#' (all of it when it has neither) |
| Spider.UrlNameChars | scraper/fandom_scrap/fandom_scrap/spiders/fandom_spider.py:209 | the last segment with '_' replaced holds neither '/' nor '_' |
| Spider.CutQueryAndFragment | scraper/fandom_scrap/fandom_scrap/spiders/fandom_spider.py:211-214 | cutting at '?' then at '#' keeps a prefix free of both |
| Spider.CutStopsAtMark | scraper/fandom_scrap/fandom_scrap/spiders/fandom_spider.py:211-214 | the cut text is the whole text or stops at a '?' or a '#' |
| Spider.ExtractName | scraper/fandom_scrap/fandom_scrap/spiders/fandom_spider.py:190-217 | the first non-blank heading, stripped (non-empty and trimmed); without one, the decoded URL fallback |
| Spider.NonBlankStripped | scraper/fandom_scrap/fandom_scrap/spiders/fandom_spider.py:303 | the kept paragraphs are non-empty and trimmed, and there are no more of them than paragraphs |
| Spider.NonBlankStrippedElements | scraper/fandom_scrap/fandom_scrap/spiders/fandom_spider.py:303 | a text is kept iff it is the stripped form of some paragraph whose stripped form is not empty |
| Spider.JoinTrimmed | scraper/fandom_scrap/fandom_scrap/spiders/fandom_spider.py:303 | joining trimmed non-empty parts with spaces gives a trimmed text |
| Spider.ExtractDescription | scraper/fandom_scrap/fandom_scrap/spiders/fandom_spider.py:286-305 | the first lead paragraph longer than 50 characters, stripped; else the non-blank stripped paragraphs among the first three joined by spaces; always trimmed; "" when nothing qualifies and there are no paragraphs |
| Spider.FirstTruthy | scraper/fandom_scrap/fandom_scrap/spiders/fandom_spider.py:315-319 | the first non-empty candidate, or None iff every candidate is empty or absent |
| Spider.FirstTypeCategory | scraper/fandom_scrap/fandom_scrap/spiders/fandom_spider.py:321-325 | the first footer category whose lower-cased text mentions a type word (no earlier one does), or None iff there is none |
| Spider.ExtractCharacterType | scraper/fandom_scrap/fandom_scrap/spiders/fandom_spider.py:307-327 | the first non-empty infobox type value, stripped; else the first footer category mentioning a type word; else "Character" |
| Spider.InfoboxKeys | scraper/fandom_scrap/fandom_scrap/spiders/fandom_spider.py:329-349 | a key is in the infobox iff some row with label and value normalises to it |
| Spider.InfoboxHasKeptKey | scraper/fandom_scrap/fandom_scrap/spiders/fandom_spider.py:329-349 | the normalised label of every row with label and value is a key of the infobox |
| Spider.InfoboxLastRowWins | scraper/fandom_scrap/fandom_scrap/spiders/fandom_spider.py:329-349 | a key holds the stripped value of the last row carrying that label |
| Spider.ExtractInfoboxData | scraper/fandom_scrap/fandom_scrap/spiders/fandom_spider.py:329-349 | the dictionary built by the loop is the infobox of all rows |
| Spider.PresentIndices | scraper/fandom_scrap/fandom_scrap/spiders/fandom_spider.py:367-369 | exactly the indices of the priority keys present in the infobox, strictly increasing |
| Spider.Title | scraper/fandom_scrap/fandom_scrap/spiders/fandom_spider.py:373-375 | `str.title()`: same length; a letter is upper-cased iff no letter precedes it |
| Spider.FormatAttribute | scraper/fandom_scrap/fandom_scrap/spiders/fandom_spider.py:372-375 | exactly "Key: value": the title-cased key, then ": ", then the value, with nothing else (the length is that of the three parts) |
| Spider.AttributesOf | scraper/fandom_scrap/fandom_scrap/spiders/fandom_spider.py:366-377 | attribute 2 is set only next to attribute 1, and each attribute ends with the value of a key present in the infobox |
| Spider.AttributesFollowPriority | scraper/fandom_scrap/fandom_scrap/spiders/fandom_spider.py:351-377 | attribute 1 comes from the highest-priority key present, attribute 2 from the next, attribute 2 only with attribute 1, and none iff no priority key is present |
| Spider.SecondAttributeIffTwoPresent | scraper/fandom_scrap/fandom_scrap/spiders/fandom_spider.py:366-377 | attribute 2 is set exactly when two keys of the priority list are present |
| Spider.FirstTwoPresent | scraper/fandom_scrap/fandom_scrap/spiders/fandom_spider.py:366-369 | the loop finds the first two present priority keys, with their values |
| Spider.ExtractAttributes | scraper/fandom_scrap/fandom_scrap/spiders/fandom_spider.py:351-377 | the method's attributes are those `AttributesOf` specifies |
| Spider.FollowedLinks | scraper/fandom_scrap/fandom_scrap/spiders/fandom_spider.py:73-78 | the absolute URLs of exactly the followed links |
| Spider.NextPageOf | scraper/fandom_scrap/fandom_scrap/spiders/fandom_spider.py:98-112 | a pagination request exists iff some pagination selector gives a non-empty link, and it is the absolute URL of the first such link |
| Spider.CharacterItemOf | scraper/fandom_scrap/fandom_scrap/spiders/fandom_spider.py:145-183 | no record when no candidate image is accepted; a record carries the main image, the page URL, the fandom URL and name, the timestamp, the categories and the infobox of its page |
| Spider.YieldedItemShape | scraper/fandom_scrap/fandom_scrap/spiders/fandom_spider.py:145-183 | a page yields a record iff it has a main image; the record has every field set, a cleaned image URL, a trimmed description, attribute 2 only next to attribute 1, and at most five extra images |
| Spider.FandomSpider.constructor | scraper/fandom_scrap/fandom_scrap/spiders/fandom_spider.py:13-40 | trailing slashes removed, fandom name and start URLs derived, counter at zero, no errors |
| Spider.FandomSpider.BudgetReached | scraper/fandom_scrap/fandom_scrap/spiders/fandom_spider.py:86-88 | no budget or a budget of 0 never stops the spider; a positive budget is spent once that many pages are counted; a negative one is spent from the start |
| Spider.FandomSpider.ParseCategoryPage | scraper/fandom_scrap/fandom_scrap/spiders/fandom_spider.py:52-112 | requests hold no repeats; none is made once the budget is spent, otherwise exactly the followed links are requested; pagination is followed either way |
| Spider.FandomSpider.ParseCharacterPage | scraper/fandom_scrap/fandom_scrap/spiders/fandom_spider.py:140-188 | the counter grows by exactly one, even for a skipped page, and the yielded record is that of the page |
| Spider.FandomSpider.HandleError | scraper/fandom_scrap/fandom_scrap/spiders/fandom_spider.py:395-399 | exactly one message is appended; the counter is unchanged |
| Spider.CollectLinks | scraper/fandom_scrap/fandom_scrap/spiders/fandom_spider.py:69-71 | the collected links are all selector results, concatenated in order |
| Spider.ValidLinks | scraper/fandom_scrap/fandom_scrap/spiders/fandom_spider.py:74-78 | the loop's list equals the followed links |
| Spider.Deduplicate | scraper/fandom_scrap/fandom_scrap/spiders/fandom_spider.py:81 | `list(set(...))`: no repeats, and the same elements |
| Spider.NewSpider | scraper/fandom_scrap/fandom_scrap/spiders/fandom_spider.py:13-22 | an empty URL is refused with ValueError; otherwise the spider exists iff the budget argument parses, and it holds that budget |
| UrlParse.Hostname | scraper/fandom_scrap/fandom_scrap/spiders/fandom_spider.py:26-27 | a host name, when present, is non-empty and holds none of "/?#@:" |
| UrlParse.HostnameOfHttpsUrl | scraper/fandom_scrap/fandom_scrap/spiders/fandom_spider.py:26-27 | the host name of `https://` + host + path (path empty or starting with "/", host without spaces, controls or any of "/?#@:%") is the host, lower-cased |
| UrlParse.NetlocOfHttpsUrl | scraper/fandom_scrap/fandom_scrap/spiders/fandom_spider.py:26-27 | the network location of such a URL is exactly the host |
| UrlParse.SchemeDropped | scraper/fandom_scrap/fandom_scrap/spiders/fandom_spider.py:26-27 | the scheme "https:" is split off the front of any URL that starts with it |
| UrlParse.RemoveUnsafeAppend | scraper/fandom_scrap/fandom_scrap/spiders/fandom_spider.py:26-27 | removing tab, CR and LF distributes over concatenation |
| Decimal.ParseDecimal | scraper/fandom_scrap/fandom_scrap/spiders/fandom_spider.py:20 | `int()`: a non-empty string of decimal digits gives its value; a text with no digit at all is the ValueError (a sign and surrounding whitespace are also accepted; see the round trip below) |
| Decimal.IntToString | scraper/run_scraper.py:48 | `str(n)`: digits, with a leading "-" exactly for a negative number |
| Decimal.IntToStringRoundTrip | scraper/run_scraper.py:48 | reading back the decimal text of any integer gives that integer |
| Pipelines.Validated | scraper/fandom_scrap/fandom_scrap/pipelines.py:58-80 | valid iff the name has two or more characters once stripped and the image URL is http(s); the three error messages; on success the name and description are stripped, the type defaults to "Unknown" and is stripped, and nothing else changes |
| Pipelines.ValidatedIdempotent | scraper/fandom_scrap/fandom_scrap/pipelines.py:58-80 | a validated record validates again to itself |
| Pipelines.ValidationPipeline.ProcessItem | scraper/fandom_scrap/fandom_scrap/pipelines.py:58-80 | raises and leaves the item alone, or rewrites it in place to the validated record and returns it |
| Pipelines.SeenNamesMembership | scraper/fandom_scrap/fandom_scrap/pipelines.py:87-96 | a key has been seen iff some processed name lower-cases and strips to it |
| Pipelines.SeenNamesRepeat | scraper/fandom_scrap/fandom_scrap/pipelines.py:91-93 | processing a name already seen leaves the seen set unchanged |
| Pipelines.DuplicatesPipeline.ProcessItem | scraper/fandom_scrap/fandom_scrap/pipelines.py:83-96 | the item is always returned (never dropped); the seen set gains exactly its normalised name; an item without a name raises KeyError |
| Pipelines.StoredOf | scraper/fandom_scrap/fandom_scrap/pipelines.py:47-55 | the stored records are processed records that have a name and an image URL |
| Pipelines.StoredOfAppend | scraper/fandom_scrap/fandom_scrap/pipelines.py:47-55 | storing two batches equals storing their concatenation: insertion order is kept |
| Pipelines.StoredOfComplete | scraper/fandom_scrap/fandom_scrap/pipelines.py:50-54 | every processed record with a name and an image URL is stored |
| Pipelines.JsonWriterPipeline.ProcessItem | scraper/fandom_scrap/fandom_scrap/pipelines.py:47-55 | appends the record iff it has a name and an image URL, otherwise leaves the list unchanged; always returns the item |
| RunScraper.ValidateFandomUrl | scraper/run_scraper.py:13-21 | accepted, with "", iff the host name contains "fandom.com"; a URL with no host name gives the "URL invalide" message instead of a crash |
| RunScraper.Command | scraper/run_scraper.py:42-48 | `scrapy crawl fandom -a fandom_url=<url>`, then `-a max_pages=<n>` only when the budget is non-zero |
| RunScraper.BuildCommand | scraper/run_scraper.py:42-48 | the list built and then extended equals `Command` |
| RunScraper.SplitArgument | scraper/run_scraper.py:44 | a `-a` argument splits into a '='-free name and the rest |
| RunScraper.CommandPassesUrl | scraper/run_scraper.py:44 | the spider reads back `fandom_url` as exactly the URL given |
| RunScraper.CommandPassesBudget | scraper/run_scraper.py:47-48 | the spider reads back the budget written into the command; zero arrives as no budget |
| RunScraper.BudgetReachesSpider | backend/server.js:38-42 | every safe-integer number the backend passes after `--max-pages` reaches the spider unchanged |
| RunScraper.RunMain | scraper/run_scraper.py:24-67 | a non-integer `--max-pages` exits with 2; an invalid URL exits with 1 before any directory is made or command run; otherwise it makes the output directory, changes directory and runs the command, and exits with 1 if the crawl fails |
| RunScraper.Launch | scraper/run_scraper.py:39-64 | make the directory, change directory, run the command, exit 1 on failure, in that order |
| Server.TakeNonDot | backend/server.js:174 | the longest dot-free prefix |
| Server.MatchHere | backend/server.js:174 | a match at the start gives a non-empty dot-free group between `http(s)://` and `.fandom.com` |
| Server.MatchFromIsLeftmost | backend/server.js:174 | the search returns the match at the leftmost position where one starts |
| Server.MatchFandomId | backend/server.js:174-175 | the group of the leftmost match, or None iff no position matches |
| Server.ExtractFandomName | backend/server.js:172-179 | the matched id or "unknown"; never empty and never containing '.' |
| Server.FandomUrlsFollowTemplate | backend/server.js:203-217 | every entry of the URL table equals `https://<id>.fandom.com/` |
| Server.Capitalize | backend/server.js:198 | same length, first character upper-cased, rest unchanged |
| Server.FormatFandomName | backend/server.js:181-199 | the mapped display name for the 13 known ids, otherwise the capitalised id |
| Server.GenerateFandomUrl | backend/server.js:201-220 | always `https://<id>.fandom.com/` |
| Server.ExtractGeneratedId | backend/server.js:172-179 | for a non-empty dot-free id, extracting from the generated URL gives back the id |
| Server.PropertyRead | backend/server.js:198 | a property read on an object literal finds own entries, then inherited members, else undefined |
| Server.FormatFandomNameAsWritten | backend/server.js:198 | a non-empty own entry of the name table; else, for a name inherited from `Object.prototype`, that member; else the capitalised id |
| Server.GenerateFandomUrlAsWritten | backend/server.js:219 | a non-empty own entry of the URL table; else, for a name inherited from `Object.prototype`, that member; else `https://<id>.fandom.com/` |
| Server.InheritedNameIsNotAString | backend/server.js:198 | as written, the id "constructor" makes both helpers return an inherited function |
| Server.AsWrittenAgreesOffPrototype | backend/server.js:219 | for every id that is not an inherited member name, the helpers as written agree with the corrected ones |
| Server.MaxPagesText | backend/server.js:16 | `maxPages` defaults to 50; a safe-integer number is passed as its decimal text; null has no `toString` |
| Server.ScrapeRequest | backend/server.js:15-122 | 400 without a URL and 400 for a URL without "fandom.com"; for a null `maxPages` the 500 "Erreur interne du serveur" (`toString` throws inside the `try`); otherwise spawns `python <script> <url> --max-pages <n>` |
| Server.EntryOf | backend/server.js:153-160 | entry of a data file: `dataFile` is the file, name and URL come from the id through the corrected name helpers (see Findings); the id is the file with its first "_latest.json" removed, which for a file holding it only as its suffix is everything before the suffix |
| Server.OnlyOccurrenceAtEnd | backend/server.js:154 | when "_latest.json" ends the file and does not occur before that end, removing its first occurrence leaves everything before it |
| Server.EntryOfLatestFile | backend/server.js:154 | the file `<id>_latest.json` gives back the id for every id not itself containing "_latest.json" |
| Server.LatestFiles | backend/server.js:152 | keeps exactly the files ending in "_latest.json" |
| Server.EntriesOfLatest | backend/server.js:151-160 | the entries are exactly those of the files ending in "_latest.json" |
| Server.InsertByName | backend/server.js:161 | insertion adds exactly one entry |
| Server.InsertByNameSorted | backend/server.js:161 | insertion keeps a list sorted by name |
| Server.SortByName | backend/server.js:161 | sorted by name and a permutation of the input |
| Server.ListFandoms | backend/server.js:149-161 | sorted by display name, a permutation of the entries of the "_latest.json" files, with exactly those entries (names from the corrected helpers, see Findings) |
| Explore.InsertType | frontend/src/components/ExplorePage.js:130-131 | adds the type to the set of listed types |
| Explore.InsertTypeIncreasing | frontend/src/components/ExplorePage.js:130-131 | insertion keeps the type list strictly increasing |
| Explore.CharacterTypes | frontend/src/components/ExplorePage.js:129-132 | the type list is sorted and free of duplicates |
| Explore.CharacterTypesElements | frontend/src/components/ExplorePage.js:129-132 | a string is listed iff it is the non-empty type of some character |
| Explore.IncreasingListUnique | frontend/src/components/ExplorePage.js:130-131 | two sorted duplicate-free lists with the same elements are equal, so the type list is determined by the set of types |
| Explore.Filtered | frontend/src/components/ExplorePage.js:136-142 | each matching character is kept as often as it occurs; nothing else is kept |
| Explore.EmptySearchKeepsAll | frontend/src/components/ExplorePage.js:137-139 | the empty search with the "all" filter keeps every character, in order |
| Explore.SearchIgnoresCase | frontend/src/components/ExplorePage.js:137-138 | the search term's case does not matter |
| Explore.Compare | frontend/src/components/ExplorePage.js:145-159 | zero iff the lower-cased keys are equal; negative iff the first key sorts first (ascending) or last (descending) |
| Explore.InOrderTotal | frontend/src/components/ExplorePage.js:145-159 | of any two characters, one may precede the other |
| Explore.InOrderTransitive | frontend/src/components/ExplorePage.js:145-159 | the comparator's order is transitive |
| Explore.SortedByKeys | frontend/src/components/ExplorePage.js:145-159 | in a sorted list the keys never decrease (ascending) or never increase (descending) |
| Explore.InsertIntoSorted | frontend/src/components/ExplorePage.js:145 | moves one element into the sorted prefix, a permutation of the array |
| Explore.SortCharacters | frontend/src/components/ExplorePage.js:145-159 | the array is sorted by the comparator and is a permutation of what it held |
| Explore.FilteredAndSorted | frontend/src/components/ExplorePage.js:135-162 | sorted, a permutation of the filtered characters, containing exactly the matching characters |
| Explore.Toggled | frontend/src/components/ExplorePage.js:164-171 | on the current field the order flips; on another field that field is chosen, ascending |
| Explore.ToggleTwice | frontend/src/components/ExplorePage.js:164-171 | toggling the current field twice restores the state |
| Explore.ExploreView.constructor | frontend/src/components/ExplorePage.js:123-126 | empty search, "all" types, by name, ascending |
| Explore.ExploreView.ToggleSort | frontend/src/components/ExplorePage.js:164-171 | the new sort state is `Toggled` of the old one; search and filter unchanged |
| Explore.ExploreView.Shown | frontend/src/components/ExplorePage.js:135-162 | the shown list is sorted by the current state and a permutation of the filtered characters |
| Compare.CandidatesBelow | frontend/src/components/ComparePage.js:186-194 | the candidates below a bound, strictly increasing and complete |
| Compare.Candidates | frontend/src/components/ComparePage.js:186-194 | an order-preserving list of exactly the characters whose name contains the term, ignoring case, minus the other slot's character |
| Compare.OtherNeverOffered | frontend/src/components/ComparePage.js:188 | the other slot's character is never a candidate |
| Compare.EmptySearchOffersAll | frontend/src/components/ComparePage.js:186-194 | with no search term and the other slot empty, every character is a candidate |
| Compare.Options | frontend/src/components/ComparePage.js:280 | a prefix of the candidates: all of them when there are ten or fewer, exactly the first ten when there are more |
| Compare.ComparePage.constructor | frontend/src/components/ComparePage.js:181-184 | empty search terms, nothing selected |
| Compare.ComparePage.Select1 | frontend/src/components/ComparePage.js:284 | picks an offered character for slot 1, never slot 2's; the rest unchanged |
| Compare.ComparePage.Select2 | frontend/src/components/ComparePage.js:307 | picks an offered character for slot 2, never slot 1's; the rest unchanged |
| Compare.ComparePage.Clear1 | frontend/src/components/ComparePage.js:320 | slot 1 becomes empty, slot 2 unchanged |
| Compare.ComparePage.Clear2 | frontend/src/components/ComparePage.js:321 | slot 2 becomes empty, slot 1 unchanged |
| Compare.ComparePage.SetSearchTerm1 | frontend/src/components/ComparePage.js:276 | only search term 1 changes |
| Compare.ComparePage.SetSearchTerm2 | frontend/src/components/ComparePage.js:299 | only search term 2 changes |

## Left out

- **Case mapping.** Python's `lower()`/`title()` and JavaScript's `toLowerCase()`/`toUpperCase()` are modelled on ASCII letters only. Other letters are left unchanged.
- **String order.** JavaScript's `<` and the default `sort()` compare UTF-16 code units; the model compares characters, which differs only outside the Basic Multilingual Plane.
- **`urlparse`.** Simplified to the `hostname` path of `urlsplit`:
  - no IPv6 bracket handling;
  - no `ValueError` for malformed ports or brackets.
- **Functions from libraries.** `urljoin` and `unquote` are parameters. `localeCompare` is a parameter assumed to be a total preorder.
- **HTML.** The HTML selectors are not modelled. Each page is the list of strings its selectors return.
- **File input and output.** These are not modelled:
  - the pipelines' `open_spider` and `close_spider`;
  - the report written by the spider's `closed`;
  - the backend's directory reading, file copies and directory creation;
  - the backend's output capture of the spawned process.
- **Processes, clocks and console output.** Process spawning is modelled only as the command line it uses. `subprocess.run` is a boolean parameter. Timestamps (`scraped_at`) are a parameter. `print` and logging are not modelled.
- **Scrapy scheduling.** `start_requests` and asynchrony are not modelled. The budget is checked only when a category page is parsed, so no bound on the number of pages fetched is claimed.
- Spider.FandomSpider.ParseCharacterPage: the `except` branch is not modelled. Every modelled extraction is total.
- **`extract_categories`.** It is the footer category list given with the page.
- **`int()` and argparse.** `_` digit separators and non-ASCII digits are not modelled; surrounding whitespace and a sign are.
- **Backend JSON bodies.** Only undefined, null, booleans, integers and strings are modelled. `fandomUrl` values that are not strings are not modelled.
- Server.MaxPagesText: a number is a safe integer (at most 2^53 - 1 in magnitude). JavaScript rounds larger integers, prints 1e21 and above in exponent form, and has fractions; none of that is modelled.
- Spider.CleanImageUrl: cuts every URL at its first "/revision/" and then its first "?". The regular expressions as written cut only where no line feed follows except a final one, and keep that final line feed; `CleanImageUrlAsWritten` models them, and the two agree on URLs without line feeds.
- **Scrapy `-a` arguments.** These are modelled as a split at the first '='.
- **Sort stability.** Not stated for the explore page.
- **Front-end records.** Names and descriptions are assumed to be strings. The page would throw on any other value.
- **`KeyboardInterrupt`.** Not modelled in the launcher.
- **Rendering and the other pages.** The home page, `App.js` and all rendering are not modelled.
- **Compare page.** A change of the `characters` prop while selections are held is not modelled.

## Findings

| source | as written | input that shows it | evidently intended | confidence | as-written member | corrected member |
|---|---|---|---|---|---|---|
| backend/server.js:198, backend/server.js:219 | `nameMap[fandomId] \|\| …` and `urlMap[fandomId] \|\| …` look up a plain object literal, which also finds the members inherited from `Object.prototype`. | The id "constructor", from a data file `constructor_latest.json`. Both helpers then return a function instead of a string. If that entry is the receiver of the sort comparator, `a.name.localeCompare` throws, and the handler answers `[]` (backend/server.js:165-167), so no fandom is listed. As the argument it is converted to text and no error arises. As the only file it is not compared, and `JSON.stringify` drops the function-valued `name` and `url` from its entry. | Look up only the table's own entries, and use the fallback for every other id. | not executed | Server.InheritedNameIsNotAString | Server.FormatFandomName, Server.GenerateFandomUrl |
