/**
 * The backend's pure helpers: the fandom id read from a wiki URL, the
 * display name and wiki URL generated from an id, the validation of a
 * scrape request and the command it launches, and the listing of the
 * `_latest.json` data files.
 */
module Server {
  import opened Optional
  import opened Text
  import Decimal

  // ---------------------------------------------------------------------
  // extractFandomName: the regular expression https?://([^.]+)\.fandom\.com
  // ---------------------------------------------------------------------

  /** The longest prefix of s without '.'. */
  function TakeNonDot(s: string): (r: string)
    ensures IsPrefix(r, s) && '.' !in r
    ensures r == s || s[|r|] == '.'
  {
    if s == [] || s[0] == '.' then [] else [s[0]] + TakeNonDot(s[1..])
  }

  /** A dot-free string followed by a dot-led text is exactly what the run takes. */
  lemma {:induction false} TakeNonDotOf(a: string, b: string)
    requires '.' !in a && b != [] && b[0] == '.'
    ensures TakeNonDot(a + b) == a
  {
    if a != [] {
      assert (a + b)[1..] == a[1..] + b;
      TakeNonDotOf(a[1..], b);
    }
  }

  /** Where `https?://` ends when s starts with it (the greedy `s?` is tried first). */
  function SchemeEnd(s: string): (r: Option<nat>)
    ensures r == Some(8) <==> IsPrefix("https://", s)
    ensures r == Some(7) ==> IsPrefix("http://", s)
    ensures r.Some? ==> r == Some(7) || r == Some(8)
  {
    if IsPrefix("https://", s) then Some(8) else if IsPrefix("http://", s) then Some(7) else None
  }

  /**
   * The capture group when the regular expression matches at the start of
   * s. `[^.]+` is greedy and cannot cross a dot, so the group is the whole
   * dot-free run after the scheme, and it must be followed by ".fandom.com".
   */
  function MatchHere(s: string): (r: Option<string>)
    ensures r.Some? ==> r.value != [] && '.' !in r.value
    ensures r.Some? ==> IsPrefix("https://" + r.value + ".fandom.com", s) || IsPrefix("http://" + r.value + ".fandom.com", s)
  {
    match SchemeEnd(s)
    case None => None
    case Some(e) =>
      var group := TakeNonDot(s[e..]);
      if group != [] && IsPrefix(".fandom.com", s[e + |group|..]) then
        var scheme := if e == 8 then "https://" else "http://";
        PrefixThen(scheme, group, s);
        PrefixThen(scheme + group, ".fandom.com", s);
        Some(group)
      else None
  }

  /** The group of the leftmost match that starts at p or later. */
  function MatchFrom(url: string, p: nat): Option<string>
    requires p <= |url|
    decreases |url| - p
  {
    if MatchHere(url[p..]).Some? then MatchHere(url[p..])
    else if p == |url| then None
    else MatchFrom(url, p + 1)
  }

  /** No match starts at any position from p up to (not including) q. */
  ghost predicate NoMatchBetween(url: string, p: nat, q: nat)
    requires p <= q <= |url| + 1
  {
    forall k :: p <= k < q ==> MatchHere(url[k..]).None?
  }

  lemma {:induction false} MatchFromIsLeftmost(url: string, p: nat)
    requires p <= |url|
    decreases |url| - p
    ensures MatchFrom(url, p).Some? ==>
      exists q :: p <= q <= |url| && MatchHere(url[q..]) == MatchFrom(url, p) && NoMatchBetween(url, p, q)
    ensures MatchFrom(url, p).None? ==> NoMatchBetween(url, p, |url| + 1)
  {
    if MatchHere(url[p..]).Some? {
      assert NoMatchBetween(url, p, p);
    } else if p < |url| {
      MatchFromIsLeftmost(url, p + 1);
      if MatchFrom(url, p).Some? {
        var q :| p + 1 <= q <= |url| && MatchHere(url[q..]) == MatchFrom(url, p) && NoMatchBetween(url, p + 1, q);
        assert NoMatchBetween(url, p, q);
      }
    }
  }

  /** `url.match(regex)[1]`: the group of the leftmost match, or None when nothing matches. */
  function MatchFandomId(url: string): (r: Option<string>)
    ensures r.Some? ==> exists p :: 0 <= p <= |url| && MatchHere(url[p..]) == r && forall q :: 0 <= q < p ==> MatchHere(url[q..]).None?
    ensures r.None? ==> forall p :: 0 <= p <= |url| ==> MatchHere(url[p..]).None?
  {
    MatchFromIsLeftmost(url, 0);
    MatchFrom(url, 0)
  }

  /** `extractFandomName`: the matched fandom id, or "unknown". */
  function ExtractFandomName(url: string): (r: string)
    ensures '.' !in r && r != []
    ensures MatchFandomId(url).None? ==> r == "unknown"
    ensures MatchFandomId(url).Some? ==> Some(r) == MatchFandomId(url)
  {
    match MatchFandomId(url)
    case None => "unknown"
    case Some(id) => id
  }

  // ---------------------------------------------------------------------
  // formatFandomName and generateFandomUrl
  // ---------------------------------------------------------------------

  const DisplayNames: map<string, string> := map[
    "leagueoflegends" := "League of Legends",
    "starwars" := "Star Wars",
    "pokemon" := "Pokemon",
    "harrypotter" := "Harry Potter",
    "overwatch" := "Overwatch",
    "onepiece" := "One Piece",
    "naruto" := "Naruto",
    "witcher" := "Witcher",
    "godofwar" := "God of War",
    "attackontitan" := "Attack on Titan",
    "dragonball" := "Dragon Ball",
    "marvel" := "Marvel",
    "dc" := "DC Comics"
  ]

  const FandomUrls: map<string, string> := map[
    "leagueoflegends" := "https://leagueoflegends.fandom.com/",
    "starwars" := "https://starwars.fandom.com/",
    "pokemon" := "https://pokemon.fandom.com/",
    "harrypotter" := "https://harrypotter.fandom.com/",
    "overwatch" := "https://overwatch.fandom.com/",
    "onepiece" := "https://onepiece.fandom.com/",
    "naruto" := "https://naruto.fandom.com/",
    "witcher" := "https://witcher.fandom.com/",
    "godofwar" := "https://godofwar.fandom.com/",
    "attackontitan" := "https://attackontitan.fandom.com/",
    "dragonball" := "https://dragonball.fandom.com/",
    "marvel" := "https://marvel.fandom.com/",
    "dc" := "https://dc.fandom.com/"
  ]

  /** The URL every fandom id is given when it has no entry of its own. */
  function UrlTemplate(id: string): string {
    "https://" + id + ".fandom.com/"
  }

  /** Every entry of the URL table is the template URL of its id. */
  lemma FandomUrlsFollowTemplate(id: string)
    requires id in FandomUrls
    ensures FandomUrls[id] == UrlTemplate(id)
  {
    UrlEntryFollowsTemplate1();
    UrlEntryFollowsTemplate2();
    UrlEntryFollowsTemplate3();
    UrlEntryFollowsTemplate4();
    UrlEntryFollowsTemplate5();
    UrlEntryFollowsTemplate6();
    UrlEntryFollowsTemplate7();
    UrlEntryFollowsTemplate8();
    UrlEntryFollowsTemplate9();
    UrlEntryFollowsTemplate10();
    UrlEntryFollowsTemplate11();
    UrlEntryFollowsTemplate12();
    UrlEntryFollowsTemplate13();
  }

  // The table checked one entry at a time: one lemma per entry keeps each
  // proof small enough for the solver, where a single lemma over all
  // thirteen entries is not.
  lemma UrlEntryFollowsTemplate1()
    ensures FandomUrls["leagueoflegends"] == UrlTemplate("leagueoflegends")
  {
  }

  lemma UrlEntryFollowsTemplate2()
    ensures FandomUrls["starwars"] == UrlTemplate("starwars")
  {
  }

  lemma UrlEntryFollowsTemplate3()
    ensures FandomUrls["pokemon"] == UrlTemplate("pokemon")
  {
  }

  lemma UrlEntryFollowsTemplate4()
    ensures FandomUrls["harrypotter"] == UrlTemplate("harrypotter")
  {
  }

  lemma UrlEntryFollowsTemplate5()
    ensures FandomUrls["overwatch"] == UrlTemplate("overwatch")
  {
  }

  lemma UrlEntryFollowsTemplate6()
    ensures FandomUrls["onepiece"] == UrlTemplate("onepiece")
  {
  }

  lemma UrlEntryFollowsTemplate7()
    ensures FandomUrls["naruto"] == UrlTemplate("naruto")
  {
  }

  lemma UrlEntryFollowsTemplate8()
    ensures FandomUrls["witcher"] == UrlTemplate("witcher")
  {
  }

  lemma UrlEntryFollowsTemplate9()
    ensures FandomUrls["godofwar"] == UrlTemplate("godofwar")
  {
  }

  lemma UrlEntryFollowsTemplate10()
    ensures FandomUrls["attackontitan"] == UrlTemplate("attackontitan")
  {
  }

  lemma UrlEntryFollowsTemplate11()
    ensures FandomUrls["dragonball"] == UrlTemplate("dragonball")
  {
  }

  lemma UrlEntryFollowsTemplate12()
    ensures FandomUrls["marvel"] == UrlTemplate("marvel")
  {
  }

  lemma UrlEntryFollowsTemplate13()
    ensures FandomUrls["dc"] == UrlTemplate("dc")
  {
  }

  /** `charAt(0).toUpperCase() + slice(1)`. */
  function Capitalize(id: string): (r: string)
    ensures |r| == |id|
    ensures id != [] ==> r[0] == UpperChar(id[0]) && r[1..] == id[1..]
  {
    if id == [] then [] else [UpperChar(id[0])] + id[1..]
  }

  /**
   * `formatFandomName`, reading only the table's own entries: the known
   * display name, otherwise the id with its first character upper-cased.
   */
  function FormatFandomName(id: string): (r: string)
    ensures id in DisplayNames ==> r == DisplayNames[id]
    ensures id !in DisplayNames ==> r == Capitalize(id)
    ensures id != [] ==> r != []
  {
    if id in DisplayNames then DisplayNames[id] else Capitalize(id)
  }

  /** `generateFandomUrl`, reading only the table's own entries: always the template URL. */
  function GenerateFandomUrl(id: string): (r: string)
    ensures r == UrlTemplate(id)
  {
    if id in FandomUrls then
      FandomUrlsFollowTemplate(id);
      FandomUrls[id]
    else UrlTemplate(id)
  }

  /** The fandom id of a generated URL is the id it was generated from. */
  lemma ExtractGeneratedId(id: string)
    requires id != [] && '.' !in id
    ensures ExtractFandomName(GenerateFandomUrl(id)) == id
  {
    var url := GenerateFandomUrl(id);
    assert url == "https://" + id + ".fandom.com/";
    assert url[0..] == url;
    assert url[8..] == id + ".fandom.com/";
    TakeNonDotOf(id, ".fandom.com/");
    assert url[8 + |id|..] == ".fandom.com/";
    assert MatchHere(url) == Some(id);
  }

  // The lookup as the source writes it: `table[id] || fallback` on a plain
  // object literal, which also finds the members every object inherits.

  /** The value of a property read on an object literal. */
  datatype JsValue = JsString(s: string) | JsInherited   // JsInherited: a function or object from Object.prototype

  /** The property names an object literal inherits from Object.prototype. */
  const ObjectPrototypeNames: set<string> := {
    "constructor", "hasOwnProperty", "isPrototypeOf", "propertyIsEnumerable",
    "toLocaleString", "toString", "valueOf", "__proto__",
    "__defineGetter__", "__defineSetter__", "__lookupGetter__", "__lookupSetter__"
  }

  /** `table[key]`: an own entry, else an inherited member, else undefined (None). */
  function PropertyRead(table: map<string, string>, key: string): (r: Option<JsValue>)
    ensures key in table ==> r == Some(JsString(table[key]))
    ensures key !in table && key in ObjectPrototypeNames ==> r == Some(JsInherited)
    ensures key !in table && key !in ObjectPrototypeNames ==> r.None?
  {
    if key in table then Some(JsString(table[key]))
    else if key in ObjectPrototypeNames then Some(JsInherited)
    else None
  }

  /** `a || b` when b is a string: a when a is truthy, else b. */
  function OrElse(a: Option<JsValue>, b: string): JsValue {
    match a
    case Some(JsString(s)) => if s != [] then JsString(s) else JsString(b)
    case Some(JsInherited) => JsInherited
    case None => JsString(b)
  }

  /**
   * `formatFandomName` as written: a non-empty own entry, else an inherited
   * member of `Object.prototype` as it is, else the capitalised id.
   */
  function FormatFandomNameAsWritten(id: string): (r: JsValue)
    ensures id in DisplayNames && DisplayNames[id] != [] ==> r == JsString(DisplayNames[id])
    ensures id !in DisplayNames && id in ObjectPrototypeNames ==> r == JsInherited
    ensures id !in DisplayNames && id !in ObjectPrototypeNames ==> r == JsString(Capitalize(id))
  {
    OrElse(PropertyRead(DisplayNames, id), Capitalize(id))
  }

  /**
   * `generateFandomUrl` as written: a non-empty own entry, else an
   * inherited member of `Object.prototype` as it is, else the URL template.
   */
  function GenerateFandomUrlAsWritten(id: string): (r: JsValue)
    ensures id in FandomUrls && FandomUrls[id] != [] ==> r == JsString(FandomUrls[id])
    ensures id !in FandomUrls && id in ObjectPrototypeNames ==> r == JsInherited
    ensures id !in FandomUrls && id !in ObjectPrototypeNames ==> r == JsString(UrlTemplate(id))
  {
    OrElse(PropertyRead(FandomUrls, id), UrlTemplate(id))
  }

  /**
   * For the id "constructor" (the data file `constructor_latest.json`, which
   * a scrape of constructor.fandom.com produces) both helpers return the
   * inherited function instead of a string.
   */
  lemma InheritedNameIsNotAString()
    ensures FormatFandomNameAsWritten("constructor") == JsInherited
    ensures GenerateFandomUrlAsWritten("constructor") == JsInherited
  {
    assert "constructor" !in DisplayNames;
    assert "constructor" !in FandomUrls;
  }

  /** Away from the inherited names, the helpers as written agree with the corrected ones. */
  lemma AsWrittenAgreesOffPrototype(id: string)
    requires id !in ObjectPrototypeNames
    ensures FormatFandomNameAsWritten(id) == JsString(FormatFandomName(id))
    ensures GenerateFandomUrlAsWritten(id) == JsString(GenerateFandomUrl(id))
  {
  }

  // ---------------------------------------------------------------------
  // POST /api/scrape: validation and the launched command
  // ---------------------------------------------------------------------

  /** The integers a JavaScript number holds exactly (`Number.isSafeInteger`). */
  type SafeInteger = n: int | -9007199254740991 <= n <= 9007199254740991

  /** The JSON value of `maxPages` in the request body; numbers are the safe integers. */
  datatype JsonField = Undefined | Null | JsonBool(b: bool) | JsonNumber(n: SafeInteger) | JsonText(s: string)

  const DefaultMaxPages := 50

  /** `maxPages.toString()` after the default of 50; None where `toString` is not defined (null). */
  function MaxPagesText(maxPages: JsonField): (r: Option<string>)
    ensures maxPages == Undefined ==> r == Some("50")
    ensures maxPages == Null <==> r.None?
    ensures maxPages.JsonNumber? ==> r == Some(Decimal.IntToString(maxPages.n))
  {
    match maxPages
    case Undefined => DefaultMaxPagesText(); Some(Decimal.IntToString(DefaultMaxPages))
    case Null => None
    case JsonBool(b) => Some(if b then "true" else "false")
    case JsonNumber(n) => Some(Decimal.IntToString(n))
    case JsonText(s) => Some(s)
  }

  lemma DefaultMaxPagesText()
    ensures Decimal.IntToString(DefaultMaxPages) == "50"
  {
    assert Decimal.NatToString(5) == "5";
    assert Decimal.NatToString(50) == Decimal.NatToString(5) + "0";
  }

  /** The response to a scrape request, or the scraper process it starts. */
  datatype ScrapeOutcome =
    | BadRequest(error: string)
    | ServerError(error: string)
    | Spawn(program: string, argv: seq<string>)

  /**
   * The checks of `POST /api/scrape` and the command it then runs: 400
   * without a URL or for a URL that does not mention fandom.com, otherwise
   * `python <script> <url> --max-pages <n>`.
   */
  function ScrapeRequest(fandomUrl: Option<string>, maxPages: JsonField, scriptPath: string): (r: ScrapeOutcome)
    ensures fandomUrl.None? || fandomUrl == Some("") ==> r == BadRequest("URL Fandom requise")
    ensures fandomUrl.Some? && fandomUrl.value != [] && !Contains(fandomUrl.value, "fandom.com") ==>
      r == BadRequest("URL doit être un wiki Fandom (*.fandom.com)")
    ensures r.Spawn? <==> fandomUrl.Some? && Contains(fandomUrl.value, "fandom.com") && maxPages != Null
    ensures fandomUrl.Some? && Contains(fandomUrl.value, "fandom.com") && maxPages == Null ==>
      r == ServerError("Erreur interne du serveur")
    ensures r.Spawn? ==>
      && r.program == "python" && |r.argv| == 4
      && r.argv[0] == scriptPath && r.argv[1] == fandomUrl.value && r.argv[2] == "--max-pages"
      && Some(r.argv[3]) == MaxPagesText(maxPages)
  {
    if fandomUrl.None? || fandomUrl.value == [] then BadRequest("URL Fandom requise")
    else if !Contains(fandomUrl.value, "fandom.com") then BadRequest("URL doit être un wiki Fandom (*.fandom.com)")
    else match MaxPagesText(maxPages)
      case None => ServerError("Erreur interne du serveur")
      case Some(text) => Spawn("python", [scriptPath, fandomUrl.value, "--max-pages", text])
  }

  // ---------------------------------------------------------------------
  // GET /api/fandoms: the listing
  // ---------------------------------------------------------------------

  const LatestSuffix := "_latest.json"

  datatype FandomEntry = FandomEntry(id: string, name: string, url: string, dataFile: string)

  /**
   * The entry of a data file: its id is the file name with the first
   * "_latest.json" removed; its name and URL come from the corrected name
   * helpers (see Findings in README.md).
   */
  function EntryOf(file: string): (e: FandomEntry)
    ensures e.dataFile == file
    ensures e.name == FormatFandomName(e.id) && e.url == UrlTemplate(e.id)
    ensures Contains(file, LatestSuffix) ==> |e.id| + |LatestSuffix| == |file|
    ensures Contains(file, LatestSuffix) ==> exists i ::
      && OccursAt(file, LatestSuffix, i) && (forall j :: 0 <= j < i ==> !OccursAt(file, LatestSuffix, j))
      && e.id == file[..i] + file[i + |LatestSuffix|..]
    ensures IsSuffix(LatestSuffix, file) && !Contains(file[..|file| - |LatestSuffix|], LatestSuffix) ==>
      e.id + LatestSuffix == file
  {
    OnlyOccurrenceAtEnd(file);
    var id := ReplaceFirst(file, LatestSuffix, "");
    FandomEntry(id, FormatFandomName(id), GenerateFandomUrl(id), file)
  }

  /**
   * A file that ends in "_latest.json" and holds no other occurrence of it
   * before that end: the first occurrence is the final one, so removing it
   * leaves everything before the suffix. An occurrence that straddles the
   * final one would need a second '_' inside "_latest.json".
   */
  lemma {:induction false} OnlyOccurrenceAtEnd(file: string)
    ensures IsSuffix(LatestSuffix, file) && !Contains(file[..|file| - |LatestSuffix|], LatestSuffix) ==>
      ReplaceFirst(file, LatestSuffix, "") + LatestSuffix == file
  {
    if IsSuffix(LatestSuffix, file) && !Contains(file[..|file| - |LatestSuffix|], LatestSuffix) {
      var n := |file| - |LatestSuffix|;
      assert OccursAt(file, LatestSuffix, n);
      ContainsIff(file, LatestSuffix);
      forall j | 0 <= j < n ensures !OccursAt(file, LatestSuffix, j) {
        if j + |LatestSuffix| <= n {
          NoOccurrenceInPrefix(file, n, j);
        } else {
          NoOccurrenceAcrossSuffix(file, j);
        }
      }
      var r := ReplaceFirst(file, LatestSuffix, "");
      var i :| && OccursAt(file, LatestSuffix, i) && (forall j :: 0 <= j < i ==> !OccursAt(file, LatestSuffix, j))
               && r == file[..i] + "" + file[i + |LatestSuffix|..];
      assert i == n;
      assert r == file[..n];
    }
  }

  /** An occurrence that ends before n is an occurrence in the first n characters. */
  lemma NoOccurrenceInPrefix(file: string, n: nat, j: nat)
    requires n <= |file| && j + |LatestSuffix| <= n && !Contains(file[..n], LatestSuffix)
    ensures !OccursAt(file, LatestSuffix, j)
  {
    var before := file[..n];
    ContainsIff(before, LatestSuffix);
    assert !OccursAt(before, LatestSuffix, j);
    assert before[j..j + |LatestSuffix|] == file[j..j + |LatestSuffix|];
  }

  /** Only the first character of "_latest.json" is a '_'. */
  lemma UnderscoreOnlyFirst()
    ensures forall m :: 1 <= m < |LatestSuffix| ==> LatestSuffix[m] != '_'
  {
  }

  /** No occurrence starts inside the final "_latest.json": it would need a second '_'. */
  lemma NoOccurrenceAcrossSuffix(file: string, j: nat)
    requires IsSuffix(LatestSuffix, file) && |file| - 2 * |LatestSuffix| < j < |file| - |LatestSuffix|
    ensures !OccursAt(file, LatestSuffix, j)
  {
    var n := |file| - |LatestSuffix|;
    UnderscoreOnlyFirst();
    assert file[n] == LatestSuffix[0] == '_';
    if j + |LatestSuffix| <= |file| {
      assert file[j..j + |LatestSuffix|][n - j] == '_' != LatestSuffix[n - j];
    }
  }

  /** The data file the spider writes for a fandom gives back that fandom's id. */
  lemma EntryOfLatestFile(id: string)
    requires !Contains(id, LatestSuffix)
    ensures EntryOf(id + LatestSuffix).id == id
  {
    var file := id + LatestSuffix;
    assert file[..|file| - |LatestSuffix|] == id;
    assert file[|file| - |LatestSuffix|..] == LatestSuffix;
    var e := EntryOf(file);
    assert (e.id + LatestSuffix)[..|e.id|] == e.id;
  }

  /** `files.filter(file => file.endsWith('_latest.json'))`. */
  function LatestFiles(files: seq<string>): (r: seq<string>)
    ensures forall f :: f in r <==> f in files && IsSuffix(LatestSuffix, f)
    ensures multiset(r) <= multiset(files)
  {
    if files == [] then []
    else
      var rest := LatestFiles(files[1..]);
      assert files == [files[0]] + files[1..];
      if IsSuffix(LatestSuffix, files[0]) then [files[0]] + rest else rest
  }

  function EntriesOf(files: seq<string>): (r: seq<FandomEntry>)
    ensures |r| == |files|
    ensures forall i :: 0 <= i < |files| ==> r[i] == EntryOf(files[i])
  {
    if files == [] then [] else [EntryOf(files[0])] + EntriesOf(files[1..])
  }

  /** The entries of the latest files are the entries of the files that end in "_latest.json". */
  lemma EntriesOfLatest(files: seq<string>)
    ensures forall e :: e in EntriesOf(LatestFiles(files)) <==> exists f :: f in files && IsSuffix(LatestSuffix, f) && e == EntryOf(f)
  {
    var latest := LatestFiles(files);
    var entries := EntriesOf(latest);
    forall e ensures e in entries <==> exists f :: f in files && IsSuffix(LatestSuffix, f) && e == EntryOf(f) {
      if e in entries {
        var i :| 0 <= i < |entries| && entries[i] == e;
        assert latest[i] in latest;
      }
      if exists f :: f in files && IsSuffix(LatestSuffix, f) && e == EntryOf(f) {
        var f :| f in files && IsSuffix(LatestSuffix, f) && e == EntryOf(f);
        assert f in latest;
        var i :| 0 <= i < |latest| && latest[i] == f;
        assert entries[i] == e;
      }
    }
  }

  /** `localeCompare(a, b) <= 0` is given as an order on names that is total and transitive. */
  ghost predicate IsTotalPreorder(leq: (string, string) -> bool) {
    && (forall a, b :: leq(a, b) || leq(b, a))
    && (forall a, b, c :: leq(a, b) && leq(b, c) ==> leq(a, c))
  }

  ghost predicate SortedByName(entries: seq<FandomEntry>, leq: (string, string) -> bool) {
    forall i, j :: 0 <= i < j < |entries| ==> leq(entries[i].name, entries[j].name)
  }

  /** Inserts e before the first entry it does not follow. */
  function InsertByName(e: FandomEntry, sorted: seq<FandomEntry>, leq: (string, string) -> bool): (r: seq<FandomEntry>)
    ensures multiset(r) == multiset(sorted) + multiset{e}
  {
    if sorted == [] then [e]
    else if leq(e.name, sorted[0].name) then [e] + sorted
    else
      assert sorted == [sorted[0]] + sorted[1..];
      [sorted[0]] + InsertByName(e, sorted[1..], leq)
  }

  /** Insertion keeps a sorted list sorted. */
  lemma {:induction false} InsertByNameSorted(e: FandomEntry, sorted: seq<FandomEntry>, leq: (string, string) -> bool)
    requires IsTotalPreorder(leq) && SortedByName(sorted, leq)
    ensures SortedByName(InsertByName(e, sorted, leq), leq)
  {
    if sorted != [] && !leq(e.name, sorted[0].name) {
      InsertByNameSorted(e, sorted[1..], leq);
      var rest := InsertByName(e, sorted[1..], leq);
      assert multiset(rest) == multiset(sorted[1..]) + multiset{e};
      forall x | x in rest ensures leq(sorted[0].name, x.name) {
        assert x in multiset(rest);
        if x != e {
          assert x in multiset(sorted[1..]);
          var j :| 0 <= j < |sorted[1..]| && sorted[1..][j] == x;
          assert sorted[j + 1] == x;
        }
      }
    }
  }

  /** The listing's sort by display name (an insertion sort; JavaScript's sort is stable too). */
  function SortByName(entries: seq<FandomEntry>, leq: (string, string) -> bool): (r: seq<FandomEntry>)
    requires IsTotalPreorder(leq)
    ensures SortedByName(r, leq)
    ensures multiset(r) == multiset(entries)
  {
    if entries == [] then []
    else
      assert entries == [entries[0]] + entries[1..];
      InsertByNameSorted(entries[0], SortByName(entries[1..], leq), leq);
      InsertByName(entries[0], SortByName(entries[1..], leq), leq)
  }

  /**
   * `GET /api/fandoms` once the data directory has been read: one entry
   * per `_latest.json` file, sorted by display name, with the corrected
   * name helpers (see Findings in README.md).
   */
  function ListFandoms(files: seq<string>, leq: (string, string) -> bool): (r: seq<FandomEntry>)
    requires IsTotalPreorder(leq)
    ensures SortedByName(r, leq)
    ensures multiset(r) == multiset(EntriesOf(LatestFiles(files)))
    ensures forall e :: e in r <==> exists f :: f in files && IsSuffix(LatestSuffix, f) && e == EntryOf(f)
  {
    var entries := EntriesOf(LatestFiles(files));
    var r := SortByName(entries, leq);
    assert forall e :: e in r <==> e in multiset(entries);
    EntriesOfLatest(files);
    r
  }
}
