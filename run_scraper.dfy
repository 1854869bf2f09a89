/**
 * The command-line launcher: the check that a URL names a Fandom wiki,
 * the Scrapy command it builds, and the order of its effects (output
 * directory, working directory, the crawl, the exit status). The process
 * it runs is not modelled; whether it succeeds is a parameter.
 */
module RunScraper {
  import opened Optional
  import opened Text
  import Decimal
  import UrlParse
  import Spider
  import Server

  const NotFandomMessage := "L'URL doit être un wiki Fandom (*.fandom.com)"

  /** `'fandom.com' not in None` raises TypeError; the launcher reports it with this text. */
  const NoHostnameMessage := "URL invalide: argument of type 'NoneType' is not iterable"

  /** `validate_fandom_url`: accepted exactly when the parsed hostname contains "fandom.com". */
  function ValidateFandomUrl(url: string): (r: (bool, string))
    ensures r.0 <==> UrlParse.Hostname(url).Some? && Contains(UrlParse.Hostname(url).value, "fandom.com")
    ensures r.0 ==> r.1 == ""
    ensures UrlParse.Hostname(url).None? ==> r == (false, NoHostnameMessage)
    ensures UrlParse.Hostname(url).Some? && !r.0 ==> r.1 == NotFandomMessage
  {
    match UrlParse.Hostname(url)
    case None => (false, NoHostnameMessage)
    case Some(host) => if !Contains(host, "fandom.com") then (false, NotFandomMessage) else (true, "")
  }

  /** A `--max-pages` value that Python treats as true: given and not zero. */
  predicate SetsBudget(maxPages: Option<int>) {
    maxPages.Some? && maxPages.value != 0
  }

  /** The names of the two spider arguments the launcher passes. */
  const UrlArgument := "fandom_url"
  const BudgetArgument := "max_pages"

  /** The Scrapy command line for a URL and an optional page budget. */
  function Command(fandomUrl: string, maxPages: Option<int>): (cmd: seq<string>)
    ensures |cmd| == if SetsBudget(maxPages) then 7 else 5
    ensures cmd[0] == "scrapy" && cmd[1] == "crawl" && cmd[2] == "fandom"
    ensures cmd[3] == "-a" && cmd[4] == UrlArgument + "=" + fandomUrl
    ensures SetsBudget(maxPages) ==> cmd[5] == "-a" && cmd[6] == BudgetArgument + "=" + Decimal.IntToString(maxPages.value)
  {
    var base := ["scrapy", "crawl", "fandom", "-a", UrlArgument + "=" + fandomUrl];
    if SetsBudget(maxPages) then base + ["-a", BudgetArgument + "=" + Decimal.IntToString(maxPages.value)] else base
  }

  /** The `cmd` list of `main`, built and then extended in place. */
  method BuildCommand(fandomUrl: string, maxPages: Option<int>) returns (cmd: seq<string>)
    ensures cmd == Command(fandomUrl, maxPages)
  {
    cmd := ["scrapy", "crawl", "fandom", "-a", UrlArgument + "=" + fandomUrl];
    if maxPages.Some? && maxPages.value != 0 {
      cmd := cmd + ["-a", BudgetArgument + "=" + Decimal.IntToString(maxPages.value)];
    }
  }

  /** How Scrapy reads a `-a` argument: name and value split at the first '='. */
  function SplitArgument(arg: string): (r: (string, string))
    ensures '=' in arg ==> arg == r.0 + "=" + r.1 && '=' !in r.0
    ensures '=' !in arg ==> r == (arg, "")
  {
    var name := CutAt(arg, "=");
    ContainsChar(name, '=');
    ContainsChar(arg, '=');
    if name == arg then (arg, "")
    else
      assert IsPrefix("=", arg[|name|..]);
      assert arg == name + [arg[|name|]] + arg[|name| + 1..];
      (name, arg[|name| + 1..])
  }

  /** The spider reads back the URL it was given, whatever characters the URL holds. */
  lemma CommandPassesUrl(fandomUrl: string, maxPages: Option<int>)
    ensures SplitArgument(Command(fandomUrl, maxPages)[4]) == (UrlArgument, fandomUrl)
  {
    SplitNamed(UrlArgument, fandomUrl);
  }

  /** An argument `name=value` with '=' absent from the name splits back into name and value. */
  lemma SplitNamed(name: string, value: string)
    requires '=' !in name
    ensures SplitArgument(name + "=" + value) == (name, value)
  {
    var arg := name + "=" + value;
    assert arg[|name|] == '=';
    var r := SplitArgument(arg);
    SplitUnique(r.0, r.1, name, value);
  }

  /** A name free of '=' is recovered from `name=value`. */
  lemma {:induction false} SplitUnique(a: string, b: string, c: string, d: string)
    requires '=' !in a && '=' !in c && a + "=" + b == c + "=" + d
    ensures a == c && b == d
  {
    EqualsAfter(a, b, c, d);
    EqualsAfter(c, d, a, b);
    assert a == (a + "=" + b)[..|a|] == (c + "=" + d)[..|c|] == c;
    assert b == (a + "=" + b)[|a| + 1..] == (c + "=" + d)[|c| + 1..] == d;
  }

  /** In `a=b` written as `c=d` with a shorter a, the '=' after a is a character of c. */
  lemma EqualsAfter(a: string, b: string, c: string, d: string)
    requires a + "=" + b == c + "=" + d
    ensures |a| < |c| ==> c[|a|] == '='
  {
    if |a| < |c| {
      assert c[|a|] == (c + "=" + d)[|a|] == (a + "=" + b)[|a|];
    }
  }

  /** The `max_pages` the spider receives from the command: None when the command does not pass one. */
  function MaxPagesArgument(cmd: seq<string>): Option<string> {
    if |cmd| == 7 then Some(SplitArgument(cmd[6]).1) else None
  }

  /**
   * The budget written into the command is the budget the spider reads:
   * zero reaches the spider as no budget at all, which is how the spider
   * treats zero anyway.
   */
  lemma CommandPassesBudget(fandomUrl: string, n: int)
    ensures Spider.MaxPagesOf(MaxPagesArgument(Command(fandomUrl, Some(n)))) == Ok(if n != 0 then Some(n) else None)
  {
    if n != 0 {
      SplitNamed(BudgetArgument, Decimal.IntToString(n));
      Spider.MaxPagesArgumentRoundTrip(n);
    }
  }

  /**
   * The budget the backend sends survives the chain: the number the
   * backend puts after `--max-pages`, parsed by the launcher, written into
   * the Scrapy command and parsed again by the spider, is the same number.
   */
  lemma BudgetReachesSpider(fandomUrl: string, n: Server.SafeInteger, scriptPath: string)
    requires Contains(fandomUrl, "fandom.com")
    ensures Server.ScrapeRequest(Some(fandomUrl), Server.JsonNumber(n), scriptPath).Spawn?
    ensures
      var argv := Server.ScrapeRequest(Some(fandomUrl), Server.JsonNumber(n), scriptPath).argv;
      && Decimal.ParseDecimal(argv[3]) == Some(n)
      && Spider.MaxPagesOf(MaxPagesArgument(Command(argv[1], Some(n)))) == Ok(if n != 0 then Some(n) else None)
  {
    Decimal.IntToStringRoundTrip(n);
    CommandPassesBudget(fandomUrl, n);
  }

  /** What the launcher does, in order. */
  datatype Effect = MakeDirs(path: string) | ChangeDir(path: string) | Run(argv: seq<string>) | Exit(status: int)

  const DefaultOutputDir := "../data"

  /**
   * `main` once the command line has been split into its arguments: a
   * `--max-pages` value that is not an integer is an argparse error (exit
   * status 2); an invalid URL exits with status 1 before anything else
   * happens; otherwise the output directory is created, the working
   * directory changed and the crawl run, and a failed crawl exits with 1.
   */
  method RunMain(fandomUrl: string, maxPagesArg: Option<string>, outputDirArg: Option<string>, crawlSucceeds: bool)
    returns (effects: seq<Effect>)
    ensures maxPagesArg.Some? && Decimal.ParseDecimal(maxPagesArg.value).None? ==> effects == [Exit(2)]
    ensures !ValidateFandomUrl(fandomUrl).0 ==> forall k :: 0 <= k < |effects| ==> effects[k].Exit?
    ensures (maxPagesArg.None? || Decimal.ParseDecimal(maxPagesArg.value).Some?) && !ValidateFandomUrl(fandomUrl).0 ==>
      effects == [Exit(1)]
    ensures (maxPagesArg.None? || Decimal.ParseDecimal(maxPagesArg.value).Some?) && ValidateFandomUrl(fandomUrl).0 ==>
      && |effects| == (if crawlSucceeds then 3 else 4)
      && effects[0] == MakeDirs(outputDirArg.GetOr(DefaultOutputDir))
      && effects[1] == ChangeDir("fandom_scrap")
      && effects[2] == Run(Command(fandomUrl, if maxPagesArg.None? then None else Decimal.ParseDecimal(maxPagesArg.value)))
      && (!crawlSucceeds ==> effects[3] == Exit(1))
  {
    var maxPages: Option<int> := None;
    if maxPagesArg.Some? {
      maxPages := Decimal.ParseDecimal(maxPagesArg.value);
      if maxPages.None? {
        return [Exit(2)];
      }
    }
    var (valid, _) := ValidateFandomUrl(fandomUrl);
    if !valid {
      return [Exit(1)];
    }
    effects := Launch(fandomUrl, maxPages, outputDirArg.GetOr(DefaultOutputDir), crawlSucceeds);
  }

  /** The part of `main` after validation: create the output directory, build the command, run it. */
  method Launch(fandomUrl: string, maxPages: Option<int>, outputDir: string, crawlSucceeds: bool)
    returns (effects: seq<Effect>)
    ensures |effects| == (if crawlSucceeds then 3 else 4)
    ensures effects[0] == MakeDirs(outputDir) && effects[1] == ChangeDir("fandom_scrap")
    ensures effects[2] == Run(Command(fandomUrl, maxPages))
    ensures !crawlSucceeds ==> effects[3] == Exit(1)
  {
    effects := [MakeDirs(outputDir)];
    var cmd := BuildCommand(fandomUrl, maxPages);
    effects := effects + [ChangeDir("fandom_scrap")];
    effects := effects + [Run(cmd)];
    if !crawlSucceeds {
      effects := effects + [Exit(1)];
    }
  }
}
