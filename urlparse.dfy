/**
 * The part of Python's `urllib.parse.urlparse` that the scraper reads: the
 * `hostname` of a URL. The model follows `urlsplit` (leading control
 * characters and spaces dropped, tab, CR and LF removed, an optional
 * scheme, a network location introduced by `//`) and the `hostname`
 * property (user information and port dropped, letters lower-cased).
 */
module UrlParse {
  import opened Optional
  import opened Text
  import Decimal

  /** WHATWG "C0 control or space": what urlsplit strips from the front of a URL. */
  predicate IsC0OrSpace(c: char) {
    c <= ' '
  }

  function DropLeadingC0(s: string): (r: string)
    ensures IsSuffix(r, s)
    ensures r == [] || !IsC0OrSpace(r[0])
  {
    if s == [] || !IsC0OrSpace(s[0]) then s else DropLeadingC0(s[1..])
  }

  /** Tab, CR and LF, which urlsplit deletes wherever they occur. */
  predicate IsUnsafeUrlChar(c: char) {
    c == '\t' || c == '\r' || c == '\n'
  }

  function RemoveUnsafe(s: string): (r: string)
    ensures forall i :: 0 <= i < |r| ==> !IsUnsafeUrlChar(r[i])
    ensures |r| <= |s|
  {
    if s == [] then []
    else if IsUnsafeUrlChar(s[0]) then RemoveUnsafe(s[1..])
    else [s[0]] + RemoveUnsafe(s[1..])
  }

  predicate IsSchemeChar(c: char) {
    IsAsciiLetter(c) || Decimal.IsDigit(c) || c == '+' || c == '-' || c == '.'
  }

  /** The URL with its `scheme:` removed, when it starts with one. */
  function AfterScheme(u: string): (r: string)
    ensures IsSuffix(r, u)
  {
    match IndexOf(u, ":")
    case None => u
    case Some(i) =>
      if i > 0 && IsAsciiLetter(u[0]) && forall k :: 0 <= k < i ==> IsSchemeChar(u[k]) then u[i + 1..]
      else u
  }

  predicate IsNetlocEnd(c: char) {
    c == '/' || c == '?' || c == '#'
  }

  /** The longest prefix of s free of '/', '?' and '#'. */
  function TakeNetloc(s: string): (r: string)
    ensures IsPrefix(r, s)
    ensures forall i :: 0 <= i < |r| ==> !IsNetlocEnd(r[i])
    ensures r == s || IsNetlocEnd(s[|r|])
  {
    if s == [] || IsNetlocEnd(s[0]) then [] else [s[0]] + TakeNetloc(s[1..])
  }

  /** urlsplit's `netloc`: None when the URL has no `//` authority part. */
  function Netloc(url: string): Option<string> {
    var rest := AfterScheme(RemoveUnsafe(DropLeadingC0(url)));
    if IsPrefix("//", rest) then Some(TakeNetloc(rest[2..])) else None
  }

  /** `hostname.lower()` except for an IPv6 zone after '%', which is kept as written. */
  function LowerHost(h: string): string {
    var name := CutAt(h, "%");
    Lower(name) + h[|name|..]
  }

  /**
   * The `hostname` of `urlparse(url)`: the network location without user
   * information (up to the last '@') and port (from the first ':'),
   * lower-cased, or None when that is empty or there is no network location.
   */
  function Hostname(url: string): (r: Option<string>)
    ensures r.Some? ==> r.value != []
    ensures r.Some? ==> forall i :: 0 <= i < |r.value| ==> r.value[i] !in "/?#@:"
  {
    match Netloc(url)
    case None => None
    case Some(netloc) =>
      var hostinfo := AfterLast(netloc, '@');
      var host := CutAt(hostinfo, ":");
      if host == [] then None
      else
        HostCharsKept(netloc, hostinfo, host);
        Some(LowerHost(host))
  }

  lemma HostCharsKept(netloc: string, hostinfo: string, host: string)
    requires forall i :: 0 <= i < |netloc| ==> !IsNetlocEnd(netloc[i])
    requires IsSuffix(hostinfo, netloc) && '@' !in hostinfo
    requires IsPrefix(host, hostinfo) && !Contains(host, ":")
    ensures forall i :: 0 <= i < |LowerHost(host)| ==> LowerHost(host)[i] !in "/?#@:"
  {
    var name := CutAt(host, "%");
    var lh := LowerHost(host);
    forall i | 0 <= i < |host| ensures host[i] !in "/?#@:" {
      assert host[i] == hostinfo[i] == netloc[|netloc| - |hostinfo| + i];
      if host[i] == ':' {
        assert OccursAt(host, ":", i);
        ContainsIff(host, ":");
      }
    }
    assert |lh| == |host|;
    forall i | 0 <= i < |lh| ensures lh[i] !in "/?#@:" {
      if i < |name| {
        assert lh[i] == LowerChar(host[i]);
      } else {
        assert lh[i] == host[i];
      }
    }
  }

  // ---------------------------------------------------------------------
  // The hostname of a plain https URL
  // ---------------------------------------------------------------------

  lemma {:induction false} RemoveUnsafeAppend(a: string, b: string)
    ensures RemoveUnsafe(a + b) == RemoveUnsafe(a) + RemoveUnsafe(b)
  {
    if a != [] {
      assert (a + b)[0] == a[0] && (a + b)[1..] == a[1..] + b;
      RemoveUnsafeAppend(a[1..], b);
    } else {
      assert a + b == b;
    }
  }

  /** A text without tab, CR or LF is left as it is. */
  lemma {:induction false} RemoveUnsafeKeepsSafe(s: string)
    requires forall i :: 0 <= i < |s| ==> !IsUnsafeUrlChar(s[i])
    ensures RemoveUnsafe(s) == s
  {
    if s != [] {
      RemoveUnsafeKeepsSafe(s[1..]);
    }
  }

  /** Removing tab, CR and LF keeps a leading '/'. */
  lemma RemoveUnsafeKeepsLeadingSlash(path: string)
    requires path == [] || path[0] == '/'
    ensures RemoveUnsafe(path) == [] || RemoveUnsafe(path)[0] == '/'
  {
  }

  /** The scheme `https:` is split off whatever follows it. */
  lemma SchemeDropped(rest: string)
    ensures AfterScheme("https:" + rest) == rest
  {
    var u := "https:" + rest;
    assert OccursAt(u, ":", 5);
    forall k | 0 <= k < 5
      ensures !OccursAt(u, ":", k)
    {
      assert u[k..k + 1][0] == u[k];
    }
    assert forall k :: 0 <= k < 5 ==> IsSchemeChar(u[k]);
  }

  /** The network location stops right before a path that starts with '/'. */
  lemma {:induction false} TakeNetlocOfHost(host: string, p: string)
    requires forall i :: 0 <= i < |host| ==> !IsNetlocEnd(host[i])
    requires p == [] || IsNetlocEnd(p[0])
    ensures TakeNetloc(host + p) == host
  {
    if host != [] {
      assert (host + p)[0] == host[0] && (host + p)[1..] == host[1..] + p;
      TakeNetlocOfHost(host[1..], p);
    } else {
      assert host + p == p;
    }
  }

  /** A host name with no control character, space, delimiter or '%' in it. */
  predicate PlainHost(host: string) {
    host != [] && forall i :: 0 <= i < |host| ==> host[i] > ' ' && host[i] !in "/?#@:%"
  }

  lemma HttpsRegroup(host: string, clean: string)
    ensures ("https://" + host) + clean == "https:" + ("//" + (host + clean))
  {
  }

  /** Cleaning `https://` + host + path only removes tab, CR and LF from the path. */
  lemma CleanHttpsUrl(host: string, path: string)
    requires PlainHost(host)
    ensures RemoveUnsafe(DropLeadingC0(("https://" + host) + path)) == ("https://" + host) + RemoveUnsafe(path)
  {
    assert (("https://" + host) + path)[0] == 'h';
    RemoveUnsafeAppend("https://" + host, path);
    RemoveUnsafeKeepsSafe("https://" + host);
  }

  /** A URL whose cleaned form is `https://` + host + a path has that host as its network location. */
  lemma NetlocAfterHttps(url: string, host: string, clean: string)
    requires RemoveUnsafe(DropLeadingC0(url)) == "https:" + ("//" + (host + clean))
    requires forall i :: 0 <= i < |host| ==> !IsNetlocEnd(host[i])
    requires clean == [] || clean[0] == '/'
    ensures Netloc(url) == Some(host)
  {
    var rest := "//" + (host + clean);
    SchemeDropped(rest);
    assert rest[2..] == host + clean;
    TakeNetlocOfHost(host, clean);
  }

  /** The network location of `https://` + host + path is the host. */
  lemma {:induction false} NetlocOfHttpsUrl(host: string, path: string)
    requires PlainHost(host)
    requires path == [] || path[0] == '/'
    ensures Netloc("https://" + host + path) == Some(host)
  {
    var url := "https://" + host + path;
    var clean := RemoveUnsafe(path);
    CleanHttpsUrl(host, path);
    HttpsRegroup(host, clean);
    RemoveUnsafeKeepsLeadingSlash(path);
    NetlocAfterHttps(url, host, clean);
  }

  /** A plain host keeps its name when user information, port and zone are split off. */
  lemma PlainHostParts(host: string)
    requires PlainHost(host)
    ensures AfterLast(host, '@') == host
    ensures CutAt(host, ":") == host
    ensures LowerHost(host) == Lower(host)
  {
    ContainsChar(host, ':');
    ContainsChar(host, '%');
    assert CutAt(host, "%") == host;
  }

  /** The hostname of `https://` + host + path is the host, lower-cased. */
  lemma {:induction false} HostnameOfHttpsUrl(host: string, path: string)
    requires PlainHost(host)
    requires path == [] || path[0] == '/'
    ensures Hostname("https://" + host + path) == Some(Lower(host))
  {
    NetlocOfHttpsUrl(host, path);
    PlainHostParts(host);
  }
}
