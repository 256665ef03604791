/** Host names: the on-domain test, and the host a URL names. */
module HostNames {
  import opened Text

  // ---- on-domain hosts ----

  function Norm(name: string): string {
    RStripDot(Lower(name))
  }

  predicate IsOnDomain(host: string, domain: string) {
    Norm(host) == Norm(domain) || EndsWith(Norm(host), "." + Norm(domain))
  }

  ghost predicate IsSuffix<T>(s: seq<T>, t: seq<T>) {
    |s| <= |t| && t[|t| - |s|..] == s
  }

  lemma EndsWithDotted(a: string, d: string)
    ensures EndsWith(a + "." + d, "." + d)
  {
    assert a + "." + d == a + ("." + d);
  }

  lemma DottedSuffix(h: string, d: string)
    requires EndsWith(h, "." + d)
    ensures IsSuffix(Split(d, '.'), Split(h, '.'))
  {
    var a := h[..|h| - |d| - 1];
    assert h == a + ("." + d);
    assert h == a + "." + d;
    SplitAppend(a, '.', d);
  }

  lemma JoinedSuffix(a: seq<string>, b: seq<string>)
    requires a != [] && b != []
    ensures EndsWith(Join(a + b, "."), "." + Join(b, "."))
  {
    JoinAppend(a, b, ".");
    EndsWithDotted(Join(a, "."), Join(b, "."));
  }

  lemma LabelSuffix(h: string, d: string)
    requires IsSuffix(Split(d, '.'), Split(h, '.'))
    ensures h == d || EndsWith(h, "." + d)
  {
    var lh, ld := Split(h, '.'), Split(d, '.');
    JoinSplit(h, '.');
    JoinSplit(d, '.');
    var a := lh[..|lh| - |ld|];
    assert lh == a + ld;
    if a == [] {
      assert lh == ld;
    } else {
      JoinedSuffix(a, ld);
    }
  }

  /** The string test is the label test: the domain's labels end the host's. */
  lemma OnDomainIsLabelSuffix(host: string, domain: string)
    ensures IsOnDomain(host, domain) <==> IsSuffix(Split(Norm(domain), '.'), Split(Norm(host), '.'))
  {
    if EndsWith(Norm(host), "." + Norm(domain)) {
      DottedSuffix(Norm(host), Norm(domain));
    }
    if IsSuffix(Split(Norm(domain), '.'), Split(Norm(host), '.')) {
      LabelSuffix(Norm(host), Norm(domain));
    }
  }

  // ---- URLs ----

  const SCHEME: string := "https://"
  const PLAIN_SCHEME: string := "http://"

  function UpTo(s: string, stops: set<char>): (r: string)
    ensures |r| <= |s| && r == s[..|r|]
    ensures |r| < |s| ==> s[|r|] in stops
  {
    if s == [] || s[0] in stops then [] else [s[0]] + UpTo(s[1..], stops)
  }

  function AfterAt(s: string): (r: string)
    ensures |r| <= |s|
    ensures '@' !in s ==> r == s
  {
    if '@' !in s then s
    else if s[0] == '@' && '@' !in s[1..] then s[1..]
    else AfterAt(s[1..])
  }

  const PATH_STOPS: set<char> := {'/', '?', '#'}

  /** The authority that `rest`, what follows a scheme, begins with. */
  function Authority(rest: string): string {
    UpTo(rest, PATH_STOPS)
  }

  /** The server in an authority, without user information, brackets and port. */
  function ServerName(authority: string): string {
    var s := AfterAt(authority);
    if s != [] && s[0] == '[' then UpTo(s[1..], {']'}) else UpTo(s, {':'})
  }

  /** Host of a URL; none unless it is an http one. */
  function HostOf(url: string): string {
    if StartsWith(url, SCHEME) then Lower(ServerName(Authority(url[|SCHEME|..])))
    else if StartsWith(url, PLAIN_SCHEME) then Lower(ServerName(Authority(url[|PLAIN_SCHEME|..])))
    else []
  }

  /** After an opening bracket: an address literal, the closing bracket, and at most a port. */
  predicate Enclosed(q: string, literal: string -> bool) {
    ']' in q &&
    var inside := UpTo(q, {']'});
    var after := q[|inside|..];
    literal(inside) && (after == "]" || (|after| > 1 && after[1] == ':'))
  }

  /** Brackets may only enclose an address literal at the very start. */
  predicate Bracketing(authority: string, literal: string -> bool) {
    var s := AfterAt(authority);
    ('[' !in authority && ']' !in authority) || (s != [] && s[0] == '[' && Enclosed(s[1..], literal))
  }

  /** Letters, digits, hyphens, underscores and dots. */
  predicate PlainHost(h: string) {
    forall i :: 0 <= i < |h| ==>
      'a' <= h[i] <= 'z' || 'A' <= h[i] <= 'Z' || '0' <= h[i] <= '9' || h[i] == '-' || h[i] == '_' || h[i] == '.'
  }

  /** What ends a host name, or opens something else, inside a URL. */
  const DELIMITERS: set<char> := {'/', '?', '#', '@', ':', '[', ']'}

  predicate Has(s: string, stops: set<char>) {
    exists i :: 0 <= i < |s| && s[i] in stops
  }

  lemma {:induction false} UpToCut(p: string, rest: string, stops: set<char>)
    requires Has(p, stops)
    ensures UpTo(p + rest, stops) == UpTo(p, stops) && |UpTo(p, stops)| < |p|
  {
    if p[0] !in stops {
      assert (p + rest)[1..] == p[1..] + rest;
      var i :| 0 <= i < |p| && p[i] in stops;
      assert p[1..][i - 1] == p[i];
      UpToCut(p[1..], rest, stops);
    }
  }

  lemma {:induction false} UpToNext(p: string, rest: string, stops: set<char>)
    requires !Has(p, stops) && (rest == [] || rest[0] in stops)
    ensures UpTo(p + rest, stops) == p
  {
    if p == [] {
      assert p + rest == rest;
    } else {
      assert (p + rest)[1..] == p[1..] + rest;
      forall i | 0 <= i < |p[1..]| ensures p[1..][i] !in stops {
        assert p[1..][i] == p[i + 1];
      }
      UpToNext(p[1..], rest, stops);
      assert p == [p[0]] + p[1..];
    }
  }

  lemma UpToAll(p: string, stops: set<char>)
    requires !Has(p, stops)
    ensures UpTo(p, stops) == p
  {
    assert p + [] == p;
    UpToNext(p, [], stops);
  }

  /** A name without delimiters, followed by a path, is the host. */
  lemma UndelimitedServer(h: string)
    requires !Has(h, DELIMITERS)
    ensures ServerName(h) == h
  {
    assert '@' !in h && '[' !in h;
    UpToAll(h, {':'});
  }

  lemma HostAfterScheme(rest: string)
    ensures HostOf(SCHEME + rest) == Lower(ServerName(Authority(rest)))
  {
    assert (SCHEME + rest)[|SCHEME|..] == rest;
  }

  lemma AuthorityBeforePath(h: string, path: string)
    requires path != [] && path[0] == '/'
    ensures Authority(h + path) == Authority(h)
  {
    if Has(h, PATH_STOPS) {
      UpToCut(h, path, PATH_STOPS);
    } else {
      UpToNext(h, path, PATH_STOPS);
      UpToAll(h, PATH_STOPS);
    }
  }

  lemma HostOfServer(h: string, path: string)
    requires path != [] && path[0] == '/'
    ensures HostOf(SCHEME + h + path) == Lower(ServerName(Authority(h)))
  {
    Regroup(SCHEME, h, path);
    HostAfterScheme(h + path);
    AuthorityBeforePath(h, path);
  }

  lemma UndelimitedAuthority(h: string)
    requires !Has(h, DELIMITERS)
    ensures Authority(h) == h
  {
    UpToAll(h, PATH_STOPS);
  }

  lemma HostOfUndelimited(h: string, path: string)
    requires !Has(h, DELIMITERS) && path != [] && path[0] == '/'
    ensures HostOf(SCHEME + h + path) == Lower(h)
  {
    HostOfServer(h, path);
    UndelimitedAuthority(h);
    UndelimitedServer(h);
  }

  lemma PlainIsUndelimited(h: string)
    requires PlainHost(h)
    ensures !Has(h, DELIMITERS)
  {}

  // ---- hosts under a domain ----

  lemma NormIdempotent(d: string)
    ensures Norm(Norm(d)) == Norm(d) && IsLower(Norm(d))
    ensures PlainHost(d) ==> PlainHost(Norm(d))
  {
    LowerIsLower(d);
    LowerFixed(Norm(d));
  }

  lemma NormFixed(h: string)
    requires IsLower(h) && (h == [] || h[|h| - 1] != '.')
    ensures Norm(h) == h && Lower(h) == h
  {
    LowerFixed(h);
  }

  /** A lower-case name under the domain. */
  lemma UnderDomain(prefix: string, domain: string)
    requires Norm(domain) != [] && IsLower(prefix) && (prefix == [] || prefix[|prefix| - 1] == '.')
    ensures IsOnDomain(Lower(prefix + Norm(domain)), domain)
  {
    NormIdempotent(domain);
    JoinedLower(prefix, Norm(domain));
    NormFixed(prefix + Norm(domain));
    PrefixedEnds(prefix, Norm(domain));
  }

  lemma PrefixedEnds(prefix: string, d: string)
    requires prefix == [] || prefix[|prefix| - 1] == '.'
    ensures prefix + d == d || EndsWith(prefix + d, "." + d)
  {
    if prefix != [] {
      EndsWithDotted(prefix[..|prefix| - 1], d);
      assert prefix == prefix[..|prefix| - 1] + ".";
    }
  }

  lemma JoinedLower(a: string, b: string)
    requires IsLower(a) && IsLower(b) && b != [] && b[|b| - 1] != '.'
    ensures IsLower(a + b) && (a + b)[|a + b| - 1] != '.'
  {}

  lemma LowerKeepsOnDomain(host: string, domain: string)
    ensures IsOnDomain(Lower(host), domain) == IsOnDomain(host, domain)
  {
    LowerIsLower(host);
    LowerFixed(Lower(host));
  }

  /** A name shorter than the domain is not on it. */
  lemma TooShort(host: string, domain: string)
    requires |host| < |Norm(domain)|
    ensures !IsOnDomain(host, domain)
  {}

  // ---- the host of a URL with everything in it ----

  lemma {:induction false} AfterLastAt(user: string, host: string)
    requires '@' !in host
    ensures AfterAt(user + ("@" + host)) == host
  {
    var s := user + ("@" + host);
    assert s[|user|] == '@';
    if user == [] {
      assert s == "@" + host && s[1..] == host;
    } else {
      assert s[1..] == user[1..] + ("@" + host);
      assert s[1..][|user| - 1] == '@';
      AfterLastAt(user[1..], host);
    }
  }

  lemma ServerOf(user: string, host: string, port: string)
    requires PlainHost(host) && '@' !in port && (port == [] || port[0] == ':')
    ensures ServerName(user + ("@" + (host + port))) == host && ServerName(host + port) == host
  {
    var server := host + port;
    PlainIsUndelimited(host);
    assert '@' !in server;
    AfterLastAt(user, server);
    UpToNext(host, port, {':'});
    assert server != [] ==> server[0] != '[';
  }

  /** The host is what stands between the last at sign of the authority and its port, whatever else the URL holds. */
  lemma HostOfExactly(user: string, host: string, port: string, rest: string)
    requires PlainHost(host) && '@' !in port && (port == [] || port[0] == ':')
    requires !Has(user + ("@" + (host + port)), PATH_STOPS) && (rest == [] || rest[0] in PATH_STOPS)
    ensures HostOf("https://" + ((user + ("@" + (host + port))) + rest)) == Lower(host)
    ensures HostOf("http://" + ((user + ("@" + (host + port))) + rest)) == Lower(host)
    ensures HostOf("https://" + ((host + port) + rest)) == HostOf("http://" + ((host + port) + rest)) == Lower(host)
  {
    var a := user + ("@" + (host + port));
    ServerOf(user, host, port);
    assert (user + "@") + (host + port) == a;
    NoStops(user + "@", host + port);
    UpToNext(a, rest, PATH_STOPS);
    UpToNext(host + port, rest, PATH_STOPS);
    PlainHostOf(a + rest);
    PlainHostOf((host + port) + rest);
  }

  lemma NoStops(a: string, b: string)
    requires !Has(a + b, PATH_STOPS)
    ensures !Has(b, PATH_STOPS)
  {
    forall i | 0 <= i < |b| ensures b[i] !in PATH_STOPS {
      assert (a + b)[|a| + i] == b[i];
    }
  }

  lemma PlainHostOf(rest: string)
    ensures HostOf("https://" + rest) == HostOf("http://" + rest) == Lower(ServerName(Authority(rest)))
  {
    HostAfterScheme(rest);
    var plain := PLAIN_SCHEME + rest;
    assert plain[|PLAIN_SCHEME|..] == rest && plain[4] == ':' && SCHEME[4] == 's';
    assert StartsWith(plain, PLAIN_SCHEME);
    assert !StartsWith(plain, SCHEME);
  }

  /** A URL of another scheme names no host. */
  lemma OtherSchemes(url: string)
    requires !StartsWith(url, "https://") && !StartsWith(url, "http://")
    ensures HostOf(url) == []
  {}
}
