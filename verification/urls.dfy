/**
 * URL splitting and joining as `urllib.parse` does it (the `urlsplit` /
 * `urlunsplit` pair), and the crawler's `normalize_url` built on them.
 *
 * A URL string is split into five components; a component record is joined
 * back into a string. The central fact is that splitting undoes joining for
 * every record that splitting can produce (`SplitUnsplit` with
 * `SplitWellFormed`); everything proved about `NormalizeUrl` follows from it.
 */
module Urls {
  import opened Wrappers
  import opened Text

  /** The components `urlsplit` yields: `scheme://netloc/path?query#fragment`. */
  datatype Url = Url(scheme: string, netloc: string, path: string, query: string, fragment: string)

  /** Index of the first character of `s` that lies in `cs`, or `|s|` when there is none. */
  function FindAny(s: string, cs: set<char>): (r: nat)
    ensures r <= |s|
    ensures r < |s| ==> s[r] in cs
    ensures forall k :: 0 <= k < r ==> s[k] !in cs
  {
    if s == [] then 0 else if s[0] in cs then 0 else 1 + FindAny(s[1..], cs)
  }

  /** The first occurrence is unique: any index with its three properties is the one `FindAny` returns. */
  lemma FindAnyUnique(s: string, cs: set<char>, r: nat)
    requires r <= |s|
    requires r < |s| ==> s[r] in cs
    requires forall k :: 0 <= k < r ==> s[k] !in cs
    ensures FindAny(s, cs) == r
  {
  }

  /** No character of `s` lies in `cs`. */
  predicate NoneIn(s: string, cs: set<char>)
  {
    forall k :: 0 <= k < |s| ==> s[k] !in cs
  }

  predicate IsAsciiLetter(c: char)
  {
    'a' <= c <= 'z' || 'A' <= c <= 'Z'
  }

  /** Characters allowed in a scheme: ASCII letters, digits, `+`, `-` and `.`. */
  predicate IsSchemeChar(c: char)
  {
    IsAsciiLetter(c) || '0' <= c <= '9' || c == '+' || c == '-' || c == '.'
  }

  predicate IsSchemeName(s: string)
  {
    |s| > 0 && IsAsciiLetter(s[0]) && forall k :: 0 <= k < |s| ==> IsSchemeChar(s[k])
  }

  /** Where the scheme of `s` ends: the first `:` of `s`, when everything before it is a scheme name. */
  function SchemeEnd(s: string): Option<nat>
  {
    var i := FindAny(s, {':'});
    if i < |s| && IsSchemeName(s[..i]) then Some(i) else None
  }

  /** Splits off the scheme, lower-cased, and the `:` after it. */
  function SplitScheme(s: string): (string, string)
  {
    match SchemeEnd(s)
    case Some(i) => (Lower(s[..i]), s[i + 1..])
    case None => ("", s)
  }

  /** After a leading `//`, the network location runs up to the first `/`, `?` or `#`. */
  function SplitNetloc(s: string): (string, string)
  {
    if |s| >= 2 && s[..2] == "//" then
      var j := 2 + FindAny(s[2..], {'/', '?', '#'});
      (s[2..j], s[j..])
    else
      ("", s)
  }

  /** `s.split(c, 1)` when `c` occurs in `s`; otherwise `s` and the empty string. */
  function SplitOn(s: string, c: char): (string, string)
  {
    var i := FindAny(s, {c});
    if i < |s| then (s[..i], s[i + 1..]) else (s, "")
  }

  /** `urlsplit`: scheme, then network location, then fragment, then query; the rest is the path. */
  function Split(s: string): Url
  {
    var (scheme, afterScheme) := SplitScheme(s);
    var (netloc, afterNetloc) := SplitNetloc(afterScheme);
    var (beforeFragment, fragment) := SplitOn(afterNetloc, '#');
    var (path, query) := SplitOn(beforeFragment, '?');
    Url(scheme, netloc, path, query, fragment)
  }

  /** `c + s` when `s` is not empty: how `urlunsplit` appends a query or a fragment. */
  function Tagged(c: char, s: string): string
  {
    if s == "" then "" else [c] + s
  }

  function SchemePart(scheme: string): string
  {
    if scheme == "" then "" else scheme + ":"
  }

  /** The `//netloc/path` part of `urlunsplit`. */
  function Hier(netloc: string, path: string): string
  {
    if netloc != "" then "//" + netloc + (if path != "" && path[0] != '/' then "/" + path else path)
    else if |path| >= 2 && path[..2] == "//" then "//" + path
    else path
  }

  /** `urlunsplit` (`geturl`). */
  function Unsplit(u: Url): string
  {
    SchemePart(u.scheme) + Hier(u.netloc, u.path) + Tagged('?', u.query) + Tagged('#', u.fragment)
  }

  /** The records `Split` can produce. */
  predicate WellFormed(u: Url)
  {
    && (u.scheme == "" || (IsSchemeName(u.scheme) && Lower(u.scheme) == u.scheme))
    && NoneIn(u.netloc, {'/', '?', '#'})
    && NoneIn(u.path, {'?', '#'})
    && NoneIn(u.query, {'#'})
    && (u.netloc != "" ==> u.path == "" || u.path[0] == '/')
    && (u.scheme == "" ==> SchemeEnd(u.path) == None)
  }

  // ---------------------------------------------------------------- splitting undoes joining

  lemma SplitOnTagged(a: string, c: char, b: string)
    requires NoneIn(a, {c})
    ensures SplitOn(a + Tagged(c, b), c) == (a, b)
  {
    var s := a + Tagged(c, b);
    if b == "" {
      assert s == a;
      FindAnyUnique(s, {c}, |a|);
    } else {
      FindAnyUnique(s, {c}, |a|);
      assert s[..|a|] == a;
      assert s[|a| + 1..] == b;
    }
  }

  lemma SchemeEndNotLetter(s: string)
    requires s == [] || !IsAsciiLetter(s[0])
    ensures SchemeEnd(s) == None
  {
    var i := FindAny(s, {':'});
    if i < |s| && 0 < i {
      assert s[..i][0] == s[0];
    }
  }

  /** A scheme found in a prefix is the scheme of the whole string. */
  lemma SchemeEndPrefix(p: string, s: string)
    requires |p| <= |s| && s[..|p|] == p
    requires SchemeEnd(p).Some?
    ensures SchemeEnd(s) == SchemeEnd(p)
  {
    var i := FindAny(p, {':'});
    assert s[i] == p[i];
    FindAnyUnique(s, {':'}, i);
    assert s[..i] == p[..i];
  }

  /** Appending a query or a fragment to a scheme-less path does not make a scheme appear. */
  lemma SchemeEndNoneExtend(p: string, t: string)
    requires SchemeEnd(p) == None
    requires t == "" || t[0] == '?' || t[0] == '#'
    ensures SchemeEnd(p + t) == None
  {
    var s := p + t;
    var i := FindAny(s, {':'});
    assert forall k :: 0 <= k < |p| ==> s[k] == p[k];
    if i < |p| {
      FindAnyUnique(p, {':'}, i);
      assert p[..i] == s[..i];
    }
    if |p| < |s| {
      assert s[|p|] == t[0];
    }
    if |p| < i {
      assert s[..i][|p|] == s[|p|];
    }
  }

  function Tail(u: Url): string
  {
    Tagged('?', u.query) + Tagged('#', u.fragment)
  }

  lemma TailHead(u: Url)
    ensures Tail(u) == "" || Tail(u)[0] == '?' || Tail(u)[0] == '#'
  {
  }

  lemma SplitSchemeNamed(scheme: string, rest: string)
    requires IsSchemeName(scheme) && Lower(scheme) == scheme
    ensures SplitScheme(scheme + ":" + rest) == (scheme, rest)
  {
    var s := scheme + ":" + rest;
    var n := |scheme|;
    assert s[n] == ':';
    assert forall k :: 0 <= k < n ==> s[k] == scheme[k];
    FindAnyUnique(s, {':'}, n);
    assert s[..n] == scheme;
    assert s[n + 1..] == rest;
  }

  lemma SchemeEndOfHier(netloc: string, path: string, t: string)
    requires netloc == "" ==> SchemeEnd(path) == None
    requires t == "" || t[0] == '?' || t[0] == '#'
    ensures SchemeEnd(Hier(netloc, path) + t) == None
  {
    var s := Hier(netloc, path) + t;
    if netloc != "" || (|path| >= 2 && path[..2] == "//") {
      assert s[0] == '/';
      SchemeEndNotLetter(s);
    } else {
      SchemeEndNoneExtend(path, t);
    }
  }

  lemma SplitSchemeOfUnsplit(u: Url)
    requires WellFormed(u)
    ensures SplitScheme(Unsplit(u)) == (u.scheme, Hier(u.netloc, u.path) + Tail(u))
  {
    var rest := Hier(u.netloc, u.path) + Tail(u);
    assert Unsplit(u) == SchemePart(u.scheme) + rest;
    if u.scheme != "" {
      SplitSchemeNamed(u.scheme, rest);
    } else {
      TailHead(u);
      SchemeEndOfHier(u.netloc, u.path, Tail(u));
      assert Unsplit(u) == rest;
    }
  }

  lemma SplitNetlocNamed(netloc: string, path: string, t: string)
    requires netloc != "" && NoneIn(netloc, {'/', '?', '#'})
    requires path == "" || path[0] == '/'
    requires t == "" || t[0] == '?' || t[0] == '#'
    ensures SplitNetloc("//" + netloc + path + t) == (netloc, path + t)
  {
    var s := "//" + netloc + path + t;
    var x := netloc + path + t;
    assert s[..2] == "//" && s[2..] == x;
    assert forall k :: 0 <= k < |netloc| ==> x[k] == netloc[k];
    if |netloc| < |x| {
      if path != "" {
        assert x[|netloc|] == path[0];
      } else {
        assert x[|netloc|] == t[0];
      }
    }
    FindAnyUnique(x, {'/', '?', '#'}, |netloc|);
    assert s[2..2 + |netloc|] == netloc;
    assert s[2 + |netloc|..] == path + t;
  }

  lemma SplitNetlocEmpty(path: string, t: string)
    requires |path| >= 2 && path[..2] == "//"
    ensures SplitNetloc("//" + path + t) == ("", path + t)
  {
    var s := "//" + path + t;
    var x := path + t;
    assert s[..2] == "//" && s[2..] == x;
    assert x[0] == '/';
    FindAnyUnique(x, {'/', '?', '#'}, 0);
    assert SplitNetloc(s) == (s[2..2], s[2..]);
  }

  lemma SplitNetlocAbsent(path: string, t: string)
    requires !(|path| >= 2 && path[..2] == "//")
    requires t == "" || t[0] == '?' || t[0] == '#'
    ensures SplitNetloc(path + t) == ("", path + t)
  {
    var s := path + t;
    if |path| >= 2 {
      assert path[..2] == s[..2];
    } else if |path| == 1 && t != "" {
      assert s[1] == t[0];
    } else if t != "" {
      assert s[0] == t[0];
    }
  }

  lemma SplitNetlocOfHier(u: Url)
    requires WellFormed(u)
    ensures SplitNetloc(Hier(u.netloc, u.path) + Tail(u)) == (u.netloc, u.path + Tail(u))
  {
    TailHead(u);
    if u.netloc != "" {
      assert Hier(u.netloc, u.path) == "//" + u.netloc + u.path;
      SplitNetlocNamed(u.netloc, u.path, Tail(u));
    } else if |u.path| >= 2 && u.path[..2] == "//" {
      SplitNetlocEmpty(u.path, Tail(u));
    } else {
      SplitNetlocAbsent(u.path, Tail(u));
    }
  }

  lemma SplitTailOfPath(u: Url)
    requires WellFormed(u)
    ensures SplitOn(u.path + Tail(u), '#') == (u.path + Tagged('?', u.query), u.fragment)
    ensures SplitOn(u.path + Tagged('?', u.query), '?') == (u.path, u.query)
  {
    var a := u.path + Tagged('?', u.query);
    assert u.path + Tail(u) == a + Tagged('#', u.fragment);
    assert NoneIn(a, {'#'}) by {
      forall k | 0 <= k < |a| ensures a[k] !in {'#'} {
        if k >= |u.path| {
          assert a[k] == Tagged('?', u.query)[k - |u.path|];
        }
      }
    }
    SplitOnTagged(a, '#', u.fragment);
    SplitOnTagged(u.path, '?', u.query);
  }

  /** Splitting a joined well-formed record gives the record back. */
  lemma SplitUnsplit(u: Url)
    requires WellFormed(u)
    ensures Split(Unsplit(u)) == u
  {
    SplitSchemeOfUnsplit(u);
    SplitNetlocOfHier(u);
    SplitTailOfPath(u);
  }

  // ---------------------------------------------------------------- what splitting produces

  lemma SplitOnParts(s: string, c: char)
    ensures var (a, b) := SplitOn(s, c);
      && NoneIn(a, {c})
      && |a| <= |s| && s[..|a|] == a
      && (forall cs :: NoneIn(s, cs) ==> NoneIn(a, cs) && NoneIn(b, cs))
      && ((s == [] || s[0] == c) ==> a == [])
      && ((s != [] && s[0] != c) ==> a != [] && a[0] == s[0])
  {
    var i := FindAny(s, {c});
    if i < |s| {
      var rest := s[i + 1..];
      forall cs | NoneIn(s, cs) ensures NoneIn(rest, cs) {
        forall k | 0 <= k < |rest| ensures rest[k] !in cs {
          assert rest[k] == s[i + 1 + k];
        }
      }
    }
  }

  /** The path, query and fragment that `Split` takes from what follows the network location. */
  lemma SplitTailParts(s: string)
    ensures var (beforeFragment, fragment) := SplitOn(s, '#');
      var (path, query) := SplitOn(beforeFragment, '?');
      && NoneIn(path, {'?', '#'})
      && NoneIn(query, {'#'})
      && |path| <= |s| && s[..|path|] == path
      && ((s == [] || s[0] == '?' || s[0] == '#') ==> path == [])
      && ((s != [] && s[0] == '/') ==> path != [] && path[0] == '/')
  {
    var (beforeFragment, fragment) := SplitOn(s, '#');
    SplitOnParts(s, '#');
    SplitOnParts(beforeFragment, '?');
    var (path, query) := SplitOn(beforeFragment, '?');
    assert NoneIn(path, {'#'});
    assert NoneIn(path, {'?', '#'}) by {
      assert forall k :: 0 <= k < |path| ==> path[k] !in {'?'} && path[k] !in {'#'};
    }
    assert s[..|path|] == path by {
      assert beforeFragment[..|path|] == path;
      assert s[..|beforeFragment|] == beforeFragment;
    }
    if s != [] && s[0] == '?' {
      assert beforeFragment != [] && beforeFragment[0] == '?';
    }
  }

  lemma LowerSchemeName(x: string)
    requires IsSchemeName(x)
    ensures IsSchemeName(Lower(x)) && Lower(Lower(x)) == Lower(x)
  {
    LowerIdempotent(x);
  }

  /** Every record `Split` produces is well formed. */
  lemma SplitWellFormed(s: string)
    ensures WellFormed(Split(s))
  {
    var u := Split(s);
    var (scheme, afterScheme) := SplitScheme(s);
    var (netloc, afterNetloc) := SplitNetloc(afterScheme);
    SplitTailParts(afterNetloc);
    if SchemeEnd(s).Some? {
      LowerSchemeName(s[..SchemeEnd(s).value]);
    }
    var viaSlashes := |afterScheme| >= 2 && afterScheme[..2] == "//";
    if viaSlashes {
      var x := afterScheme[2..];
      var j := FindAny(x, {'/', '?', '#'});
      assert netloc == x[..j];
      assert afterNetloc == x[j..];
      assert afterNetloc == [] || afterNetloc[0] in {'/', '?', '#'};
      if u.path != [] {
        SchemeEndNotLetter(u.path);
      } else {
        SchemeEndNotLetter(u.path);
      }
    } else {
      assert netloc == "";
      if scheme == "" {
        assert afterNetloc == s;
        if SchemeEnd(u.path).Some? {
          SchemeEndPrefix(u.path, s);
          assert false;
        }
      }
    }
  }

  // ---------------------------------------------------------------- normalize_url

  /**
   * `normalize_url(url, keep_query)`: drop the fragment, and the query too
   * unless `keepQuery`, then join the parts again.
   */
  function NormalizeUrl(url: string, keepQuery: bool): string
  {
    var parts := Split(url);
    Unsplit(if keepQuery then parts.(fragment := "") else parts.(query := "", fragment := ""))
  }

  /**
   * Read back, a normalised URL has an empty fragment, the original query
   * when `keepQuery` and an empty one otherwise, and the original scheme,
   * network location and path.
   */
  lemma NormalizeUrlComponents(url: string, keepQuery: bool)
    ensures var u := Split(url);
      Split(NormalizeUrl(url, keepQuery)) == Url(u.scheme, u.netloc, u.path, if keepQuery then u.query else "", "")
  {
    SplitWellFormed(url);
    var parts := Split(url);
    SplitUnsplit(if keepQuery then parts.(fragment := "") else parts.(query := "", fragment := ""));
  }

  /** Normalising twice is normalising once. */
  lemma NormalizeUrlIdempotent(url: string, keepQuery: bool)
    ensures NormalizeUrl(NormalizeUrl(url, keepQuery), keepQuery) == NormalizeUrl(url, keepQuery)
  {
    NormalizeUrlComponents(url, keepQuery);
  }

  /** The network location, which the crawler compares with the seed's, survives normalisation. */
  lemma NormalizeUrlKeepsNetloc(url: string)
    ensures Split(NormalizeUrl(url, true)).netloc == Split(url).netloc
  {
    NormalizeUrlComponents(url, true);
  }
}
