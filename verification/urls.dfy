/**
 * The part of Python's `urllib.parse.urlparse` the crawler relies on: the
 * network location (`netloc`) of a URL, after the deletion of tabs and line
 * breaks, or the `ValueError` raised for an unbalanced IPv6 bracket.
 */
module Urls {
  import opened Common

  predicate IsAsciiLetter(c: char) {
    'a' <= c <= 'z' || 'A' <= c <= 'Z'
  }

  /** The characters `urlsplit` accepts in a scheme. */
  predicate IsSchemeChar(c: char) {
    IsAsciiLetter(c) || '0' <= c <= '9' || c == '+' || c == '-' || c == '.'
  }

  /** The characters that end the authority component. */
  predicate IsAuthorityDelimiter(c: char) {
    c == '/' || c == '?' || c == '#'
  }

  /** The index of the first `c` in `s` at or after `from`. */
  function Find(s: string, c: char, from: nat): (r: Option<nat>)
    ensures r.Some? ==> from <= r.value < |s| && s[r.value] == c
    ensures forall m :: from <= m < |s| && (r.None? || m < r.value) ==> s[m] != c
    decreases |s| - from
  {
    if from >= |s| then None
    else if s[from] == c then Some(from)
    else Find(s, c, from + 1)
  }

  /** A non-empty run of scheme characters that starts with a letter. */
  predicate IsScheme(s: string) {
    |s| > 0 && IsAsciiLetter(s[0]) && forall k :: 0 <= k < |s| ==> IsSchemeChar(s[k])
  }

  /**
   * The rest of the URL once a leading `scheme:` is removed; the URL itself
   * when it has none. Scheme characters exclude `:`, so whichever colon ends
   * a valid scheme is the first colon of the URL.
   */
  function AfterScheme(url: string): (r: string)
    ensures r == url || exists i :: 0 <= i < |url| && url[i] == ':' && IsScheme(url[..i]) && r == url[i + 1..]
    ensures forall i :: 0 <= i < |url| && url[i] == ':' && IsScheme(url[..i]) ==> r == url[i + 1..]
  {
    match Find(url, ':', 0)
    case Some(i) =>
      if IsScheme(url[..i]) then url[i + 1..] else url
    case None => url
  }

  /** The first authority delimiter at or after `from`, or the end of `s`. */
  function AuthorityEnd(s: string, from: nat): (d: nat)
    requires from <= |s|
    ensures from <= d <= |s|
    ensures forall m :: from <= m < d ==> !IsAuthorityDelimiter(s[m])
    ensures d == |s| || IsAuthorityDelimiter(s[d])
    decreases |s| - from
  {
    if from == |s| || IsAuthorityDelimiter(s[from]) then from else AuthorityEnd(s, from + 1)
  }

  /** The characters `urlsplit` deletes from a URL before parsing it. */
  predicate IsUnsafe(c: char) {
    c == '\t' || c == '\r' || c == '\n'
  }

  predicate NoUnsafe(s: string) {
    forall m :: 0 <= m < |s| ==> !IsUnsafe(s[m])
  }

  /** The URL with every tab, carriage return and line feed deleted; other characters keep their order. */
  function RemoveUnsafe(s: string): (r: string)
    ensures NoUnsafe(r) && |r| <= |s|
    ensures NoUnsafe(s) ==> r == s
    decreases |s|
  {
    if |s| == 0 then ""
    else
      assert NoUnsafe(s) ==> NoUnsafe(s[1..]) by {
        if NoUnsafe(s) {
          forall m | 0 <= m < |s[1..]| ensures !IsUnsafe(s[1..][m]) {
            assert s[1..][m] == s[m + 1];
          }
        }
      }
      if IsUnsafe(s[0]) then RemoveUnsafe(s[1..]) else [s[0]] + RemoveUnsafe(s[1..])
  }

  /** Exactly the tabs and line breaks are deleted: every other character keeps its count. */
  lemma {:induction false} RemoveUnsafeCounts(s: string)
    ensures forall c :: multiset(RemoveUnsafe(s))[c] == if IsUnsafe(c) then 0 else multiset(s)[c]
    decreases |s|
  {
    if |s| > 0 {
      RemoveUnsafeCounts(s[1..]);
      assert s == [s[0]] + s[1..];
      assert multiset(s) == multiset([s[0]]) + multiset(s[1..]);
    }
  }

  /** Deleting characters one by one commutes with concatenation. */
  lemma {:induction false} RemoveUnsafeAppend(a: string, b: string)
    ensures RemoveUnsafe(a + b) == RemoveUnsafe(a) + RemoveUnsafe(b)
    decreases |a|
  {
    if |a| == 0 {
      assert a + b == b;
    } else {
      assert (a + b)[0] == a[0];
      assert (a + b)[1..] == a[1..] + b;
      RemoveUnsafeAppend(a[1..], b);
    }
  }

  /**
   * The network location of a URL already rid of tabs and line breaks: the
   * text between `//` and the next `/`, `?` or `#`, empty when the URL has
   * no `//`; `None` when the host has one square bracket without the other,
   * where `urlsplit` raises `ValueError`.
   */
  function ParseNetloc(clean: string): (r: Option<string>)
    ensures r.Some? ==> forall m :: 0 <= m < |r.value| ==> !IsAuthorityDelimiter(r.value[m])
    ensures r.Some? ==> ('[' in r.value <==> ']' in r.value)
  {
    var rest := AfterScheme(clean);
    if |rest| >= 2 && rest[..2] == "//" then
      var host := rest[2..AuthorityEnd(rest, 2)];
      if ('[' in host) != (']' in host) then None else Some(host)
    else Some("")
  }

  /** `urlparse(url).netloc`: tabs, carriage returns and line feeds are deleted first. */
  function Netloc(url: string): (r: Option<string>)
    ensures r.Some? ==> forall m :: 0 <= m < |r.value| ==> !IsAuthorityDelimiter(r.value[m])
    ensures r.Some? ==> ('[' in r.value <==> ']' in r.value)
  {
    ParseNetloc(RemoveUnsafe(url))
  }

  /**
   * The host of `scheme://host/...` is `host`: the parse round-trips through
   * composing a URL from a scheme, a host and a path, query or fragment.
   * Tabs and line breaks in the tail are deleted before parsing, so they
   * cannot end the host.
   */
  lemma NetlocOfComposedUrl(url: string, scheme: string, host: string, tail: string)
    requires url == scheme + "://" + host + tail
    requires IsScheme(scheme)
    requires forall m :: 0 <= m < |host| ==> !IsAuthorityDelimiter(host[m]) && !IsUnsafe(host[m])
    requires '[' in host <==> ']' in host
    requires var t := RemoveUnsafe(tail); t == "" || IsAuthorityDelimiter(t[0])
    ensures Netloc(url) == Some(host)
  {
    var prefix := scheme + "://" + host;
    assert NoUnsafe(prefix) by {
      forall m | 0 <= m < |prefix| ensures !IsUnsafe(prefix[m]) {
        if m < |scheme| {
          assert prefix[m] == scheme[m] && IsSchemeChar(scheme[m]);
        } else if m >= |scheme| + 3 {
          assert prefix[m] == host[m - |scheme| - 3];
        }
      }
    }
    assert url == prefix + tail;
    RemoveUnsafeAppend(prefix, tail);
    ParsedComposedUrl(RemoveUnsafe(url), scheme, host, RemoveUnsafe(tail));
  }

  /** `ParseNetloc` of `scheme://host` followed by a path, query or fragment is `host`. */
  lemma ParsedComposedUrl(url: string, scheme: string, host: string, tail: string)
    requires url == scheme + "://" + host + tail
    requires IsScheme(scheme)
    requires forall m :: 0 <= m < |host| ==> !IsAuthorityDelimiter(host[m])
    requires '[' in host <==> ']' in host
    requires tail == "" || IsAuthorityDelimiter(tail[0])
    ensures ParseNetloc(url) == Some(host)
  {
    assert url[|scheme|] == ':';
    assert forall m :: 0 <= m < |scheme| ==> url[m] == scheme[m];
    assert url[..|scheme|] == scheme;
    SchemeStripped(url, scheme);
    var rest := url[|scheme| + 1..];
    assert AfterScheme(url) == rest;
    assert rest == "//" + host + tail;
    assert rest[..2] == "//";
    assert AuthorityEnd(rest, 2) == 2 + |host| by {
      forall m | 2 <= m < 2 + |host| ensures !IsAuthorityDelimiter(rest[m]) {
        assert rest[m] == host[m - 2];
      }
      AuthorityEndAt(rest, 2, 2 + |host|);
    }
    assert rest[2..2 + |host|] == host;
  }

  /**
   * For a URL that starts with `scheme://`, the network location is the text
   * after `//` up to the first `/`, `?` or `#` once tabs and line breaks are
   * deleted, unless its brackets are unbalanced.
   */
  lemma NetlocAfterScheme(url: string, scheme: string)
    requires IsScheme(scheme) && StartsWith(url, scheme + "://")
    ensures StartsWith(RemoveUnsafe(url), scheme + "://")
    ensures var clean := RemoveUnsafe(url);
      var start := |scheme| + 3;
      var host := clean[start..AuthorityEnd(clean, start)];
      Netloc(url) == if ('[' in host) != (']' in host) then None else Some(host)
  {
    var prefix := scheme + "://";
    assert NoUnsafe(prefix) by {
      forall m | 0 <= m < |prefix| ensures !IsUnsafe(prefix[m]) {
        if m < |scheme| {
          assert prefix[m] == scheme[m] && IsSchemeChar(scheme[m]);
        }
      }
    }
    assert url == prefix + url[|prefix|..];
    RemoveUnsafeAppend(prefix, url[|prefix|..]);
    var clean := RemoveUnsafe(url);
    assert clean[..|prefix|] == prefix;
    CleanNetlocAfterScheme(clean, scheme);
  }

  /** `NetlocAfterScheme` for a URL that has no tabs or line breaks left. */
  lemma CleanNetlocAfterScheme(url: string, scheme: string)
    requires IsScheme(scheme) && StartsWith(url, scheme + "://")
    ensures var start := |scheme| + 3;
      var host := url[start..AuthorityEnd(url, start)];
      ParseNetloc(url) == if ('[' in host) != (']' in host) then None else Some(host)
  {
    var j := |scheme| + 1;
    var start := j + 2;
    assert url[..|scheme| + 3] == scheme + "://";
    SchemeStripped(url, scheme);
    var rest := url[j..];
    assert rest[..2] == "//" by {
      assert url[..|scheme| + 3][j..] == "//";
    }
    AuthorityEndShift(url, j, start);
    assert rest[2..AuthorityEnd(rest, 2)] == url[start..AuthorityEnd(url, start)];
  }

  /** A leading valid scheme and its colon are what `AfterScheme` removes. */
  lemma SchemeStripped(url: string, scheme: string)
    requires IsScheme(scheme) && |scheme| < |url|
    requires url[..|scheme|] == scheme && url[|scheme|] == ':'
    ensures AfterScheme(url) == url[|scheme| + 1..]
  {
    assert forall m :: 0 <= m < |scheme| ==> url[m] == scheme[m] && url[m] != ':';
    FindFirst(url, ':', 0, |scheme|);
  }

  /** Dropping a prefix shifts the end of the authority by its length. */
  lemma AuthorityEndShift(s: string, j: nat, from: nat)
    requires j <= from <= |s|
    ensures AuthorityEnd(s[j..], from - j) == AuthorityEnd(s, from) - j
  {
    var rest := s[j..];
    var d := AuthorityEnd(s, from);
    forall m | from - j <= m < d - j ensures !IsAuthorityDelimiter(rest[m]) {
      assert rest[m] == s[j + m];
    }
    assert d - j < |rest| ==> rest[d - j] == s[d];
    AuthorityEndAt(rest, from - j, d - j);
  }

  /** `Find` stops at the first occurrence. */
  lemma {:induction false} FindFirst(s: string, c: char, from: nat, i: nat)
    requires from <= i < |s| && s[i] == c
    requires forall m :: from <= m < i ==> s[m] != c
    ensures Find(s, c, from) == Some(i)
    decreases i - from
  {
    if from < i {
      FindFirst(s, c, from + 1, i);
    }
  }

  /** `AuthorityEnd` stops at the first delimiter. */
  lemma {:induction false} AuthorityEndAt(s: string, from: nat, d: nat)
    requires from <= d <= |s|
    requires forall m :: from <= m < d ==> !IsAuthorityDelimiter(s[m])
    requires d == |s| || IsAuthorityDelimiter(s[d])
    ensures AuthorityEnd(s, from) == d
    decreases d - from
  {
    if from < d {
      AuthorityEndAt(s, from + 1, d);
    }
  }
}
