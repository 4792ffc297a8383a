/**
 * A simplified `new URL(url).hostname`: enough of the WHATWG URL Standard's parser to find
 * the host of an absolute URL, and to fail where it fails for want of a scheme or, for a
 * special scheme, of a host.
 */
module UrlHost {
  import opened Wrappers
  import opened Text

  predicate IsAsciiAlpha(c: char) {
    'a' <= c <= 'z' || 'A' <= c <= 'Z'
  }

  predicate IsSchemeChar(c: char) {
    IsAsciiAlpha(c) || '0' <= c <= '9' || c == '+' || c == '-' || c == '.'
  }

  /** The index of the `:` that ends a valid scheme, if the URL starts with one. */
  function SchemeEnd(url: string): (r: Option<nat>)
    ensures r.Some? ==> 0 < r.value < |url| && url[r.value] == ':'
  {
    match IndexOf(url, ":", 0)
    case None => None
    case Some(i) =>
      if i > 0 && IsAsciiAlpha(url[0]) && forall k :: 0 < k < i ==> IsSchemeChar(url[k])
      then (assert OccursAt(url, ":", i); Some(i))
      else None
  }

  /** Schemes whose URLs must have a non-empty host (`file` is left out: its host may be empty). */
  predicate IsSpecialNetworkScheme(scheme: string) {
    scheme == "http" || scheme == "https" || scheme == "ws" || scheme == "wss" || scheme == "ftp"
  }

  /** Whether `c` ends the authority: `/`, `?`, `#`, and for special schemes also `\`. */
  predicate EndsAuthority(c: char, special: bool) {
    c == '/' || c == '?' || c == '#' || (special && c == '\\')
  }

  /** The length of the authority at the start of `s`. */
  function AuthorityLength(s: string, special: bool): (n: nat)
    ensures n <= |s|
    ensures forall k :: 0 <= k < n ==> !EndsAuthority(s[k], special)
    ensures n < |s| ==> EndsAuthority(s[n], special)
  {
    if s == [] || EndsAuthority(s[0], special) then 0 else 1 + AuthorityLength(s[1..], special)
  }

  /** `s` without its leading slashes and backslashes (special schemes ignore any number of them). */
  function DropSlashes(s: string): (r: string)
    ensures |r| <= |s| && r == s[|s| - |r|..]
    ensures r == [] || (r[0] != '/' && r[0] != '\\')
  {
    if s != [] && (s[0] == '/' || s[0] == '\\') then DropSlashes(s[1..]) else s
  }

  /** The part of `s` after its last `@`, or `s` when there is none (drops the userinfo). */
  function AfterLastAt(s: string): (r: string)
    ensures '@' !in r
    ensures |r| <= |s| && r == s[|s| - |r|..]
  {
    if s == [] then []
    else if s[|s| - 1] == '@' then []
    else AfterLastAt(s[..|s| - 1]) + [s[|s| - 1]]
  }

  /** The part of `s` before its first `:` (drops the port). */
  function BeforeColon(s: string): (r: string)
    ensures ':' !in r
    ensures |r| <= |s| && r == s[..|r|]
  {
    if s == [] || s[0] == ':' then [] else [s[0]] + BeforeColon(s[1..])
  }

  /** The host named by an authority. */
  function HostOf(authority: string): string {
    BeforeColon(AfterLastAt(authority))
  }

  /** `new URL(url).hostname`, or `None` where the constructor throws. */
  function Hostname(url: string): (r: Option<string>)
    ensures SchemeEnd(url).None? ==> r.None?
    ensures r.Some? ==> '@' !in r.value && ':' !in r.value && '/' !in r.value
  {
    match SchemeEnd(url)
    case None => None
    case Some(i) =>
      var scheme := ToLower(url[..i]);
      var rest := url[i + 1..];
      if IsSpecialNetworkScheme(scheme) then SpecialHostname(rest)
      else if |rest| >= 2 && rest[..2] == "//" then
        var s := rest[2..];
        var authority := s[..AuthorityLength(s, false)];
        AuthorityHasNoEnd(s, false);
        HostHasNoSeparator(authority, false);
        Some(HostOf(authority))
      else
        Some([])
  }

  /** The host after the scheme of a special URL: lower-cased, and required to be non-empty. */
  function SpecialHostname(rest: string): (r: Option<string>)
    ensures r.Some? ==> r.value != [] && '@' !in r.value && ':' !in r.value && '/' !in r.value
  {
    var s := DropSlashes(rest);
    var authority := s[..AuthorityLength(s, true)];
    AuthorityHasNoEnd(s, true);
    var host := HostOf(authority);
    HostHasNoSeparator(authority, true);
    LowerKeepsSeparators(host);
    if host == [] then None else Some(ToLower(host))
  }

  /** The authority holds no character that ends it. */
  lemma AuthorityHasNoEnd(s: string, special: bool)
    ensures var a := s[..AuthorityLength(s, special)];
            forall k :: 0 <= k < |a| ==> !EndsAuthority(a[k], special)
  {
    var n := AuthorityLength(s, special);
    forall k | 0 <= k < n ensures !EndsAuthority(s[..n][k], special) {
      assert s[..n][k] == s[k];
    }
  }

  /** The host of an authority holds no `@`, `:` or `/`. */
  lemma HostHasNoSeparator(authority: string, special: bool)
    requires forall k :: 0 <= k < |authority| ==> !EndsAuthority(authority[k], special)
    ensures var h := HostOf(authority); '@' !in h && ':' !in h && '/' !in h
  {
    var t := AfterLastAt(authority);
    var h := BeforeColon(t);
    forall k | 0 <= k < |h| ensures h[k] != '/' {
      assert h[k] == t[k] == authority[|authority| - |t| + k];
    }
  }

  /** Lower-casing introduces no `@`, `:` or `/`. */
  lemma LowerKeepsSeparators(s: string)
    requires '@' !in s && ':' !in s && '/' !in s
    ensures var r := ToLower(s); '@' !in r && ':' !in r && '/' !in r
  {
    var r := ToLower(s);
    forall k | 0 <= k < |r| ensures r[k] != '@' && r[k] != ':' && r[k] != '/' {
      if !IsAsciiUpper(s[k]) {
        assert r[k] == s[k];
      }
    }
  }

  /** A character that may appear in a plain DNS host name. */
  predicate IsPlainHostChar(c: char) {
    'a' <= c <= 'z' || '0' <= c <= '9' || c == '.' || c == '-'
  }

  /** A plain DNS host name: lower-case letters, digits, dots and hyphens. */
  predicate IsPlainHost(host: string) {
    forall k :: 0 <= k < |host| ==> IsPlainHostChar(host[k])
  }

  /** A URL that starts with a letters-only scheme and `:` has that scheme. */
  lemma SchemeEndOfLetters(scheme: string, rest: string)
    requires scheme != [] && forall k :: 0 <= k < |scheme| ==> 'a' <= scheme[k] <= 'z'
    ensures SchemeEnd(scheme + ":" + rest) == Some(|scheme|)
  {
    var url := scheme + ":" + rest;
    var i := |scheme|;
    assert OccursAt(url, ":", i);
    forall k | 0 <= k < i ensures !OccursAt(url, ":", k) {
      assert url[k..k + 1] == [scheme[k]];
    }
  }

  /** The host of `https://host/path` (or `http://`) is `host` itself. */
  lemma HostnameOfWebUrl(scheme: string, host: string, path: string)
    requires scheme == "http" || scheme == "https"
    requires host != [] && IsPlainHost(host)
    requires path == [] || path[0] == '/' || path[0] == '?' || path[0] == '#'
    ensures Hostname(scheme + "://" + host + path) == Some(host)
  {
    var rest := "//" + (host + path);
    assert scheme + "://" + host + path == scheme + ":" + rest;
    HostnameOfSpecialScheme(scheme, rest);
    SpecialHostnameOfPlainHost(host, path);
  }

  /** After a lower-case special scheme and its `:`, the host is found by the special-scheme rules. */
  lemma HostnameOfSpecialScheme(scheme: string, rest: string)
    requires scheme == "http" || scheme == "https"
    ensures Hostname(scheme + ":" + rest) == SpecialHostname(rest)
  {
    SchemeEndOfLetters(scheme, rest);
    SchemeAndRest(scheme, rest);
    NoUpperUnchanged(scheme);
  }

  /** Splitting `scheme:rest` at the `:` gives back its two parts. */
  lemma SchemeAndRest(scheme: string, rest: string)
    ensures var url := scheme + ":" + rest;
            url[..|scheme|] == scheme && url[|scheme| + 1..] == rest
  {
  }

  lemma SpecialHostnameOfPlainHost(host: string, path: string)
    requires host != [] && IsPlainHost(host)
    requires path == [] || path[0] == '/' || path[0] == '?' || path[0] == '#'
    ensures SpecialHostname("//" + (host + path)) == Some(host)
  {
    var s := host + path;
    SlashesBeforePlainHost(host, path);
    AuthorityOfPlainHost(host, path);
    assert s[..|host|] == host;
    PlainHostHasNoAt(host);
    PlainHostHasNoColon(host);
    NoUpperUnchanged(host);
  }

  /** Lower-casing a string without upper-case ASCII letters changes nothing. */
  lemma NoUpperUnchanged(s: string)
    requires forall k :: 0 <= k < |s| ==> 'a' <= s[k] <= 'z' || !IsAsciiAlpha(s[k])
    ensures ToLower(s) == s
  {
  }

  lemma SlashesBeforePlainHost(host: string, path: string)
    requires host != [] && IsPlainHost(host)
    ensures DropSlashes("//" + (host + path)) == host + path
  {
    var s := host + path;
    var rest := "//" + s;
    assert rest[1..] == "/" + s && rest[1..][1..] == s;
    assert IsPlainHostChar(host[0]) && s[0] == host[0];
    assert DropSlashes(s) == s;
    assert DropSlashes(rest[1..]) == DropSlashes(s);
  }

  lemma AuthorityOfPlainHost(host: string, path: string)
    requires IsPlainHost(host)
    requires path == [] || path[0] == '/' || path[0] == '?' || path[0] == '#'
    ensures AuthorityLength(host + path, true) == |host|
  {
    var s := host + path;
    forall k | 0 <= k < |host| ensures !EndsAuthority(s[k], true) {
      assert s[k] == host[k] && IsPlainHostChar(host[k]);
    }
    assert |host| < |s| ==> s[|host|] == path[0];
    AuthorityLengthIs(s, true, |host|);
  }

  lemma AuthorityLengthIs(s: string, special: bool, n: nat)
    requires n <= |s|
    requires forall k :: 0 <= k < n ==> !EndsAuthority(s[k], special)
    requires n < |s| ==> EndsAuthority(s[n], special)
    ensures AuthorityLength(s, special) == n
  {
  }

  lemma PlainHostHasNoAt(host: string)
    requires IsPlainHost(host)
    ensures AfterLastAt(host) == host
  {
    forall k | 0 <= k < |host| ensures host[k] != '@' {
      assert IsPlainHostChar(host[k]);
    }
    NoAtUnchanged(host);
  }

  /** A string without `@` has no userinfo to drop. */
  lemma {:induction false} NoAtUnchanged(s: string)
    requires '@' !in s
    ensures AfterLastAt(s) == s
  {
    if s != [] {
      var init := s[..|s| - 1];
      assert s[|s| - 1] in s;
      assert forall k :: 0 <= k < |init| ==> init[k] == s[k];
      NoAtUnchanged(init);
      assert init + [s[|s| - 1]] == s;
    }
  }

  lemma {:induction false} PlainHostHasNoColon(host: string)
    requires IsPlainHost(host)
    ensures BeforeColon(host) == host
  {
    if host != [] {
      assert IsPlainHostChar(host[0]);
      assert IsPlainHost(host[1..]);
      PlainHostHasNoColon(host[1..]);
    }
  }
}
