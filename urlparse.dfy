/** The part of Python's `urllib.parse.urlparse` that trust scoring uses:
    the network location (`netloc`) of a URL, and the `ValueError` that
    `urlsplit` raises for a network location with an unmatched square
    bracket ("Invalid IPv6 URL"). */
module UrlParse {
  import opened Strings

  /** `urlparse(url).netloc`, or the `ValueError` raised while computing it. */
  datatype NetlocResult = Netloc(host: string) | InvalidIPv6

  predicate IsAsciiLetter(c: char)
  {
    ('a' <= c <= 'z') || ('A' <= c <= 'Z')
  }

  /** `urllib.parse.scheme_chars`. */
  predicate IsSchemeChar(c: char)
  {
    IsAsciiLetter(c) || IsDigit(c) || c == '+' || c == '-' || c == '.'
  }

  /** The characters that end a network location: `/`, `?` and `#`. */
  predicate IsNetlocDelimiter(c: char)
  {
    c == '/' || c == '?' || c == '#'
  }

  /** C0 control characters and space, stripped from the front of a URL. */
  predicate IsC0OrSpace(c: char)
  {
    c as int <= 0x20
  }

  /** Tab, carriage return and line feed, deleted anywhere in a URL. */
  predicate IsUnsafeUrlChar(c: char)
  {
    c == '\t' || c == '\r' || c == '\n'
  }

  ghost predicate NoUnsafeChar(s: string)
  {
    forall k :: 0 <= k < |s| ==> !IsUnsafeUrlChar(s[k])
  }

  /** A text that can stand as a network location: no delimiter, no tab,
      carriage return or line feed. */
  ghost predicate IsPlainHost(h: string)
  {
    forall k :: 0 <= k < |h| ==> !IsNetlocDelimiter(h[k]) && !IsUnsafeUrlChar(h[k])
  }

  lemma PlainHostConcat(a: string, b: string)
    requires IsPlainHost(a) && IsPlainHost(b)
    ensures IsPlainHost(a + b)
  {
    forall k | 0 <= k < |a + b|
      ensures !IsNetlocDelimiter((a + b)[k]) && !IsUnsafeUrlChar((a + b)[k])
    {
      if k >= |a| { assert (a + b)[k] == b[k - |a|]; }
    }
  }

  lemma NoUnsafeCharConcat(a: string, b: string)
    requires NoUnsafeChar(a) && NoUnsafeChar(b)
    ensures NoUnsafeChar(a + b)
  {
    forall k | 0 <= k < |a + b| ensures !IsUnsafeUrlChar((a + b)[k]) {
      if k >= |a| { assert (a + b)[k] == b[k - |a|]; }
    }
  }

  /** `s.find(c)`, with `|s|` standing for "not found". */
  function IndexOf(s: string, c: char): (i: nat)
    ensures i <= |s|
    ensures i < |s| ==> s[i] == c
    ensures forall j :: 0 <= j < i ==> s[j] != c
  {
    if s == [] || s[0] == c then 0 else 1 + IndexOf(s[1..], c)
  }

  /** Position of the first `/`, `?` or `#` in `s`, or `|s|`. */
  function DelimiterIndex(s: string): (i: nat)
    ensures i <= |s|
    ensures i < |s| ==> IsNetlocDelimiter(s[i])
    ensures forall j :: 0 <= j < i ==> !IsNetlocDelimiter(s[j])
  {
    if s == [] || IsNetlocDelimiter(s[0]) then 0 else 1 + DelimiterIndex(s[1..])
  }

  /** `url.lstrip(C0 controls and space)` followed by the deletion of every
      tab, carriage return and line feed. */
  function Sanitize(url: string): (r: string)
    ensures |r| <= |url|
    ensures forall k :: 0 <= k < |r| ==> !IsUnsafeUrlChar(r[k])
  {
    if url != [] && IsC0OrSpace(url[0]) then Sanitize(url[1..]) else DeleteUnsafe(url)
  }

  function DeleteUnsafe(s: string): (r: string)
    ensures |r| <= |s|
    ensures forall k :: 0 <= k < |r| ==> !IsUnsafeUrlChar(r[k])
    ensures forall k :: 0 <= k < |r| ==> r[k] in s
  {
    if s == [] then []
    else if IsUnsafeUrlChar(s[0]) then DeleteUnsafe(s[1..])
    else [s[0]] + DeleteUnsafe(s[1..])
  }

  /** A scheme: an ASCII letter followed by scheme characters. */
  predicate IsScheme(s: string)
  {
    s != [] && IsAsciiLetter(s[0]) && forall j :: 0 <= j < |s| ==> IsSchemeChar(s[j])
  }

  /** What `urlsplit` goes on parsing once a leading `scheme:` is taken off. */
  function AfterScheme(url: string): (r: string)
    ensures |r| <= |url| && r == url[|url| - |r|..]
  {
    var i := IndexOf(url, ':');
    if 0 < i < |url| && IsScheme(url[..i]) then url[i + 1..] else url
  }

  /** What `urlsplit` does with the text after the scheme: the network
      location is what follows `//` up to the first `/`, `?` or `#`, and the
      empty string when no `//` follows. An unmatched `[` or `]` in it raises
      `ValueError`. */
  function SplitNetloc(rest: string): (r: NetlocResult)
    ensures r.Netloc? ==> (forall k :: 0 <= k < |r.host| ==> !IsNetlocDelimiter(r.host[k]))
    ensures r.Netloc? ==> (('[' in r.host) <==> (']' in r.host))
    ensures r.Netloc? && NoUnsafeChar(rest) ==> NoUnsafeChar(r.host)
  {
    if "//" <= rest then
      var after := rest[2..];
      var netloc := after[..DelimiterIndex(after)];
      assert forall k :: 0 <= k < |netloc| ==> netloc[k] == rest[k + 2];
      if ('[' in netloc) != (']' in netloc) then InvalidIPv6 else Netloc(netloc)
    else Netloc([])
  }

  /** `urlparse(url).netloc`, or the `ValueError` raised while computing it:
      a network location never holds `/`, `?`, `#`, tab, CR or LF, and its
      brackets are matched. */
  function NetlocOf(url: string): (r: NetlocResult)
    ensures r.Netloc? ==> IsPlainHost(r.host) && (('[' in r.host) <==> (']' in r.host))
  {
    var s := Sanitize(url);
    var rest := AfterScheme(s);
    assert forall k :: 0 <= k < |rest| ==> rest[k] == s[|s| - |rest| + k];
    SplitNetloc(rest)
  }

  lemma DeleteUnsafeIdentity(s: string)
    requires NoUnsafeChar(s)
    ensures DeleteUnsafe(s) == s
  {
    if s != [] {
      DeleteUnsafeIdentity(s[1..]);
    }
  }

  lemma IndexOfAfter(a: string, c: char, b: string)
    requires c !in a
    ensures IndexOf(a + [c] + b, c) == |a|
  {
    if a != [] {
      assert (a + [c] + b)[1..] == a[1..] + [c] + b;
      IndexOfAfter(a[1..], c, b);
    }
  }

  lemma DelimiterIndexAfter(a: string, b: string)
    requires forall k :: 0 <= k < |a| ==> !IsNetlocDelimiter(a[k])
    requires b == [] || IsNetlocDelimiter(b[0])
    ensures DelimiterIndex(a + b) == |a|
  {
    if a != [] {
      assert (a + b)[1..] == a[1..] + b;
      DelimiterIndexAfter(a[1..], b);
    } else {
      assert a + b == b;
    }
  }

  lemma SanitizeIdentity(url: string)
    requires url == [] || !IsC0OrSpace(url[0])
    requires NoUnsafeChar(url)
    ensures Sanitize(url) == url
  {
    DeleteUnsafeIdentity(url);
  }

  lemma AfterSchemeOf(scheme: string, rest: string)
    requires IsScheme(scheme)
    ensures AfterScheme(scheme + [':'] + rest) == rest
  {
    var url := scheme + [':'] + rest;
    assert ':' !in scheme by {
      forall k | 0 <= k < |scheme| ensures scheme[k] != ':' {
        assert IsSchemeChar(scheme[k]);
      }
    }
    IndexOfAfter(scheme, ':', rest);
    assert url[..|scheme|] == scheme;
    assert url[|scheme| + 1..] == rest;
  }

  lemma NetlocAfterSlashes(rest: string, host: string, tail: string)
    requires rest == "//" + host + tail
    requires forall k :: 0 <= k < |host| ==> !IsNetlocDelimiter(host[k])
    requires tail == [] || IsNetlocDelimiter(tail[0])
    ensures SplitNetloc(rest) == if ('[' in host) != (']' in host) then InvalidIPv6 else Netloc(host)
  {
    assert rest[..2] == "//";
    var after := rest[2..];
    assert after == host + tail;
    DelimiterIndexAfter(host, tail);
    assert after[..DelimiterIndex(after)] == host;
  }

  /** The network location of `scheme://host<tail>` is `host`, whatever the
      scheme, when the host holds no delimiter and the tail is empty or starts
      at a delimiter; an unmatched bracket in the host raises instead. */
  lemma {:induction false} NetlocOfHostUrl(scheme: string, host: string, tail: string)
    requires IsScheme(scheme)
    requires IsPlainHost(host)
    requires tail == [] || IsNetlocDelimiter(tail[0])
    requires forall k :: 0 <= k < |tail| ==> !IsUnsafeUrlChar(tail[k])
    ensures NetlocOf(scheme + "://" + host + tail)
            == if ('[' in host) != (']' in host) then InvalidIPv6 else Netloc(host)
  {
    var rest := "//" + host + tail;
    var url := scheme + [':'] + rest;
    assert scheme + "://" + host + tail == url;
    assert NoUnsafeChar(scheme) by {
      forall k | 0 <= k < |scheme| ensures !IsUnsafeUrlChar(scheme[k]) {
        assert IsSchemeChar(scheme[k]);
      }
    }
    assert NoUnsafeChar(host) && NoUnsafeChar(tail);
    NoUnsafeCharConcat(scheme, [':']);
    NoUnsafeCharConcat("//", host);
    NoUnsafeCharConcat("//" + host, tail);
    NoUnsafeCharConcat(scheme + [':'], rest);
    assert url[0] == scheme[0];
    SanitizeIdentity(url);
    AfterSchemeOf(scheme, rest);
    NetlocAfterSlashes(rest, host, tail);
  }

  /** A text without any `/` (a sentence, say) has an empty network
      location and never raises. */
  lemma NetlocOfSlashFree(text: string)
    requires '/' !in text
    ensures NetlocOf(text) == Netloc([])
  {
    SanitizeKeepsSlashFree(text);
    var s := Sanitize(text);
    var rest := AfterScheme(s);
    assert '/' !in rest by {
      forall k | 0 <= k < |rest| ensures rest[k] != '/' {
        assert rest[k] == s[|s| - |rest| + k];
      }
    }
    assert !("//" <= rest) by {
      if |rest| >= 2 { assert rest[..2][0] == rest[0]; }
    }
  }

  /** A sentence that quotes a URL after some words (`기사 https://...`) has
      an empty network location: its first word is no scheme, and it does
      not start with `//`. */
  lemma {:induction false} MidSentenceUrlHasNoNetloc(pre: string, rest: string)
    requires pre != [] && !IsC0OrSpace(pre[0]) && pre[0] != '/'
    requires ' ' in pre && ':' !in pre
    requires NoUnsafeChar(pre) && NoUnsafeChar(rest)
    ensures NetlocOf(pre + [':'] + rest) == Netloc([])
  {
    var url := pre + [':'] + rest;
    NoUnsafeCharConcat(pre, [':']);
    NoUnsafeCharConcat(pre + [':'], rest);
    assert url[0] == pre[0];
    SanitizeIdentity(url);
    IndexOfAfter(pre, ':', rest);
    assert url[..|pre|] == pre;
    assert !IsScheme(pre) by {
      var j :| 0 <= j < |pre| && pre[j] == ' ';
      assert !IsSchemeChar(pre[j]);
    }
    assert AfterScheme(url) == url;
    assert !("//" <= url) by {
      if |url| >= 2 { assert url[..2][0] == url[0]; }
    }
  }

  lemma SanitizeKeepsSlashFree(s: string)
    requires '/' !in s
    ensures '/' !in Sanitize(s)
  {
    if s != [] && IsC0OrSpace(s[0]) {
      SanitizeKeepsSlashFree(s[1..]);
    }
  }
}
