/** The few Python `str` operations the scoring pipeline relies on, stated on
    `seq<char>`: substring test (`sub in s`), `s.replace(pat, '')`,
    `s.strip()`, `s.split(sep)` and the decimal rendering of an `int` that an
    f-string performs. */
module Strings {

  /** Python's `sub in s`: `sub` occurs in `s` as a contiguous block
      (case-sensitive; the empty string occurs in every string). */
  function Contains(s: string, sub: string): bool
    decreases |s|
  {
    if sub <= s then true
    else if s == [] then false
    else Contains(s[1..], sub)
  }

  /** Reference definition of an occurrence of `sub` at position `i` of `s`. */
  ghost predicate OccursAt(s: string, sub: string, i: int)
  {
    0 <= i && i + |sub| <= |s| && s[i..i + |sub|] == sub
  }

  lemma {:induction false} ContainsIffOccurs(s: string, sub: string)
    ensures Contains(s, sub) <==> exists i :: OccursAt(s, sub, i)
    decreases |s|
  {
    OccursAtStart(s, sub);
    if sub <= s {
      assert OccursAt(s, sub, 0);
    } else if s != [] {
      ContainsIffOccurs(s[1..], sub);
      forall i | OccursAt(s[1..], sub, i) ensures OccursAt(s, sub, i + 1) {
        assert s[i + 1..i + 1 + |sub|] == s[1..][i..i + |sub|];
      }
      forall i | 1 <= i && OccursAt(s, sub, i) ensures OccursAt(s[1..], sub, i - 1) {
        assert s[1..][i - 1..i - 1 + |sub|] == s[i..i + |sub|];
      }
    }
  }

  /** An occurrence at position 0 is a prefix. */
  lemma OccursAtStart(s: string, sub: string)
    ensures OccursAt(s, sub, 0) <==> sub <= s
  {
    if |sub| <= |s| {
      assert s[0..|sub|] == s[..|sub|];
    }
  }

  /** A block that occurs in `s` is made of characters of `s`. */
  lemma ContainsOnlyCharsOf(s: string, sub: string, k: nat)
    requires Contains(s, sub) && k < |sub|
    ensures sub[k] in s
  {
    ContainsIffOccurs(s, sub);
    var i :| OccursAt(s, sub, i);
    assert s[i..i + |sub|][k] == s[i + k];
  }

  /** The middle part of a concatenation occurs in it. */
  lemma ContainsMiddle(a: string, b: string, c: string)
    ensures Contains(a + b + c, b)
  {
    assert (a + b + c)[|a|..|a| + |b|] == b;
    assert OccursAt(a + b + c, b, |a|);
    ContainsIffOccurs(a + b + c, b);
  }

  /** Python's `s.replace(pat, '')` for a non-empty `pat`: scanning from the
      left, every non-overlapping occurrence of `pat` is deleted, wherever it
      stands in `s`. */
  function RemoveAll(s: string, pat: string): (r: string)
    requires pat != []
    ensures |r| <= |s|
    ensures pat <= s ==> |r| < |s|
    decreases |s|
  {
    if s == [] then []
    else if pat <= s then RemoveAll(s[|pat|..], pat)
    else [s[0]] + RemoveAll(s[1..], pat)
  }

  /** When `pat` does not occur, replacing it changes nothing. */
  lemma {:induction false} RemoveAllAbsent(s: string, pat: string)
    requires pat != [] && !Contains(s, pat)
    ensures RemoveAll(s, pat) == s
    decreases |s|
  {
    if s != [] {
      RemoveAllAbsent(s[1..], pat);
    }
  }

  /** A single deletion pass: the result can again contain `pat`. */
  lemma RemoveAllIsOnePass()
    ensures RemoveAll("wwww.ww.", "www.") == "www."
  {
    var pat := "www.";
    assert RemoveAll(".", pat) == ".";
    assert RemoveAll("w.", pat) == "w.";
    assert RemoveAll("ww.", pat) == "ww.";
    assert pat <= "www.ww." && "www.ww."[4..] == "ww.";
    assert RemoveAll("www.ww.", pat) == "ww.";
    assert "wwww.ww."[..4][3] != pat[3];
    assert "wwww.ww."[1..] == "www.ww.";
  }

  /** Python's `str.isspace()` characters, which are also those matched by
      `\s` in a `str` regular expression and removed by `str.strip()`. */
  predicate IsSpace(c: char)
  {
    c == ' ' || ('\t' <= c <= '\r') || ('\U{1c}' <= c <= '\U{1f}')
    || c == '\U{85}' || c == '\U{a0}' || c == '\U{1680}'
    || ('\U{2000}' <= c <= '\U{200a}') || c == '\U{2028}' || c == '\U{2029}'
    || c == '\U{202f}' || c == '\U{205f}' || c == '\U{3000}'
  }

  ghost predicate AllSpace(s: string)
  {
    forall i :: 0 <= i < |s| ==> IsSpace(s[i])
  }

  /** `s.lstrip()`: the suffix of `s` left after its leading whitespace. */
  function StripStart(s: string): (r: string)
    ensures |r| <= |s| && r == s[|s| - |r|..]
    ensures AllSpace(s[..|s| - |r|])
    ensures r == [] || !IsSpace(r[0])
  {
    if s != [] && IsSpace(s[0]) then StripStart(s[1..]) else s
  }

  /** `s.rstrip()`: the prefix of `s` left before its trailing whitespace. */
  function StripEnd(s: string): (r: string)
    ensures |r| <= |s| && r == s[..|r|]
    ensures AllSpace(s[|r|..])
    ensures r == [] || !IsSpace(r[|r| - 1])
  {
    if s != [] && IsSpace(s[|s| - 1]) then
      var r := StripEnd(s[..|s| - 1]);
      assert s[|r|..] == s[..|s| - 1][|r|..] + [s[|s| - 1]];
      r
    else s
  }

  /** `s.strip()`. */
  function Strip(s: string): string
  {
    StripEnd(StripStart(s))
  }

  /** `s.strip()` is the block of `s` between its leading and its trailing
      whitespace: the whitespace runs on either side are maximal. */
  lemma StripIsInnerBlock(s: string)
    ensures exists a, b :: 0 <= a <= b <= |s| && Strip(s) == s[a..b]
                           && AllSpace(s[..a]) && AllSpace(s[b..])
                           && (a == b || (!IsSpace(s[a]) && !IsSpace(s[b - 1])))
  {
    var t := StripStart(s);
    var r := StripEnd(t);
    var a := |s| - |t|;
    BlockBetween(s, t, r);
    assert Strip(s) == s[a..a + |r|];
  }

  /** A suffix `t` of `s` after a whitespace run, and a prefix `r` of `t`
      before a whitespace run, put `r` in `s` between two whitespace runs. */
  lemma BlockBetween(s: string, t: string, r: string)
    requires |t| <= |s| && t == s[|s| - |t|..] && AllSpace(s[..|s| - |t|])
    requires |r| <= |t| && r == t[..|r|] && AllSpace(t[|r|..])
    ensures r == s[|s| - |t|..|s| - |t| + |r|]
    ensures AllSpace(s[|s| - |t| + |r|..])
    ensures r != [] ==> s[|s| - |t|] == r[0] && s[|s| - |t| + |r| - 1] == r[|r| - 1]
  {
    var a := |s| - |t|;
    var b := a + |r|;
    assert s[b..] == t[|r|..];
  }

  /** A line is blank for `if line.strip()` exactly when it is all whitespace. */
  lemma StripEmptyIffAllSpace(s: string)
    ensures Strip(s) == [] <==> AllSpace(s)
  {
    var t := StripStart(s);
    var a := |s| - |t|;
    if Strip(s) == [] {
      assert t == [];
      assert s[..a] == s;
    }
    if AllSpace(s) {
      StripStartAllSpace(s);
    }
  }

  lemma StripStartAllSpace(s: string)
    requires AllSpace(s)
    ensures StripStart(s) == []
  {
    if s != [] {
      StripStartAllSpace(s[1..]);
    }
  }

  /** Python's `s.split(sep)` with an explicit one-character separator: the
      pieces between separators, in order; `''.split(sep) == ['']`. */
  function Split(s: string, sep: char): (parts: seq<string>)
    ensures |parts| >= 1
    ensures forall p :: p in parts ==> sep !in p
  {
    if s == [] then [[]]
    else
      var rest := Split(s[1..], sep);
      if s[0] == sep then [[]] + rest
      else [[s[0]] + rest[0]] + rest[1..]
  }

  /** `sep.join(parts)`. */
  function Join(parts: seq<string>, sep: char): string
    requires |parts| >= 1
  {
    if |parts| == 1 then parts[0] else parts[0] + [sep] + Join(parts[1..], sep)
  }

  /** Splitting loses nothing: joining the pieces gives back the text. */
  lemma {:induction false} JoinSplit(s: string, sep: char)
    ensures Join(Split(s, sep), sep) == s
  {
    if s != [] {
      var rest := Split(s[1..], sep);
      JoinSplit(s[1..], sep);
      if s[0] == sep {
        assert Split(s, sep)[1..] == rest;
      } else {
        var parts := Split(s, sep);
        assert parts[0] == [s[0]] + rest[0];
        if |rest| == 1 {
          assert parts == [[s[0]] + rest[0]];
        } else {
          assert parts[1..] == rest[1..];
          assert Join(rest, sep) == rest[0] + [sep] + Join(rest[1..], sep);
        }
      }
    }
  }

  /** Prepending separator-free text only lengthens the first piece. */
  lemma {:induction false} SplitPrepend(x: string, y: string, sep: char)
    requires sep !in x
    ensures Split(x + y, sep) == [x + Split(y, sep)[0]] + Split(y, sep)[1..]
  {
    if x != [] {
      var p := Split(y, sep);
      assert (x + y)[1..] == x[1..] + y;
      SplitPrepend(x[1..], y, sep);
      var rest := Split(x[1..] + y, sep);
      assert rest[0] == x[1..] + p[0] && rest[1..] == p[1..];
      assert (x + y)[0] == x[0] && x[0] != sep;
      assert [x[0]] + (x[1..] + p[0]) == x + p[0];
    } else {
      var p := Split(y, sep);
      assert x + y == y && x + p[0] == p[0];
      assert p == [p[0]] + p[1..];
    }
  }

  /** The other direction of the round trip: splitting what was joined from
      separator-free pieces gives the pieces back. */
  lemma {:induction false} SplitJoin(parts: seq<string>, sep: char)
    requires |parts| >= 1
    requires forall p :: p in parts ==> sep !in p
    ensures Split(Join(parts, sep), sep) == parts
  {
    if |parts| == 1 {
      var x := parts[0];
      assert Join(parts, sep) == x && x + [] == x;
      SplitPrepend(x, [], sep);
      assert Split([], sep) == [[]];
      assert Split(x, sep) == [x + []] + [];
      assert parts == [x];
    } else {
      var tail := Join(parts[1..], sep);
      SplitJoin(parts[1..], sep);
      assert ([sep] + tail)[1..] == tail;
      assert Split([sep] + tail, sep) == [[]] + parts[1..];
      assert Join(parts, sep) == parts[0] + ([sep] + tail);
      SplitPrepend(parts[0], [sep] + tail, sep);
      assert parts[0] + [] == parts[0];
      assert parts == [parts[0]] + parts[1..];
    }
  }

  predicate IsDigit(c: char)
  {
    '0' as int <= c as int <= '9' as int
  }

  function DigitChar(d: nat): char
    requires d < 10
  {
    ['0', '1', '2', '3', '4', '5', '6', '7', '8', '9'][d]
  }

  /** The decimal rendering of `n` (what `f"{n}"` produces for a
      non-negative int): no sign, no leading zero. */
  function NatToString(n: nat): (r: string)
    ensures r != []
    ensures forall i :: 0 <= i < |r| ==> IsDigit(r[i])
    ensures |r| > 1 ==> r[0] != '0'
  {
    if n < 10 then [DigitChar(n)] else NatToString(n / 10) + [DigitChar(n % 10)]
  }

  /** The number a string of decimal digits denotes. */
  function DecimalValue(s: string): nat
    requires forall i :: 0 <= i < |s| ==> IsDigit(s[i])
  {
    if s == [] then 0
    else
      var last := s[|s| - 1];
      assert IsDigit(last);
      10 * DecimalValue(s[..|s| - 1]) + (last as int - '0' as int)
  }

  /** The rendering is read back as the same number, so distinct counts give
      distinct texts. */
  lemma {:induction false} DecimalRoundTrip(n: nat)
    ensures DecimalValue(NatToString(n)) == n
  {
    var r := NatToString(n);
    if n >= 10 {
      DecimalRoundTrip(n / 10);
      assert r[..|r| - 1] == NatToString(n / 10);
    }
  }
}
