/** The claim-list parser of `get_keywords_from_llm` (m2_analyzer.py): the
    language model's reply is split into lines, blank lines are dropped, each
    line is stripped and loses one leading `<digits>.` numbering. The chat
    call itself is replaced by its outcome. */
module Analyzer {
  import opened Wrappers
  import opened Strings

  /** What the function returns when anything in the call or the parsing
      raises. */
  const ErrorSentinel: seq<string> := [SentinelWord]

  /** The one word of the error sentinel ("error"). */
  const SentinelWord: string := "오류"

  /** The chat completion: the call raised, or it returned a message whose
      `content` may be `None` (then `content.split` raises). */
  datatype LlmOutcome = CallFailed | Replied(content: Option<string>)

  /** Length of the run of ASCII digits at the start of `s`. */
  function DigitRun(s: string): (k: nat)
    ensures k <= |s|
    ensures forall j :: 0 <= j < k ==> IsDigit(s[j])
    ensures k < |s| ==> !IsDigit(s[k])
  {
    if s != [] && IsDigit(s[0]) then 1 + DigitRun(s[1..]) else 0
  }

  /** `re.sub(r'^\d+\.\s*', '', line)`: the pattern is anchored, so at most
      one numbering is removed; `\d+` must be followed by a dot, and the
      whitespace after the dot goes with it. */
  function RemoveNumbering(line: string): string
  {
    var k := DigitRun(line);
    if 0 < k < |line| && line[k] == '.' then StripStart(line[k + 1..]) else line
  }

  /** `[line.strip() for line in lines if line.strip()]`. */
  function Keywords(lines: seq<string>): seq<string>
  {
    if lines == [] then []
    else (if Strip(lines[0]) != [] then [Strip(lines[0])] else []) + Keywords(lines[1..])
  }

  /** `[re.sub(...) for keyword in keywords]`. */
  function CleanAll(keywords: seq<string>): seq<string>
  {
    seq(|keywords|, i requires 0 <= i < |keywords| => RemoveNumbering(keywords[i]))
  }

  /** The claims parsed from a reply's content. */
  function ParseClaims(content: string): seq<string>
  {
    CleanAll(Keywords(Split(content, '\n')))
  }

  /** `get_keywords_from_llm` from the outcome of its chat call: the sentinel
      when the call or the parsing raises, otherwise the parsed claims, empty
      exactly when the reply holds nothing but whitespace. */
  function GetKeywordsFromLlm(outcome: LlmOutcome): (r: seq<string>)
    ensures !(outcome.Replied? && outcome.content.Some?) ==> r == ErrorSentinel
    ensures r == [] <==> outcome.Replied? && outcome.content.Some? && AllSpace(outcome.content.value)
  {
    match outcome
    case CallFailed => ErrorSentinel
    case Replied(None) => ErrorSentinel
    case Replied(Some(content)) =>
      EmptyClaimsIffBlankReply(content);
      ParseClaims(content)
  }

  // The numbering prefix.

  /** A line starting with digits and a dot. */
  ghost predicate HasNumbering(line: string)
  {
    exists k :: 0 < k < |line| && line[k] == '.' && forall j :: 0 <= j < k ==> IsDigit(line[j])
  }

  /** Lines without a numbering are kept as they are; a numbered line keeps
      what follows its first dot, without the whitespace after that dot. */
  lemma RemoveNumberingCases(line: string)
    ensures !HasNumbering(line) ==> RemoveNumbering(line) == line
    ensures HasNumbering(line) ==>
              exists k :: 0 < k < |line| && line[k] == '.' && (forall j :: 0 <= j < k ==> IsDigit(line[j]))
                          && RemoveNumbering(line) == StripStart(line[k + 1..])
  {
    var k := DigitRun(line);
    if HasNumbering(line) {
      var k' :| 0 < k' < |line| && line[k'] == '.' && forall j :: 0 <= j < k' ==> IsDigit(line[j]);
      assert !IsDigit(line[k']);
      assert k == k';
    }
  }

  lemma DigitRunBeforeDot(digits: string, rest: string)
    requires forall j :: 0 <= j < |digits| ==> IsDigit(digits[j])
    ensures DigitRun(digits + ['.'] + rest) == |digits|
  {
    if digits != [] {
      assert (digits + ['.'] + rest)[1..] == digits[1..] + ['.'] + rest;
      DigitRunBeforeDot(digits[1..], rest);
    }
  }

  lemma StripStartOfSpaces(ws: string, rest: string)
    requires AllSpace(ws)
    requires rest == [] || !IsSpace(rest[0])
    ensures StripStart(ws + rest) == rest
  {
    if ws != [] {
      assert (ws + rest)[1..] == ws[1..] + rest;
      StripStartOfSpaces(ws[1..], rest);
    } else {
      assert ws + rest == rest;
    }
  }

  /** Exactly one numbering goes: digits, a dot and the whitespace after it;
      whatever follows, even another numbering, is kept. */
  lemma {:induction false} NumberingRemoved(digits: string, ws: string, rest: string, line: string)
    requires digits != [] && forall j :: 0 <= j < |digits| ==> IsDigit(digits[j])
    requires AllSpace(ws)
    requires rest == [] || !IsSpace(rest[0])
    requires line == digits + ['.'] + ws + rest
    ensures RemoveNumbering(line) == rest
  {
    assert line == digits + ['.'] + (ws + rest);
    DigitRunBeforeDot(digits, ws + rest);
    assert line[|digits| + 1..] == ws + rest;
    StripStartOfSpaces(ws, rest);
  }

  lemma BareNumberingBecomesEmpty(digits: string)
    requires digits != [] && forall j :: 0 <= j < |digits| ==> IsDigit(digits[j])
    ensures RemoveNumbering(digits + ['.']) == []
  {
    var line := digits + ['.'];
    assert line == digits + ['.'] + [];
    DigitRunBeforeDot(digits, []);
    assert line[|digits| + 1..] == [];
  }

  // The parse, line by line.

  /** Reference definition: one claim per line that is not all whitespace,
      in order, made by stripping the line and then removing its numbering. */
  ghost function ClaimsOfLines(lines: seq<string>): seq<string>
  {
    if lines == [] then []
    else (if AllSpace(lines[0]) then [] else [RemoveNumbering(Strip(lines[0]))]) + ClaimsOfLines(lines[1..])
  }

  lemma CleanAllConcat(a: seq<string>, b: seq<string>)
    ensures CleanAll(a + b) == CleanAll(a) + CleanAll(b)
  {
    var l := CleanAll(a + b);
    var r := CleanAll(a) + CleanAll(b);
    assert |l| == |r|;
    forall i | 0 <= i < |l| ensures l[i] == r[i] {
      if i < |a| {
        assert (a + b)[i] == a[i];
      } else {
        assert (a + b)[i] == b[i - |a|];
      }
    }
  }

  lemma {:induction false} CleanKeywordsPerLine(lines: seq<string>)
    ensures CleanAll(Keywords(lines)) == ClaimsOfLines(lines)
  {
    if lines != [] {
      var line := lines[0];
      CleanKeywordsPerLine(lines[1..]);
      StripEmptyIffAllSpace(line);
      var head := if Strip(line) != [] then [Strip(line)] else [];
      var tail := Keywords(lines[1..]);
      assert Keywords(lines) == head + tail;
      CleanAllConcat(head, tail);
      assert CleanAll(head) == if AllSpace(line) then [] else [RemoveNumbering(Strip(line))];
    }
  }

  /** A reply made of lines (none holding a line feed) parses into one claim
      per non-blank line, in order, each stripped before its numbering is
      removed; nothing is dropped after the numbering goes. */
  lemma {:induction false} ClaimsPerNonBlankLine(lines: seq<string>)
    requires |lines| >= 1
    requires forall l :: l in lines ==> '\n' !in l
    ensures ParseClaims(Join(lines, '\n')) == ClaimsOfLines(lines)
  {
    SplitJoin(lines, '\n');
    CleanKeywordsPerLine(lines);
  }

  lemma StripTrimmed(line: string)
    ensures IsTrimmed(Strip(line))
  {
    var t := StripStart(line);
    var r := StripEnd(t);
    if r != [] {
      assert r[0] == t[0];
    }
  }

  lemma {:induction false} KeywordsTrimmed(lines: seq<string>)
    ensures forall k :: k in Keywords(lines) ==> k != [] && IsTrimmed(k)
  {
    if lines != [] {
      KeywordsTrimmed(lines[1..]);
      StripTrimmed(lines[0]);
    }
  }

  /** No whitespace at either end. */
  predicate IsTrimmed(c: string)
  {
    c == [] || (!IsSpace(c[0]) && !IsSpace(c[|c| - 1]))
  }

  lemma RemoveNumberingTrimmed(t: string)
    requires t != [] && IsTrimmed(t)
    ensures IsTrimmed(RemoveNumbering(t))
  {
    var k := DigitRun(t);
    if 0 < k < |t| && t[k] == '.' {
      var c := StripStart(t[k + 1..]);
      if c != [] {
        assert c[|c| - 1] == t[k + 1..][|t[k + 1..]| - 1] == t[|t| - 1];
      }
    }
  }

  /** Every claim is empty or begins and ends with a non-whitespace
      character. */
  lemma ClaimsTrimmed(content: string)
    ensures forall i :: 0 <= i < |ParseClaims(content)| ==> IsTrimmed(ParseClaims(content)[i])
  {
    var keywords := Keywords(Split(content, '\n'));
    KeywordsTrimmed(Split(content, '\n'));
    var claims := CleanAll(keywords);
    assert claims == ParseClaims(content);
    forall i | 0 <= i < |claims| ensures IsTrimmed(claims[i]) {
      assert keywords[i] in keywords;
      RemoveNumberingTrimmed(keywords[i]);
    }
  }

  lemma {:induction false} KeywordsEmptyIffAllBlank(lines: seq<string>)
    ensures Keywords(lines) == [] <==> forall l :: l in lines ==> AllSpace(l)
  {
    if lines != [] {
      KeywordsEmptyIffAllBlank(lines[1..]);
      StripEmptyIffAllSpace(lines[0]);
      assert forall l :: l in lines <==> l == lines[0] || l in lines[1..];
    }
  }

  lemma {:induction false} AllSpaceJoin(parts: seq<string>)
    requires |parts| >= 1
    ensures AllSpace(Join(parts, '\n')) <==> forall p :: p in parts ==> AllSpace(p)
  {
    if |parts| > 1 {
      AllSpaceJoin(parts[1..]);
      var a := parts[0];
      var b := Join(parts[1..], '\n');
      var s := a + ['\n'] + b;
      assert forall p :: p in parts <==> p == a || p in parts[1..];
      if AllSpace(s) {
        assert forall i :: 0 <= i < |a| ==> a[i] == s[i];
        assert forall i :: 0 <= i < |b| ==> b[i] == s[|a| + 1 + i];
      }
      if AllSpace(a) && AllSpace(b) {
        forall i | 0 <= i < |s| ensures IsSpace(s[i]) {
          if i < |a| { assert s[i] == a[i]; }
          else if i > |a| { assert s[i] == b[i - |a| - 1]; }
        }
      }
    }
  }

  /** The reply yields no claim exactly when it holds nothing but
      whitespace (line feeds included). */
  lemma EmptyClaimsIffBlankReply(content: string)
    ensures ParseClaims(content) == [] <==> AllSpace(content)
  {
    var lines := Split(content, '\n');
    JoinSplit(content, '\n');
    AllSpaceJoin(lines);
    KeywordsEmptyIffAllBlank(lines);
  }

  /** A reply parses to the sentinel list exactly when its only non-blank
      line cleans to the sentinel word. */
  lemma SentinelFromContent(content: string)
    ensures ParseClaims(content) == ErrorSentinel <==>
              |Keywords(Split(content, '\n'))| == 1 && RemoveNumbering(Keywords(Split(content, '\n'))[0]) == SentinelWord
  {
    var keywords := Keywords(Split(content, '\n'));
    var claims := CleanAll(keywords);
    assert claims == ParseClaims(content);
    assert |claims| == |keywords|;
    if |keywords| == 1 {
      assert claims == [RemoveNumbering(keywords[0])];
    }
  }

  /** A reply of a single non-blank line without surrounding whitespace
      yields that line with its numbering removed. */
  lemma ParseSingleLine(line: string)
    requires '\n' !in line
    requires line != [] && IsTrimmed(line)
    ensures ParseClaims(line) == [RemoveNumbering(line)]
  {
    SplitJoin([line], '\n');
    assert Split(line, '\n') == [line];
    assert StripStart(line) == line;
    assert Strip(line) == line;
    assert Keywords([line]) == [line] + Keywords([]);
  }

  lemma NumberedLineIsSingleTrimmedLine(digits: string, word: string, line: string)
    requires digits != [] && forall j :: 0 <= j < |digits| ==> IsDigit(digits[j])
    requires word != [] && '\n' !in word && !IsSpace(word[|word| - 1])
    requires line == digits + ". " + word
    ensures '\n' !in line && line != [] && IsTrimmed(line)
  {
    assert forall i :: 0 <= i < |digits| ==> line[i] == digits[i];
    assert forall i :: |digits| + 2 <= i < |line| ==> line[i] == word[i - |digits| - 2];
    assert line[|digits|] == '.' && line[|digits| + 1] == ' ';
    assert IsDigit(line[0]);
  }

  /** A reply of one numbered line yields the text after the numbering. */
  lemma {:induction false} NumberedWordReply(digits: string, word: string, line: string)
    requires digits != [] && forall j :: 0 <= j < |digits| ==> IsDigit(digits[j])
    requires word != [] && '\n' !in word && !IsSpace(word[0]) && !IsSpace(word[|word| - 1])
    requires line == digits + ". " + word
    ensures ParseClaims(line) == [word]
  {
    assert AllSpace(" ");
    assert line == digits + ['.'] + " " + word by {
      assert ". " == ['.'] + " ";
      assert digits + ". " == digits + ['.'] + " ";
    }
    NumberingRemoved(digits, " ", word, line);
    NumberedLineIsSingleTrimmedLine(digits, word, line);
    ParseSingleLine(line);
  }

  /** So a reply of one numbered line holding the sentinel word cannot be
      told apart from a failed call. */
  lemma NumberedSentinelReply(digits: string)
    requires digits != [] && forall j :: 0 <= j < |digits| ==> IsDigit(digits[j])
    ensures ParseClaims(digits + ". " + SentinelWord) == ErrorSentinel
  {
    var word := SentinelWord;
    assert '\n' !in word && !IsSpace(word[0]) && !IsSpace(word[|word| - 1]);
    NumberedWordReply(digits, word, digits + ". " + word);
  }
}
