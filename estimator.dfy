/** Trust scoring (`estimate_trust_score` in m4_estimator.py): classify each
    entry of a list by the domain of its network location against a fixed list
    of credible news domains, count distinct domains, and grade the list by
    its length and its number of trusted entries. */
module Estimator {
  import opened Strings
  import opened UrlParse

  /** The credible news domains; an entry is trusted when one of them occurs
      in its domain. */
  const TrustedSources: seq<string> := [
    "chosun.com", "joongang.co.kr", "donga.com",
    "hani.co.kr", "khan.co.kr", "kyunghyang.com",
    "seoul.co.kr", "hankookilbo.com", "munhwa.com",
    "yna.co.kr", "newsis.com", "news1.kr",
    "sbs.co.kr", "kbs.co.kr", "mbc.co.kr", "ytn.co.kr",
    "zdnet.co.kr", "etnews.com", "it.chosun.com",
    "hankyung.com", "mk.co.kr"
  ]

  /** Deleted from a network location, wherever it occurs, to get the domain. */
  const Www: string := "www."

  datatype Grade = A | B | C | NotAvailable

  /** The dictionary `estimate_trust_score` returns. */
  datatype ScoreReport = ScoreReport(
    grade: Grade,
    summary: string,
    totalArticles: nat,
    trustedCount: nat,
    uniqueDomains: nat,
    trustedUrls: seq<string>,
    otherUrls: seq<string>)

  /** What the loop does with one entry: a trusted or an other entry with its
      domain, or an entry skipped because parsing raised. */
  datatype Classification = Trusted(domain: string) | Other(domain: string) | Unparsable

  /** `any(t in domain for t in TRUSTED_SOURCES)`: the single trust policy, a
      case-sensitive substring test against every credible domain. */
  predicate IsTrusted(domain: string)
  {
    exists t :: t in TrustedSources && Contains(domain, t)
  }

  function Classify(url: string): (r: Classification)
    ensures r.Unparsable? <==> NetlocOf(url).InvalidIPv6?
    ensures r.Trusted? ==> IsTrusted(r.domain)
    ensures r.Other? ==> !IsTrusted(r.domain)
    ensures !r.Unparsable? ==> |r.domain| <= |NetlocOf(url).host|
  {
    match NetlocOf(url)
    case InvalidIPv6 => Unparsable
    case Netloc(host) =>
      var domain := RemoveAll(host, Www);
      if IsTrusted(domain) then Trusted(domain) else Other(domain)
  }

  // Specification of the loop, one entry at a time from the end of the list,
  // for any per-entry classification (the model instantiates it with Classify).

  function TrustedOf(urls: seq<string>, classify: string -> Classification): seq<string>
  {
    if urls == [] then []
    else TrustedOf(urls[..|urls| - 1], classify)
         + (if classify(urls[|urls| - 1]).Trusted? then [urls[|urls| - 1]] else [])
  }

  function OtherOf(urls: seq<string>, classify: string -> Classification): seq<string>
  {
    if urls == [] then []
    else OtherOf(urls[..|urls| - 1], classify)
         + (if classify(urls[|urls| - 1]).Other? then [urls[|urls| - 1]] else [])
  }

  function DomainsOf(urls: seq<string>, classify: string -> Classification): set<string>
  {
    if urls == [] then {}
    else
      var c := classify(urls[|urls| - 1]);
      DomainsOf(urls[..|urls| - 1], classify) + (if c.Unparsable? then {} else {c.domain})
  }

  /** Number of entries whose parsing raised. */
  function FailedOf(urls: seq<string>, classify: string -> Classification): nat
  {
    if urls == [] then 0
    else FailedOf(urls[..|urls| - 1], classify)
         + (if classify(urls[|urls| - 1]).Unparsable? then 1 else 0)
  }

  /** The rule that picks the grade; a zero total stands for the early return on an empty
      input. */
  function GradeFor(total: nat, trusted: nat): (g: Grade)
    ensures g == NotAvailable <==> total == 0
    ensures g == A ==> 3 <= total <= 8 && trusted >= 1
    ensures g == B ==> 1 <= total <= 2
    ensures 1 <= total <= 2 ==> g == B
    ensures 3 <= total <= 8 ==> (g == A <==> trusted >= 1)
  {
    if total == 0 then NotAvailable
    else if total >= 9 then C
    else if total <= 2 then B
    else if trusted >= 1 then A
    else C
  }

  const NothingFoundSummary: string := "분석할 유사 기사를 찾지 못했습니다."

  function SummaryFor(total: nat, trusted: nat): string
  {
    if total == 0 then NothingFoundSummary
    else if total >= 9 then
      "유사 기사가 " + NatToString(total)
      + "건으로 과도하게 많아 어뷰징 또는 스팸성 이슈일 수 있습니다. 신뢰도를 낮게 평가합니다."
    else if total <= 2 then
      "유사 기사가 " + NatToString(total)
      + "건으로 매우 적어 교차 검증이 어렵습니다. 주장의 신뢰성을 단정하기 힘들어 주의가 필요합니다."
    else if trusted >= 1 then
      "신뢰도 높은 언론사 " + NatToString(trusted) + "곳을 포함해 총 " + NatToString(total)
      + "곳에서 해당 내용을 다루고 있어 신뢰도가 높습니다."
    else
      "총 " + NatToString(total)
      + "곳에서 관련 내용을 다루고 있지만, 신뢰도 높은 주요 언론사가 없어 사실 확인이 필요합니다."
  }

  /** The report for a list: the specification the method below meets. */
  function ScoreOf(urls: seq<string>): ScoreReport
  {
    if urls == [] then ScoreReport(NotAvailable, NothingFoundSummary, 0, 0, 0, [], [])
    else
      var trusted := TrustedOf(urls, Classify);
      ScoreReport(GradeFor(|urls|, |trusted|), SummaryFor(|urls|, |trusted|),
                  |urls|, |trusted|, |DomainsOf(urls, Classify)|, trusted, OtherOf(urls, Classify))
  }

  /** `estimate_trust_score(similar_urls)`, uncached. */
  method EstimateTrustScore(similarUrls: seq<string>) returns (report: ScoreReport)
    ensures report == ScoreOf(similarUrls)
  {
    if similarUrls == [] {
      return ScoreReport(NotAvailable, NothingFoundSummary, 0, 0, 0, [], []);
    }

    var totalArticles := |similarUrls|;
    var uniqueDomains: set<string> := {};
    var trustedUrls: seq<string> := [];
    var otherUrls: seq<string> := [];

    for i := 0 to |similarUrls|
      invariant trustedUrls == TrustedOf(similarUrls[..i], Classify)
      invariant otherUrls == OtherOf(similarUrls[..i], Classify)
      invariant uniqueDomains == DomainsOf(similarUrls[..i], Classify)
    {
      var url := similarUrls[i];
      assert similarUrls[..i + 1][..i] == similarUrls[..i];
      match NetlocOf(url)
      case InvalidIPv6 =>
        continue;
      case Netloc(host) =>
        var domain := RemoveAll(host, Www);
        uniqueDomains := uniqueDomains + {domain};
        if IsTrusted(domain) {
          trustedUrls := trustedUrls + [url];
        } else {
          otherUrls := otherUrls + [url];
        }
    }
    assert similarUrls[..|similarUrls|] == similarUrls;

    var trustedCount := |trustedUrls|;
    var grade: Grade;
    var summary: string;
    if totalArticles >= 9 {
      grade := C;
      summary := "유사 기사가 " + NatToString(totalArticles)
                 + "건으로 과도하게 많아 어뷰징 또는 스팸성 이슈일 수 있습니다. 신뢰도를 낮게 평가합니다.";
    } else if totalArticles <= 2 {
      grade := B;
      summary := "유사 기사가 " + NatToString(totalArticles)
                 + "건으로 매우 적어 교차 검증이 어렵습니다. 주장의 신뢰성을 단정하기 힘들어 주의가 필요합니다.";
    } else {
      if trustedCount >= 1 {
        grade := A;
        summary := "신뢰도 높은 언론사 " + NatToString(trustedCount) + "곳을 포함해 총 "
                   + NatToString(totalArticles) + "곳에서 해당 내용을 다루고 있어 신뢰도가 높습니다.";
      } else {
        grade := C;
        summary := "총 " + NatToString(totalArticles)
                   + "곳에서 관련 내용을 다루고 있지만, 신뢰도 높은 주요 언론사가 없어 사실 확인이 필요합니다.";
      }
    }

    report := ScoreReport(grade, summary, totalArticles, trustedCount, |uniqueDomains|,
                          trustedUrls, otherUrls);
  }

  // Properties of the trust policy.

  lemma SourcesStartLowerCase()
    ensures forall k :: 0 <= k < |TrustedSources| ==>
              TrustedSources[k] != [] && 'a' <= TrustedSources[k][0] <= 'z'
  {
  }

  /** Every credible domain starts with a lower-case letter, so a domain
      without lower-case letters (an upper-cased one, say) is never trusted. */
  lemma NoLowerCaseNeverTrusted(domain: string)
    requires forall k :: 0 <= k < |domain| ==> !('a' <= domain[k] <= 'z')
    ensures !IsTrusted(domain)
  {
    SourcesStartLowerCase();
    forall t | t in TrustedSources ensures !Contains(domain, t) {
      var k :| 0 <= k < |TrustedSources| && TrustedSources[k] == t;
      if Contains(domain, t) {
        ContainsOnlyCharsOf(domain, t, 0);
      }
    }
  }

  lemma UpperCaseChosunNotTrusted()
    ensures !IsTrusted("NEWS.CHOSUN.COM")
  {
    NoLowerCaseNeverTrusted("NEWS.CHOSUN.COM");
  }

  /** The substring test accepts a look-alike host that embeds a credible
      domain. */
  lemma LookAlikeDomainTrusted()
    ensures IsTrusted("fakehani.co.kr.evil.com")
  {
    ContainsMiddle("fake", "hani.co.kr", ".evil.com");
    assert "fake" + "hani.co.kr" + ".evil.com" == "fakehani.co.kr.evil.com";
    assert TrustedSources[3] == "hani.co.kr";
  }

  /** An empty domain (the one any text without `/` gets) is never trusted. */
  lemma EmptyDomainNotTrusted()
    ensures !IsTrusted([])
  {
    NoLowerCaseNeverTrusted([]);
  }

  /** A host written `www.<domain>`: the `www.` is dropped and the domain
      classified by the trust policy alone, whatever the scheme and path. */
  lemma WwwHostClassified(scheme: string, domain: string, tail: string)
    requires IsScheme(scheme)
    requires IsPlainHost(domain)
    requires '[' !in domain && ']' !in domain && !Contains(domain, Www)
    requires tail == [] || IsNetlocDelimiter(tail[0])
    requires forall k :: 0 <= k < |tail| ==> !IsUnsafeUrlChar(tail[k])
    ensures Classify(scheme + "://" + (Www + domain) + tail)
            == if IsTrusted(domain) then Trusted(domain) else Other(domain)
  {
    var host := Www + domain;
    var url := scheme + "://" + host + tail;
    WwwHostIsPlain(domain);
    NetlocOfHostUrl(scheme, host, tail);
    assert NetlocOf(url) == Netloc(host);
    RemoveLeadingWww(domain);
    assert RemoveAll(host, Www) == domain;
  }

  lemma WwwHostIsPlain(domain: string)
    requires IsPlainHost(domain)
    requires '[' !in domain && ']' !in domain
    ensures IsPlainHost(Www + domain)
    ensures '[' !in Www + domain && ']' !in Www + domain
  {
    assert IsPlainHost(Www);
    PlainHostConcat(Www, domain);
    assert '[' !in Www && ']' !in Www;
  }

  lemma WwwNotAtSmallOffset(a: string, b: string)
    requires 1 <= |a| < |Www|
    ensures !(Www <= a + Www + b)
  {
    var s := a + Www + b;
    assert s[3] == Www[3 - |a|] == 'w';
  }

  /** `replace('www.', '')` deletes a `www.` wherever it stands: the text
      before and the text after are each cleaned on their own. */
  lemma {:induction false} RemoveAllAroundWww(a: string, b: string)
    ensures RemoveAll(a + Www + b, Www) == RemoveAll(a, Www) + RemoveAll(b, Www)
    decreases |a|
  {
    var s := a + Www + b;
    if a == [] {
      assert Www <= s && s[|Www|..] == b;
    } else {
      if |a| < |Www| {
        WwwNotAtSmallOffset(a, b);
      }
      if Www <= s {
        assert |a| >= |Www|;
        assert a[..|Www|] == s[..|Www|];
        assert Www <= a;
        assert s[|Www|..] == a[|Www|..] + Www + b;
        RemoveAllAroundWww(a[|Www|..], b);
      } else {
        assert !(Www <= a) by {
          if |a| >= |Www| { assert a[..|Www|] == s[..|Www|]; }
        }
        assert s[1..] == a[1..] + Www + b;
        RemoveAllAroundWww(a[1..], b);
        assert s[0] == a[0];
      }
    }
  }

  lemma RemoveLeadingWww(domain: string)
    requires !Contains(domain, Www)
    ensures RemoveAll(Www + domain, Www) == domain
  {
    var host := Www + domain;
    assert Www <= host && host[|Www|..] == domain;
    RemoveAllAbsent(domain, Www);
  }

  // Properties of the loop's specification, for any classification.

  lemma {:induction false} TrustedOfMembers(urls: seq<string>, classify: string -> Classification)
    ensures forall u :: u in TrustedOf(urls, classify) <==> u in urls && classify(u).Trusted?
  {
    if urls != [] {
      TrustedOfMembers(urls[..|urls| - 1], classify);
      assert urls == urls[..|urls| - 1] + [urls[|urls| - 1]];
    }
  }

  lemma {:induction false} OtherOfMembers(urls: seq<string>, classify: string -> Classification)
    ensures forall u :: u in OtherOf(urls, classify) <==> u in urls && classify(u).Other?
  {
    if urls != [] {
      OtherOfMembers(urls[..|urls| - 1], classify);
      assert urls == urls[..|urls| - 1] + [urls[|urls| - 1]];
    }
  }

  lemma {:induction false} SplitKeepsOrder(a: seq<string>, b: seq<string>, classify: string -> Classification)
    ensures TrustedOf(a + b, classify) == TrustedOf(a, classify) + TrustedOf(b, classify)
    ensures OtherOf(a + b, classify) == OtherOf(a, classify) + OtherOf(b, classify)
    decreases |b|
  {
    if b == [] {
      assert a + b == a;
    } else {
      var init := b[..|b| - 1];
      SplitKeepsOrder(a, init, classify);
      assert (a + b)[..|a + b| - 1] == a + init;
      assert (a + b)[|a + b| - 1] == b[|b| - 1];
    }
  }

  lemma {:induction false} CountsAdd(urls: seq<string>, classify: string -> Classification)
    ensures |TrustedOf(urls, classify)| + |OtherOf(urls, classify)| + FailedOf(urls, classify) == |urls|
  {
    if urls != [] {
      CountsAdd(urls[..|urls| - 1], classify);
    }
  }

  lemma {:induction false} NoFailureIff(urls: seq<string>, classify: string -> Classification)
    ensures FailedOf(urls, classify) == 0
            <==> forall k :: 0 <= k < |urls| ==> !classify(urls[k]).Unparsable?
  {
    if urls != [] {
      var init := urls[..|urls| - 1];
      NoFailureIff(init, classify);
      assert forall k :: 0 <= k < |init| ==> init[k] == urls[k];
    }
  }

  lemma {:induction false} DomainsBound(urls: seq<string>, classify: string -> Classification)
    ensures |DomainsOf(urls, classify)| <= |urls| - FailedOf(urls, classify)
  {
    if urls != [] {
      DomainsBound(urls[..|urls| - 1], classify);
      CountsAdd(urls[..|urls| - 1], classify);
    }
  }

  lemma TrustedOfNonEmptyIff(urls: seq<string>, classify: string -> Classification)
    ensures TrustedOf(urls, classify) != [] <==> exists k :: 0 <= k < |urls| && classify(urls[k]).Trusted?
  {
    TrustedOfMembers(urls, classify);
    if TrustedOf(urls, classify) != [] {
      var u := TrustedOf(urls, classify)[0];
      assert u in TrustedOf(urls, classify);
      var k :| 0 <= k < |urls| && urls[k] == u;
    }
    if exists k :: 0 <= k < |urls| && classify(urls[k]).Trusted? {
      var k :| 0 <= k < |urls| && classify(urls[k]).Trusted?;
      assert urls[k] in TrustedOf(urls, classify);
    }
  }

  // Properties of the report.

  /** Entries keep their input order in both lists: scoring a concatenation
      concatenates the lists. */
  lemma ClassificationKeepsOrder(a: seq<string>, b: seq<string>)
    ensures ScoreOf(a + b).trustedUrls == ScoreOf(a).trustedUrls + ScoreOf(b).trustedUrls
    ensures ScoreOf(a + b).otherUrls == ScoreOf(a).otherUrls + ScoreOf(b).otherUrls
  {
    SplitKeepsOrder(a, b, Classify);
    if a == [] { assert a + b == b; }
    if b == [] { assert a + b == a; }
  }

  /** Each entry lands in exactly one of the two lists (the trusted one exactly
      when its domain is trusted), or in neither when its parsing raised; yet
      every entry counts toward the total. */
  lemma PartitionCounts(urls: seq<string>)
    ensures ScoreOf(urls).totalArticles == |urls|
    ensures ScoreOf(urls).trustedCount + |ScoreOf(urls).otherUrls| + FailedOf(urls, Classify)
            == ScoreOf(urls).totalArticles
    ensures forall u :: u in ScoreOf(urls).trustedUrls <==> u in urls && Classify(u).Trusted?
    ensures forall u :: u in ScoreOf(urls).otherUrls <==> u in urls && Classify(u).Other?
  {
    CountsAdd(urls, Classify);
    TrustedOfMembers(urls, Classify);
    OtherOfMembers(urls, Classify);
  }

  /** The two lists account for the whole total exactly when no entry's
      parsing raised. */
  lemma CountsMatchTotalIffAllParse(urls: seq<string>)
    ensures ScoreOf(urls).trustedCount + |ScoreOf(urls).otherUrls| == ScoreOf(urls).totalArticles
            <==> forall k :: 0 <= k < |urls| ==> !Classify(urls[k]).Unparsable?
  {
    CountsAdd(urls, Classify);
    NoFailureIff(urls, Classify);
  }

  /** An entry whose network location has an unmatched bracket makes parsing
      raise: it is in neither list, yet counted in the total, so the two lists
      fall short of the total. */
  lemma UnparsableEntryStillCounted(urls: seq<string>, scheme: string, host: string, tail: string)
    requires IsScheme(scheme)
    requires IsPlainHost(host)
    requires '[' in host && ']' !in host
    requires tail == [] || IsNetlocDelimiter(tail[0])
    requires forall k :: 0 <= k < |tail| ==> !IsUnsafeUrlChar(tail[k])
    requires scheme + "://" + host + tail in urls
    ensures var url := scheme + "://" + host + tail;
            url !in ScoreOf(urls).trustedUrls && url !in ScoreOf(urls).otherUrls
    ensures ScoreOf(urls).trustedCount + |ScoreOf(urls).otherUrls| < ScoreOf(urls).totalArticles
  {
    var url := scheme + "://" + host + tail;
    NetlocOfHostUrl(scheme, host, tail);
    assert Classify(url) == Unparsable;
    PartitionCounts(urls);
    CountsMatchTotalIffAllParse(urls);
    var k :| 0 <= k < |urls| && urls[k] == url;
  }

  /** Distinct domains never outnumber the parsed entries, which never
      outnumber the total. */
  lemma UniqueDomainsBound(urls: seq<string>)
    ensures ScoreOf(urls).uniqueDomains <= |urls| - FailedOf(urls, Classify) <= ScoreOf(urls).totalArticles
  {
    DomainsBound(urls, Classify);
  }

  /** The grade table, stated on the input list: nothing for an empty
      list, C from nine entries on, B up to two, and in between A exactly when
      some entry is trusted. */
  lemma GradeTable(urls: seq<string>)
    ensures ScoreOf(urls).grade == NotAvailable <==> urls == []
    ensures urls == [] ==> ScoreOf(urls) == ScoreReport(NotAvailable, NothingFoundSummary, 0, 0, 0, [], [])
    ensures |urls| >= 9 ==> ScoreOf(urls).grade == C
    ensures 1 <= |urls| <= 2 ==> ScoreOf(urls).grade == B
    ensures 3 <= |urls| <= 8 ==>
              (ScoreOf(urls).grade == A <==> exists k :: 0 <= k < |urls| && Classify(urls[k]).Trusted?)
    ensures 3 <= |urls| <= 8 && ScoreOf(urls).grade != A ==> ScoreOf(urls).grade == C
  {
    TrustedOfNonEmptyIff(urls, Classify);
  }

  lemma {:induction false} AllOther(urls: seq<string>, classify: string -> Classification, d: string)
    requires forall k :: 0 <= k < |urls| ==> classify(urls[k]) == Other(d)
    ensures TrustedOf(urls, classify) == [] && OtherOf(urls, classify) == urls
    ensures DomainsOf(urls, classify) == if urls == [] then {} else {d}
  {
    if urls != [] {
      var init := urls[..|urls| - 1];
      AllOther(init, classify, d);
      assert init + [urls[|urls| - 1]] == urls;
    }
  }

  /** Entries with an empty network location all have the empty domain:
      none is trusted, all are listed as other, there is at most one distinct
      domain, and the grade is never A. */
  lemma EmptyNetlocEntriesNeverTrusted(urls: seq<string>)
    requires forall k :: 0 <= k < |urls| ==> NetlocOf(urls[k]) == Netloc([])
    ensures ScoreOf(urls).trustedCount == 0
    ensures ScoreOf(urls).otherUrls == urls
    ensures ScoreOf(urls).uniqueDomains <= 1
    ensures ScoreOf(urls).grade != A
  {
    EmptyDomainNotTrusted();
    assert RemoveAll([], Www) == [];
    assert forall k :: 0 <= k < |urls| ==> Classify(urls[k]) == Other([]);
    AllOther(urls, Classify, []);
  }

  /** In particular entries without any slash, as most claim sentences are
      (a claim written `2024/05/01 ...` or starting with a URL is not). */
  lemma SlashFreeEntriesNeverTrusted(urls: seq<string>)
    requires forall k :: 0 <= k < |urls| ==> '/' !in urls[k]
    ensures ScoreOf(urls).trustedCount == 0
    ensures ScoreOf(urls).otherUrls == urls
    ensures ScoreOf(urls).uniqueDomains <= 1
    ensures ScoreOf(urls).grade != A
  {
    forall k | 0 <= k < |urls| ensures NetlocOf(urls[k]) == Netloc([]) {
      NetlocOfSlashFree(urls[k]);
    }
    EmptyNetlocEntriesNeverTrusted(urls);
  }

  /** The grade and summary depend on the total and trusted counts only. */
  lemma GradeDependsOnlyOnCounts(urls1: seq<string>, urls2: seq<string>)
    requires ScoreOf(urls1).totalArticles == ScoreOf(urls2).totalArticles
    requires ScoreOf(urls1).trustedCount == ScoreOf(urls2).trustedCount
    ensures ScoreOf(urls1).grade == ScoreOf(urls2).grade
    ensures ScoreOf(urls1).summary == ScoreOf(urls2).summary
  {
  }

  /** Every summary for a non-empty list shows the total, and the A summary
      also shows the trusted count. */
  lemma SummaryShowsCounts(total: nat, trusted: nat)
    requires total > 0
    ensures Contains(SummaryFor(total, trusted), NatToString(total))
    ensures GradeFor(total, trusted) == A ==> Contains(SummaryFor(total, trusted), NatToString(trusted))
  {
    var n := NatToString(total);
    var t := NatToString(trusted);
    if total >= 9 {
      ContainsMiddle("유사 기사가 ", n,
        "건으로 과도하게 많아 어뷰징 또는 스팸성 이슈일 수 있습니다. 신뢰도를 낮게 평가합니다.");
    } else if total <= 2 {
      ContainsMiddle("유사 기사가 ", n,
        "건으로 매우 적어 교차 검증이 어렵습니다. 주장의 신뢰성을 단정하기 힘들어 주의가 필요합니다.");
    } else if trusted >= 1 {
      var tail := "곳에서 해당 내용을 다루고 있어 신뢰도가 높습니다.";
      ContainsMiddle("신뢰도 높은 언론사 " + t + "곳을 포함해 총 ", n, tail);
      ContainsMiddle("신뢰도 높은 언론사 ", t, "곳을 포함해 총 " + n + tail);
      assert "신뢰도 높은 언론사 " + t + "곳을 포함해 총 " + n + tail
          == "신뢰도 높은 언론사 " + t + ("곳을 포함해 총 " + n + tail);
    } else {
      ContainsMiddle("총 ", n,
        "곳에서 관련 내용을 다루고 있지만, 신뢰도 높은 주요 언론사가 없어 사실 확인이 필요합니다.");
    }
  }
}
