# News trust scoring — Dafny model

This project models the decision logic of a news fact-checking pipeline in
Dafny and proves properties of that model. The pipeline has three steps:

- **Claim parsing.** A language model's numbered reply is parsed into claims
  (`get_keywords_from_llm`, m2_analyzer.py).
- **Corroboration search.** Each claim is searched in a news search service.
  For each claim, only the links to the news aggregator's article host are
  kept (`search_news_articles`, m3_searcher.py).
- **Trust scoring.** A list of entries gets a grade. Each entry is classified
  as trusted or other: it is trusted when the fixed list of credible domains
  has an entry that occurs in the entry's domain (`estimate_trust_score` and
  `TRUSTED_SOURCES`, m4_estimator.py).

Modules:

- `Strings` (strings.dfy): the Python `str` operations the code relies on:
  - `in` as a substring test;
  - `replace(pat, '')`;
  - `strip()`, with the `str.isspace` characters;
  - `split('\n')`;
  - the decimal text an f-string gives for a count.
- `UrlParse` (urlparse.dfy): `urlparse(url).netloc` as the `urlsplit` of
  CPython 3.12 computes it:
  - leading C0 controls and spaces are stripped;
  - tab, CR and LF are deleted;
  - an optional `scheme:` is skipped;
  - the network location is the text after `//` up to `/`, `?` or `#`.

  It also models one of the `ValueError`s it can raise: a network location
  with an unmatched `[` or `]` raises "Invalid IPv6 URL". The others are
  listed under "Left out".
- `Estimator` (estimator.dfy): scoring.
  - `EstimateTrustScore` is the loop, as written.
  - It is proved equal to the specification function `ScoreOf`.
  - The counting, ordering, partition and grade properties are proved about
    `ScoreOf`.
- `Searcher` (searcher.dfy): the search loop, with nested loops and an
  insertion-ordered dictionary (`Index`).
  - It is proved equal to `SearchResult`.
  - The HTTP request is replaced by an input function: `server(i, claim)` is
    the response to the i-th request.
- `Analyzer` (analyzer.dfy): the reply-to-claims parser. The chat call is
  replaced by its outcome (`LlmOutcome`).
- `Wrappers` (wrappers.dfy): `Option`.

The model follows the code in four places where its behaviour may be
unexpected:

- `total_articles` is the length of the input. It includes entries whose
  parsing raised, even though those entries are in neither list, so the
  counts do not satisfy `trusted_count + len(other_urls) == total_articles`
  in general. `UnparsableEntryStillCounted` shows that the two lists then fall
  short of the total.
- Every `www.` in a network location is removed, not only a leading one.
  `Estimator.RemoveAllAroundWww` shows this for a `www.` at any position, and
  `Strings.RemoveAllIsOnePass` shows that the removal is a single pass.
- The C summary for 3 to 8 entries with no trusted source shows the total
  only, not the trusted count.
- Scoring is meant to see the found article links of all claims together.
  The application passes the search result dictionary itself, so scoring
  iterates over its keys, which are the claim sentences.
  `EmptyNetlocEntriesNeverTrusted` states what scoring does with entries that
  have an empty network location: none is trusted and the grade is never A.
  `SlashFreeEntriesNeverTrusted` applies this to entries without any `/`, as
  most claim sentences are. A claim that starts with `//` or `scheme://` gets
  as its network location everything up to the next `/`, `?` or `#`, rest of
  the sentence included, and can be trusted. A `//` later in the sentence
  leaves the network location empty (`MidSentenceUrlHasNoNetloc`).

## Model

| member | source | states |
|---|---|---|
| Strings.Contains | m4_estimator.py:44 | Python's `sub in s`: a recursive search from each position; characterised by `ContainsIffOccurs` |
| Strings.ContainsIffOccurs | m4_estimator.py:44 | Python's `t in domain` holds exactly when `t` occurs as a contiguous block at some position of `domain` |
| Strings.RemoveAll | m4_estimator.py:41 | `replace('www.', '')` never lengthens the text and shortens it when the text starts with the pattern; deletion anywhere is `Estimator.RemoveAllAroundWww` |
| Strings.RemoveAllAbsent | m4_estimator.py:41 | when the pattern does not occur, the replacement leaves the text unchanged |
| Strings.RemoveAllIsOnePass | m4_estimator.py:41 | the replacement is one left-to-right pass: `wwww.ww.` becomes `www.`, which still contains the pattern |
| Strings.StripStart | m2_analyzer.py:46 | the result is a suffix of the input, everything removed is whitespace, and the result does not begin with whitespace |
| Strings.StripEnd | m2_analyzer.py:44 | the result is a prefix of the input, everything removed is whitespace, and the result does not end with whitespace |
| Strings.Strip | m2_analyzer.py:44 | `s.strip()`, as `rstrip` after `lstrip`; characterised by `StripIsInnerBlock`, `StripEmptyIffAllSpace` and `Analyzer.StripTrimmed` |
| Strings.StripIsInnerBlock | m2_analyzer.py:44 | `strip()` returns the block between the leading and the trailing whitespace of the line, and both runs are maximal: the block is empty or starts and ends with non-whitespace |
| Strings.StripEmptyIffAllSpace | m2_analyzer.py:44 | a stripped line is empty exactly when the line is all whitespace |
| Strings.Split | m2_analyzer.py:44 | `split('\n')` gives at least one piece and no piece contains a line feed |
| Strings.JoinSplit | m2_analyzer.py:44 | joining the pieces of a split with the separator gives back the text |
| Strings.SplitJoin | m2_analyzer.py:44 | splitting what was joined from separator-free pieces gives back the pieces |
| Strings.NatToString | m4_estimator.py:61 | a count is shown as a non-empty string of decimal digits with no leading zero |
| Strings.DecimalRoundTrip | m4_estimator.py:73 | the shown digits read back as the same count |
| UrlParse.SplitNetloc | m4_estimator.py:41 | the network location after `//` holds no `/`, `?` or `#`, has matched brackets, and holds no tab, CR or LF when its input has none; an unmatched bracket gives `InvalidIPv6` |
| UrlParse.NetlocOf | m4_estimator.py:41 | `urlparse(url).netloc` never holds `/`, `?`, `#`, tab, CR or LF, and its brackets are matched; otherwise the parse raises |
| UrlParse.NetlocOfHostUrl | m4_estimator.py:41 | the netloc of `scheme://host<tail>` is `host` when the host has no delimiter and the tail is empty or starts at `/`, `?` or `#`; an unmatched bracket in the host raises instead |
| UrlParse.NetlocOfSlashFree | m4_estimator.py:41 | a text without `/` has an empty netloc and never raises |
| UrlParse.MidSentenceUrlHasNoNetloc | m4_estimator.py:41 | a sentence whose first word is no scheme and which does not start with `//` has an empty netloc, even when a URL follows later |
| Estimator.Classify | m4_estimator.py:41-47 | an entry is unparsable exactly when its netloc raises; a trusted entry's domain is trusted by the list, an other entry's domain is not; removing `www.` never lengthens the domain |
| Estimator.GradeFor | m4_estimator.py:59-77 | the grade is N/A exactly for a zero total; B exactly for 1 or 2 entries; A only for 3 to 8 entries with a trusted one, and in that band A exactly when the trusted count is at least 1 |
| Estimator.IsTrusted | m4_estimator.py:44 | case-sensitive substring test against every credible domain; characterised by `NoLowerCaseNeverTrusted`, `LookAlikeDomainTrusted` and `EmptyDomainNotTrusted` |
| Estimator.SummaryFor | m4_estimator.py:59-77 | the four summary templates with the counts filled in; its embedded counts are stated by `SummaryShowsCounts` |
| Estimator.RemoveAllAroundWww | m4_estimator.py:41 | `replace('www.', '')` deletes a `www.` at any position: the text before it and the text after it are each cleaned on their own |
| Estimator.EstimateTrustScore | m4_estimator.py:17-90 | the loop with its if/elif chain that picks the grade returns exactly the report `ScoreOf` specifies |
| Estimator.SourcesStartLowerCase | m4_estimator.py:6-14 | every credible domain starts with a lower-case ASCII letter |
| Estimator.NoLowerCaseNeverTrusted | m4_estimator.py:44 | the match is case-sensitive: a domain without lower-case letters is never trusted |
| Estimator.UpperCaseChosunNotTrusted | m4_estimator.py:44 | `NEWS.CHOSUN.COM` is not trusted although `chosun.com` is in the list |
| Estimator.LookAlikeDomainTrusted | m4_estimator.py:44 | the loose substring match trusts `fakehani.co.kr.evil.com` |
| Estimator.EmptyDomainNotTrusted | m4_estimator.py:44 | the empty domain is not trusted |
| Estimator.WwwHostClassified | m4_estimator.py:41-47 | for `scheme://www.<domain><tail>` the domain is `<domain>`, and the entry is trusted exactly when some credible domain occurs in it |
| Estimator.TrustedOfMembers | m4_estimator.py:44-45 | an entry is in the trusted list exactly when it is in the input and classified trusted |
| Estimator.OtherOfMembers | m4_estimator.py:46-47 | an entry is in the other list exactly when it is in the input and parsed but not trusted |
| Estimator.SplitKeepsOrder | m4_estimator.py:39-47 | classifying a concatenation concatenates both lists, so input order is kept |
| Estimator.CountsAdd | m4_estimator.py:39-50 | trusted plus other plus failed entries make up the whole input |
| Estimator.NoFailureIff | m4_estimator.py:48-50 | no entry fails exactly when every entry parses |
| Estimator.DomainsBound | m4_estimator.py:42 | distinct domains never outnumber the entries that parsed |
| Estimator.TrustedOfNonEmptyIff | m4_estimator.py:44-52 | the trusted count is non-zero exactly when some entry is classified trusted |
| Estimator.ClassificationKeepsOrder | m4_estimator.py:39-52 | the report's trusted and other lists for `a + b` are those for `a` followed by those for `b` |
| Estimator.PartitionCounts | m4_estimator.py:34-52 | the total is the input length; trusted + other + failed equals the total; list membership is exactly the classification |
| Estimator.CountsMatchTotalIffAllParse | m4_estimator.py:34-52 | `trusted_count + len(other_urls) == total_articles` exactly when no entry's parsing raised |
| Estimator.UnparsableEntryStillCounted | m4_estimator.py:48-50 | an entry with an unmatched `[` in its netloc is in neither list, yet counted, so the lists fall short of the total |
| Estimator.UniqueDomainsBound | m4_estimator.py:35-50 | `unique_domains` is at most the number of parsed entries, which is at most the total |
| Estimator.GradeTable | m4_estimator.py:22-77 | empty input gives the N/A report with zero counts and empty lists, and only empty input gives N/A; 9 or more gives C; 1 or 2 gives B; 3 to 8 gives A exactly when some entry is trusted, and C otherwise |
| Estimator.EmptyNetlocEntriesNeverTrusted | m4_estimator.py:39-52 | entries with an empty netloc are all listed as other, the trusted count is 0, there is at most one distinct domain, and the grade is never A |
| Estimator.SlashFreeEntriesNeverTrusted | m4_estimator.py:39-52 | entries without `/` are all listed as other, the trusted count is 0, there is at most one distinct domain, and the grade is never A |
| Estimator.GradeDependsOnlyOnCounts | m4_estimator.py:59-77 | two inputs with equal total and trusted counts get the same grade and summary |
| Estimator.SummaryShowsCounts | m4_estimator.py:59-77 | every summary for non-empty input shows the total; the A summary also shows the trusted count |
| Searcher.SearchNewsArticles | m3_searcher.py:5-47 | the loop returns exactly the dictionary `SearchResult` specifies; a request is made for every claim in order when both credentials are set, and for none otherwise |
| Searcher.NaverLinks | m3_searcher.py:34-37 | the `urls_for_query` list built for one response; characterised by `NaverLinksExact` and `NaverLinksKeepsOrder` |
| Searcher.Store | m3_searcher.py:40-41 | `if urls_for_query: search_results[query] = urls_for_query` on an insertion-ordered dictionary; its effect is stated by `StoreKeepsWellFormed`, `EntryIsLastHit` and `KeysInFirstHitOrder` |
| Searcher.NaverLinksExact | m3_searcher.py:34-37 | a link is kept exactly when some item carries it and it contains `news.naver.com`; an item without a link is skipped |
| Searcher.NaverLinksKeepsOrder | m3_searcher.py:35-37 | the filter distributes over concatenation, so kept links are in result order |
| Searcher.NaverLinksLength | m3_searcher.py:35-37 | at most one link is kept per item |
| Searcher.StoreKeepsWellFormed | m3_searcher.py:40-41 | storing a non-empty list of aggregator links keeps the dictionary well formed; an empty list is not stored |
| Searcher.IndexWellFormed | m3_searcher.py:23-45 | after any number of claims, keys are distinct and are exactly the stored claims, no list is empty, and every stored link is an aggregator link |
| Searcher.KeyIffHit | m3_searcher.py:25-45 | a claim is a key exactly when one of its requests returned aggregator links, whatever other requests failed; so keys are input claims |
| Searcher.EntryIsLastHit | m3_searcher.py:40-41 | a claim's list comes from its last request that returned aggregator links; a later one overwrites an earlier one |
| Searcher.KeysInFirstHitOrder | m3_searcher.py:25-41 | the key order is the order in which claims first got aggregator links, each claim once |
| Searcher.CredentialsGate | m3_searcher.py:9-14 | a missing or empty credential gives the empty dictionary, and every result is well formed |
| Searcher.HasCredentials | m3_searcher.py:12 | both credentials present and non-empty; `CredentialsGate` states that without them the result is the empty dictionary, and `SearchNewsArticles` that no request is made |
| Analyzer.GetKeywordsFromLlm | m2_analyzer.py:41-56 | a failed call or a missing content gives the sentinel `["오류"]`; the result is empty exactly when the reply is all whitespace |
| Analyzer.RemoveNumbering | m2_analyzer.py:46 | `re.sub(r'^\d+\.\s*', '', line)`; characterised by `RemoveNumberingCases` and `NumberingRemoved` |
| Analyzer.Keywords | m2_analyzer.py:44 | the stripped non-blank lines in order; characterised by `KeywordsEmptyIffAllBlank`, `KeywordsTrimmed` and `ClaimsPerNonBlankLine` |
| Analyzer.ParseClaims | m2_analyzer.py:44-46 | the two comprehensions applied to the reply's lines; tied to the per-line reference `ClaimsOfLines` by `ClaimsPerNonBlankLine` |
| Analyzer.CleanAll | m2_analyzer.py:46 | the second comprehension, `RemoveNumbering` on each kept line in order; `CleanAllConcat` splits it over concatenation and `ClaimsPerNonBlankLine` ties it to the per-line reference |
| Analyzer.KeywordsTrimmed | m2_analyzer.py:44 | every kept line is non-empty and has no whitespace at either end |
| Analyzer.StripTrimmed | m2_analyzer.py:44 | a stripped line has no whitespace at either end |
| Analyzer.DigitRun | m2_analyzer.py:46 | the maximal run of ASCII digits at the start of a line |
| Analyzer.RemoveNumberingCases | m2_analyzer.py:46 | a line without `<digits>.` at its start is unchanged; a numbered line keeps what follows its first dot, without the whitespace after it |
| Analyzer.NumberingRemoved | m2_analyzer.py:46 | `<digits>.<spaces><rest>` becomes `<rest>`, even when `<rest>` is itself numbered: one numbering at most is removed |
| Analyzer.BareNumberingBecomesEmpty | m2_analyzer.py:46 | a bare `<digits>.` line becomes an empty claim and is not dropped |
| Analyzer.ClaimsPerNonBlankLine | m2_analyzer.py:44-46 | a reply made of lines yields one claim per line that is not all whitespace, in order, each stripped and then de-numbered |
| Analyzer.RemoveNumberingTrimmed | m2_analyzer.py:46 | removing the numbering from a stripped line leaves no whitespace at either end |
| Analyzer.ClaimsTrimmed | m2_analyzer.py:44-46 | every claim is empty or starts and ends with a non-whitespace character |
| Analyzer.KeywordsEmptyIffAllBlank | m2_analyzer.py:44 | no line is kept exactly when every line is blank |
| Analyzer.EmptyClaimsIffBlankReply | m2_analyzer.py:44-50 | the reply yields no claim exactly when it is all whitespace |
| Analyzer.SentinelFromContent | m2_analyzer.py:52-56 | a reply parses to the sentinel list exactly when its single non-blank line cleans to `오류` |
| Analyzer.ParseSingleLine | m2_analyzer.py:44-46 | a one-line reply without edge whitespace yields that line with its numbering removed |
| Analyzer.NumberedWordReply | m2_analyzer.py:44-46 | a reply that is one line `<digits>. <word>` yields the single claim `<word>` |
| Estimator.RemoveLeadingWww | m4_estimator.py:41 | a host `www.<domain>` whose domain has no further `www.` loses exactly the leading `www.` |
| Analyzer.NumberedSentinelReply | m2_analyzer.py:44-56 | the reply `<digits>. 오류` parses to the sentinel list, the same value a failed call gives |

## Left out

- `@st.cache_data(ttl=3600)` on `estimate_trust_score` is left out. The model is uncached; the cache does not change results.
- Streamlit side effects (`st.error`, `st.warning`, `st.secrets`) are left out. Credentials are inputs.
- The search service's HTTP request (URL, headers, `display`, `sort`) is an input function, `server`. `RequestFailed` stands for every `RequestException`, including a body that is not JSON, which requests 2.27 and later report as `requests.exceptions.JSONDecodeError`, a `RequestException`; earlier releases raise a plain `ValueError` that the source does not catch.
- A JSON body that is not an object, an `items` field that is not a list (such as `null`), or items that are not objects, raise exceptions the source does not catch. These are not modelled.
- A `link` field that is present but not a string is not modelled. Items carry an optional string.
- The OpenAI client, system prompt and chat call are left out. Their outcome is an input (`LlmOutcome`).
- Analyzer.DigitRun: `\d` is modelled as ASCII `0`-`9`. Python's `\d` on `str` also matches other Unicode decimal digits.
- UrlParse.NetlocOf covers only the netloc. These `urlsplit` behaviours are not modelled:
  - scheme lower-casing;
  - validation of the text inside brackets as an IPv6 address, which raises `ValueError`. Python drops such an entry (`http://[abc]/`) from both lists and counts it only in the total; the model lists it as other;
  - the NFKC check on non-ASCII netlocs, which can also raise `ValueError`.
- Entries that are not strings are not modelled; the input is a sequence of strings.
- Estimator.GradeDependsOnlyOnCounts holds by definition of `ScoreOf` and carries no separate proof.
- The application page flow (app.py) is not part of this model; nor is the article scraper (m1_scraper.py), an HTTP fetch and HTML extraction.
