/** Corroboration search (`search_news_articles` in m3_searcher.py): one news
    search per claim, keeping only result links on the news aggregator's
    article host, gathered in a dictionary from claim to links that remembers
    the order in which claims were first stored. The HTTP request is replaced
    by `server`, the response to the i-th request (made for claim c) being
    `server(i, c)`. */
module Searcher {
  import opened Wrappers
  import opened Strings

  /** Only links containing this text are kept. */
  const NaverNewsHost: string := "news.naver.com"

  /** One entry of the response's `items`, with its `link` if it has one. */
  datatype Item = Item(link: Option<string>)

  /** The outcome of one request: a `RequestException` (connection error, an
      HTTP error status, a body that is not JSON), or the response's `items`
      (empty when the field is absent). */
  datatype Response = RequestFailed | Received(items: seq<Item>)

  /** A Python dictionary from claim to links: `keys` in insertion order, and
      the entry of each key. */
  datatype Index = Index(keys: seq<string>, entries: map<string, seq<string>>)

  const EmptyIndex: Index := Index([], map[])

  /** The dictionary invariant: each key listed once, exactly the keys that
      have entries; and what this search stores: never an empty list, only
      aggregator links. */
  ghost predicate WellFormed(index: Index)
  {
    && (forall i, j :: 0 <= i < j < |index.keys| ==> index.keys[i] != index.keys[j])
    && (forall k :: k in index.entries <==> k in index.keys)
    && (forall k :: k in index.entries ==> index.entries[k] != [])
    && (forall k, l :: k in index.entries && l in index.entries[k] ==> Contains(l, NaverNewsHost))
  }

  /** `not client_id or not client_secret` fails: both are present and
      non-empty. */
  predicate HasCredentials(clientId: Option<string>, clientSecret: Option<string>)
  {
    clientId.Some? && clientId.value != [] && clientSecret.Some? && clientSecret.value != []
  }

  /** The links of `items` that contain the aggregator host, in order; an item
      without a link counts as the empty link and is skipped. */
  function NaverLinks(items: seq<Item>): seq<string>
  {
    if items == [] then []
    else
      var last := items[|items| - 1];
      NaverLinks(items[..|items| - 1])
      + (if last.link.Some? && Contains(last.link.value, NaverNewsHost) then [last.link.value] else [])
  }

  /** `if urls_for_query: search_results[query] = urls_for_query`. */
  function Store(index: Index, claim: string, links: seq<string>): Index
  {
    if links == [] then index
    else Index(if claim in index.entries then index.keys else index.keys + [claim],
               index.entries[claim := links])
  }

  /** A request that returned at least one aggregator link. */
  predicate IsHit(r: Response)
  {
    r.Received? && NaverLinks(r.items) != []
  }

  /** The dictionary after the first `n` claims. */
  function IndexAfter(claims: seq<string>, server: (nat, string) -> Response, n: nat): Index
    requires n <= |claims|
  {
    if n == 0 then EmptyIndex
    else
      var previous := IndexAfter(claims, server, n - 1);
      match server(n - 1, claims[n - 1])
      case RequestFailed => previous
      case Received(items) => Store(previous, claims[n - 1], NaverLinks(items))
  }

  /** What `search_news_articles(claims)` returns. */
  function SearchResult(clientId: Option<string>, clientSecret: Option<string>,
                        claims: seq<string>, server: (nat, string) -> Response): Index
  {
    if HasCredentials(clientId, clientSecret) then IndexAfter(claims, server, |claims|) else EmptyIndex
  }

  /** `search_news_articles(claims)`; `queried` lists the claims a request was
      made for, in order. */
  method SearchNewsArticles(claims: seq<string>, clientId: Option<string>, clientSecret: Option<string>,
                            server: (nat, string) -> Response)
    returns (searchResults: Index, queried: seq<string>)
    ensures searchResults == SearchResult(clientId, clientSecret, claims, server)
    ensures queried == if HasCredentials(clientId, clientSecret) then claims else []
  {
    queried := [];
    if clientId.None? || clientId.value == [] || clientSecret.None? || clientSecret.value == [] {
      return EmptyIndex, queried;
    }

    var keys: seq<string> := [];
    var entries: map<string, seq<string>> := map[];
    for i := 0 to |claims|
      invariant Index(keys, entries) == IndexAfter(claims, server, i)
      invariant queried == claims[..i]
    {
      var query := claims[i];
      queried := queried + [query];
      match server(i, query)
      case RequestFailed =>
        continue;
      case Received(items) =>
        var urlsForQuery: seq<string> := [];
        for j := 0 to |items|
          invariant urlsForQuery == NaverLinks(items[..j])
        {
          assert items[..j + 1][..j] == items[..j];
          var link := if items[j].link.Some? then items[j].link.value else "";
          if Contains(link, NaverNewsHost) {
            urlsForQuery := urlsForQuery + [items[j].link.value];
          }
        }
        assert items[..|items|] == items;
        if urlsForQuery != [] {
          if query !in entries {
            keys := keys + [query];
          }
          entries := entries[query := urlsForQuery];
        }
    }
    assert claims[..|claims|] == claims;
    searchResults := Index(keys, entries);
  }

  // Properties of the link filter.

  /** Exactly the links containing the aggregator host are kept. */
  lemma {:induction false} NaverLinksExact(items: seq<Item>)
    ensures forall l :: l in NaverLinks(items) <==>
              exists k :: 0 <= k < |items| && items[k].link == Some(l) && Contains(l, NaverNewsHost)
  {
    if items != [] {
      var init := items[..|items| - 1];
      NaverLinksExact(init);
      assert forall k :: 0 <= k < |init| ==> init[k] == items[k];
    }
  }

  /** Kept links stay in result order. */
  lemma {:induction false} NaverLinksKeepsOrder(a: seq<Item>, b: seq<Item>)
    ensures NaverLinks(a + b) == NaverLinks(a) + NaverLinks(b)
    decreases |b|
  {
    if b == [] {
      assert a + b == a;
    } else {
      var init := b[..|b| - 1];
      NaverLinksKeepsOrder(a, init);
      assert (a + b)[..|a + b| - 1] == a + init;
      assert (a + b)[|a + b| - 1] == b[|b| - 1];
    }
  }

  /** At most one link is kept per item. */
  lemma {:induction false} NaverLinksLength(items: seq<Item>)
    ensures |NaverLinks(items)| <= |items|
  {
    if items != [] {
      NaverLinksLength(items[..|items| - 1]);
    }
  }

  // Properties of the dictionary.

  lemma StoreKeepsWellFormed(index: Index, claim: string, links: seq<string>)
    requires WellFormed(index)
    requires forall l :: l in links ==> Contains(l, NaverNewsHost)
    ensures WellFormed(Store(index, claim, links))
  {
  }

  /** The dictionary stays well formed: no claim stored twice in the key
      order, no empty list, only aggregator links. */
  lemma {:induction false} IndexWellFormed(claims: seq<string>, server: (nat, string) -> Response, n: nat)
    requires n <= |claims|
    ensures WellFormed(IndexAfter(claims, server, n))
  {
    if n > 0 {
      IndexWellFormed(claims, server, n - 1);
      var r := server(n - 1, claims[n - 1]);
      if r.Received? {
        NaverLinksExact(r.items);
        StoreKeepsWellFormed(IndexAfter(claims, server, n - 1), claims[n - 1], NaverLinks(r.items));
      }
    }
  }

  /** A claim is a key exactly when one of its requests returned aggregator
      links, whatever failed before or after; in particular every key is one
      of the claims. */
  lemma {:induction false} KeyIffHit(claims: seq<string>, server: (nat, string) -> Response, n: nat)
    requires n <= |claims|
    ensures forall c :: c in IndexAfter(claims, server, n).entries <==>
              exists i :: 0 <= i < n && claims[i] == c && IsHit(server(i, claims[i]))
  {
    if n > 0 {
      KeyIffHit(claims, server, n - 1);
    }
  }

  /** The list stored for a claim comes from its last request that returned
      aggregator links: a later hit overwrites an earlier one. */
  lemma {:induction false} EntryIsLastHit(claims: seq<string>, server: (nat, string) -> Response, n: nat, i: nat)
    requires i < n <= |claims|
    requires IsHit(server(i, claims[i]))
    requires forall j :: i < j < n && claims[j] == claims[i] ==> !IsHit(server(j, claims[j]))
    ensures claims[i] in IndexAfter(claims, server, n).entries
    ensures IndexAfter(claims, server, n).entries[claims[i]] == NaverLinks(server(i, claims[i]).items)
  {
    if i < n - 1 {
      EntryIsLastHit(claims, server, n - 1, i);
    }
  }

  /** The claims whose requests returned aggregator links, in request order. */
  function HitClaims(claims: seq<string>, server: (nat, string) -> Response, n: nat): seq<string>
    requires n <= |claims|
  {
    if n == 0 then []
    else HitClaims(claims, server, n - 1)
         + (if IsHit(server(n - 1, claims[n - 1])) then [claims[n - 1]] else [])
  }

  /** `s` without repetitions, each element where it first occurs. */
  function FirstOccurrences(s: seq<string>): seq<string>
  {
    if s == [] then []
    else
      var init := s[..|s| - 1];
      FirstOccurrences(init) + (if s[|s| - 1] in init then [] else [s[|s| - 1]])
  }

  lemma {:induction false} HitClaimsMembers(claims: seq<string>, server: (nat, string) -> Response, n: nat)
    requires n <= |claims|
    ensures forall c :: c in HitClaims(claims, server, n) <==>
              exists i :: 0 <= i < n && claims[i] == c && IsHit(server(i, claims[i]))
  {
    if n > 0 {
      HitClaimsMembers(claims, server, n - 1);
    }
  }

  /** The keys are the claims that got aggregator links, each once, in the
      order of their first such request. */
  lemma {:induction false} KeysInFirstHitOrder(claims: seq<string>, server: (nat, string) -> Response, n: nat)
    requires n <= |claims|
    ensures IndexAfter(claims, server, n).keys == FirstOccurrences(HitClaims(claims, server, n))
  {
    if n > 0 {
      KeysInFirstHitOrder(claims, server, n - 1);
      KeyIffHit(claims, server, n - 1);
      HitClaimsMembers(claims, server, n - 1);
      var previous := IndexAfter(claims, server, n - 1);
      var earlier := HitClaims(claims, server, n - 1);
      var hits := HitClaims(claims, server, n);
      var c := claims[n - 1];
      var r := server(n - 1, c);
      if IsHit(r) {
        assert hits == earlier + [c];
        assert hits[..|hits| - 1] == earlier;
        assert (c in previous.entries) == (c in earlier);
        assert IndexAfter(claims, server, n) == Store(previous, c, NaverLinks(r.items));
      } else {
        assert hits == earlier;
        assert IndexAfter(claims, server, n) == previous;
      }
    }
  }

  /** Without both credentials nothing is searched and the result is empty;
      with them, the result is the dictionary built from every claim. */
  lemma CredentialsGate(clientId: Option<string>, clientSecret: Option<string>,
                        claims: seq<string>, server: (nat, string) -> Response)
    ensures (clientId == None || clientId == Some([]) || clientSecret == None || clientSecret == Some([]))
            ==> SearchResult(clientId, clientSecret, claims, server) == EmptyIndex
    ensures WellFormed(SearchResult(clientId, clientSecret, claims, server))
  {
    IndexWellFormed(claims, server, |claims|);
  }
}
