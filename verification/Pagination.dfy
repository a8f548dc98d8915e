/** Token pagination over a sorted list, and what following the tokens yields. */
module Pagination {
  import opened Base

  const DEFAULT_PAGE_SIZE: nat := 100
  const MAX_PAGE_SIZE: nat := 200

  datatype Page<+T> = Page(items: seq<T>, nextToken: Option<string>)

  function NormalizePageSize(pageSize: nat): (size: nat)
    ensures 1 <= size <= MAX_PAGE_SIZE
    ensures size == pageSize <==> 1 <= pageSize <= MAX_PAGE_SIZE
    ensures pageSize == 0 ==> size == DEFAULT_PAGE_SIZE
    ensures pageSize > MAX_PAGE_SIZE ==> size == MAX_PAGE_SIZE
  {
    if pageSize == 0 then DEFAULT_PAGE_SIZE
    else if pageSize <= MAX_PAGE_SIZE then pageSize else MAX_PAGE_SIZE
  }

  /** `iter().position`: the first item with the key. */
  function Position<T>(items: seq<T>, keyFor: T -> string, token: string): (p: Option<nat>)
    ensures p.Some? ==> p.value < |items| && keyFor(items[p.value]) == token
    ensures p.Some? ==> forall i :: 0 <= i < p.value ==> keyFor(items[i]) != token
    ensures p.None? ==> forall i :: 0 <= i < |items| ==> keyFor(items[i]) != token
  {
    if items == [] then None
    else if keyFor(items[0]) == token then Some(0)
    else
      var rest := Position(items[1..], keyFor, token);
      if rest.Some? then Some(rest.value + 1) else None
  }

  /** An absent or empty token starts over; an unknown token starts past the end. */
  function Start<T>(items: seq<T>, keyFor: T -> string, token: Option<string>): (start: nat)
    ensures start <= |items|
  {
    if token.None? || token.value == "" then 0
    else
      var p := Position(items, keyFor, token.value);
      if p.Some? then p.value + 1 else |items|
  }

  function PageFrom<T>(items: seq<T>, start: nat, limit: nat, keyFor: T -> string): Page<T>
    requires start <= |items| && limit > 0
  {
    var rest := items[start..];
    if |rest| <= limit then Page(rest, None)
    else Page(rest[..limit], Some(keyFor(rest[limit - 1])))
  }

  function Paginate<T>(items: seq<T>, pageSize: nat, token: Option<string>, keyFor: T -> string): Page<T> {
    PageFrom(items, Start(items, keyFor, token), NormalizePageSize(pageSize), keyFor)
  }

  ghost predicate DistinctKeys<T>(items: seq<T>, keyFor: T -> string) {
    && (forall i :: 0 <= i < |items| ==> keyFor(items[i]) != "")
    && (forall i, j :: 0 <= i < j < |items| ==> keyFor(items[i]) != keyFor(items[j]))
  }

  /** The token the i-th request carries. */
  function TokenAt<T>(pages: seq<Page<T>>, i: nat): Option<string>
    requires i <= |pages|
  {
    if i == 0 then None else pages[i - 1].nextToken
  }

  /** The pages a client gets by starting without a token and passing each page's token on. */
  ghost predicate Follows<T>(items: seq<T>, pageSize: nat, keyFor: T -> string, pages: seq<Page<T>>) {
    && pages != []
    && (forall i {:trigger TokenAt(pages, i)} :: 0 <= i < |pages| ==>
          && (i > 0 ==> TokenAt(pages, i).Some?)
          && pages[i] == Paginate(items, pageSize, TokenAt(pages, i), keyFor))
  }

  ghost function Join<T>(pages: seq<Page<T>>): seq<T> {
    if pages == [] then [] else Join(pages[..|pages| - 1]) + pages[|pages| - 1].items
  }

  lemma TokenFindsItsPlace<T>(items: seq<T>, keyFor: T -> string, start: nat)
    requires DistinctKeys(items, keyFor) && 0 < start <= |items|
    ensures Start(items, keyFor, Some(keyFor(items[start - 1]))) == start
  {
    var p := Position(items, keyFor, keyFor(items[start - 1]));
    assert p.Some? && p.value == start - 1;
  }

  /** A token that names no item ends the walk with an empty page. */
  lemma UnknownTokenEnds<T>(items: seq<T>, pageSize: nat, keyFor: T -> string, token: string)
    requires token != "" && forall i :: 0 <= i < |items| ==> keyFor(items[i]) != token
    ensures Paginate(items, pageSize, Some(token), keyFor) == Page([], None)
  {
    assert Position(items, keyFor, token).None?;
  }

  /** An empty token is no token. */
  lemma EmptyTokenStartsOver<T>(items: seq<T>, pageSize: nat, keyFor: T -> string)
    ensures Paginate(items, pageSize, Some(""), keyFor) == Paginate(items, pageSize, None, keyFor)
    ensures Paginate(items, pageSize, None, keyFor).items ==
            if |items| <= NormalizePageSize(pageSize) then items else items[..NormalizePageSize(pageSize)]
  {
  }

  /** The items in `n` full pages. */
  function Span(n: nat, limit: nat): nat {
    if n == 0 then 0 else Span(n - 1, limit) + limit
  }

  lemma PageExtendsPrefix<T>(items: seq<T>, start: nat, limit: nat, keyFor: T -> string)
    requires start <= |items| && limit > 0
    ensures var page := PageFrom(items, start, limit, keyFor);
            if page.nextToken.Some?
            then start + limit < |items| && items[..start] + page.items == items[..start + limit]
                 && page.nextToken == Some(keyFor(items[start + limit - 1]))
            else |items| <= start + limit && items[..start] + page.items == items
  {
  }

  lemma NextPageIsAdjacent<T>(items: seq<T>, pageSize: nat, keyFor: T -> string, start: nat, page: Page<T>)
    requires DistinctKeys(items, keyFor) && start <= |items|
    requires page == PageFrom(items, start, NormalizePageSize(pageSize), keyFor) && page.nextToken.Some?
    ensures var limit := NormalizePageSize(pageSize);
            && start + limit <= |items| && items[..start] + page.items == items[..start + limit]
            && Paginate(items, pageSize, page.nextToken, keyFor) == PageFrom(items, start + limit, limit, keyFor)
  {
    var limit := NormalizePageSize(pageSize);
    PageExtendsPrefix(items, start, limit, keyFor);
    TokenFindsItsPlace(items, keyFor, start + limit);
  }

  lemma JoinStep<T>(pages: seq<Page<T>>, m: nat)
    requires 0 < m <= |pages|
    ensures Join(pages[..m]) == Join(pages[..m - 1]) + pages[m - 1].items
  {
    assert pages[..m][..m - 1] == pages[..m - 1];
  }

  lemma LastPage<T>(items: seq<T>, pageSize: nat, keyFor: T -> string, pages: seq<Page<T>>, m: nat)
    requires Follows(items, pageSize, keyFor, pages) && m < |pages|
    ensures m == 0 ==> pages[0] == PageFrom(items, 0, NormalizePageSize(pageSize), keyFor)
    ensures m > 0 ==> pages[m - 1].nextToken.Some? && pages[m] == Paginate(items, pageSize, pages[m - 1].nextToken, keyFor)
  {
    assert pages[m] == Paginate(items, pageSize, TokenAt(pages, m), keyFor);
  }

  /** Page `m` starts where `m` full pages end, and they are what the client already holds. */
  ghost predicate Adjacent<T>(items: seq<T>, limit: nat, keyFor: T -> string, pages: seq<Page<T>>, m: nat)
    requires m < |pages| && limit > 0
  {
    var start := Span(m, limit);
    start <= |items| && pages[m] == PageFrom(items, start, limit, keyFor) && Join(pages[..m]) == items[..start]
  }

  lemma AdjacentStep<T>(items: seq<T>, pageSize: nat, keyFor: T -> string, pages: seq<Page<T>>, m: nat)
    requires DistinctKeys(items, keyFor) && 0 < m < |pages|
    requires Adjacent(items, NormalizePageSize(pageSize), keyFor, pages, m - 1)
    requires pages[m - 1].nextToken.Some? && pages[m] == Paginate(items, pageSize, pages[m - 1].nextToken, keyFor)
    ensures Adjacent(items, NormalizePageSize(pageSize), keyFor, pages, m)
  {
    NextPageIsAdjacent(items, pageSize, keyFor, Span(m - 1, NormalizePageSize(pageSize)), pages[m - 1]);
    JoinStep(pages, m);
  }

  lemma {:induction false} PagesAreAdjacent<T>(items: seq<T>, pageSize: nat, keyFor: T -> string, pages: seq<Page<T>>, m: nat)
    requires DistinctKeys(items, keyFor) && Follows(items, pageSize, keyFor, pages) && m < |pages|
    ensures Adjacent(items, NormalizePageSize(pageSize), keyFor, pages, m)
  {
    LastPage(items, pageSize, keyFor, pages, m);
    if m > 0 {
      PagesAreAdjacent(items, pageSize, keyFor, pages, m - 1);
      AdjacentStep(items, pageSize, keyFor, pages, m);
    }
  }

  /** After any number of pages the client holds a prefix of the list: full pages while there is a next token,
      the whole list once there is none. */
  lemma FollowedPagesArePrefix<T>(items: seq<T>, pageSize: nat, keyFor: T -> string, pages: seq<Page<T>>)
    requires DistinctKeys(items, keyFor) && Follows(items, pageSize, keyFor, pages)
    ensures var n := Span(|pages|, NormalizePageSize(pageSize));
            if pages[|pages| - 1].nextToken.Some? then n < |items| && Join(pages) == items[..n]
            else |items| <= n && Join(pages) == items
  {
    var limit, m := NormalizePageSize(pageSize), |pages| - 1;
    assert Adjacent(items, limit, keyFor, pages, m) by { PagesAreAdjacent(items, pageSize, keyFor, pages, m); }
    PageExtendsPrefix(items, Span(m, limit), limit, keyFor);
    assert Join(pages) == Join(pages[..m]) + pages[m].items;
  }
}
