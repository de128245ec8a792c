/**
 The two paging loops of the pull-request reader (src/features/github/pr-verification-api.ts):
 `list` over numbered REST pages, and the GraphQL loop that advances two cursors at once.

 A provider is a function from requests to replies, so nothing is assumed about it unless a lemma says so.
 */
module Pagination {
  import opened Common

  const PAGE_SIZE: nat := 100
  const MAX_PAGES: nat := 5

  datatype Failure =
    | InvalidResponse
    | IdentityMismatch
    | ChangedDuringRefresh
    | PaginationLimit
    | Unavailable
    | InvalidInput
    | PermissionMissing

  // ----- list -----

  /** A reply to one numbered page request: `total` is the envelope's count, if the endpoint has an envelope. */
  datatype Page<+T> = Page(rows: seq<T>, next: bool, total: nat)

  type Provider<!T> = nat -> Result<Page<T>, Failure>

  /** The rest of `list` from page number `page`, having read `got` and, if any page was read, the count `total`. */
  function ListFrom<T>(provider: Provider<T>, envelope: bool, page: nat, got: seq<T>,
                       total: Option<nat>): Result<seq<T>, Failure>
    decreases MAX_PAGES + 1 - page
  {
    if page > MAX_PAGES then Err(PaginationLimit)
    else
      var reply := provider(page);
      if reply.Err? then Err(reply.error)
      else
        var p := reply.value;
        if envelope && total.Some? && total.value != p.total then Err(ChangedDuringRefresh)
        else if envelope && p.total > MAX_PAGES * PAGE_SIZE then Err(PaginationLimit)
        else if |p.rows| > PAGE_SIZE then Err(InvalidResponse)
        else if p.next || |p.rows| == PAGE_SIZE then ListFrom(provider, envelope, page + 1, got + p.rows, Some(p.total))
        else if envelope && |got + p.rows| != p.total then Err(InvalidResponse)
        else Ok(got + p.rows)
  }

  /** `list`. */
  method List<T>(provider: Provider<T>, envelope: bool) returns (r: Result<seq<T>, Failure>)
    ensures r == ListFrom(provider, envelope, 1, [], None)
  {
    var result: seq<T> := [];
    var total: Option<nat> := None;
    var page: nat := 1;
    while page <= MAX_PAGES
      invariant 1 <= page <= MAX_PAGES + 1
      invariant ListFrom(provider, envelope, page, result, total) == ListFrom(provider, envelope, 1, [], None)
      decreases MAX_PAGES + 1 - page
    {
      var reply := provider(page);
      if reply.Err? {
        return Err(reply.error);
      }
      var p := reply.value;
      if envelope {
        if total.Some? && p.total != total.value {
          return Err(ChangedDuringRefresh);
        }
        if p.total > MAX_PAGES * PAGE_SIZE {
          return Err(PaginationLimit);
        }
      }
      total := Some(p.total);
      if |p.rows| > PAGE_SIZE {
        return Err(InvalidResponse);
      }
      result := result + p.rows;
      if !p.next && |p.rows| < PAGE_SIZE {
        if envelope && |result| != p.total {
          return Err(InvalidResponse);
        }
        return Ok(result);
      }
      page := page + 1;
    }
    return Err(PaginationLimit);
  }

  /** The rows of pages 1..n, in order. */
  ghost function RowsUpTo<T>(provider: Provider<T>, n: nat): seq<T> {
    if n == 0 then [] else RowsUpTo(provider, n - 1) + (if provider(n).Ok? then provider(n).value.rows else [])
  }

  /** The provider has more to say after page `n`. */
  ghost predicate Continues<T>(provider: Provider<T>, n: nat) {
    provider(n).Ok? && (provider(n).value.next || |provider(n).value.rows| == PAGE_SIZE)
  }

  /** Pages 1..n are well formed, page n is the last one, and an envelope counts exactly their rows. */
  ghost predicate CompleteAt<T>(provider: Provider<T>, envelope: bool, n: nat) {
    && 1 <= n <= MAX_PAGES
    && (forall k :: 1 <= k <= n ==> provider(k).Ok? && |provider(k).value.rows| <= PAGE_SIZE)
    && (forall k :: 1 <= k < n ==> Continues(provider, k))
    && !Continues(provider, n)
    && (envelope ==> forall k :: 1 <= k <= n ==> provider(k).value.total == |RowsUpTo(provider, n)|)
  }

  lemma {:induction false} RowsBound<T>(provider: Provider<T>, n: nat)
    requires forall k :: 1 <= k <= n && provider(k).Ok? ==> |provider(k).value.rows| <= PAGE_SIZE
    ensures |RowsUpTo(provider, n)| <= n * PAGE_SIZE
  {
    if n > 0 {
      RowsBound(provider, n - 1);
    }
  }

  /** What has been read when the loop reaches page `page`. */
  ghost predicate ReadSoFar<T>(provider: Provider<T>, envelope: bool, page: nat, got: seq<T>, total: Option<nat>) {
    && 1 <= page <= MAX_PAGES + 1 && got == RowsUpTo(provider, page - 1)
    && (forall k :: 1 <= k < page ==> Continues(provider, k) && |provider(k).value.rows| <= PAGE_SIZE)
    && (total.None? <==> page == 1)
    && (total.Some? ==> provider(page - 1).value.total == total.value)
    && (envelope ==> forall k :: 1 <= k < page ==> Some(provider(k).value.total) == total)
  }

  /** Whatever the provider does, what the loop returns is a complete listing. */
  lemma {:induction false} ListFromSound<T>(provider: Provider<T>, envelope: bool, page: nat, got: seq<T>,
                                            total: Option<nat>)
    requires ReadSoFar(provider, envelope, page, got, total)
    ensures var r := ListFrom(provider, envelope, page, got, total);
            r.Ok? ==> exists n: nat :: CompleteAt(provider, envelope, n) && r.value == RowsUpTo(provider, n)
    decreases MAX_PAGES + 1 - page
  {
    if ListFrom(provider, envelope, page, got, total).Ok? {
      var p := provider(page).value;
      assert RowsUpTo(provider, page) == got + p.rows;
      if Continues(provider, page) {
        ListFromSound(provider, envelope, page + 1, got + p.rows, Some(p.total));
      } else {
        assert CompleteAt(provider, envelope, page);
      }
    }
  }

  /** Whatever the provider does, a complete listing is what the loop returns. */
  lemma {:induction false} ListFromComplete<T>(provider: Provider<T>, envelope: bool, page: nat, got: seq<T>,
                                               total: Option<nat>, n: nat)
    requires ReadSoFar(provider, envelope, page, got, total) && CompleteAt(provider, envelope, n)
    ensures ListFrom(provider, envelope, page, got, total) == Ok(RowsUpTo(provider, n))
    decreases MAX_PAGES + 1 - page
  {
    assert page <= n;
    var p := provider(page).value;
    assert RowsUpTo(provider, page) == got + p.rows;
    RowsBound(provider, n);
    if page < n {
      ListFromComplete(provider, envelope, page + 1, got + p.rows, Some(p.total), n);
    }
  }

  /** The listing that `list` returns is complete, and every complete listing is returned. */
  lemma ListIsExact<T>(provider: Provider<T>, envelope: bool)
    ensures var r := ListFrom(provider, envelope, 1, [], None);
            && (r.Ok? <==> exists n: nat :: CompleteAt(provider, envelope, n))
            && (forall n: nat :: CompleteAt(provider, envelope, n) ==> r == Ok(RowsUpTo(provider, n)))
  {
    ListFromSound(provider, envelope, 1, [], None);
    forall n: nat | CompleteAt(provider, envelope, n)
      ensures ListFrom(provider, envelope, 1, [], None) == Ok(RowsUpTo(provider, n))
    {
      ListFromComplete(provider, envelope, 1, [], None, n);
    }
  }

  // ----- A collection that does not change while it is listed -----

  function Min(a: nat, b: nat): nat {
    if a < b then a else b
  }

  /** What an honest provider answers for page `n` of a fixed collection. */
  function StablePage<T>(rows: seq<T>, n: nat): Page<T> {
    var lo := Min(if n == 0 then 0 else (n - 1) * PAGE_SIZE, |rows|);
    var hi := Min(lo + PAGE_SIZE, |rows|);
    Page(rows[lo..hi], hi < |rows|, |rows|)
  }

  lemma {:induction false} StableRows<T>(rows: seq<T>, provider: Provider<T>, n: nat)
    requires forall k :: provider(k) == Ok(StablePage(rows, k))
    ensures RowsUpTo(provider, n) == rows[..Min(n * PAGE_SIZE, |rows|)]
  {
    if n > 0 {
      StableRows(rows, provider, n - 1);
    }
  }

  lemma StablePageShape<T>(rows: seq<T>, k: nat)
    requires k >= 1
    ensures |StablePage(rows, k).rows| <= PAGE_SIZE
    ensures |StablePage(rows, k).rows| == PAGE_SIZE <==> k * PAGE_SIZE <= |rows|
    ensures StablePage(rows, k).next <==> k * PAGE_SIZE < |rows|
  {
  }

  lemma StableContinues<T>(rows: seq<T>, provider: Provider<T>, k: nat)
    requires provider(k) == Ok(StablePage(rows, k)) && k >= 1
    ensures Continues(provider, k) <==> k * PAGE_SIZE <= |rows|
    ensures |provider(k).value.rows| <= PAGE_SIZE && provider(k).value.total == |rows|
  {
    StablePageShape(rows, k);
  }

  lemma StableRowsWhole<T>(rows: seq<T>, provider: Provider<T>, n: nat)
    requires forall k :: provider(k) == Ok(StablePage(rows, k))
    requires n * PAGE_SIZE >= |rows|
    ensures RowsUpTo(provider, n) == rows
  {
    StableRows(rows, provider, n);
    FullPrefix(rows);
  }

  /** Pages 1..n of a stable collection are a complete listing when they reach past its end for the first time. */
  lemma StableListComplete<T>(rows: seq<T>, provider: Provider<T>, envelope: bool, n: nat)
    requires forall k :: provider(k) == Ok(StablePage(rows, k))
    requires 1 <= n <= MAX_PAGES && (n - 1) * PAGE_SIZE <= |rows| < n * PAGE_SIZE
    ensures CompleteAt(provider, envelope, n)
  {
    StableRowsWhole(rows, provider, n);
    forall k: nat | 1 <= k <= n
      ensures provider(k).Ok? && |provider(k).value.rows| <= PAGE_SIZE && provider(k).value.total == |rows|
      ensures Continues(provider, k) <==> k < n
    {
      StableContinues(rows, provider, k);
    }
  }

  /** A stable collection is returned whole if it has fewer than 500 rows, and refused otherwise: never truncated. */
  lemma StableListIsWhole<T>(rows: seq<T>, provider: Provider<T>, envelope: bool)
    requires forall k :: provider(k) == Ok(StablePage(rows, k))
    ensures ListFrom(provider, envelope, 1, [], None)
         == if |rows| < MAX_PAGES * PAGE_SIZE then Ok(rows) else Err(PaginationLimit)
  {
    if |rows| < MAX_PAGES * PAGE_SIZE {
      var n := |rows| / PAGE_SIZE + 1;
      StableListComplete(rows, provider, envelope, n);
      StableRowsWhole(rows, provider, n);
      ListFromComplete(provider, envelope, 1, [], None, n);
    } else {
      StableOverflow(rows, provider, envelope, 1, [], None);
    }
  }

  lemma {:induction false} StableOverflow<T>(rows: seq<T>, provider: Provider<T>, envelope: bool, page: nat,
                                             got: seq<T>, total: Option<nat>)
    requires forall k :: provider(k) == Ok(StablePage(rows, k))
    requires |rows| >= MAX_PAGES * PAGE_SIZE && 1 <= page
    requires total.Some? ==> total.value == |rows|
    ensures ListFrom(provider, envelope, page, got, total) == Err(PaginationLimit)
    decreases MAX_PAGES + 1 - page
  {
    if page <= MAX_PAGES {
      StableOverflow(rows, provider, envelope, page + 1, got + StablePage(rows, page).rows, Some(|rows|));
    }
  }

  // ----- which error a listing is refused with -----

  /** Page `k` is well formed, is not the last one, and has the count of the first page, at most 500. */
  ghost predicate FinePage<T>(provider: Provider<T>, envelope: bool, k: int) {
    && k >= 1 && provider(k).Ok? && |provider(k).value.rows| <= 100
    && (provider(k).value.next || |provider(k).value.rows| == 100)
    && (envelope ==> provider(1).Ok? && provider(k).value.total == provider(1).value.total
                     && provider(k).value.total <= 500)
  }

  /** All pages before `n` are fine, and page `n` is not, or there is no request left for it. */
  ghost predicate ListRefusedAt<T>(provider: Provider<T>, envelope: bool, n: nat, e: Failure) {
    && 1 <= n <= 6 && (forall k :: 1 <= k < n ==> FinePage(provider, envelope, k))
    && if n == 6 then e == PaginationLimit
       else if provider(n).Err? then e == provider(n).error
       else
         var p := provider(n).value;
         if envelope && n > 1 && provider(1).Ok? && p.total != provider(1).value.total then e == ChangedDuringRefresh
         else if envelope && p.total > 500 then e == PaginationLimit
         else if |p.rows| > 100 then e == InvalidResponse
         else
           && !p.next && |p.rows| < 100 && envelope && |RowsUpTo(provider, n)| != p.total && e == InvalidResponse
  }

  lemma FinePageNotRefused<T>(provider: Provider<T>, envelope: bool, n: nat, e: Failure)
    requires 1 <= n <= MAX_PAGES && FinePage(provider, envelope, n)
    ensures !ListRefusedAt(provider, envelope, n, e)
  {
  }

  lemma RefusedBehind<T>(provider: Provider<T>, envelope: bool, page: nat, e: Failure)
    requires page >= 1
    ensures forall n: nat :: page < n && ListRefusedAt(provider, envelope, n, e) ==> FinePage(provider, envelope, page)
  {
  }

  /** The count that the loop remembers when it comes to a page. */
  ghost function CountBefore<T>(provider: Provider<T>, page: nat): Option<nat> {
    if page <= 1 || provider(page - 1).Err? then None else Some(provider(page - 1).value.total)
  }

  lemma FinePageStep<T>(provider: Provider<T>, envelope: bool, page: nat)
    requires 1 <= page <= MAX_PAGES && FinePage(provider, envelope, page)
    requires page > 1 ==> FinePage(provider, envelope, page - 1)
    ensures ListFrom(provider, envelope, page, RowsUpTo(provider, page - 1), CountBefore(provider, page))
         == ListFrom(provider, envelope, page + 1, RowsUpTo(provider, page), CountBefore(provider, page + 1))
  {
  }

  lemma RefusedPage<T>(provider: Provider<T>, envelope: bool, page: nat, e: Failure)
    requires 1 <= page <= MAX_PAGES && !FinePage(provider, envelope, page)
    requires forall k :: 1 <= k < page ==> FinePage(provider, envelope, k)
    ensures ListFrom(provider, envelope, page, RowsUpTo(provider, page - 1), CountBefore(provider, page)) == Err(e)
       <==> ListRefusedAt(provider, envelope, page, e)
  {
    assert page > 1 ==> FinePage(provider, envelope, page - 1);
  }

  lemma {:induction false} ListErrFrom<T>(provider: Provider<T>, envelope: bool, page: nat, e: Failure)
    requires 1 <= page <= MAX_PAGES + 1 && forall k :: 1 <= k < page ==> FinePage(provider, envelope, k)
    ensures ListFrom(provider, envelope, page, RowsUpTo(provider, page - 1), CountBefore(provider, page)) == Err(e)
       <==> exists n: nat :: page <= n && ListRefusedAt(provider, envelope, n, e)
    decreases MAX_PAGES + 1 - page
  {
    if page > MAX_PAGES {
      assert e == PaginationLimit <==> ListRefusedAt(provider, envelope, page, e);
    } else if FinePage(provider, envelope, page) {
      assert page > 1 ==> FinePage(provider, envelope, page - 1);
      FinePageStep(provider, envelope, page);
      FinePageNotRefused(provider, envelope, page, e);
      ListErrFrom(provider, envelope, page + 1, e);
    } else {
      RefusedPage(provider, envelope, page, e);
      RefusedBehind(provider, envelope, page, e);
    }
  }

  /** The error of a refused listing is that of the first page at which something is wrong. */
  lemma ListRefusal<T>(provider: Provider<T>, envelope: bool, e: Failure)
    ensures ListFrom(provider, envelope, 1, [], None) == Err(e)
       <==> exists n: nat :: ListRefusedAt(provider, envelope, n, e)
  {
    ListErrFrom(provider, envelope, 1, e);
    assert forall n: nat :: ListRefusedAt(provider, envelope, n, e) ==> 1 <= n;
  }

  // ----- The two-cursor loop -----

  datatype Connection<+N> = Connection(nodes: seq<N>, hasNext: bool, endCursor: Option<string>)

  /** The fields of the pull request that identify it; `fullName` is lower-cased. */
  datatype Identity = Identity(repositoryId: int, fullName: string, number: int, headSha: string, baseSha: string,
                               state: string, draft: bool)

  datatype Decision = Approved | ChangesRequested | ReviewRequired

  datatype Mergeable = Mergeable | Conflicting | MergeUnknown

  /** The fields that must not change from one request to the next. */
  datatype View = View(decision: Option<Decision>, mergeable: Mergeable, mergeStateStatus: string,
                       mergeOid: Option<string>)

  /** The base branch as GraphQL sees it, and whether a classic protection rule applies to it. */
  datatype BaseRef = BaseRef(name: string, hasRule: bool)

  datatype GraphReply<+R, +T> = GraphReply(hasErrors: bool, identity: Identity, baseRef: Option<BaseRef>, view: View,
                                           reviews: Option<Connection<R>>, threads: Option<Connection<T>>)

  datatype GraphVars = GraphVars(reviews: Option<string>, threads: Option<string>, readReviews: bool, readThreads: bool)

  type GraphProvider<!R, !T> = (nat, GraphVars) -> Result<GraphReply<R, T>, Failure>

  /** How far one connection has been read. */
  datatype Reading<+N> = Reading(nodes: seq<N>, cursor: Option<string>, active: bool)

  /** `advance` and the bookkeeping after it, for a connection that this request read. */
  function Advance<N>(st: Reading<N>, connection: Option<Connection<N>>): Result<Reading<N>, Failure> {
    if !st.active then Ok(st)
    else if connection.None? then Err(InvalidResponse)
    else
      var c := connection.value;
      if c.hasNext && (c.endCursor.None? || c.endCursor.value == "" || c.endCursor == st.cursor) then
        Err(PaginationLimit)
      else
        var cursor := if c.hasNext then c.endCursor else None;
        Ok(Reading(st.nodes + c.nodes, cursor, cursor.Some?))
  }

  predicate SameTarget<R, T>(reply: GraphReply<R, T>, identity: Identity, baseBranch: string) {
    reply.identity == identity && (reply.baseRef.Some? ==> reply.baseRef.value.name == baseBranch)
  }

  datatype Collected<+R, +T> = Collected(view: View, baseRef: Option<BaseRef>, reviews: seq<R>, threads: seq<T>)

  /** The rest of the loop from request `page`. */
  function CollectFrom<R, T>(graph: GraphProvider<R, T>, identity: Identity, baseBranch: string, page: nat,
                             view: Option<View>,
                             reviews: Reading<R>, threads: Reading<T>): Result<Collected<R, T>, Failure>
    decreases MAX_PAGES + 1 - page
  {
    if page > MAX_PAGES then Err(PaginationLimit)
    else
      var reply := graph(page, GraphVars(reviews.cursor, threads.cursor, reviews.active, threads.active));
      if reply.Err? then Err(reply.error)
      else if reply.value.hasErrors then Err(Unavailable)
      else if !SameTarget(reply.value, identity, baseBranch) then Err(ChangedDuringRefresh)
      else if view.Some? && view.value != reply.value.view then Err(ChangedDuringRefresh)
      else
        var r, t := Advance(reviews, reply.value.reviews), Advance(threads, reply.value.threads);
        if r.Err? then Err(r.error)
        else if t.Err? then Err(t.error)
        else if r.value.active || t.value.active then
          CollectFrom(graph, identity, baseBranch, page + 1, Some(reply.value.view), r.value, t.value)
        else Ok(Collected(reply.value.view, reply.value.baseRef, r.value.nodes, t.value.nodes))
  }

  /** The GraphQL loop of `collectPrVerification`. */
  method Collect<R, T>(graph: GraphProvider<R, T>, identity: Identity, baseBranch: string)
    returns (r: Result<Collected<R, T>, Failure>)
    ensures r == CollectFrom(graph, identity, baseBranch, 1, None, Reading([], None, true), Reading([], None, true))
  {
    var reviews: seq<R>, threads: seq<T> := [], [];
    var reviewCursor: Option<string>, threadCursor: Option<string> := None, None;
    var readReviews, readThreads := true, true;
    var view: Option<View> := None;
    for page := 1 to MAX_PAGES + 1
      invariant CollectFrom(graph, identity, baseBranch, page, view, Reading(reviews, reviewCursor, readReviews),
                            Reading(threads, threadCursor, readThreads))
             == CollectFrom(graph, identity, baseBranch, 1, None, Reading([], None, true), Reading([], None, true))
    {
      var reply := graph(page, GraphVars(reviewCursor, threadCursor, readReviews, readThreads));
      if reply.Err? {
        return Err(reply.error);
      }
      var observed := reply.value;
      if observed.hasErrors {
        return Err(Unavailable);
      }
      if !SameTarget(observed, identity, baseBranch) {
        return Err(ChangedDuringRefresh);
      }
      if view.Some? && view.value != observed.view {
        return Err(ChangedDuringRefresh);
      }
      view := Some(observed.view);
      if readReviews {
        var next := Advance(Reading(reviews, reviewCursor, true), observed.reviews);
        if next.Err? {
          return Err(next.error);
        }
        reviews, reviewCursor, readReviews := next.value.nodes, next.value.cursor, next.value.active;
      }
      if readThreads {
        var next := Advance(Reading(threads, threadCursor, true), observed.threads);
        if next.Err? {
          return Err(next.error);
        }
        threads, threadCursor, readThreads := next.value.nodes, next.value.cursor, next.value.active;
      }
      if !readReviews && !readThreads {
        return Ok(Collected(observed.view, observed.baseRef, reviews, threads));
      }
      if page == MAX_PAGES {
        return Err(PaginationLimit);
      }
    }
    return Err(PaginationLimit);
  }

  // ----- Stable connections -----

  /** A connection that does not change: its pages, and the cursors between them. */
  datatype Stable<+N> = Stable(pages: seq<seq<N>>, cursors: seq<string>) {
    ghost predicate Valid() {
      && |pages| == |cursors| + 1 && Distinct(cursors)
      && forall c :: c in cursors ==> c != ""
    }
  }

  /** The position after which the page for cursor `after` starts. */
  ghost predicate Position<N>(conn: Stable<N>, after: Option<string>, k: nat) {
    k < |conn.pages| == |conn.cursors| + 1 && (if k == 0 then after == None else after == Some(conn.cursors[k - 1]))
  }

  /**
   `c` is what an honest provider answers for the page after cursor `after`. The cursor after the last page may be
   anything: GraphQL sends null there for an empty connection.
   */
  ghost predicate Serves<N>(conn: Stable<N>, after: Option<string>, c: Option<Connection<N>>) {
    forall k: nat :: Position(conn, after, k) ==>
      && c.Some? && c.value.nodes == conn.pages[k]
      && (c.value.hasNext <==> k < |conn.cursors|)
      && (k < |conn.cursors| ==> c.value.endCursor == Some(conn.cursors[k]))
  }

  /** An empty connection is served, whatever cursor comes with it. */
  lemma EmptyIsServed<N>(endCursor: Option<string>)
    ensures var empty: Stable<N> := Stable([[]], []);
      && empty.Valid() && Position(empty, None, 0)
      && Serves(empty, None, Some(Connection([], false, endCursor)))
      && !Serves(empty, None, Some(Connection([], true, endCursor)))
  {
    var empty: Stable<N> := Stable([[]], []);
    assert Position(empty, None, 0);
  }

  /** The provider serves two stable connections and always reports the same target and view. */
  ghost predicate Honest<R, T>(graph: GraphProvider<R, T>, identity: Identity, baseBranch: string,
                               baseRef: Option<BaseRef>, view: View, rs: Stable<R>, ts: Stable<T>)
  {
    && rs.Valid() && ts.Valid() && (baseRef.Some? ==> baseRef.value.name == baseBranch)
    && forall page, vars :: graph(page, vars).Ok?
         && var reply := graph(page, vars).value;
            && !reply.hasErrors && reply.identity == identity && reply.baseRef == baseRef && reply.view == view
            && (vars.readReviews ==> Serves(rs, vars.reviews, reply.reviews))
            && (vars.readThreads ==> Serves(ts, vars.threads, reply.threads))
  }

  /** The reading after `k` requests. */
  function After<N>(conn: Stable<N>, k: nat): Reading<N>
    requires |conn.pages| == |conn.cursors| + 1
  {
    if k < |conn.pages| then Reading(Flatten(conn.pages[..k]), if k == 0 then None else Some(conn.cursors[k - 1]), true)
    else Reading(Flatten(conn.pages), None, false)
  }

  lemma AdvanceReads<N>(conn: Stable<N>, k: nat, reply: Option<Connection<N>>)
    requires conn.Valid()
    requires k < |conn.pages| ==> Serves(conn, After(conn, k).cursor, reply)
    ensures Advance(After(conn, k), reply) == Ok(After(conn, k + 1))
  {
    if k < |conn.pages| {
      assert Position(conn, After(conn, k).cursor, k);
      assert k < |conn.cursors| ==> conn.cursors[k] in conn.cursors;
      PrefixStep(conn.pages, k);
      assert conn.pages[..k + 1][..k] == conn.pages[..k];
      FullPrefix(conn.pages);
    }
  }

  /** One request that is answered as expected. */
  lemma CollectStep<R, T>(graph: GraphProvider<R, T>, identity: Identity, baseBranch: string, page: nat,
                          view: Option<View>, reviews: Reading<R>, threads: Reading<T>, reply: GraphReply<R, T>,
                          r: Reading<R>, t: Reading<T>)
    requires page <= MAX_PAGES
    requires graph(page, GraphVars(reviews.cursor, threads.cursor, reviews.active, threads.active)) == Ok(reply)
    requires !reply.hasErrors && SameTarget(reply, identity, baseBranch) && (view.Some? ==> view.value == reply.view)
    requires Advance(reviews, reply.reviews) == Ok(r) && Advance(threads, reply.threads) == Ok(t)
    ensures CollectFrom(graph, identity, baseBranch, page, view, reviews, threads)
         == if r.active || t.active then CollectFrom(graph, identity, baseBranch, page + 1, Some(reply.view), r, t)
            else Ok(Collected(reply.view, reply.baseRef, r.nodes, t.nodes))
  {
  }

  lemma StableRequest<R, T>(graph: GraphProvider<R, T>, identity: Identity, baseBranch: string,
                            baseRef: Option<BaseRef>,
                            view: View, rs: Stable<R>, ts: Stable<T>, page: nat, seen: Option<View>)
    requires Honest(graph, identity, baseBranch, baseRef, view, rs, ts)
    requires 1 <= page <= MAX_PAGES && (seen.Some? ==> seen.value == view)
    ensures var r, t := After(rs, page), After(ts, page);
      CollectFrom(graph, identity, baseBranch, page, seen, After(rs, page - 1), After(ts, page - 1))
      == if r.active || t.active then CollectFrom(graph, identity, baseBranch, page + 1, Some(view), r, t)
         else Ok(Collected(view, baseRef, r.nodes, t.nodes))
  {
    var r, t := After(rs, page - 1), After(ts, page - 1);
    var vars := GraphVars(r.cursor, t.cursor, r.active, t.active);
    assert graph(page, vars).Ok?;
    var reply := graph(page, vars).value;
    AdvanceReads(rs, page - 1, reply.reviews);
    AdvanceReads(ts, page - 1, reply.threads);
    CollectStep(graph, identity, baseBranch, page, seen, r, t, reply, After(rs, page), After(ts, page));
  }

  /** Everything, if both connections fit in the requests there are. */
  function WholeOrRefused<R, T>(baseRef: Option<BaseRef>, view: View, rs: Stable<R>, ts: Stable<T>)
    : Result<Collected<R, T>, Failure>
  {
    if |rs.pages| <= MAX_PAGES && |ts.pages| <= MAX_PAGES
    then Ok(Collected(view, baseRef, Flatten(rs.pages), Flatten(ts.pages)))
    else Err(PaginationLimit)
  }

  lemma {:induction false} CollectStableFrom<R, T>(graph: GraphProvider<R, T>, identity: Identity, baseBranch: string,
                                                   baseRef: Option<BaseRef>, view: View, rs: Stable<R>, ts: Stable<T>,
                                                   page: nat, seen: Option<View>)
    requires Honest(graph, identity, baseBranch, baseRef, view, rs, ts)
    requires 1 <= page && (page - 1 < |rs.pages| || page - 1 < |ts.pages|) && (seen.Some? ==> seen.value == view)
    ensures CollectFrom(graph, identity, baseBranch, page, seen, After(rs, page - 1), After(ts, page - 1))
         == WholeOrRefused(baseRef, view, rs, ts)
    decreases MAX_PAGES + 1 - page
  {
    if page <= MAX_PAGES {
      StableRequest(graph, identity, baseBranch, baseRef, view, rs, ts, page, seen);
      if page < |rs.pages| || page < |ts.pages| {
        CollectStableFrom(graph, identity, baseBranch, baseRef, view, rs, ts, page + 1, Some(view));
      }
    }
  }

  /**
   Against stable connections request k reads page k of each connection that has one, so every page is
   read once: all reviews and all threads come back if both connections have at most five pages, and
   the collection is refused otherwise.
   */
  lemma CollectIsWhole<R, T>(graph: GraphProvider<R, T>, identity: Identity, baseBranch: string,
                             baseRef: Option<BaseRef>, view: View, rs: Stable<R>, ts: Stable<T>)
    requires Honest(graph, identity, baseBranch, baseRef, view, rs, ts)
    ensures CollectFrom(graph, identity, baseBranch, 1, None, Reading([], None, true), Reading([], None, true))
         == if |rs.pages| <= MAX_PAGES && |ts.pages| <= MAX_PAGES
            then Ok(Collected(view, baseRef, Flatten(rs.pages), Flatten(ts.pages)))
            else Err(PaginationLimit)
  {
    CollectStableFrom(graph, identity, baseBranch, baseRef, view, rs, ts, 1, None);
    assert rs.pages[..0] == [] && ts.pages[..0] == [];
  }

  // ----- when any provider at all is read to the end -----

  /** One reply extends an active reading by its page, and leaves a finished one alone. */
  ghost predicate ReadsPage<N>(before: Reading<N>, page: Option<Connection<N>>, after: Reading<N>) {
    if !before.active then after == before
    else
      && page.Some? && after.nodes == before.nodes + page.value.nodes
      && if page.value.hasNext
         then page.value.endCursor != None && page.value.endCursor != Some("") && page.value.endCursor != before.cursor
              && after.cursor == page.value.endCursor && after.active
         else after.cursor == None && !after.active
  }

  lemma AdvanceIff<N>(before: Reading<N>, page: Option<Connection<N>>, after: Reading<N>)
    ensures Advance(before, page) == Ok(after) <==> ReadsPage(before, page, after)
  {
  }

  /** The reply is about the pull request that was asked for, as it was read first, and about its base branch. */
  ghost predicate AboutTarget<R, T>(reply: GraphReply<R, T>, id: Identity, baseBranch: string) {
    && !reply.hasErrors
    && reply.identity.repositoryId == id.repositoryId && reply.identity.fullName == id.fullName
    && reply.identity.number == id.number && reply.identity.headSha == id.headSha
    && reply.identity.baseSha == id.baseSha && reply.identity.state == id.state && reply.identity.draft == id.draft
    && (reply.baseRef == None || reply.baseRef.value.name == baseBranch)
  }

  /** Requests `page`, `page` + 1 and so on, with the replies to them and what has been read before and after each. */
  datatype Session<+R, +T> = Session(replies: seq<GraphReply<R, T>>, reviews: seq<Reading<R>>, threads: seq<Reading<T>>)

  /** Request `k` asks for what the replies before it left open, and its reply extends both readings. */
  ghost predicate Requested<R, T>(graph: GraphProvider<R, T>, id: Identity, baseBranch: string, page: nat,
                                  s: Session<R, T>, k: int)
  {
    && 0 <= k < |s.replies| && |s.reviews| == |s.threads| == |s.replies| + 1
    && graph(page + k, GraphVars(s.reviews[k].cursor, s.threads[k].cursor, s.reviews[k].active, s.threads[k].active))
       == Ok(s.replies[k])
    && AboutTarget(s.replies[k], id, baseBranch) && s.replies[k].view == s.replies[0].view
    && ReadsPage(s.reviews[k], s.replies[k].reviews, s.reviews[k + 1])
    && ReadsPage(s.threads[k], s.replies[k].threads, s.threads[k + 1])
  }

  /** The session goes on exactly as long as something is left to be read, and for five requests at most. */
  ghost predicate ReadsOn<R, T>(graph: GraphProvider<R, T>, id: Identity, baseBranch: string, page: nat,
                                view: Option<View>, s: Session<R, T>)
  {
    && 1 <= |s.replies| && page + |s.replies| <= 6 && |s.reviews| == |s.threads| == |s.replies| + 1
    && (view == None || view == Some(s.replies[0].view))
    && (forall k :: 0 <= k < |s.replies| ==> Requested(graph, id, baseBranch, page, s, k))
    && (forall k :: 1 <= k < |s.replies| ==> s.reviews[k].active || s.threads[k].active)
    && !s.reviews[|s.replies|].active && !s.threads[|s.replies|].active
  }

  /** What a session has collected in the end. */
  ghost predicate Yields<R, T>(s: Session<R, T>, c: Collected<R, T>)
    requires 1 <= |s.replies| && |s.reviews| == |s.threads| == |s.replies| + 1
  {
    var n := |s.replies|;
    && c.view == s.replies[n - 1].view && c.baseRef == s.replies[n - 1].baseRef
    && c.reviews == s.reviews[n].nodes && c.threads == s.threads[n].nodes
  }

  /** Both connections were read from the first page to the last, about one pull request in one state. */
  ghost predicate ReadToTheEnd<R(!new), T(!new)>(graph: GraphProvider<R, T>, id: Identity, baseBranch: string,
                                     c: Collected<R, T>)
  {
    exists s :: ReadsOn(graph, id, baseBranch, 1, None, s) && Yields(s, c)
      && s.reviews[0] == Reading([], None, true) && s.threads[0] == Reading([], None, true)
  }

  function Prepended<R, T>(reply: GraphReply<R, T>, r: Reading<R>, t: Reading<T>, s: Session<R, T>): Session<R, T> {
    Session([reply] + s.replies, [r] + s.reviews, [t] + s.threads)
  }

  lemma PrependedReadsOn<R, T>(graph: GraphProvider<R, T>, id: Identity, baseBranch: string, page: nat,
                               view: Option<View>, reply: GraphReply<R, T>, r: Reading<R>, t: Reading<T>,
                               s: Session<R, T>)
    requires ReadsOn(graph, id, baseBranch, page + 1, Some(reply.view), s)
    requires graph(page, GraphVars(r.cursor, t.cursor, r.active, t.active)) == Ok(reply)
    requires AboutTarget(reply, id, baseBranch) && (view == None || view == Some(reply.view))
    requires ReadsPage(r, reply.reviews, s.reviews[0]) && ReadsPage(t, reply.threads, s.threads[0])
    requires s.reviews[0].active || s.threads[0].active
    ensures ReadsOn(graph, id, baseBranch, page, view, Prepended(reply, r, t, s))
  {
    var all := Prepended(reply, r, t, s);
    forall k | 0 <= k < |all.replies| ensures Requested(graph, id, baseBranch, page, all, k) {
      if k > 0 {
        assert Requested(graph, id, baseBranch, page + 1, s, k - 1);
      }
    }
  }

  lemma OneReply<R, T>(graph: GraphProvider<R, T>, id: Identity, baseBranch: string, page: nat, view: Option<View>,
                       reply: GraphReply<R, T>, r: Reading<R>, t: Reading<T>, r': Reading<R>, t': Reading<T>)
    requires page <= MAX_PAGES && graph(page, GraphVars(r.cursor, t.cursor, r.active, t.active)) == Ok(reply)
    requires AboutTarget(reply, id, baseBranch) && (view == None || view == Some(reply.view))
    requires ReadsPage(r, reply.reviews, r') && ReadsPage(t, reply.threads, t') && !r'.active && !t'.active
    ensures ReadsOn(graph, id, baseBranch, page, view, Session([reply], [r, r'], [t, t']))
  {
    assert Requested(graph, id, baseBranch, page, Session([reply], [r, r'], [t, t']), 0);
  }

  /** What a successful collection says about its first request. */
  lemma FirstRequest<R, T>(graph: GraphProvider<R, T>, id: Identity, baseBranch: string, page: nat,
                           view: Option<View>, r: Reading<R>, t: Reading<T>, c: Collected<R, T>)
    returns (reply: GraphReply<R, T>, r': Reading<R>, t': Reading<T>)
    requires CollectFrom(graph, id, baseBranch, page, view, r, t) == Ok(c)
    ensures page <= MAX_PAGES && graph(page, GraphVars(r.cursor, t.cursor, r.active, t.active)) == Ok(reply)
    ensures AboutTarget(reply, id, baseBranch) && (view == None || view == Some(reply.view))
    ensures ReadsPage(r, reply.reviews, r') && ReadsPage(t, reply.threads, t')
    ensures if r'.active || t'.active
            then CollectFrom(graph, id, baseBranch, page + 1, Some(reply.view), r', t') == Ok(c)
            else c == Collected(reply.view, reply.baseRef, r'.nodes, t'.nodes)
  {
    reply := graph(page, GraphVars(r.cursor, t.cursor, r.active, t.active)).value;
    r', t' := Advance(r, reply.reviews).value, Advance(t, reply.threads).value;
    AdvanceIff(r, reply.reviews, r');
    AdvanceIff(t, reply.threads, t');
  }

  /** A collection that succeeds is such a session. */
  lemma {:induction false} CollectedInSession<R, T>(graph: GraphProvider<R, T>, id: Identity, baseBranch: string,
                                                    page: nat, view: Option<View>, r: Reading<R>, t: Reading<T>,
                                                    c: Collected<R, T>) returns (s: Session<R, T>)
    requires CollectFrom(graph, id, baseBranch, page, view, r, t) == Ok(c)
    ensures ReadsOn(graph, id, baseBranch, page, view, s) && Yields(s, c) && s.reviews[0] == r && s.threads[0] == t
    decreases MAX_PAGES + 1 - page
  {
    var reply, r', t' := FirstRequest(graph, id, baseBranch, page, view, r, t, c);
    if r'.active || t'.active {
      var rest := CollectedInSession(graph, id, baseBranch, page + 1, Some(reply.view), r', t', c);
      PrependedReadsOn(graph, id, baseBranch, page, view, reply, r, t, rest);
      s := Prepended(reply, r, t, rest);
    } else {
      s := Session([reply], [r, r'], [t, t']);
      OneReply(graph, id, baseBranch, page, view, reply, r, t, r', t');
    }
  }

  lemma RestReadsOn<R, T>(graph: GraphProvider<R, T>, id: Identity, baseBranch: string, page: nat,
                          view: Option<View>, s: Session<R, T>)
    requires ReadsOn(graph, id, baseBranch, page, view, s) && |s.replies| > 1
    ensures var rest := Session(s.replies[1..], s.reviews[1..], s.threads[1..]);
      ReadsOn(graph, id, baseBranch, page + 1, Some(s.replies[0].view), rest)
  {
    var rest, next := Session(s.replies[1..], s.reviews[1..], s.threads[1..]), page + 1;
    assert Requested(graph, id, baseBranch, page, s, 1);
    forall k | 0 <= k < |rest.replies| ensures Requested(graph, id, baseBranch, next, rest, k) {
      assert Requested(graph, id, baseBranch, page, s, k + 1);
    }
  }

  /** Such a session is what the loop goes through. */
  lemma {:induction false} SessionIsCollected<R, T>(graph: GraphProvider<R, T>, id: Identity, baseBranch: string,
                                                    page: nat, view: Option<View>, s: Session<R, T>,
                                                    c: Collected<R, T>)
    requires ReadsOn(graph, id, baseBranch, page, view, s) && Yields(s, c)
    ensures CollectFrom(graph, id, baseBranch, page, view, s.reviews[0], s.threads[0]) == Ok(c)
    decreases |s.replies|
  {
    var reply := s.replies[0];
    assert Requested(graph, id, baseBranch, page, s, 0);
    AdvanceIff(s.reviews[0], reply.reviews, s.reviews[1]);
    AdvanceIff(s.threads[0], reply.threads, s.threads[1]);
    CollectStep(graph, id, baseBranch, page, view, s.reviews[0], s.threads[0], reply, s.reviews[1], s.threads[1]);
    if |s.replies| > 1 {
      RestReadsOn(graph, id, baseBranch, page, view, s);
      var rest := Session(s.replies[1..], s.reviews[1..], s.threads[1..]);
      SessionIsCollected(graph, id, baseBranch, page + 1, Some(reply.view), rest, c);
    }
  }

  /**
   Whatever the provider answers: reviews and threads are collected exactly if within five requests both connections
   are read from their first page to their last, each by the cursor that the page before gave, and every reply is
   about the same pull request in the same state; and then they are all the pages, in order.
   */
  lemma CollectIsExact<R(!new), T(!new)>(graph: GraphProvider<R, T>, id: Identity, baseBranch: string,
                                         c: Collected<R, T>)
    ensures CollectFrom(graph, id, baseBranch, 1, None, Reading([], None, true), Reading([], None, true)) == Ok(c)
       <==> ReadToTheEnd(graph, id, baseBranch, c)
  {
    if CollectFrom(graph, id, baseBranch, 1, None, Reading([], None, true), Reading([], None, true)) == Ok(c) {
      var s := CollectedInSession(graph, id, baseBranch, 1, None, Reading([], None, true), Reading([], None, true), c);
    }
    if s :| ReadsOn(graph, id, baseBranch, 1, None, s) && Yields(s, c)
            && s.reviews[0] == Reading([], None, true) && s.threads[0] == Reading([], None, true) {
      SessionIsCollected(graph, id, baseBranch, 1, None, s, c);
    }
  }

  // ----- which error a collection is refused with -----

  /** Some requests have been answered as they should, and something is still left to be read. */
  ghost predicate GoesOn<R, T>(graph: GraphProvider<R, T>, id: Identity, baseBranch: string, page: nat,
                               view: Option<View>, s: Session<R, T>)
  {
    && |s.reviews| == |s.threads| == |s.replies| + 1 && page + |s.replies| <= 6
    && (s.replies != [] ==> view == None || view == Some(s.replies[0].view))
    && (forall k :: 0 <= k < |s.replies| ==> Requested(graph, id, baseBranch, page, s, k))
    && (forall k :: 1 <= k <= |s.replies| ==> s.reviews[k].active || s.threads[k].active)
  }

  /** The connection is missing, or it goes on without a cursor of its own. */
  ghost predicate Unreadable<N>(before: Reading<N>, page: Option<Connection<N>>, e: Failure) {
    && before.active
    && ((page == None && e == InvalidResponse)
        || (page != None && page.value.hasNext
            && (page.value.endCursor == None || page.value.endCursor == Some("")
                || page.value.endCursor == before.cursor)
            && e == PaginationLimit))
  }

  ghost predicate Readable<N>(before: Reading<N>, page: Option<Connection<N>>) {
    forall e :: !Unreadable(before, page, e)
  }

  /** What is wrong with the next reply, the first thing first; or that there is no request left. */
  ghost predicate RefusedNext<R, T>(graph: GraphProvider<R, T>, id: Identity, baseBranch: string, page: nat,
                                    view: Option<View>, r: Reading<R>, t: Reading<T>, e: Failure)
  {
    if page == 6 then e == PaginationLimit
    else
      var reply := graph(page, GraphVars(r.cursor, t.cursor, r.active, t.active));
      if reply.Err? then e == reply.error
      else if reply.value.hasErrors then e == Unavailable
      else if !AboutTarget(reply.value, id, baseBranch) then e == ChangedDuringRefresh
      else if view != None && view.value != reply.value.view then e == ChangedDuringRefresh
      else
        || Unreadable(r, reply.value.reviews, e)
        || (Readable(r, reply.value.reviews) && Unreadable(t, reply.value.threads, e))
  }

  /** What has been seen of the pull request before the next request. */
  ghost function SeenBy<R, T>(view: Option<View>, s: Session<R, T>): Option<View> {
    if s.replies == [] then view else Some(s.replies[0].view)
  }

  ghost predicate RefusedAfter<R, T>(graph: GraphProvider<R, T>, id: Identity, baseBranch: string, page: nat,
                                     view: Option<View>, s: Session<R, T>, e: Failure)
  {
    && GoesOn(graph, id, baseBranch, page, view, s)
    && RefusedNext(graph, id, baseBranch, page + |s.replies|, SeenBy(view, s), s.reviews[|s.replies|],
                   s.threads[|s.replies|], e)
  }

  lemma UnreadableIff<N>(before: Reading<N>, page: Option<Connection<N>>, e: Failure)
    ensures Advance(before, page) == Err(e) <==> Unreadable(before, page, e)
    ensures Advance(before, page).Ok? <==> Readable(before, page)
  {
    if Advance(before, page).Err? {
      assert Unreadable(before, page, Advance(before, page).error);
    }
  }

  /** One step of the loop that does not end it. */
  ghost predicate Continuing<R, T>(graph: GraphProvider<R, T>, id: Identity, baseBranch: string, page: nat,
                                   view: Option<View>, r: Reading<R>, t: Reading<T>, reply: GraphReply<R, T>,
                                   r': Reading<R>, t': Reading<T>)
  {
    && page <= MAX_PAGES && graph(page, GraphVars(r.cursor, t.cursor, r.active, t.active)) == Ok(reply)
    && AboutTarget(reply, id, baseBranch) && (view == None || view == Some(reply.view))
    && ReadsPage(r, reply.reviews, r') && ReadsPage(t, reply.threads, t') && (r'.active || t'.active)
  }

  /** A loop that ends with an error either goes on first, or is refused at once. */
  lemma RefusedOrContinuing<R, T>(graph: GraphProvider<R, T>, id: Identity, baseBranch: string, page: nat,
                                  view: Option<View>, r: Reading<R>, t: Reading<T>, e: Failure)
    returns (goes: bool, reply: GraphReply<R, T>, r': Reading<R>, t': Reading<T>)
    requires page <= 6 && CollectFrom(graph, id, baseBranch, page, view, r, t) == Err(e)
    ensures goes ==>
              && Continuing(graph, id, baseBranch, page, view, r, t, reply, r', t')
              && CollectFrom(graph, id, baseBranch, page + 1, Some(reply.view), r', t') == Err(e)
    ensures !goes ==> RefusedNext(graph, id, baseBranch, page, view, r, t, e)
  {
    reply, r', t' := GraphReply(false, id, None, View(None, Mergeable, "", None), None, None), r, t;
    goes := false;
    if page <= MAX_PAGES && graph(page, GraphVars(r.cursor, t.cursor, r.active, t.active)).Ok? {
      reply := graph(page, GraphVars(r.cursor, t.cursor, r.active, t.active)).value;
      UnreadableIff(r, reply.reviews, e);
      UnreadableIff(t, reply.threads, e);
      if Advance(r, reply.reviews).Ok? && Advance(t, reply.threads).Ok? {
        r', t' := Advance(r, reply.reviews).value, Advance(t, reply.threads).value;
        AdvanceIff(r, reply.reviews, r');
        AdvanceIff(t, reply.threads, t');
        goes := AboutTarget(reply, id, baseBranch) && (view == None || view == Some(reply.view));
      }
    }
  }

  lemma PrependedGoesOn<R, T>(graph: GraphProvider<R, T>, id: Identity, baseBranch: string, page: nat,
                              view: Option<View>, reply: GraphReply<R, T>, r: Reading<R>, t: Reading<T>,
                              s: Session<R, T>, e: Failure)
    requires RefusedAfter(graph, id, baseBranch, page + 1, Some(reply.view), s, e)
    requires Continuing(graph, id, baseBranch, page, view, r, t, reply, s.reviews[0], s.threads[0])
    ensures RefusedAfter(graph, id, baseBranch, page, view, Prepended(reply, r, t, s), e)
  {
    var all := Prepended(reply, r, t, s);
    forall k | 0 <= k < |all.replies| ensures Requested(graph, id, baseBranch, page, all, k) {
      if k > 0 {
        assert Requested(graph, id, baseBranch, page + 1, s, k - 1);
      }
    }
  }

  lemma {:induction false} RefusedInSession<R, T>(graph: GraphProvider<R, T>, id: Identity, baseBranch: string,
                                                  page: nat, view: Option<View>, r: Reading<R>, t: Reading<T>,
                                                  e: Failure) returns (s: Session<R, T>)
    requires page <= 6 && CollectFrom(graph, id, baseBranch, page, view, r, t) == Err(e)
    ensures RefusedAfter(graph, id, baseBranch, page, view, s, e) && s.reviews[0] == r && s.threads[0] == t
    decreases MAX_PAGES + 1 - page
  {
    var goes, reply, r', t' := RefusedOrContinuing(graph, id, baseBranch, page, view, r, t, e);
    if goes {
      var rest := RefusedInSession(graph, id, baseBranch, page + 1, Some(reply.view), r', t', e);
      PrependedGoesOn(graph, id, baseBranch, page, view, reply, r, t, rest, e);
      s := Prepended(reply, r, t, rest);
    } else {
      s := Session([], [r], [t]);
    }
  }

  lemma RefusedNextIsErr<R, T>(graph: GraphProvider<R, T>, id: Identity, baseBranch: string, page: nat,
                               view: Option<View>, r: Reading<R>, t: Reading<T>, e: Failure)
    requires page <= 6 && RefusedNext(graph, id, baseBranch, page, view, r, t, e)
    ensures CollectFrom(graph, id, baseBranch, page, view, r, t) == Err(e)
  {
    if page <= MAX_PAGES && graph(page, GraphVars(r.cursor, t.cursor, r.active, t.active)).Ok? {
      var reply := graph(page, GraphVars(r.cursor, t.cursor, r.active, t.active)).value;
      UnreadableIff(r, reply.reviews, e);
      UnreadableIff(t, reply.threads, e);
    }
  }

  lemma RestGoesOn<R, T>(graph: GraphProvider<R, T>, id: Identity, baseBranch: string, page: nat,
                         view: Option<View>, s: Session<R, T>, e: Failure)
    requires RefusedAfter(graph, id, baseBranch, page, view, s, e) && s.replies != []
    ensures var rest := Session(s.replies[1..], s.reviews[1..], s.threads[1..]);
      RefusedAfter(graph, id, baseBranch, page + 1, Some(s.replies[0].view), rest, e)
  {
    var rest, next := Session(s.replies[1..], s.reviews[1..], s.threads[1..]), page + 1;
    assert |s.replies| > 1 ==> Requested(graph, id, baseBranch, page, s, 1);
    forall k | 0 <= k < |rest.replies| ensures Requested(graph, id, baseBranch, next, rest, k) {
      assert Requested(graph, id, baseBranch, page, s, k + 1);
    }
  }

  lemma {:induction false} SessionIsRefused<R, T>(graph: GraphProvider<R, T>, id: Identity, baseBranch: string,
                                                  page: nat, view: Option<View>, s: Session<R, T>, e: Failure)
    requires RefusedAfter(graph, id, baseBranch, page, view, s, e)
    ensures CollectFrom(graph, id, baseBranch, page, view, s.reviews[0], s.threads[0]) == Err(e)
    decreases |s.replies|
  {
    if s.replies == [] {
      RefusedNextIsErr(graph, id, baseBranch, page, view, s.reviews[0], s.threads[0], e);
    } else {
      var reply := s.replies[0];
      assert Requested(graph, id, baseBranch, page, s, 0);
      AdvanceIff(s.reviews[0], reply.reviews, s.reviews[1]);
      AdvanceIff(s.threads[0], reply.threads, s.threads[1]);
      CollectStep(graph, id, baseBranch, page, view, s.reviews[0], s.threads[0], reply, s.reviews[1], s.threads[1]);
      RestGoesOn(graph, id, baseBranch, page, view, s, e);
      var rest := Session(s.replies[1..], s.reviews[1..], s.threads[1..]);
      SessionIsRefused(graph, id, baseBranch, page + 1, Some(reply.view), rest, e);
    }
  }

  /** The error of a refused collection is that of the first thing that is wrong with the first reply that is. */
  lemma CollectRefusal<R(!new), T(!new)>(graph: GraphProvider<R, T>, id: Identity, baseBranch: string, e: Failure)
    ensures CollectFrom(graph, id, baseBranch, 1, None, Reading([], None, true), Reading([], None, true)) == Err(e)
       <==> exists s :: RefusedAfter(graph, id, baseBranch, 1, None, s, e)
              && s.reviews[0] == Reading([], None, true) && s.threads[0] == Reading([], None, true)
  {
    if CollectFrom(graph, id, baseBranch, 1, None, Reading([], None, true), Reading([], None, true)) == Err(e) {
      var s := RefusedInSession(graph, id, baseBranch, 1, None, Reading([], None, true), Reading([], None, true), e);
    }
    if s :| RefusedAfter(graph, id, baseBranch, 1, None, s, e)
            && s.reviews[0] == Reading([], None, true) && s.threads[0] == Reading([], None, true) {
      SessionIsRefused(graph, id, baseBranch, 1, None, s, e);
    }
  }
}
