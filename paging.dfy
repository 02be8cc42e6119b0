/**
  The paging both listing loops share (getRedirects in MyraApi.php and the
  dnsRecords loop in dyndns.php): page 1 is asked for first to learn `count`
  and `pageSize`, then pages 1 to ceil(count / pageSize) are asked for in
  turn, page 1 again among them. `FetchAll` is the specification of that
  sequence of calls; the two loops are proved against it.
 */
module Paging {
  import opened Wrappers
  import opened Json
  import opened MyraApi
  import Text

  /**
    What one operation runs against: the client, the library calls, the
    network, and the clock. `clock(n)` is what `date('c')` returns during the
    operation's n-th call (counting from 0).
   */
  datatype Env = Env(client: Client, prims: Primitives, send: Request -> Response, clock: nat -> string)

  /** Integer ceiling of count / pageSize. */
  function CeilDiv(count: int, pageSize: int): int
    requires pageSize > 0
  {
    -((-count) / pageSize)
  }

  lemma CeilDivIsCeiling(count: int, pageSize: int)
    requires pageSize > 0
    ensures (CeilDiv(count, pageSize) - 1) * pageSize < count <= CeilDiv(count, pageSize) * pageSize
  {
    var q := (-count) / pageSize;
    var m := (-count) % pageSize;
    assert -count == q * pageSize + m && 0 <= m < pageSize;
    assert CeilDiv(count, pageSize) * pageSize == -(q * pageSize);
    assert (CeilDiv(count, pageSize) - 1) * pageSize == -(q * pageSize) - pageSize;
  }

  /** Zero records need no page; 1 record of 50 per page one page; 101 records three pages. */
  lemma PageCountExamples()
    ensures CeilDiv(0, 50) == 0 && CeilDiv(1, 50) == 1 && CeilDiv(101, 50) == 3
  {
  }

  /**
    `ceil($ret->count / $ret->pageSize)` for integer fields; a zero page size
    is a division by zero and throws.
   */
  function PageCount(reply: Json): (r: Option<int>)
    ensures r.Some? <==> Field(reply, "count").JInt? && Field(reply, "pageSize").JInt? && Field(reply, "pageSize").i != 0
    ensures r.Some? ==>
      var count, size := Field(reply, "count").i, Field(reply, "pageSize").i;
      && (size > 0 ==> (r.value - 1) * size < count <= r.value * size)
      && (size < 0 ==> r.value * size <= count < (r.value - 1) * size)
  {
    var count := Field(reply, "count");
    var size := Field(reply, "pageSize");
    if count.JInt? && size.JInt? && size.i != 0 then
      if size.i > 0 then
        CeilDivIsCeiling(count.i, size.i);
        Some(CeilDiv(count.i, size.i))
      else
        var q := CeilDiv(-count.i, -size.i);
        CeilDivIsCeiling(-count.i, -size.i);
        assert q * size.i == -(q * -size.i) && (q - 1) * size.i == -((q - 1) * -size.i);
        Some(q)
    else None
  }

  /** The scope of page `i`: `$domain . '/' . $i`. */
  function PageScope(scope: string, i: nat): (r: string)
    ensures r != [] && Text.IsDigit(r[|r| - 1])
  {
    scope + "/" + Text.Decimal(i)
  }

  /** `call(target, 'list', scope/page, array())` as the operation's call number `callNo`. */
  function ListCall(env: Env, target: string, scope: string, callNo: nat, page: nat): CallResult
  {
    CallSpec(env.client, env.prims, env.send, env.clock(callNo), target, "list", PageScope(scope, page),
             JObject(map[]), [], false)
  }

  /** Every page URL of one listing starts with this. */
  function PagePrefix(c: Client, target: string, scope: string): string
  {
    "https://" + c.site + "/" + c.lang + "/rapi/" + target + "/" + scope + "/"
  }

  /** A page's scope survives the trimming of trailing slashes, so its URL ends in the page number. */
  lemma PageUrl(c: Client, target: string, scope: string, page: nat)
    ensures "https://" + c.site + Uri(c, target, PageScope(scope, page)) == PagePrefix(c, target, scope) + Text.Decimal(page)
  {
    UriKeepsScope(c, target, PageScope(scope, page));
  }

  /** The request a list call hands to the transport. */
  function PageRequest(env: Env, target: string, scope: string, callNo: nat, page: nat): (r: Request)
    requires IsSupportedTarget(target)
    ensures r.verb == GET && r.body == None
    ensures r.url == PagePrefix(env.client, target, scope) + Text.Decimal(page)
  {
    PageUrl(env.client, target, scope, page);
    Prepare(env.client, env.prims, env.clock(callNo), target, "list", PageScope(scope, page),
            JObject(map[]), []).value
  }

  /** Different pages are asked for at different URLs. */
  lemma PageUrlsDistinct(env: Env, target: string, scope: string, m: nat, i: nat, n: nat, j: nat)
    requires IsSupportedTarget(target) && i != j
    ensures PageRequest(env, target, scope, m, i).url != PageRequest(env, target, scope, n, j).url
  {
    Text.DecimalInjective(i, j);
    var prefix := PagePrefix(env.client, target, scope);
    assert (prefix + Text.Decimal(i))[|prefix|..] == Text.Decimal(i);
    assert (prefix + Text.Decimal(j))[|prefix|..] == Text.Decimal(j);
  }

  /** How a listing stops early. */
  datatype PageFailure =
    | Thrown(error: ApiError)   // `call` threw
    | Flagged(reply: Json)      // the reply's error field was set
    | BadCount(reply: Json)     // count or pageSize not an integer, or a zero page size

  /** The requests sent, the replies of the pages fetched, and how the listing stopped. */
  datatype Fetched = Fetched(sent: seq<Request>, replies: seq<Json>, failure: Option<PageFailure>)

  /** One `list` call for a page, as the listing loops issue it. */
  method ListPage(env: Env, target: string, scope: string, callNo: nat, page: nat)
    returns (sent: seq<Request>, outcome: Result<Reply, ApiError>)
    ensures CallResult(sent, outcome) == ListCall(env, target, scope, callNo, page)
  {
    sent, outcome := Call(env.client, env.prims, env.send, env.clock(callNo), target, "list",
                          PageScope(scope, page), JObject(map[]), [], false);
  }

  /** The call that fetches page `i` of a listing; it is the operation's call number i. */
  function PageCalls(env: Env, target: string, scope: string): nat -> CallResult
  {
    (i: nat) => ListCall(env, target, scope, i, i)
  }

  /**
    `calls` gives, for every page number, the list call of that page. Facts
    about a page are drawn out only where that page's call is made.
   */
  ghost predicate ListsPages(env: Env, target: string, scope: string, calls: nat -> CallResult)
  {
    forall j: nat {:trigger ListCall(env, target, scope, j, j)} :: calls(j) == ListCall(env, target, scope, j, j)
  }

  lemma PageCallsListPages(env: Env, target: string, scope: string)
    ensures ListsPages(env, target, scope, PageCalls(env, target, scope))
  {
  }

  /** The list call of page `page` of a listing, made as call number `page`. */
  method NextPage(env: Env, target: string, scope: string, page: nat, ghost calls: nat -> CallResult)
    returns (sent: seq<Request>, outcome: Result<Reply, ApiError>)
    requires ListsPages(env, target, scope, calls)
    ensures CallResult(sent, outcome) == calls(page)
  {
    sent, outcome := ListPage(env, target, scope, page, page);
  }

  /**
    The page loop from page `i` to `pages`, for any way `pageCall` of
    fetching a page: it stops at the first call that throws or comes back
    flagged.
   */
  function FetchFrom(pageCall: nat -> CallResult, i: nat, pages: int): Fetched
    decreases if pages >= i then pages - i + 1 else 0
  {
    if i > pages then Fetched([], [], None)
    else
      var call := pageCall(i);
      match call.outcome
      case Failure(e) => Fetched(call.sent, [], Some(Thrown(e)))
      case Success(reply) =>
        if ErrorFlagged(reply.decoded) then Fetched(call.sent, [], Some(Flagged(reply.decoded)))
        else
          var rest := FetchFrom(pageCall, i + 1, pages);
          Fetched(call.sent + rest.sent, [reply.decoded] + rest.replies, rest.failure)
  }

  /** What a page loop that has sent `sent` and kept `replies` ends with, when the pages still to come give `rest`. */
  function Resume(sent: seq<Request>, replies: seq<Json>, rest: Fetched): Fetched
  {
    Fetched(sent + rest.sent, replies + rest.replies, rest.failure)
  }

  /** One more page of the loop: it stops the listing, or adds its requests and its reply. */
  lemma FetchFromStep(pageCall: nat -> CallResult, i: nat, pages: int, sent: seq<Request>, replies: seq<Json>)
    requires i <= pages
    ensures var call := pageCall(i);
      var here := Resume(sent, replies, FetchFrom(pageCall, i, pages));
      match call.outcome
      case Failure(e) => here == Fetched(sent + call.sent, replies, Some(Thrown(e)))
      case Success(reply) =>
        if ErrorFlagged(reply.decoded) then here == Fetched(sent + call.sent, replies, Some(Flagged(reply.decoded)))
        else here == Resume(sent + call.sent, replies + [reply.decoded], FetchFrom(pageCall, i + 1, pages))
  {
    var call := pageCall(i);
    if call.outcome.Success? && !ErrorFlagged(call.outcome.value.decoded) {
      var rest := FetchFrom(pageCall, i + 1, pages);
      assert sent + (call.sent + rest.sent) == (sent + call.sent) + rest.sent;
      assert replies + ([call.outcome.value.decoded] + rest.replies) == (replies + [call.outcome.value.decoded]) + rest.replies;
    } else {
      assert replies + [] == replies;
    }
  }

  /** Past the last page the loop has nothing more to add. */
  lemma FetchFromDone(pageCall: nat -> CallResult, i: nat, pages: int, sent: seq<Request>, replies: seq<Json>)
    requires i > pages
    ensures Resume(sent, replies, FetchFrom(pageCall, i, pages)) == Fetched(sent, replies, None)
  {
    assert sent + [] == sent && replies + [] == replies;
  }

  /** A listing whose page-count call gave `first` and whose pages are fetched by `pageCall`. */
  function FetchAfter(first: CallResult, pageCall: nat -> CallResult): Fetched
  {
    match first.outcome
    case Failure(e) => Fetched(first.sent, [], Some(Thrown(e)))
    case Success(reply) =>
      if ErrorFlagged(reply.decoded) then Fetched(first.sent, [], Some(Flagged(reply.decoded)))
      else match PageCount(reply.decoded)
        case None => Fetched(first.sent, [], Some(BadCount(reply.decoded)))
        case Some(pages) =>
          var rest := FetchFrom(pageCall, 1, pages);
          Fetched(first.sent + rest.sent, rest.replies, rest.failure)
  }

  /** The whole listing: the page-count call for page 1, then every page. */
  function FetchAll(env: Env, target: string, scope: string): Fetched
  {
    FetchAfter(ListCall(env, target, scope, 0, 1), PageCalls(env, target, scope))
  }

  /** The decoded reply the transport gives for a request. */
  function DecodedReply(env: Env, req: Request): Json
  {
    env.prims.jsonDecode(env.send(req).content)
  }

  /** The call returned (did not throw) with this decoded reply. */
  predicate Returned(call: CallResult, reply: Json)
  {
    call.outcome.Success? && call.outcome.value.decoded == reply
  }

  /**
    When every page call sends one request, the loop sends one request per
    page it reaches, in page order, and reaches every page up to `pages`
    unless it stops early.
   */
  lemma {:induction false} FetchFromOrder(pageCall: nat -> CallResult, i: nat, pages: int)
    requires forall j :: |pageCall(j).sent| == 1
    ensures var r := FetchFrom(pageCall, i, pages);
      && |r.sent| == |r.replies| + (if r.failure.Some? then 1 else 0)
      && (r.failure.None? ==> |r.replies| == (if pages >= i then pages - i + 1 else 0))
      && (forall k | 0 <= k < |r.sent| :: r.sent[k] == pageCall(i + k).sent[0])
    decreases if pages >= i then pages - i + 1 else 0
  {
    if i <= pages {
      var r := FetchFrom(pageCall, i, pages);
      var call := pageCall(i);
      assert |call.sent| == 1;
      if call.outcome.Success? && !ErrorFlagged(call.outcome.value.decoded) {
        var rest := FetchFrom(pageCall, i + 1, pages);
        FetchFromOrder(pageCall, i + 1, pages);
        assert r.sent == call.sent + rest.sent && r.replies == [call.outcome.value.decoded] + rest.replies;
        forall k | 1 <= k < |r.sent|
          ensures r.sent[k] == pageCall(i + k).sent[0]
        {
          assert r.sent[k] == rest.sent[k - 1];
          assert i + 1 + (k - 1) == i + k;
        }
      }
    }
  }

  /** Reply k of `replies` is what page `i + k` returned. */
  predicate RepliesFrom(pageCall: nat -> CallResult, i: nat, replies: seq<Json>)
  {
    forall k | 0 <= k < |replies| :: Returned(pageCall(i + k), replies[k])
  }

  /** The loop keeps, in page order, the reply of each page it gets past. */
  lemma {:induction false} FetchFromReplies(pageCall: nat -> CallResult, i: nat, pages: int)
    ensures RepliesFrom(pageCall, i, FetchFrom(pageCall, i, pages).replies)
    decreases if pages >= i then pages - i + 1 else 0
  {
    if i <= pages {
      var r := FetchFrom(pageCall, i, pages);
      var call := pageCall(i);
      if call.outcome.Success? && !ErrorFlagged(call.outcome.value.decoded) {
        var rest := FetchFrom(pageCall, i + 1, pages);
        FetchFromReplies(pageCall, i + 1, pages);
        assert r.replies == [call.outcome.value.decoded] + rest.replies;
        forall k | 0 <= k < |r.replies|
          ensures Returned(pageCall(i + k), r.replies[k])
        {
          if k == 0 {
            assert r.replies[0] == call.outcome.value.decoded;
            assert pageCall(i + k) == call;
          } else {
            assert r.replies[k] == rest.replies[k - 1];
            assert Returned(pageCall(i + 1 + (k - 1)), rest.replies[k - 1]);
          }
        }
      }
    }
  }

  /** When no page call returns a flagged reply, the loop never stops on a flag. */
  lemma {:induction false} FetchFromNeverFlagged(pageCall: nat -> CallResult, i: nat, pages: int)
    requires forall j :: pageCall(j).outcome.Success? ==> !ErrorFlagged(pageCall(j).outcome.value.decoded)
    ensures var r := FetchFrom(pageCall, i, pages); !(r.failure.Some? && r.failure.value.Flagged?)
    decreases if pages >= i then pages - i + 1 else 0
  {
    if i <= pages {
      var call := pageCall(i);
      if call.outcome.Success? && !ErrorFlagged(call.outcome.value.decoded) {
        FetchFromNeverFlagged(pageCall, i + 1, pages);
      }
    }
  }

  /**
    A list call sends exactly the page's request, and what it returns is
    that request's decoded reply, never flagged.
   */
  lemma ListCallSends(env: Env, target: string, scope: string, callNo: nat, page: nat)
    requires IsSupportedTarget(target)
    ensures var call := ListCall(env, target, scope, callNo, page);
      && call.sent == [PageRequest(env, target, scope, callNo, page)]
      && (call.outcome.Success? ==>
            && call.outcome.value.decoded == DecodedReply(env, PageRequest(env, target, scope, callNo, page))
            && !ErrorFlagged(call.outcome.value.decoded))
  {
    var call := ListCall(env, target, scope, callNo, page);
    ReturnedReplyNotFlagged(env.prims, target, "list", env.send(call.sent[0]));
  }

  lemma PageCallsSend(env: Env, target: string, scope: string)
    requires IsSupportedTarget(target)
    ensures forall j :: PageCalls(env, target, scope)(j).sent == [PageRequest(env, target, scope, j, j)]
    ensures forall j :: PageCalls(env, target, scope)(j).outcome.Success? ==>
      && PageCalls(env, target, scope)(j).outcome.value.decoded == DecodedReply(env, PageRequest(env, target, scope, j, j))
      && !ErrorFlagged(PageCalls(env, target, scope)(j).outcome.value.decoded)
  {
    forall j: nat {
      ListCallSends(env, target, scope, j, j);
    }
  }

  /** The pages after the count call, appended to that call's request, keep their order. */
  lemma FetchPagesAfter(firstSent: seq<Request>, pageCall: nat -> CallResult, pages: int)
    requires |firstSent| == 1
    requires forall j :: |pageCall(j).sent| == 1
    ensures var r := Resume(firstSent, [], FetchFrom(pageCall, 1, pages));
      && |r.sent| >= 1 && r.sent[0] == firstSent[0]
      && 1 + |r.replies| <= |r.sent| <= 2 + |r.replies|
      && (forall k | 1 <= k < |r.sent| :: r.sent[k] == pageCall(k).sent[0])
      && RepliesFrom(pageCall, 1, r.replies)
      && (r.failure.None? ==> |r.sent| == 1 + |r.replies| && |r.replies| == (if pages >= 1 then pages else 0))
  {
    FetchFromReplies(pageCall, 1, pages);
    FetchFromOrder(pageCall, 1, pages);
    ResumeAfterOne(firstSent, FetchFrom(pageCall, 1, pages), pageCall);
  }

  /** A listing from page 1 on, put after one request, numbers its requests by page. */
  lemma ResumeAfterOne(firstSent: seq<Request>, rest: Fetched, pageCall: nat -> CallResult)
    requires |firstSent| == 1 && forall j :: |pageCall(j).sent| == 1
    requires |rest.sent| == |rest.replies| + (if rest.failure.Some? then 1 else 0)
    requires forall k | 0 <= k < |rest.sent| :: rest.sent[k] == pageCall(1 + k).sent[0]
    ensures var r := Resume(firstSent, [], rest);
      && r.replies == rest.replies && r.failure == rest.failure
      && |r.sent| == 1 + |rest.sent| && r.sent[0] == firstSent[0]
      && (forall k | 1 <= k < |r.sent| :: r.sent[k] == pageCall(k).sent[0])
  {
    var r := Resume(firstSent, [], rest);
    assert r.replies == rest.replies;
    forall k | 1 <= k < |r.sent|
      ensures r.sent[k] == pageCall(k).sent[0]
    {
      assert r.sent[k] == rest.sent[k - 1];
    }
  }

  /** Whatever stands for the page calls of a listing, each sends one request. */
  lemma PageCallsSendOne(env: Env, target: string, scope: string, calls: nat -> CallResult)
    requires IsSupportedTarget(target) && ListsPages(env, target, scope, calls)
    ensures forall j :: |calls(j).sent| == 1
  {
    forall j: nat
      ensures |calls(j).sent| == 1
    {
      ListCallSends(env, target, scope, j, j);
    }
  }

  /** A usable page count hands the listing over to the page loop. */
  lemma FetchAfterPages(first: CallResult, pageCall: nat -> CallResult)
    requires first.outcome.Success? && !ErrorFlagged(first.outcome.value.decoded)
    requires PageCount(first.outcome.value.decoded).Some?
    ensures FetchAfter(first, pageCall)
         == Resume(first.sent, [], FetchFrom(pageCall, 1, PageCount(first.outcome.value.decoded).value))
  {
    var rest := FetchFrom(pageCall, 1, PageCount(first.outcome.value.decoded).value);
    assert [] + rest.replies == rest.replies;
  }

  /** What the loop guarantees, carried over to a whole listing. */
  lemma FetchAfterOrder(first: CallResult, pageCall: nat -> CallResult)
    requires |first.sent| == 1
    requires forall j :: |pageCall(j).sent| == 1
    ensures var r := FetchAfter(first, pageCall);
      && |r.sent| >= 1 && r.sent[0] == first.sent[0]
      && 1 + |r.replies| <= |r.sent| <= 2 + |r.replies|
      && (forall k | 1 <= k < |r.sent| :: r.sent[k] == pageCall(k).sent[0])
      && RepliesFrom(pageCall, 1, r.replies)
      && (r.failure.None? ==>
            && first.outcome.Success?
            && |r.sent| == 1 + |r.replies|
            && PageCount(first.outcome.value.decoded).Some?
            && var pages := PageCount(first.outcome.value.decoded).value;
               |r.replies| == (if pages >= 1 then pages else 0))
  {
    var r := FetchAfter(first, pageCall);
    if first.outcome.Success? && !ErrorFlagged(first.outcome.value.decoded)
       && PageCount(first.outcome.value.decoded).Some? {
      var pages := PageCount(first.outcome.value.decoded).value;
      assert r == Resume(first.sent, [], FetchFrom(pageCall, 1, pages));
      FetchPagesAfter(first.sent, pageCall, pages);
    } else {
      assert r.sent == first.sent && r.replies == [];
    }
  }

  /**
    The whole listing: first the page-count request for page 1, then the
    requests for pages 1, 2, ... in order; every reply kept is the reply to
    its page's request; a complete listing reaches every page up to the
    page count.
   */
  lemma FetchAllRequests(env: Env, target: string, scope: string)
    requires IsSupportedTarget(target)
    ensures var r := FetchAll(env, target, scope);
      && |r.sent| >= 1
      && r.sent[0] == PageRequest(env, target, scope, 0, 1)
      && 1 + |r.replies| <= |r.sent| <= 2 + |r.replies|
      && (forall k | 1 <= k < |r.sent| :: r.sent[k] == PageRequest(env, target, scope, k, k))
      && (forall k | 0 <= k < |r.replies| :: r.replies[k] == DecodedReply(env, r.sent[k + 1]))
      && (r.failure.None? ==>
            var first := DecodedReply(env, r.sent[0]);
            && |r.sent| == 1 + |r.replies|
            && PageCount(first).Some?
            && |r.replies| == (if PageCount(first).value >= 1 then PageCount(first).value else 0))
  {
    var first := ListCall(env, target, scope, 0, 1);
    var calls := PageCalls(env, target, scope);
    ListCallSends(env, target, scope, 0, 1);
    PageCallsSend(env, target, scope);
    FetchAfterOrder(first, calls);
  }

  /** A listing sends at least one request more than the pages it keeps: the page-count request. */
  lemma FetchAllCovers(env: Env, target: string, scope: string)
    requires IsSupportedTarget(target)
    ensures |FetchAll(env, target, scope).sent| > |FetchAll(env, target, scope).replies|
  {
    FetchAllRequests(env, target, scope);
  }

  /** Without skip mode no reply comes back flagged, so no listing stops on an error flag. */
  lemma FetchAllNeverFlagged(env: Env, target: string, scope: string)
    requires IsSupportedTarget(target)
    ensures var r := FetchAll(env, target, scope); !(r.failure.Some? && r.failure.value.Flagged?)
  {
    var first := ListCall(env, target, scope, 0, 1);
    ListCallSends(env, target, scope, 0, 1);
    PageCallsSend(env, target, scope);
    if first.outcome.Success? && PageCount(first.outcome.value.decoded).Some? {
      FetchFromNeverFlagged(PageCalls(env, target, scope), 1, PageCount(first.outcome.value.decoded).value);
    }
  }

  // ---------------------------------------------------------------- items

  /** `$ret->list`: the items of one page; anything that is not a list yields none. */
  function PageItems(reply: Json): seq<Json>
  {
    ListItems(reply, "list")
  }

  /** All items of the pages fetched, page by page and in list order within a page. */
  function AllItems(replies: seq<Json>): seq<Json>
  {
    if replies == [] then [] else AllItems(replies[..|replies| - 1]) + PageItems(replies[|replies| - 1])
  }

  /** Fetching one more page appends its items. */
  lemma AllItemsNextPage(replies: seq<Json>, next: Json)
    ensures AllItems(replies + [next]) == AllItems(replies) + PageItems(next)
  {
    assert (replies + [next])[..|replies|] == replies;
  }

  /** Item j of page p sits right after every item of the pages before p. */
  lemma {:induction false} AllItemsOrder(replies: seq<Json>, p: nat, j: nat)
    requires p < |replies| && j < |PageItems(replies[p])|
    ensures |AllItems(replies[..p])| + j < |AllItems(replies)|
    ensures AllItems(replies)[|AllItems(replies[..p])| + j] == PageItems(replies[p])[j]
  {
    var n := |replies|;
    assert replies[..n - 1] + [replies[n - 1]] == replies;
    if p == n - 1 {
      assert replies[..p] == replies[..n - 1];
    } else {
      AllItemsOrder(replies[..n - 1], p, j);
      assert replies[..n - 1][..p] == replies[..p];
      assert replies[..n - 1][p] == replies[p];
    }
  }
}
