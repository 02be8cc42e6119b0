/**
  `MyraApi::getRedirects` (dyndns/MyraApi.php; line numbers below refer to it): every redirect of a subdomain, page after page,
  each projected to a fixed set of fields with the redirect kind turned into
  an HTTP status code.
 */
module Redirects {
  import opened Wrappers
  import opened Json
  import opened MyraApi
  import opened Paging

  /**
    One entry of the result. The entry for the item's `objectType` is
    written under the key `objectype`, as the source spells it.
   */
  datatype Redirect = Redirect(
    created: Json, destination: Json, enabled: Json, id: Json, matchingType: Json,
    modified: Json, objectype: Json, sort: Json, source: Json, subDomainName: Json,
    redirectType: string)

  /** `$data->type == 'permanent'` under PHP's loose comparison. */
  predicate IsPermanent(item: Json)
  {
    LooselyEqualsWord(Field(item, "type"), "permanent")
  }

  /** The projection of one listed item. */
  function Project(item: Json): Redirect
  {
    Redirect(
      Field(item, "created"), Field(item, "destination"), Field(item, "enabled"), Field(item, "id"),
      Field(item, "matchingType"), Field(item, "modified"), Field(item, "objectType"), Field(item, "sort"),
      Field(item, "source"), Field(item, "subDomainName"),
      if IsPermanent(item) then "301" else "302")
  }

  /** Every item projected, in the order listed. */
  function Projected(items: seq<Json>): seq<Redirect>
    decreases |items|
  {
    if items == [] then [] else Projected(items[..|items| - 1]) + [Project(items[|items| - 1])]
  }

  /** Item k of the result is the projection of item k. */
  lemma {:induction false} ProjectedAt(items: seq<Json>)
    ensures |Projected(items)| == |items|
    ensures forall k | 0 <= k < |items| :: Projected(items)[k] == Project(items[k])
    decreases |items|
  {
    if items != [] {
      var init := items[..|items| - 1];
      ProjectedAt(init);
      forall k | 0 <= k < |items| ensures Projected(items)[k] == Project(items[k]) {
        if k < |init| {
          assert items[k] == init[k];
        }
      }
    }
  }

  /** One more item adds its projection at the end. */
  lemma ProjectedSnoc(items: seq<Json>, item: Json)
    ensures Projected(items + [item]) == Projected(items) + [Project(item)]
  {
    assert (items + [item])[..|items|] == items;
  }

  lemma {:induction false} ProjectedAppend(items: seq<Json>, more: seq<Json>)
    ensures Projected(items + more) == Projected(items) + Projected(more)
    decreases |more|
  {
    if more == [] {
      assert items + more == items;
    } else {
      var init := more[..|more| - 1];
      var last := more[|more| - 1];
      assert more == init + [last];
      assert items + more == (items + init) + [last];
      ProjectedSnoc(items + init, last);
      ProjectedSnoc(init, last);
      ProjectedAppend(items, init);
      var a, b, c := Projected(items), Projected(init), [Project(last)];
      assert (a + b) + c == a + (b + c);
    }
  }

  /**
    Every entry is an object. Lines 293-297 assign `$data->type`, which
    throws (PHP 8) for an entry that is not an object.
   */
  predicate AllObjects(items: seq<Json>)
  {
    forall k | 0 <= k < |items| :: items[k].JObject?
  }

  /** The position of the first entry that is not an object, if any. */
  function FirstNonObject(items: seq<Json>): (r: Option<nat>)
    ensures r.None? <==> AllObjects(items)
    ensures r.Some? ==> r.value < |items| && !items[r.value].JObject? && AllObjects(items[..r.value])
  {
    if items == [] then None
    else if !items[0].JObject? then Some(0)
    else match FirstNonObject(items[1..])
      case None => None
      case Some(k) => Some(k + 1)
  }

  /** An entry that is not an object, after objects only, is the first one. */
  lemma FirstNonObjectAt(items: seq<Json>, k: nat)
    requires k < |items| && !items[k].JObject? && AllObjects(items[..k])
    ensures FirstNonObject(items) == Some(k)
  {
  }

  /** The first non-object entry of two runs of entries lies in the first run if it has one. */
  lemma FirstNonObjectAppend(a: seq<Json>, b: seq<Json>)
    ensures FirstNonObject(a).Some? ==> FirstNonObject(a + b) == FirstNonObject(a)
    ensures FirstNonObject(a).None? && FirstNonObject(b).Some? ==> FirstNonObject(a + b) == Some(|a| + FirstNonObject(b).value)
    ensures FirstNonObject(a).None? && FirstNonObject(b).None? ==> FirstNonObject(a + b).None?
  {
    if FirstNonObject(a).Some? {
      var k := FirstNonObject(a).value;
      assert (a + b)[..k] == a[..k];
      FirstNonObjectAt(a + b, k);
    } else if FirstNonObject(b).Some? {
      var k := FirstNonObject(b).value;
      assert (a + b)[..|a| + k] == a + b[..k];
      FirstNonObjectAt(a + b, |a| + k);
    } else {
      assert AllObjects(a + b) by {
        forall i | 0 <= i < |a + b| ensures (a + b)[i].JObject? {
          if i >= |a| {
            assert (a + b)[i] == b[i - |a|];
          }
        }
      }
    }
  }

  /** The first page whose entries are not all objects: the page on which the loop throws. */
  function FirstBadPage(replies: seq<Json>): (r: Option<nat>)
    ensures r.Some? ==> r.value < |replies| && !AllObjects(PageItems(replies[r.value]))
  {
    if replies == [] then None
    else
      var init := replies[..|replies| - 1];
      match FirstBadPage(init)
      case Some(p) => Some(p)
      case None => if AllObjects(PageItems(replies[|replies| - 1])) then None else Some(|init|)
  }

  /** The pages before the first bad page are all good, so the first bad page stays first whatever follows. */
  lemma {:induction false} FirstBadPageAppend(replies: seq<Json>, more: seq<Json>)
    ensures FirstBadPage(replies).Some? ==> FirstBadPage(replies + more) == FirstBadPage(replies)
    decreases |more|
  {
    if more != [] {
      var init := more[..|more| - 1];
      assert (replies + more)[..|replies + more| - 1] == replies + init;
      FirstBadPageAppend(replies, init);
    } else {
      assert replies + more == replies;
    }
  }

  /** A good page after good pages keeps the listing free of bad pages. */
  lemma GoodPageNext(replies: seq<Json>, ret: Json)
    requires FirstBadPage(replies).None? && AllObjects(PageItems(ret))
    ensures FirstBadPage(replies + [ret]).None?
  {
    assert (replies + [ret])[..|replies|] == replies;
  }

  /** A bad page after good pages is the first bad page, whatever the loop would have fetched after it. */
  lemma BadPageNext(sent: seq<Request>, replies: seq<Json>, got: seq<Request>, ret: Json, rest: Fetched)
    requires |sent| == |replies| && |got| == 1
    requires FirstBadPage(replies).None? && !AllObjects(PageItems(ret))
    ensures var f := Resume(sent + got, replies + [ret], rest);
      && FirstBadPage(f.replies) == Some(|replies|) && |replies| < |f.sent|
      && f.sent[..|replies| + 1] == sent + got && f.replies[|replies|] == ret
  {
    var f := Resume(sent + got, replies + [ret], rest);
    assert FirstBadPage(replies + [ret]) == Some(|replies|) by {
      assert (replies + [ret])[..|replies|] == replies;
    }
    FirstBadPageAppend(replies + [ret], rest.replies);
    assert f.sent[..|replies| + 1] == sent + got;
    assert f.replies[|replies|] == ret;
  }

  /** A listing has an entry that is not an object exactly when it has a bad page. */
  lemma {:induction false} AllObjectsAllItems(replies: seq<Json>)
    ensures AllObjects(AllItems(replies)) <==> FirstBadPage(replies).None?
    decreases |replies|
  {
    if replies != [] {
      var init := replies[..|replies| - 1];
      var last := PageItems(replies[|replies| - 1]);
      AllObjectsAllItems(init);
      FirstNonObjectAppend(AllItems(init), last);
    }
  }

  /** The entry the loop throws on is the first entry of the whole listing that is not an object. */
  lemma {:induction false} FirstBadEntry(replies: seq<Json>)
    requires FirstBadPage(replies).Some?
    ensures var p := FirstBadPage(replies).value;
      FirstNonObject(AllItems(replies)) == Some(|AllItems(replies[..p])| + FirstNonObject(PageItems(replies[p])).value)
    decreases |replies|
  {
    var p := FirstBadPage(replies).value;
    var init := replies[..|replies| - 1];
    var last := PageItems(replies[|replies| - 1]);
    FirstNonObjectAppend(AllItems(init), last);
    if FirstBadPage(init).Some? {
      FirstBadEntry(init);
      assert init[..p] == replies[..p] && init[p] == replies[p];
    } else {
      AllObjectsAllItems(init);
      assert replies[..p] == init;
    }
  }

  datatype RedirectsError =
    | ListingFailed(failure: PageFailure)  // a call threw, a page was flagged, or the count was unusable
    | NoRedirects(subdomain: string)       // the listing was complete but empty
    | EntryNotObject(entry: Json)          // assigning `$data->type` on this entry threw

  /** The requests made and the outcome. */
  datatype Listing = Listing(sent: seq<Request>, result: Result<seq<Redirect>, RedirectsError>)

  /**
    What `getRedirects` makes of a listing, however the listing went: the
    loop throws on the first page holding an entry that is not an object,
    before any later page is fetched.
   */
  function RedirectsOf(fetched: Fetched, subdomain: string): Result<seq<Redirect>, RedirectsError>
  {
    match FirstBadPage(fetched.replies)
    case Some(p) =>
      var items := PageItems(fetched.replies[p]);
      Failure(EntryNotObject(items[FirstNonObject(items).value]))
    case None =>
      if fetched.failure.Some? then Failure(ListingFailed(fetched.failure.value))
      else
        var out := Projected(AllItems(fetched.replies));
        if out == [] then Failure(NoRedirects(subdomain)) else Success(out)
  }

  /** The requests of a listing up to the one for the first bad page, if there is one. */
  function SentUntilBadPage(fetched: Fetched): seq<Request>
    requires |fetched.sent| > |fetched.replies|
  {
    match FirstBadPage(fetched.replies)
    case Some(p) => fetched.sent[..p + 2]
    case None => fetched.sent
  }

  /** The requests up to the first bad page start the listing's requests, and a success sent them all. */
  lemma SentUntilBadPagePrefix(fetched: Fetched, subdomain: string)
    requires |fetched.sent| > |fetched.replies|
    ensures var sent := SentUntilBadPage(fetched);
      && 1 <= |sent| <= |fetched.sent| && sent == fetched.sent[..|sent|]
      && (RedirectsOf(fetched, subdomain).Success? ==> sent == fetched.sent)
  {
    assert fetched.sent[..|fetched.sent|] == fetched.sent;
  }

  /** What `getRedirects` sends and ends with, given the listing its loops make. */
  function ListingOf(fetched: Fetched, subdomain: string): Listing
    requires |fetched.sent| > |fetched.replies|
  {
    Listing(SentUntilBadPage(fetched), RedirectsOf(fetched, subdomain))
  }

  function GetRedirectsSpec(env: Env, subdomain: string): Listing
  {
    assert IsSupportedTarget("redirects");
    FetchAllCovers(env, "redirects", subdomain);
    ListingOf(FetchAll(env, "redirects", subdomain), subdomain)
  }

  /**
    Lines 274-323. The first call reads the page count from page 1; the
    pages are then listed by `CollectRedirects`.
   */
  method GetRedirects(env: Env, subdomain: string) returns (sent: seq<Request>, result: Result<seq<Redirect>, RedirectsError>)
    ensures Listing(sent, result) == GetRedirectsSpec(env, subdomain)
  {
    var first, outcome := ListPage(env, "redirects", subdomain, 0, 1);
    ghost var calls := PageCalls(env, "redirects", subdomain);
    assert FetchAll(env, "redirects", subdomain) == FetchAfter(CallResult(first, outcome), calls);
    sent := first;
    if outcome.Failure? {
      return sent, Failure(ListingFailed(Thrown(outcome.error)));
    }
    var ret := outcome.value.decoded;
    if ErrorFlagged(ret) {
      return sent, Failure(ListingFailed(Flagged(ret)));
    }
    var count := PageCount(ret);
    if count.None? {
      return sent, Failure(ListingFailed(BadCount(ret)));
    }
    PageCallsListPages(env, "redirects", subdomain);
    FetchAfterPages(CallResult(first, outcome), calls);
    sent, result := RedirectsFromPages(env, subdomain, first, count.value, calls);
  }

  /**
    Lines 286-322: the pages after the count request `first`, then the
    empty-result check.
   */
  method RedirectsFromPages(env: Env, subdomain: string, first: seq<Request>, pages: int, ghost calls: nat -> CallResult)
    returns (sent: seq<Request>, result: Result<seq<Redirect>, RedirectsError>)
    requires |first| == 1 && ListsPages(env, "redirects", subdomain, calls)
    ensures var fetched := Resume(first, [], FetchFrom(calls, 1, pages));
      |fetched.sent| > |fetched.replies| && Listing(sent, result) == ListingOf(fetched, subdomain)
  {
    var rest, arr, failure, bad := CollectRedirects(env, subdomain, pages, calls);
    ghost var f := FetchFrom(calls, 1, pages);
    assert IsSupportedTarget("redirects");
    PageCallsSendOne(env, "redirects", subdomain, calls);
    FetchFromOrder(calls, 1, pages);
    ListingFromPages(first, f, subdomain);
    if bad.Some? {
      return first + rest, Failure(EntryNotObject(bad.value));
    }
    sent := first + rest;
    if failure.Some? {
      return sent, Failure(ListingFailed(failure.value));
    }
    if arr == [] {
      result := Failure(NoRedirects(subdomain));
    } else {
      result := Success(arr);
    }
  }

  /** The listing, read off the count request and what the page loop did. */
  lemma ListingFromPages(first: seq<Request>, f: Fetched, subdomain: string)
    requires |first| == 1 && |f.sent| >= |f.replies|
    ensures var listing := ListingOf(Resume(first, [], f), subdomain);
      && (FirstBadPage(f.replies).Some? ==>
            var p := FirstBadPage(f.replies).value;
            var items := PageItems(f.replies[p]);
            p < |f.sent| ==>
              listing == Listing(first + f.sent[..p + 1], Failure(EntryNotObject(items[FirstNonObject(items).value]))))
      && (FirstBadPage(f.replies).None? ==>
            listing == Listing(first + f.sent, RedirectsOf(Fetched(first + f.sent, f.replies, f.failure), subdomain)))
  {
    var fetched := Resume(first, [], f);
    assert fetched.replies == f.replies;
    if FirstBadPage(f.replies).Some? {
      var p := FirstBadPage(f.replies).value;
      if p < |f.sent| {
        assert (first + f.sent)[..p + 2] == first + f.sent[..p + 1];
      }
    }
  }

  /**
    The page loop of lines 286-316: pages 1 to `pages`, each listed once and
    its entries projected, stopping at the first call that throws, reply
    that is flagged or entry that is not an object.
   */
  method CollectRedirects(env: Env, subdomain: string, pages: int, ghost calls: nat -> CallResult)
    returns (sent: seq<Request>, arr: seq<Redirect>, failure: Option<PageFailure>, bad: Option<Json>)
    requires ListsPages(env, "redirects", subdomain, calls)
    ensures var f := FetchFrom(calls, 1, pages);
      && (FirstBadPage(f.replies).None? ==>
            && bad == None && sent == f.sent && failure == f.failure
            && (failure.None? ==> arr == Projected(AllItems(f.replies))))
      && (FirstBadPage(f.replies).Some? ==>
            var p := FirstBadPage(f.replies).value;
            var items := PageItems(f.replies[p]);
            && p < |f.sent| && sent == f.sent[..p + 1]
            && bad == Some(items[FirstNonObject(items).value]))
  {
    sent, arr, failure, bad := [], [], None, None;
    ghost var replies: seq<Json> := [];
    ghost var listed: seq<Json> := [];
    assert IsSupportedTarget("redirects");
    PageCallsSendOne(env, "redirects", subdomain, calls);
    ghost var f := FetchFrom(calls, 1, pages);
    var i: nat := 1;
    while i <= pages
      invariant 1 <= i && (pages >= 1 ==> i <= pages + 1)
      invariant f == Resume(sent, replies, FetchFrom(calls, i, pages))
      invariant |sent| == |replies| && FirstBadPage(replies).None?
      invariant listed == AllItems(replies) && arr == Projected(listed)
      decreases pages - i
    {
      var got, pageOutcome := NextPage(env, "redirects", subdomain, i, calls);
      FetchFromStep(calls, i, pages, sent, replies);
      if pageOutcome.Failure? {
        assert f == Fetched(sent + got, replies, Some(Thrown(pageOutcome.error)));
        return sent + got, arr, Some(Thrown(pageOutcome.error)), None;
      }
      var ret := pageOutcome.value.decoded;
      if ErrorFlagged(ret) {
        assert f == Fetched(sent + got, replies, Some(Flagged(ret)));
        return sent + got, arr, Some(Flagged(ret)), None;
      }
      assert f == Resume(sent + got, replies + [ret], FetchFrom(calls, i + 1, pages));
      var items := PageItems(ret);
      var projected, badEntry := ProjectItems(items);
      if badEntry.Some? {
        BadPageNext(sent, replies, got, ret, FetchFrom(calls, i + 1, pages));
        return sent + got, arr, None, badEntry;
      }
      sent := sent + got;
      arr := arr + projected;
      assert listed + items == AllItems(replies + [ret]) && arr == Projected(listed + items) by {
        AllItemsNextPage(replies, ret);
        ProjectedAppend(listed, items);
      }
      GoodPageNext(replies, ret);
      listed := listed + items;
      replies := replies + [ret];
      i := i + 1;
    }
    FetchFromDone(calls, i, pages, sent, replies);
  }

  /**
    The inner loop of lines 292-312: each entry of one page, projected, in
    order, until an entry that is not an object makes the assignment throw.
   */
  method ProjectItems(items: seq<Json>) returns (out: seq<Redirect>, bad: Option<Json>)
    ensures FirstNonObject(items).None? ==> bad == None && out == Projected(items)
    ensures FirstNonObject(items).Some? ==> bad == Some(items[FirstNonObject(items).value])
  {
    out, bad := [], None;
    var j := 0;
    while j < |items|
      invariant 0 <= j <= |items|
      invariant AllObjects(items[..j])
      invariant out == Projected(items[..j])
    {
      var data := items[j];
      if !data.JObject? {
        FirstNonObjectAt(items, j);
        return out, Some(data);
      }
      var redirectType := if LooselyEqualsWord(Field(data, "type"), "permanent") then "301" else "302";
      out := out + [Redirect(
        Field(data, "created"), Field(data, "destination"), Field(data, "enabled"), Field(data, "id"),
        Field(data, "matchingType"), Field(data, "modified"), Field(data, "objectType"), Field(data, "sort"),
        Field(data, "source"), Field(data, "subDomainName"), redirectType)];
      assert items[..j + 1] == items[..j] + [data];
      assert items[..j + 1][..j] == items[..j];
      j := j + 1;
    }
    assert items[..j] == items;
  }

  /**
    A successful result lists the items of page 1 first, then those of page
    2, and so on, each page in the provider's order: item j of page p comes
    right after every item of the earlier pages.
   */
  lemma RedirectsInPageOrder(fetched: Fetched, subdomain: string, p: nat, j: nat)
    requires RedirectsOf(fetched, subdomain).Success?
    requires p < |fetched.replies| && j < |PageItems(fetched.replies[p])|
    ensures var out := RedirectsOf(fetched, subdomain).value;
      var k := |AllItems(fetched.replies[..p])| + j;
      k < |out| && out[k] == Project(PageItems(fetched.replies[p])[j])
  {
    AllItemsOrder(fetched.replies, p, j);
    ProjectedAt(AllItems(fetched.replies));
  }

  /** Every redirect of a successful result is a 301 exactly when its item was permanent, else a 302. */
  lemma RedirectCodes(fetched: Fetched, subdomain: string)
    requires RedirectsOf(fetched, subdomain).Success?
    ensures var items := AllItems(fetched.replies);
      var out := RedirectsOf(fetched, subdomain).value;
      && |out| == |items|
      && forall k | 0 <= k < |out| ::
           && (out[k].redirectType == "301" || out[k].redirectType == "302")
           && (out[k].redirectType == "301" <==> IsPermanent(items[k]))
           && out[k].id == Field(items[k], "id")
           && out[k].objectype == Field(items[k], "objectType")
  {
    ProjectedAt(AllItems(fetched.replies));
  }

  /**
    An empty result is never returned: a complete listing without entries
    throws instead, and a failed listing whose entries are all objects is
    passed on as it is.
   */
  lemma EmptyListingThrows(fetched: Fetched, subdomain: string)
    ensures RedirectsOf(fetched, subdomain).Success? ==> RedirectsOf(fetched, subdomain).value != []
    ensures RedirectsOf(fetched, subdomain) == Failure(NoRedirects(subdomain))
        <==> fetched.failure.None? && AllItems(fetched.replies) == []
    ensures fetched.failure.Some? && AllObjects(AllItems(fetched.replies))
        ==> RedirectsOf(fetched, subdomain) == Failure(ListingFailed(fetched.failure.value))
    ensures RedirectsOf(fetched, subdomain).Failure? && RedirectsOf(fetched, subdomain).error.ListingFailed?
        ==> fetched.failure.Some?
  {
    AllObjectsAllItems(fetched.replies);
  }

  /**
    An entry that is not an object ends the listing: the result is the
    exception for the first such entry of the whole listing, and a success
    means every entry listed was an object.
   */
  lemma NonObjectEntryThrows(fetched: Fetched, subdomain: string)
    ensures RedirectsOf(fetched, subdomain).Success? ==> AllObjects(AllItems(fetched.replies))
    ensures var items := AllItems(fetched.replies);
      !AllObjects(items) ==> RedirectsOf(fetched, subdomain) == Failure(EntryNotObject(items[FirstNonObject(items).value]))
    ensures AllObjects(AllItems(fetched.replies)) ==>
      !(RedirectsOf(fetched, subdomain).Failure? && RedirectsOf(fetched, subdomain).error.EntryNotObject?)
  {
    AllObjectsAllItems(fetched.replies);
    if FirstBadPage(fetched.replies).Some? {
      var p := FirstBadPage(fetched.replies).value;
      FirstBadEntry(fetched.replies);
      var page := PageItems(fetched.replies[p]);
      AllItemsOrder(fetched.replies, p, FirstNonObject(page).value);
    }
  }

  /** A page listing a null entry ends the call with that exception, as under PHP 8 the assignment to its `type` throws. */
  lemma NullEntryThrows(subdomain: string)
    ensures var page := JObject(map["list" := JList([JNull])]);
      RedirectsOf(Fetched([], [page], None), subdomain) == Failure(EntryNotObject(JNull))
  {
    var page := JObject(map["list" := JList([JNull])]);
    assert PageItems(page) == [JNull];
    assert !AllObjects(PageItems(page)) by {
      assert !PageItems(page)[0].JObject?;
    }
    assert FirstBadPage([page]) == Some(0) by {
      assert [page][..0] == [];
    }
  }

  /**
    The requests: page 1 for the count, then pages 1 to the page count,
    each once, in order; a successful result has fetched every page.
   */
  lemma RedirectRequests(env: Env, subdomain: string)
    ensures var listing := GetRedirectsSpec(env, subdomain);
      && |listing.sent| >= 1
      && listing.sent[0] == PageRequest(env, "redirects", subdomain, 0, 1)
      && (forall k | 1 <= k < |listing.sent| :: listing.sent[k] == PageRequest(env, "redirects", subdomain, k, k))
      && (listing.result.Success? ==>
            var first := DecodedReply(env, listing.sent[0]);
            && PageCount(first).Some?
            && |listing.sent| == 1 + (if PageCount(first).value >= 1 then PageCount(first).value else 0))
  {
    assert IsSupportedTarget("redirects");
    var fetched := FetchAll(env, "redirects", subdomain);
    FetchAllRequests(env, "redirects", subdomain);
    SentUntilBadPagePrefix(fetched, subdomain);
    var sent := GetRedirectsSpec(env, subdomain).sent;
    forall k | 1 <= k < |sent|
      ensures sent[k] == PageRequest(env, "redirects", subdomain, k, k)
    {
      assert sent[k] == fetched.sent[k];
    }
  }
}
