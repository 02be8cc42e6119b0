/**
  The dyndns script (dyndns/dyndns.php; line numbers below refer to it): it lists every DNS record of the domain page by page,
  remembers the id and modification stamp of the last A and the last AAAA
  record of the subdomain, and sends one update for each with the addresses
  given on the command line. Exit status 1 is the script's own `exit(1)`,
  255 an exception the script does not catch, 0 a run to the end.
 */
module DynDns {
  import opened Wrappers
  import opened Json
  import opened MyraApi
  import opened Paging

  const Lang := "de"
  const Site := "app.myracloud.com"
  const Domain := "itsantetime.de"
  const Subdomain := "media." + Domain
  /** The record name the update bodies carry, written out in the script rather than taken from `Subdomain`. */
  const RecordName := "media.itsantetime.de"

  // ---------------------------------------------------------------- arguments

  /** `$argv[i]`: the argument, or null when there is none. */
  function ArgValue(argv: seq<string>, i: nat): Json
  {
    if i < |argv| then JStr(argv[i]) else JNull
  }

  /** The guard as written: `$argc < 2`, where `$argc` counts the script name too. */
  predicate ArgcGuardAsWritten(argv: seq<string>)
  {
    |argv| < 2
  }

  /** The guard the error message asks for: both an IPv4 and an IPv6 address. */
  predicate ArgcGuard(argv: seq<string>)
  {
    |argv| < 3
  }

  /** The guard as written lets a run with only the IPv4 address through; the IPv6 value is then null. */
  lemma ArgcGuardAsWrittenAdmitsMissingAddress()
    ensures var argv := ["dyndns.php", "192.0.2.1"];
      && !ArgcGuardAsWritten(argv)
      && ArgValue(argv, 2) == JNull
      && ArgcGuard(argv)
  {
  }

  /** Past the corrected guard both addresses are strings. */
  lemma ArgcGuardAdmitsBothAddresses(argv: seq<string>)
    requires !ArgcGuard(argv)
    ensures ArgValue(argv, 1) == JStr(argv[1]) && ArgValue(argv, 2) == JStr(argv[2])
    ensures !ArgcGuardAsWritten(argv)
  {
  }

  /** `$apikey == false` for a string: true for the empty string and for "0". */
  predicate LooselyFalse(s: string)
  {
    s == "" || s == "0"
  }

  // ---------------------------------------------------------------- the records kept

  /** `array('id' => ..., 'modified' => ...)` kept for one record type. */
  datatype RecordRef = RecordRef(id: Json, modified: Json)

  /** `($data->recordType == 'A' || $data->recordType == 'AAAA') && $data->name == $subdomain`. */
  predicate Matches(item: Json)
  {
    var t := Field(item, "recordType");
    (LooselyEqualsWord(t, "A") || LooselyEqualsWord(t, "AAAA")) && LooselyEqualsWord(Field(item, "name"), Subdomain)
  }

  /**
    The array key `$rec[$data->recordType]` uses: a string is its own key;
    `true`, the only other value the filter lets through, becomes key 1.
   */
  function RecordKey(recordType: Json): string
  {
    if recordType.JStr? then recordType.s else "1"
  }

  /** The item matches and is kept under `key`. */
  predicate KeptAs(item: Json, key: string)
  {
    Matches(item) && RecordKey(Field(item, "recordType")) == key
  }

  function RefOf(item: Json): RecordRef
  {
    RecordRef(Field(item, "id"), Field(item, "modified"))
  }

  /** One turn of the inner loop: a matching item overwrites the entry for its type. */
  function Remember(rec: map<string, RecordRef>, item: Json): map<string, RecordRef>
  {
    if Matches(item) then rec[RecordKey(Field(item, "recordType")) := RefOf(item)] else rec
  }

  /** `$rec` after the items, in order, starting from `rec`. */
  function SelectInto(rec: map<string, RecordRef>, items: seq<Json>): map<string, RecordRef>
  {
    if items == [] then rec
    else Remember(SelectInto(rec, items[..|items| - 1]), items[|items| - 1])
  }

  /** `$rec` after all the items listed. */
  function Select(items: seq<Json>): map<string, RecordRef>
  {
    SelectInto(map[], items)
  }

  lemma {:induction false} SelectIntoAppend(rec: map<string, RecordRef>, items: seq<Json>, more: seq<Json>)
    ensures SelectInto(rec, items + more) == SelectInto(SelectInto(rec, items), more)
    decreases |more|
  {
    if more == [] {
      assert items + more == items;
    } else {
      var n := |more|;
      assert (items + more)[..|items + more| - 1] == items + more[..n - 1];
      assert (items + more)[|items + more| - 1] == more[n - 1];
      SelectIntoAppend(rec, items, more[..n - 1]);
    }
  }

  /** Only "A", "AAAA" and the key of `true` are ever set. */
  lemma {:induction false} SelectKeys(items: seq<Json>)
    ensures forall key | key in Select(items) :: key == "A" || key == "AAAA" || key == "1"
  {
    if items != [] {
      var init := items[..|items| - 1];
      SelectKeys(init);
      assert Select(items) == Remember(Select(init), items[|items| - 1]);
    }
  }

  /** A type has an entry exactly when some item of the listing is kept under it. */
  lemma {:induction false} SelectHasKey(items: seq<Json>, key: string)
    ensures key in Select(items) <==> exists k | 0 <= k < |items| :: KeptAs(items[k], key)
  {
    if items != [] {
      var n := |items|;
      var init := items[..n - 1];
      SelectHasKey(init, key);
      if key in Select(items) && !KeptAs(items[n - 1], key) {
        var k :| 0 <= k < |init| && KeptAs(init[k], key);
        assert items[k] == init[k];
      }
      if exists k | 0 <= k < n :: KeptAs(items[k], key) {
        var k :| 0 <= k < n && KeptAs(items[k], key);
        if k < n - 1 {
          assert init[k] == items[k];
        }
      }
    }
  }

  /** The entry kept for a type is the one of the last item kept under it: later matches win. */
  lemma {:induction false} SelectKeepsLastMatch(items: seq<Json>, key: string, k: nat)
    requires k < |items| && KeptAs(items[k], key)
    requires forall m | k < m < |items| :: !KeptAs(items[m], key)
    ensures key in Select(items) && Select(items)[key] == RefOf(items[k])
  {
    var n := |items|;
    var init := items[..n - 1];
    if k < n - 1 {
      forall m | k < m < |init|
        ensures !KeptAs(init[m], key)
      {
        assert init[m] == items[m];
      }
      assert init[k] == items[k];
      SelectKeepsLastMatch(init, key, k);
      assert !KeptAs(items[n - 1], key);
    }
  }

  // ---------------------------------------------------------------- the updates

  /**
    The payload of one update (lines 89-98 and 102-111): the kept id and
    stamp, null when no record of that type was listed.
   */
  function UpdateBody(rec: map<string, RecordRef>, recordType: string, ip: Json): Json
  {
    var ref := if recordType in rec then rec[recordType] else RecordRef(JNull, JNull);
    JObject(map[
      "id" := ref.id,
      "value" := ip,
      "name" := JStr(RecordName),
      "active" := JBool(true),
      "enabled" := JBool(true),
      "recordType" := JStr(recordType),
      "ttl" := JStr("300"),
      "modified" := ref.modified])
  }

  /** The id and stamp sent for a type are those of the last record of that type listed for the subdomain. */
  lemma UpdateUsesLastMatch(items: seq<Json>, recordType: string, ip: Json, k: nat)
    requires k < |items| && KeptAs(items[k], recordType)
    requires forall m | k < m < |items| :: !KeptAs(items[m], recordType)
    ensures var body := UpdateBody(Select(items), recordType, ip);
      && Field(body, "id") == Field(items[k], "id")
      && Field(body, "modified") == Field(items[k], "modified")
      && Field(body, "value") == ip
  {
    SelectKeepsLastMatch(items, recordType, k);
  }

  /** With no record of a type listed, its update carries a null id and stamp. */
  lemma UpdateWithoutMatch(items: seq<Json>, recordType: string, ip: Json)
    requires forall m | 0 <= m < |items| :: !KeptAs(items[m], recordType)
    ensures var body := UpdateBody(Select(items), recordType, ip);
      Field(body, "id") == JNull && Field(body, "modified") == JNull
  {
    SelectHasKey(items, recordType);
  }

  /** `call('dnsRecords', 'update', $domain, $body)` as the operation's call number `callNo`. */
  function UpdateCall(env: Env, callNo: nat, rec: map<string, RecordRef>, recordType: string, ip: Json): CallResult
  {
    CallSpec(env.client, env.prims, env.send, env.clock(callNo), "dnsRecords", "update", Domain,
             UpdateBody(rec, recordType, ip), [], false)
  }

  /** The domain scope is not trimmed: updates go to the domain's own URL. */
  lemma UpdateUrl(c: Client)
    ensures "https://" + c.site + Uri(c, "dnsRecords", Domain) == "https://" + c.site + "/" + c.lang + "/rapi/dnsRecords/" + Domain
  {
    UriKeepsScope(c, "dnsRecords", Domain);
  }

  /** An update payload is never loosely null, so it is always encoded and sent. */
  lemma UpdateBodyIsSent(p: Primitives, rec: map<string, RecordRef>, recordType: string, ip: Json)
    ensures RequestBody(p, "update", UpdateBody(rec, recordType, ip)) == Success(p.jsonEncode(UpdateBody(rec, recordType, ip)))
  {
    assert "ttl" in UpdateBody(rec, recordType, ip).fields;
  }

  /** The request an update hands to the transport. */
  function UpdateRequest(env: Env, callNo: nat, rec: map<string, RecordRef>, recordType: string, ip: Json): (r: Request)
    ensures r.verb == POST
    ensures r.url == "https://" + env.client.site + "/" + env.client.lang + "/rapi/dnsRecords/" + Domain
    ensures r.body == env.prims.jsonEncode(UpdateBody(rec, recordType, ip))
  {
    assert IsSupportedTarget("dnsRecords");
    UpdateUrl(env.client);
    UpdateBodyIsSent(env.prims, rec, recordType, ip);
    Prepare(env.client, env.prims, env.clock(callNo), "dnsRecords", "update", Domain,
            UpdateBody(rec, recordType, ip), []).value
  }

  /** An update sends exactly its request, and a reply it returns is never flagged. */
  lemma UpdateCallSends(env: Env, callNo: nat, rec: map<string, RecordRef>, recordType: string, ip: Json)
    ensures var call := UpdateCall(env, callNo, rec, recordType, ip);
      && call.sent == [UpdateRequest(env, callNo, rec, recordType, ip)]
      && (call.outcome.Success? ==> !ErrorFlagged(call.outcome.value.decoded))
  {
    assert IsSupportedTarget("dnsRecords");
    UpdateBodyIsSent(env.prims, rec, recordType, ip);
    var call := UpdateCall(env, callNo, rec, recordType, ip);
    ReturnedReplyNotFlagged(env.prims, "dnsRecords", "update", env.send(call.sent[0]));
  }

  // ---------------------------------------------------------------- the run

  /** The exit status and every request sent. */
  datatype Exit = Exit(status: int, sent: seq<Request>)

  /** How the run ends once the listing is over and the two updates are known. */
  function Finish(fetched: Fetched, updateA: CallResult, updateAAAA: CallResult): Exit
  {
    match fetched.failure
    case Some(Flagged(_)) => Exit(1, fetched.sent)
    case Some(_) => Exit(255, fetched.sent)
    case None =>
      var updates := AfterUpdates(updateA, updateAAAA);
      Exit(updates.status, fetched.sent + updates.sent)
  }

  /**
    Lines 100-120: an exception from either update ends the run; only the
    second update's reply is looked at.
   */
  function AfterUpdates(updateA: CallResult, updateAAAA: CallResult): Exit
  {
    if updateA.outcome.Failure? then Exit(255, updateA.sent)
    else
      var sent := updateA.sent + updateAAAA.sent;
      if updateAAAA.outcome.Failure? then Exit(255, sent)
      else if ErrorFlagged(updateAAAA.outcome.value.decoded) then Exit(1, sent)
      else Exit(0, sent)
  }

  function ScriptEnv(apiKey: string, secret: string, prims: Primitives,
                     send: Request -> Response, clock: nat -> string): Env
  {
    Env(Client(Lang, Site, apiKey, secret), prims, send, clock)
  }

  /** The whole script, with the corrected argument guard. */
  function RunSpec(argv: seq<string>, apiKey: string, secret: string, prims: Primitives,
                   send: Request -> Response, clock: nat -> string): Exit
  {
    if ArgcGuard(argv) then Exit(1, []) else RunPastArgcGuard(argv, apiKey, secret, prims, send, clock)
  }

  /** The whole script with the argument guard as written. */
  function RunSpecAsWritten(argv: seq<string>, apiKey: string, secret: string, prims: Primitives,
                            send: Request -> Response, clock: nat -> string): Exit
  {
    if ArgcGuardAsWritten(argv) then Exit(1, []) else RunPastArgcGuard(argv, apiKey, secret, prims, send, clock)
  }

  /** Lines 39-120: the credential guards, the listing and the two updates. */
  function RunPastArgcGuard(argv: seq<string>, apiKey: string, secret: string, prims: Primitives,
                            send: Request -> Response, clock: nat -> string): Exit
  {
    if LooselyFalse(apiKey) || LooselyFalse(secret) then Exit(1, [])
    else
      var env := ScriptEnv(apiKey, secret, prims, send, clock);
      var fetched := FetchAll(env, "dnsRecords", Domain);
      var rec := Select(AllItems(fetched.replies));
      var n := |fetched.sent|;
      Finish(fetched, UpdateCall(env, n, rec, "A", ArgValue(argv, 1)),
             UpdateCall(env, n + 1, rec, "AAAA", ArgValue(argv, 2)))
  }

  /**
    Lines 9-120. `apiKey` and `secret` are the trimmed contents of the key
    files; `send` and `clock` stand for the network and `date('c')`.
   */
  method Run(argv: seq<string>, apiKey: string, secret: string, prims: Primitives,
             send: Request -> Response, clock: nat -> string)
    returns (status: int, sent: seq<Request>)
    ensures Exit(status, sent) == RunSpec(argv, apiKey, secret, prims, send, clock)
  {
    if ArgcGuard(argv) {
      return 1, [];
    }
    if LooselyFalse(apiKey) {
      return 1, [];
    }
    if LooselyFalse(secret) {
      return 1, [];
    }
    var env := ScriptEnv(apiKey, secret, prims, send, clock);
    var rec, failure;
    sent, rec, failure := ListRecords(env);
    if failure.Some? {
      status := if failure.value.Flagged? then 1 else 255;
      return;
    }
    var updates;
    status, updates := SendUpdates(env, |sent|, rec, argv);
    sent := sent + updates;
  }

  /**
    Lines 57-87: the page-count call, then the page loop, with the records
    of the subdomain kept in `rec`.
   */
  method ListRecords(env: Env) returns (sent: seq<Request>, rec: map<string, RecordRef>, failure: Option<PageFailure>)
    ensures var f := FetchAll(env, "dnsRecords", Domain);
      sent == f.sent && failure == f.failure && (failure.None? ==> rec == Select(AllItems(f.replies)))
  {
    var first, outcome := ListPage(env, "dnsRecords", Domain, 0, 1);
    ghost var calls := PageCalls(env, "dnsRecords", Domain);
    assert FetchAll(env, "dnsRecords", Domain) == FetchAfter(CallResult(first, outcome), calls);
    sent, rec := first, map[];
    if outcome.Failure? {
      return sent, rec, Some(Thrown(outcome.error));
    }
    var ret := outcome.value.decoded;
    if ErrorFlagged(ret) {
      return sent, rec, Some(Flagged(ret));
    }
    var count := PageCount(ret);
    if count.None? {
      return sent, rec, Some(BadCount(ret));
    }
    PageCallsListPages(env, "dnsRecords", Domain);
    var rest;
    rest, rec, failure := CollectRecords(env, count.value, calls);
    sent := sent + rest;
  }

  /** Lines 89-120: the two updates, the A record first. */
  method SendUpdates(env: Env, n: nat, rec: map<string, RecordRef>, argv: seq<string>)
    returns (status: int, sent: seq<Request>)
    ensures Exit(status, sent) == AfterUpdates(UpdateCall(env, n, rec, "A", ArgValue(argv, 1)),
                                               UpdateCall(env, n + 1, rec, "AAAA", ArgValue(argv, 2)))
  {
    var a, aOutcome := Call(env.client, env.prims, env.send, env.clock(n), "dnsRecords", "update", Domain,
                            UpdateBody(rec, "A", ArgValue(argv, 1)), [], false);
    assert CallResult(a, aOutcome) == UpdateCall(env, n, rec, "A", ArgValue(argv, 1));
    sent := a;
    if aOutcome.Failure? {
      return 255, sent;
    }
    var b, bOutcome := Call(env.client, env.prims, env.send, env.clock(n + 1), "dnsRecords", "update", Domain,
                            UpdateBody(rec, "AAAA", ArgValue(argv, 2)), [], false);
    assert CallResult(b, bOutcome) == UpdateCall(env, n + 1, rec, "AAAA", ArgValue(argv, 2));
    sent := sent + b;
    if bOutcome.Failure? {
      return 255, sent;
    }
    if ErrorFlagged(bOutcome.value.decoded) {
      return 1, sent;
    }
    status := 0;
  }

  /**
    The page loop of lines 68-87: pages 1 to `pages`, each listed once, the
    matching records of each remembered, stopping at the first call that
    throws or reply that is flagged.
   */
  method CollectRecords(env: Env, pages: int, ghost calls: nat -> CallResult)
    returns (sent: seq<Request>, rec: map<string, RecordRef>, failure: Option<PageFailure>)
    requires ListsPages(env, "dnsRecords", Domain, calls)
    ensures var f := FetchFrom(calls, 1, pages);
      sent == f.sent && failure == f.failure && (failure.None? ==> rec == Select(AllItems(f.replies)))
  {
    sent, rec, failure := [], map[], None;
    ghost var replies: seq<Json> := [];
    ghost var items: seq<Json> := [];
    var i: nat := 1;
    while i <= pages
      invariant 1 <= i && (pages >= 1 ==> i <= pages + 1)
      invariant FetchFrom(calls, 1, pages) == Resume(sent, replies, FetchFrom(calls, i, pages))
      invariant items == AllItems(replies) && rec == SelectInto(map[], items)
      decreases pages - i
    {
      var got, pageOutcome := NextPage(env, "dnsRecords", Domain, i, calls);
      FetchFromStep(calls, i, pages, sent, replies);
      if pageOutcome.Failure? {
        return sent + got, rec, Some(Thrown(pageOutcome.error));
      }
      var ret := pageOutcome.value.decoded;
      if ErrorFlagged(ret) {
        return sent + got, rec, Some(Flagged(ret));
      }
      sent := sent + got;
      rec := RememberAll(rec, PageItems(ret));
      AllItemsNextPage(replies, ret);
      SelectIntoAppend(map[], items, PageItems(ret));
      items := items + PageItems(ret);
      replies := replies + [ret];
      i := i + 1;
    }
    FetchFromDone(calls, i, pages, sent, replies);
  }

  /** The inner loop of lines 74-81: each matching item of one page overwrites the entry for its type. */
  method RememberAll(rec: map<string, RecordRef>, items: seq<Json>) returns (out: map<string, RecordRef>)
    ensures out == SelectInto(rec, items)
  {
    out := rec;
    var j := 0;
    while j < |items|
      invariant 0 <= j <= |items|
      invariant out == SelectInto(rec, items[..j])
    {
      var data := items[j];
      var t := Field(data, "recordType");
      if (LooselyEqualsWord(t, "A") || LooselyEqualsWord(t, "AAAA")) && LooselyEqualsWord(Field(data, "name"), Subdomain) {
        out := out[RecordKey(t) := RecordRef(Field(data, "id"), Field(data, "modified"))];
      }
      assert items[..j + 1][..j] == items[..j];
      j := j + 1;
    }
    assert items[..j] == items;
  }

  // ---------------------------------------------------------------- what a run does

  /**
    When the listing is never stopped by an error flag, each update sends
    one request and a returned update reply is never flagged: a failed
    listing exits 255 with nothing more sent; otherwise the A update is sent,
    then the AAAA update only if the A update returned, and the status is 0
    exactly when both returned.
   */
  lemma FinishShape(fetched: Fetched, updateA: CallResult, updateAAAA: CallResult)
    requires !(fetched.failure.Some? && fetched.failure.value.Flagged?)
    requires |updateA.sent| == 1 && |updateAAAA.sent| == 1
    requires updateAAAA.outcome.Success? ==> !ErrorFlagged(updateAAAA.outcome.value.decoded)
    ensures var r := Finish(fetched, updateA, updateAAAA);
      var n := |fetched.sent|;
      && (r.status == 0 || r.status == 255)
      && (fetched.failure.Some? ==> r == Exit(255, fetched.sent))
      && (fetched.failure.None? ==>
            && |r.sent| == (if updateA.outcome.Failure? then n + 1 else n + 2)
            && r.sent[..n] == fetched.sent
            && r.sent[n] == updateA.sent[0]
            && (|r.sent| == n + 2 ==> r.sent[n + 1] == updateAAAA.sent[0])
            && (r.status == 0 <==> updateA.outcome.Success? && updateAAAA.outcome.Success?))
  {
    if fetched.failure.None? {
      var u := AfterUpdates(updateA, updateAAAA);
      assert (fetched.sent + u.sent)[..|fetched.sent|] == fetched.sent;
    }
  }

  /**
    The exit status, under either argument guard: 1 exactly when the guard
    or a credential check stops the run, and then nothing is sent; no error
    flag ever reaches the script's own checks, so a run past the guards
    exits 0 or 255.
   */
  lemma ExitStatus(argv: seq<string>, apiKey: string, secret: string, prims: Primitives,
                   send: Request -> Response, clock: nat -> string)
    ensures var r := RunSpec(argv, apiKey, secret, prims, send, clock);
      && (r.status == 0 || r.status == 1 || r.status == 255)
      && (r.status == 1 <==> ArgcGuard(argv) || LooselyFalse(apiKey) || LooselyFalse(secret))
      && (r.status == 1 ==> r.sent == [])
    ensures var r := RunSpecAsWritten(argv, apiKey, secret, prims, send, clock);
      && (r.status == 0 || r.status == 1 || r.status == 255)
      && (r.status == 1 <==> ArgcGuardAsWritten(argv) || LooselyFalse(apiKey) || LooselyFalse(secret))
      && (r.status == 1 ==> r.sent == [])
  {
    if !(ArgcGuardAsWritten(argv) || LooselyFalse(apiKey) || LooselyFalse(secret)) {
      RunRequests(argv, apiKey, secret, prims, send, clock);
    }
  }

  /**
    The requests of a run past the guards as written: the listing, then the
    A update with the first address, then, if that returned, the AAAA update
    with `$argv[2]` (null when only one address was given); both updates
    carry the id and stamp kept from the listing. The corrected guard lets
    through only runs with both addresses, which then go the same way.
   */
  lemma RunRequests(argv: seq<string>, apiKey: string, secret: string, prims: Primitives,
                    send: Request -> Response, clock: nat -> string)
    requires !ArgcGuardAsWritten(argv) && !LooselyFalse(apiKey) && !LooselyFalse(secret)
    ensures var env := ScriptEnv(apiKey, secret, prims, send, clock);
      var fetched := FetchAll(env, "dnsRecords", Domain);
      var rec := Select(AllItems(fetched.replies));
      var n := |fetched.sent|;
      var r := RunSpecAsWritten(argv, apiKey, secret, prims, send, clock);
      && (!ArgcGuard(argv) ==> RunSpec(argv, apiKey, secret, prims, send, clock) == r)
      && (r.status == 0 || r.status == 255)
      && (fetched.failure.Some? ==> r == Exit(255, fetched.sent))
      && (fetched.failure.None? ==>
            && (|r.sent| == n + 1 || |r.sent| == n + 2)
            && (|r.sent| == n + 2 <==> UpdateCall(env, n, rec, "A", ArgValue(argv, 1)).outcome.Success?)
            && r.sent[..n] == fetched.sent
            && r.sent[n] == UpdateRequest(env, n, rec, "A", JStr(argv[1]))
            && (|r.sent| == n + 2 ==> r.sent[n + 1] == UpdateRequest(env, n + 1, rec, "AAAA", ArgValue(argv, 2)))
            && (r.status == 0 ==> |r.sent| == n + 2))
  {
    var env := ScriptEnv(apiKey, secret, prims, send, clock);
    var fetched := FetchAll(env, "dnsRecords", Domain);
    var rec := Select(AllItems(fetched.replies));
    var n := |fetched.sent|;
    var updateA := UpdateCall(env, n, rec, "A", ArgValue(argv, 1));
    var updateAAAA := UpdateCall(env, n + 1, rec, "AAAA", ArgValue(argv, 2));
    assert RunSpecAsWritten(argv, apiKey, secret, prims, send, clock) == Finish(fetched, updateA, updateAAAA);
    assert ArgValue(argv, 1) == JStr(argv[1]);
    assert IsSupportedTarget("dnsRecords");
    FetchAllNeverFlagged(env, "dnsRecords", Domain);
    UpdateCallSends(env, n, rec, "A", ArgValue(argv, 1));
    UpdateCallSends(env, n + 1, rec, "AAAA", ArgValue(argv, 2));
    FinishShape(fetched, updateA, updateAAAA);
  }
}
