/**
  `MyraApi::call` (dyndns/MyraApi.php; line numbers below refer to it): one signed request to the Myra API and the interpretation
  of its reply. The client's four settings are fixed by its constructor and
  never change afterwards, so they form a value (`Client`). The library calls
  the client makes (md5, HMAC-SHA256, raw HMAC-SHA512, base64, json_encode,
  json_decode) are the fields of `Primitives`, which the model only applies
  and compares; the current time is the `date` argument and the network is
  the `send` argument.
 */
module MyraApi {
  import opened Wrappers
  import opened Json
  import Text

  datatype Client = Client(lang: string, site: string, apiKey: string, secret: string)

  datatype Primitives = Primitives(
    md5: string -> string,
    /** `hash_hmac('sha256', data, key)` as hex text. */
    hmacSha256: (string, string) -> string,
    /** `hash_hmac('sha512', data, key, true)`: the raw digest. */
    hmacSha512Raw: (string, string) -> string,
    base64: string -> string,
    /** `json_encode`; None stands for the false it returns on failure (a string that is not UTF-8). */
    jsonEncode: Json -> Option<string>,
    /** Yields null for text that is not JSON, as PHP's json_decode does. */
    jsonDecode: string -> Json)

  datatype Verb = PUT | POST | GET | DELETE

  function VerbName(v: Verb): string
  {
    match v
    case PUT => "PUT"
    case POST => "POST"
    case GET => "GET"
    case DELETE => "DELETE"
  }

  /** What the transport is handed: full URL, method, optional body (None for null or false), header lines. */
  datatype Request = Request(url: string, verb: Verb, body: Option<string>, headers: seq<string>)

  /** What the transport gives back: HTTP status and raw content. */
  datatype Response = Response(status: int, content: string)

  /** The exceptions `call` throws. */
  datatype ApiError =
    | UnsupportedTarget(target: string)
    | UnknownMethod(action: string)
    | HttpStatus(status: int)
    | Application(diagnostic: string)
    | ArrayBody  // md5 handed an array: a TypeError

  /** A returned reply; in skip mode a flagged reply carries the diagnostic that was echoed. */
  datatype Reply = Reply(decoded: Json, warning: Option<string>)

  /** The requests handed to the transport (none or one) and what `call` ends with. */
  datatype CallResult = CallResult(sent: seq<Request>, outcome: Result<Reply, ApiError>)

  // ---------------------------------------------------------------- targets

  /** The whitelist exactly as written, with 'statistic' listed twice. */
  const SupportedTargets: seq<string> := [
    "cacheClear", "cacheSettings", "certificates", "dnsRecords", "domains",
    "errorpages", "ipfilter", "maintenance", "networks", "permissions",
    "redirects", "statistic", "statistic", "statistic/query", "subdomainSetting",
    "tag", "waf", "waf/rule", "waf/rules", "waf/rules/domain"]

  /** The nineteen distinct resource names. */
  const TargetNames: set<string> := {
    "cacheClear", "cacheSettings", "certificates", "dnsRecords", "domains",
    "errorpages", "ipfilter", "maintenance", "networks", "permissions",
    "redirects", "statistic", "statistic/query", "subdomainSetting",
    "tag", "waf", "waf/rule", "waf/rules", "waf/rules/domain"}

  predicate IsSupportedTarget(target: string)
  {
    target in SupportedTargets
  }

  /** The repeated entry changes nothing: membership is membership in the distinct names. */
  lemma WhitelistIsTargetNames(target: string)
    ensures IsSupportedTarget(target) <==> target in TargetNames
    ensures SupportedTargets[11] == SupportedTargets[12]
    ensures IsSupportedTarget(target) <==> target in SupportedTargets[..12] + SupportedTargets[13..]
  {
  }

  // ---------------------------------------------------------------- request

  /** The action switch: which HTTP method an action uses, or None for an unknown action. */
  function VerbFor(action: string): (r: Option<Verb>)
    ensures r == Some(PUT) <==> action == "create"
    ensures r == Some(POST) <==> action == "update" || action == "query"
    ensures r == Some(GET) <==> action == "list"
    ensures r == Some(DELETE) <==> action == "delete"
    ensures r == None <==> action !in {"create", "update", "query", "list", "delete"}
  {
    match action
    case "create" => Some(PUT)
    case "update" => Some(POST)
    case "query" => Some(POST)
    case "list" => Some(GET)
    case "delete" => Some(DELETE)
    case _ => None
  }

  /** `array()`, whichever way the payload was built. */
  predicate EmptyArray(body: Json)
  {
    body == JList([]) || body == JObject(map[])
  }

  /**
    What `$body` holds when it is signed and posted. `list` replaces the
    payload with null. A payload that is not loosely equal to null is
    replaced by its JSON text (or by false, when encoding fails). Any other
    payload stays as it is: null and false post nothing, 0 and "" are posted
    as text, and an empty array makes md5 throw.
   */
  function RequestBody(p: Primitives, action: string, body: Json): (r: Result<Option<string>, ApiError>)
    ensures action == "list" ==> r == Success(None)
    ensures action != "list" && !LooselyNull(body) ==> r == Success(p.jsonEncode(body))
    ensures r.Failure? <==> action != "list" && EmptyArray(body)
    ensures r.Failure? ==> r.error == ArrayBody
    ensures action != "list" && (body.JNull? || body.JBool?) && LooselyNull(body) ==> r == Success(None)
    ensures action != "list" && (body.JInt? || body.JStr?) && LooselyNull(body) ==> r == Success(Some(PhpString(body)))
    ensures r.Success? && action != "list" && LooselyNull(body) ==> BodyText(r.value) == PhpString(body)
  {
    if action == "list" then Success(None)
    else if !LooselyNull(body) then Success(p.jsonEncode(body))
    else if EmptyArray(body) then Failure(ArrayBody)
    else if body.JInt? || body.JStr? then Success(Some(PhpString(body)))
    else Success(None)
  }

  /** md5 and strlen read null and false as the empty string. */
  function BodyText(body: Option<string>): string
  {
    if body.Some? then body.value else ""
  }

  /** The path before trimming. */
  function RawUri(c: Client, target: string, domain: string): string
  {
    "/" + c.lang + "/rapi/" + target + "/" + domain
  }

  /** The canonical URI: the raw path with every trailing slash removed. */
  function Uri(c: Client, target: string, domain: string): (r: string)
    ensures r <= RawUri(c, target, domain)
    ensures r == [] || r[|r| - 1] != '/'
    ensures forall i | |r| <= i < |RawUri(c, target, domain)| :: RawUri(c, target, domain)[i] == '/'
  {
    Text.TrimTrailing(RawUri(c, target, domain), '/')
  }

  /** A scope that does not end in a slash reaches the URI untouched. */
  lemma UriKeepsScope(c: Client, target: string, domain: string)
    requires domain != [] && domain[|domain| - 1] != '/'
    ensures Uri(c, target, domain) == RawUri(c, target, domain)
  {
    var raw := RawUri(c, target, domain);
    assert raw[|raw| - 1] == domain[|domain| - 1];
  }

  // ---------------------------------------------------------------- signing

  const ContentType := "application/json"

  function SigningString(bodyHash: string, v: Verb, uri: string, date: string): string
  {
    bodyHash + "#" + VerbName(v) + "#" + uri + "#" + ContentType + "#" + date
  }

  /** Five fields written one after another with `#` between them are their join. */
  lemma JoinFive(a: string, b: string, c: string, d: string, e: string)
    ensures a + "#" + b + "#" + c + "#" + d + "#" + e == Text.Join([a, b, c, d, e], '#')
  {
    Text.JoinFront(d, [e], '#');
    Text.JoinFront(c, [d, e], '#');
    Text.JoinFront(b, [c, d, e], '#');
    Text.JoinFront(a, [b, c, d, e], '#');
    assert [a] + [b, c, d, e] == [a, b, c, d, e];
  }

  /** Five `#`-free fields joined with `#` split back into those fields. */
  lemma JoinedFieldsSplit(a: string, b: string, c: string, d: string, e: string)
    requires '#' !in a && '#' !in b && '#' !in c && '#' !in d && '#' !in e
    ensures Text.Split(a + "#" + b + "#" + c + "#" + d + "#" + e, '#') == [a, b, c, d, e]
  {
    JoinFive(a, b, c, d, e);
    Text.SplitJoin([a, b, c, d, e], '#');
  }

  /** The signing string reads back as its five fields, in order. */
  lemma SigningStringFields(bodyHash: string, v: Verb, uri: string, date: string)
    requires '#' !in bodyHash && '#' !in uri && '#' !in date
    ensures Text.Split(SigningString(bodyHash, v, uri, date), '#')
         == [bodyHash, VerbName(v), uri, ContentType, date]
  {
    assert '#' !in VerbName(v) && '#' !in ContentType;
    JoinedFieldsSplit(bodyHash, VerbName(v), uri, ContentType, date);
  }

  /** The key chain: date key, then signing key, then the base64 HMAC-SHA512 of the signing string. */
  function Signature(p: Primitives, secret: string, signingString: string, date: string): string
  {
    var dateKey := p.hmacSha256(date, "MYRA" + secret);
    var signingKey := p.hmacSha256("myra-api-request", dateKey);
    p.base64(p.hmacSha512Raw(signingString, signingKey))
  }

  /** One header line, `name: value`. */
  function HeaderLine(name: string, value: string): string
  {
    name + ": " + value
  }

  /** The five generated header lines, then the caller's options. */
  function Headers(c: Client, bodyText: string, date: string, signature: string, options: seq<string>): (h: seq<string>)
    ensures |h| == 5 + |options| && h[5..] == options
    ensures h[0] == HeaderLine("Content-Type", ContentType)
    ensures h[1] == HeaderLine("Content-Length", Text.Decimal(|bodyText|))
    ensures h[2] == HeaderLine("Host", c.site)
    ensures h[3] == HeaderLine("Date", date)
    ensures h[4] == HeaderLine("Authorization", "MYRA " + c.apiKey + ":" + signature)
  {
    [HeaderLine("Content-Type", ContentType),
     HeaderLine("Content-Length", Text.Decimal(|bodyText|)),
     HeaderLine("Host", c.site),
     HeaderLine("Date", date),
     HeaderLine("Authorization", "MYRA " + c.apiKey + ":" + signature)] + options
  }

  /** The value of the first header line named `name`, as a server reading the first occurrence sees it. */
  function HeaderValue(headers: seq<string>, name: string): (r: Option<string>)
    ensures r.Some? ==> exists k | 0 <= k < |headers| :: headers[k] == HeaderLine(name, r.value)
  {
    if headers == [] then None
    else if name + ": " <= headers[0] then Some(headers[0][|name| + 2..])
    else HeaderValue(headers[1..], name)
  }

  /** A header line `name: value` at the front is the one read. */
  lemma HeaderValueHere(headers: seq<string>, name: string, value: string)
    requires headers != [] && headers[0] == HeaderLine(name, value)
    ensures HeaderValue(headers, name) == Some(value)
  {
    assert name + ": " <= headers[0];
    assert headers[0][|name| + 2..] == value;
  }

  /** A first line whose name differs in its first letter is passed over. */
  lemma HeaderValueSkip(headers: seq<string>, name: string)
    requires headers != [] && headers[0] != [] && name != [] && headers[0][0] != name[0]
    ensures HeaderValue(headers, name) == HeaderValue(headers[1..], name)
  {
    assert (name + ": ")[0] == name[0];
  }

  /** Options appended by the caller cannot shadow the generated Date and Authorization values. */
  lemma GeneratedHeadersWin(c: Client, bodyText: string, date: string, signature: string, options: seq<string>)
    ensures HeaderValue(Headers(c, bodyText, date, signature, options), "Date") == Some(date)
    ensures HeaderValue(Headers(c, bodyText, date, signature, options), "Authorization")
         == Some("MYRA " + c.apiKey + ":" + signature)
  {
    var h := Headers(c, bodyText, date, signature, options);
    var auth := "MYRA " + c.apiKey + ":" + signature;
    assert h[0][0] == 'C' && h[1][0] == 'C' && h[2][0] == 'H' && h[3][0] == 'D';
    assert h[1..][1..] == h[2..] && h[2..][1..] == h[3..] && h[3..][1..] == h[4..];
    forall name | name == "Date" || name == "Authorization"
      ensures HeaderValue(h, name) == HeaderValue(h[3..], name)
    {
      HeaderValueSkip(h, name);
      HeaderValueSkip(h[1..], name);
      HeaderValueSkip(h[2..], name);
    }
    HeaderValueHere(h[3..], "Date", date);
    HeaderValueSkip(h[3..], "Authorization");
    HeaderValueHere(h[4..], "Authorization", auth);
  }

  /**
    Lines 91-140: whitelist, verb, body, URI, signature and headers. The one
    `date` value goes into both the signing string and the Date header.
   */
  function Prepare(c: Client, p: Primitives, date: string, target: string, action: string,
                   domain: string, body: Json, options: seq<string>): (r: Result<Request, ApiError>)
    ensures !IsSupportedTarget(target) ==> r == Failure(UnsupportedTarget(target))
    ensures IsSupportedTarget(target) && VerbFor(action).None? ==> r == Failure(UnknownMethod(action))
    ensures IsSupportedTarget(target) && VerbFor(action).Some? && RequestBody(p, action, body).Failure?
            ==> r == Failure(ArrayBody)
    ensures r.Success? <==> IsSupportedTarget(target) && VerbFor(action).Some? && RequestBody(p, action, body).Success?
    ensures r.Success? ==>
      var req := r.value;
      var text := BodyText(req.body);
      var uri := Uri(c, target, domain);
      && req.verb == VerbFor(action).value
      && req.url == "https://" + c.site + uri
      && req.body == RequestBody(p, action, body).value
      && req.headers == Headers(c, text, date,
           Signature(p, c.secret, SigningString(p.md5(text), req.verb, uri, date), date), options)
  {
    if !IsSupportedTarget(target) then Failure(UnsupportedTarget(target))
    else match VerbFor(action)
      case None => Failure(UnknownMethod(action))
      case Some(v) =>
        match RequestBody(p, action, body)
        case Failure(e) => Failure(e)
        case Success(payload) =>
          var text := BodyText(payload);
          var uri := Uri(c, target, domain);
          var signature := Signature(p, c.secret, SigningString(p.md5(text), v, uri, date), date);
          Success(Request("https://" + c.site + uri, v, payload, Headers(c, text, date, signature, options)))
  }

  // ---------------------------------------------------------------- reply

  datatype Violation = Violation(message: string, propertyPath: string)

  function ViolationOf(item: Json): Violation
  {
    Violation(PhpString(Field(item, "message")), PhpString(Field(item, "propertyPath")))
  }

  /** The entries of `violationList`; anything that is not a list yields none. */
  function ViolationItems(reply: Json): seq<Json>
  {
    ListItems(reply, "violationList")
  }

  function ViolationText(v: Violation): string
  {
    "Message: " + v.message + "\n" + "Path:    " + v.propertyPath + "\n\n"
  }

  /**
    The diagnostic of a flagged reply. The loop assigns the message afresh for
    each violation, so only the last one survives.
   */
  function Diagnostic(target: string, action: string, items: seq<Json>): string
  {
    "\n" + "[ERROR] " + target + " " + action + "\n"
      + (if items == [] then "" else ViolationText(ViolationOf(items[|items| - 1])))
  }

  /** Earlier violations never reach the diagnostic. */
  lemma DiagnosticKeepsLast(target: string, action: string, earlier: seq<Json>, last: Json)
    ensures Diagnostic(target, action, earlier + [last]) == Diagnostic(target, action, [last])
  {
  }

  /** Lines 147-156: the violation loop and the framing of the diagnostic. */
  method BuildDiagnostic(target: string, action: string, items: seq<Json>) returns (diagnostic: string)
    ensures diagnostic == Diagnostic(target, action, items)
  {
    var message := "";
    var k := 0;
    while k < |items|
      invariant 0 <= k <= |items|
      invariant message == if k == 0 then "" else ViolationText(ViolationOf(items[k - 1]))
    {
      var data := items[k];
      message := "Message: " + PhpString(Field(data, "message")) + "\n";
      message := message + "Path:    " + PhpString(Field(data, "propertyPath")) + "\n\n";
      k := k + 1;
    }
    diagnostic := "\n" + "[ERROR] " + target + " " + action + "\n" + message;
  }

  predicate ErrorFlagged(reply: Json)
  {
    Truthy(Field(reply, "error"))
  }

  /** Lines 144-168: status check, decoding and the error envelope. */
  function Interpret(p: Primitives, target: string, action: string, resp: Response, skipErrors: bool): (r: Result<Reply, ApiError>)
    ensures resp.status != 200 <==> r == Failure(HttpStatus(resp.status))
    ensures resp.status == 200 && !ErrorFlagged(p.jsonDecode(resp.content))
            ==> r == Success(Reply(p.jsonDecode(resp.content), None))
    ensures resp.status == 200 && ErrorFlagged(p.jsonDecode(resp.content)) && !skipErrors
            ==> r == Failure(Application(Diagnostic(target, action, ViolationItems(p.jsonDecode(resp.content)))))
    ensures resp.status == 200 && ErrorFlagged(p.jsonDecode(resp.content)) && skipErrors
            ==> r == Success(Reply(p.jsonDecode(resp.content),
                                   Some(Diagnostic(target, action, ViolationItems(p.jsonDecode(resp.content))))))
  {
    if resp.status != 200 then Failure(HttpStatus(resp.status))
    else
      var reply := p.jsonDecode(resp.content);
      if ErrorFlagged(reply) then
        var diagnostic := Diagnostic(target, action, ViolationItems(reply));
        if skipErrors then Success(Reply(reply, Some(diagnostic))) else Failure(Application(diagnostic))
      else Success(Reply(reply, None))
  }

  /** A reply that comes back without skip mode is never flagged. */
  lemma ReturnedReplyNotFlagged(p: Primitives, target: string, action: string, resp: Response)
    ensures Interpret(p, target, action, resp, false).Success? ==>
            !ErrorFlagged(Interpret(p, target, action, resp, false).value.decoded)
  {
  }

  /** A status other than 200 fails the same way whatever the content and however it would decode. */
  lemma NonOkNeverDecodes(p: Primitives, q: Primitives, target: string, action: string,
                          status: int, content: string, other: string, skipErrors: bool)
    requires status != 200
    ensures Interpret(p, target, action, Response(status, content), skipErrors)
         == Interpret(q, target, action, Response(status, other), skipErrors)
  {
  }

  /** Skip mode changes only the fate of a flagged reply: everything else comes out the same. */
  lemma SkipOnlyAffectsFlagged(p: Primitives, target: string, action: string, resp: Response)
    requires resp.status != 200 || !ErrorFlagged(p.jsonDecode(resp.content))
    ensures Interpret(p, target, action, resp, true) == Interpret(p, target, action, resp, false)
  {
  }

  // ---------------------------------------------------------------- call

  /** The whole of `call`: the request handed to the transport, if any, and the result. */
  function CallSpec(c: Client, p: Primitives, send: Request -> Response, date: string,
                    target: string, action: string, domain: string, body: Json,
                    options: seq<string>, skipErrors: bool): (r: CallResult)
    ensures |r.sent| <= 1
    ensures r.sent == [] <==> Prepare(c, p, date, target, action, domain, body, options).Failure?
    ensures !IsSupportedTarget(target) ==> r == CallResult([], Failure(UnsupportedTarget(target)))
    ensures r.sent == [] ==> r.outcome == Failure(Prepare(c, p, date, target, action, domain, body, options).error)
    ensures r.sent != [] ==>
      && Prepare(c, p, date, target, action, domain, body, options) == Success(r.sent[0])
      && r.outcome == Interpret(p, target, action, send(r.sent[0]), skipErrors)
  {
    match Prepare(c, p, date, target, action, domain, body, options)
    case Failure(e) => CallResult([], Failure(e))
    case Success(req) => CallResult([req], Interpret(p, target, action, send(req), skipErrors))
  }

  /** `MyraApi::call`, with the diagnostic assembled by its loop. */
  method Call(c: Client, p: Primitives, send: Request -> Response, date: string,
              target: string, action: string, domain: string, body: Json,
              options: seq<string>, skipErrors: bool)
    returns (sent: seq<Request>, outcome: Result<Reply, ApiError>)
    ensures CallResult(sent, outcome) == CallSpec(c, p, send, date, target, action, domain, body, options, skipErrors)
  {
    var prepared := Prepare(c, p, date, target, action, domain, body, options);
    if prepared.Failure? {
      return [], Failure(prepared.error);
    }
    var req := prepared.value;
    sent := [req];
    var resp := send(req);
    if resp.status != 200 {
      return sent, Failure(HttpStatus(resp.status));
    }
    var reply := p.jsonDecode(resp.content);
    if ErrorFlagged(reply) {
      var diagnostic := BuildDiagnostic(target, action, ViolationItems(reply));
      if skipErrors {
        outcome := Success(Reply(reply, Some(diagnostic)));
      } else {
        outcome := Failure(Application(diagnostic));
      }
    } else {
      outcome := Success(Reply(reply, None));
    }
  }
}
