# A Dafny model of the Myra API client and the dyndns script

The repository keeps a home server's DNS records current with a small PHP tool.
`MyraApi` is a client for the Myra Security REST API. It signs every request
with the account's API key and secret, sends it, and turns the reply into a
decoded object or an exception. `getRedirects` uses the client to list every
redirect of a subdomain, page by page. The `dyndns.php` script lists every DNS
record of the domain `itsantetime.de` page by page. It keeps the id and the
modification stamp of the last A and the last AAAA record named
`media.itsantetime.de`. It then sends two updates that set those records to
the IPv4 and IPv6 addresses given on the command line.

The model has these modules:

- `Wrappers` holds `Option` and `Result`.
- `Text` holds PHP's decimal rendering of integers, `rtrim` with one character,
  and `explode`/`implode` at a separator.
- `Json` holds decoded values and payloads, with PHP's rules for property
  access, truthiness, loose comparison and `%s` rendering.
- `MyraApi` holds `call`. It checks the whitelist, chooses the HTTP method
  from the action, encodes the body and trims the URI. It builds the signing
  string and the header lines, then interprets the status, the decoded reply
  and its error envelope, including skip mode.
- `Paging` holds the listing loop that `getRedirects` and the script share:
  the page-count call, then pages 1 to ceil(count / pageSize). `FetchAll` is
  the specification of that sequence of calls.
- `Redirects` holds `getRedirects`: the projection of each item, the 301/302
  mapping, the exception on an entry that is not an object and the
  empty-result exception.
- `DynDns` holds the script: the argument and credential guards, the listing
  loop with the selection map `$rec`, the two update bodies and calls, and the
  exit status.

Several library calls are function-typed fields of `Primitives` and are only
applied and compared:

- md5
- HMAC-SHA256
- raw HMAC-SHA512
- base64
- `json_encode`
- `json_decode`

The network is a function `send` from a request to a response, so the
request handed to it is always visible. The clock is a function `clock` from
a call number to the text `date('c')` returns during that call. Every loop in
the source is a method with invariants, proved against a specification
function. The properties are lemmas about those functions.

The model follows PHP 8 semantics wherever PHP 7 differs:

- Loose comparison of an integer with a non-numeric string compares them as strings, so `0 == 'A'` is false.
- A division by zero throws `DivisionByZeroError`, so a page size of 0 ends the listing with an exception.
- `md5` of an array throws a `TypeError`.
- Assigning a property of something that is not an object (`$data->type = '302'` on a null entry) throws an `Error`.

A few PHP primitives are plain definitions in `Json` and `DynDns`, used
throughout and not stated as properties:

- `Field` reads a property: the object's value, or null when the property is absent or the value is not an object.
- `ListItems` is what `foreach` over a property yields: the entries of a list, nothing otherwise.
- `PhpString` is the `%s` rendering of a scalar: a string as itself, null and false as "", true as "1", an integer in decimal.
- `ArgValue` is `$argv[i]`: the argument when it exists, null otherwise.

Exit statuses: 1 is the script's own `exit(1)`, 255 is an exception the
script does not catch (PHP's status for an uncaught exception), and 0 is a
run to the end.

Where a plain reading of the client's documentation differs from the code,
the model follows the code:

- A 200 reply that does not decode (json_decode gives null) is returned as a
  success, with null as the decoded value.
- When no A or AAAA record of the subdomain is listed, the script does not
  stop. It sends the update with a null id and a null stamp.
- Caller header options are appended after the generated header lines, not
  merged with them. Duplicate names stay in the list, in that order.

## Model

| member | source | states |
|---|---|---|
| MyraApi.WhitelistIsTargetNames | dyndns/MyraApi.php:39-61 | A target is supported exactly when it is one of the nineteen distinct names; listing 'statistic' twice changes nothing |
| MyraApi.VerbFor | dyndns/MyraApi.php:95-117 | create uses PUT, update and query use POST, list uses GET, delete uses DELETE, each in both directions; every other action has no method (the call throws) |
| MyraApi.RequestBody | dyndns/MyraApi.php:105-128 | A list call never has a body. Otherwise a payload that is not loosely null is replaced by its JSON encoding (no body when the encoding fails). An empty array fails with md5's TypeError, and only it does. Null and false give no body (their text is ""), while 0 and "" are kept and posted as their PHP string form, "0" and "" |
| Json.LooselyNull | dyndns/MyraApi.php:123 | `$body != null` is false exactly for null, false, 0, "" and an empty array (list or object); the payload is then not encoded |
| MyraApi.Uri | dyndns/MyraApi.php:120-121 | The URI is a prefix of the raw path, does not end in '/', and only slashes were removed from the end |
| MyraApi.UriKeepsScope | dyndns/MyraApi.php:120-121 | A scope that does not end in '/' reaches the URI whole |
| MyraApi.SigningString | dyndns/MyraApi.php:127-128 | The md5 of the body text, the HTTP method, the URI, the content type application/json and the date, joined by '#' in that order |
| MyraApi.SigningStringFields | dyndns/MyraApi.php:127-128 | When the body hash, URI and date hold no '#', the signing string splits at '#' back into exactly the body hash, method, URI, content type and date, in that order |
| MyraApi.Signature | dyndns/MyraApi.php:129-131 | The date key is the HMAC-SHA256 of the date under "MYRA" + secret; the signing key is the HMAC-SHA256 of "myra-api-request" under the date key; the signature is the base64 of the raw HMAC-SHA512 of the signing string under the signing key |
| MyraApi.Headers | dyndns/MyraApi.php:133-140 | The header list is the five generated lines (Content-Type, Content-Length with the body's length, Host, Date, Authorization "MYRA key:signature") in that order, followed by the caller's options unchanged |
| MyraApi.GeneratedHeadersWin | dyndns/MyraApi.php:133-140 | Whatever options the caller adds, the first Date header carries the date that was signed, and the first Authorization header carries the generated signature |
| MyraApi.Prepare | dyndns/MyraApi.php:91-140 | An unsupported target throws before anything else, an unknown action next, and a payload md5 cannot hash after that. Otherwise the request has the action's method, the URL https://site + URI and the body `RequestBody` gives. Its headers are signed over the md5 of the body text, the method, the URI and the same date |
| MyraApi.ErrorFlagged | dyndns/MyraApi.php:150 | A decoded reply is flagged when its `error` property is set and loosely true; an absent property, or a reply that is not an object, reads as null and is not flagged |
| MyraApi.Diagnostic | dyndns/MyraApi.php:151-156 | The framing "\n[ERROR] target action\n" followed by the message and path text of the last violation only, or by nothing when there is none |
| MyraApi.DiagnosticKeepsLast | dyndns/MyraApi.php:151-154 | The message is reassigned for each violation, so earlier violations never reach the diagnostic |
| MyraApi.BuildDiagnostic | dyndns/MyraApi.php:147-156 | The violation loop and the framing produce the diagnostic of the last violation under the "[ERROR] target action" line |
| MyraApi.Interpret | dyndns/MyraApi.php:144-168 | A status other than 200 fails with that status, in both directions. A 200 reply without a set error flag is returned decoded. A flagged reply throws exactly the diagnostic of its last violation, unless in skip mode, where it is returned with that diagnostic as its warning |
| MyraApi.ReturnedReplyNotFlagged | dyndns/MyraApi.php:150-162 | Without skip mode, a reply that `call` returns never has its error flag set |
| MyraApi.NonOkNeverDecodes | dyndns/MyraApi.php:144-166 | A non-200 status gives the same failure whatever the content and however it would decode |
| MyraApi.SkipOnlyAffectsFlagged | dyndns/MyraApi.php:158-162 | Skip mode changes the result only for a 200 reply whose error flag is set |
| MyraApi.CallSpec | dyndns/MyraApi.php:89-168 | At most one request is sent. None is sent exactly when the request cannot be prepared, and then the outcome is the exception the preparation raised (an unsupported target, an unknown action, an array body). Otherwise the outcome is the interpretation of the transport's answer to the prepared request |
| MyraApi.Call | dyndns/MyraApi.php:89-168 | The method, with the diagnostic built by its loop, sends and returns exactly what `CallSpec` describes |
| Text.TrimTrailing | dyndns/MyraApi.php:121 | `rtrim` with one character gives a prefix without that character at its end, having removed only that character |
| Text.Decimal | dyndns/MyraApi.php:135 | The rendering of a number is non-empty and all digits, and starts with '0' exactly when the number is 0, so it has no leading zeros |
| Text.DecimalRoundTrip | dyndns/MyraApi.php:135 | Reading the rendered digits back gives the number |
| Text.DecimalInjective | dyndns/MyraApi.php:287 | Different page numbers render differently |
| Text.IntString | dyndns/MyraApi.php:152 | The rendering of an integer is digits with an optional leading minus sign, and reading it back gives the integer |
| Text.IntStringInjective | dyndns/MyraApi.php:152 | Different integers render differently |
| Text.SplitJoin | dyndns/MyraApi.php:128 | Splitting a '#'-joined string gives back its fields when none of them holds '#' |
| Paging.CeilDivIsCeiling | dyndns/MyraApi.php:281 | The page count is the least integer q with count <= q * pageSize (for a positive page size) |
| Paging.PageCountExamples | dyndns/MyraApi.php:281 | 0 records need 0 pages, 1 record needs 1 page, and 101 records at 50 per page need 3 pages |
| Paging.CeilDiv | dyndns/MyraApi.php:281 | The integer ceiling of count / pageSize for a positive page size; `CeilDivIsCeiling` proves it is the ceiling |
| Paging.PageCount | dyndns/MyraApi.php:281 | A page count exists exactly when count and pageSize are integers and pageSize is not 0. It is then the ceiling of count / pageSize: for a positive size the least q with count <= q * size, and for a negative size the least q with q * size <= count |
| Paging.PageScope | dyndns/MyraApi.php:287 | The page's scope ends in a digit, so trimming never touches it |
| Paging.PageUrl | dyndns/MyraApi.php:287-289 | A page's URL is the listing's common prefix followed by the page number |
| Paging.PageRequest | dyndns/MyraApi.php:286-289 | A page request is a GET with no body, at the common prefix followed by the page number |
| Paging.PageUrlsDistinct | dyndns/MyraApi.php:286-289 | Requests for different pages go to different URLs |
| Paging.ListPage | dyndns/MyraApi.php:289 | One list call for a page sends and returns what `ListCall` describes |
| Paging.ListCallSends | dyndns/MyraApi.php:289 | A list call sends exactly its page's request. A reply it returns is that request's decoded answer and is never flagged |
| Paging.PageCallsSend | dyndns/MyraApi.php:286-289 | The same holds for the call of every page |
| Paging.PageCallsSendOne | dyndns/MyraApi.php:286-289 | Whatever stands for the page calls of a listing, each sends exactly one request |
| Paging.FetchFrom | dyndns/MyraApi.php:286-316 | The page loop from page i to the page count: each page's call in turn, keeping its decoded reply, until the first call that throws or reply that is flagged |
| Paging.FetchAfter | dyndns/MyraApi.php:276-316 | The count call first. A throw, a flagged reply or an unusable count ends the listing there; otherwise the page loop runs for pages 1 to the page count after the count request |
| Paging.FetchAll | dyndns/MyraApi.php:276-316 | The whole listing: call 0 lists page 1 for the count, and call i lists page i |
| Paging.FetchAfterPages | dyndns/MyraApi.php:280-286 | A count reply that is returned, not flagged and usable hands the listing over to the page loop, with the count request first |
| Paging.FetchFromOrder | dyndns/MyraApi.php:286-316 | The loop sends one request per page it reaches, in page order. There is one more request than replies kept when it stops on a failure. Without a failure it keeps a reply from every page up to the page count |
| Paging.FetchFromReplies | dyndns/MyraApi.php:286-316 | Reply k kept by the loop is what page i + k returned |
| Paging.FetchFromNeverFlagged | dyndns/MyraApi.php:291-315 | If no page call returns a flagged reply, the loop never stops on an error flag |
| Paging.FetchAfterOrder | dyndns/MyraApi.php:276-316 | For any page calls: the page-count request comes first, then the requests of pages 1, 2, ... in order. Reply k is what page k+1 returned. A complete listing had a usable count and kept exactly that many pages |
| Paging.FetchAllRequests | dyndns/MyraApi.php:276-316 | Request 0 asks for page 1 and request k (k >= 1) asks for page k. Every kept reply is the decoded answer to its page's request. A complete listing covers pages 1 to the page count |
| Paging.FetchAllCovers | dyndns/MyraApi.php:276-289 | A listing always sends more requests than the replies it keeps: the count request is never kept as a page |
| Paging.FetchAllNeverFlagged | dyndns/MyraApi.php:280-291 | Without skip mode a listing never stops on an error flag: the flagged branches are unreachable |
| Paging.AllItemsNextPage | dyndns/MyraApi.php:286-316 | Fetching one more page appends its items |
| Paging.AllItemsOrder | dyndns/MyraApi.php:286-316 | Item j of page p comes right after all the items of the pages before p |
| Redirects.ProjectedAt | dyndns/MyraApi.php:292-312 | Projection keeps the number of items, and entry k is the projection of item k |
| Redirects.IsPermanent | dyndns/MyraApi.php:293 | `$data->type == 'permanent'` under PHP 8 loose comparison: the string itself, or boolean true |
| Redirects.Project | dyndns/MyraApi.php:293-311 | Each field is copied by name (objectType under the key objectype) and the type becomes 301 for a permanent redirect and 302 otherwise |
| Redirects.ProjectedAppend | dyndns/MyraApi.php:299 | Projecting a concatenation gives the concatenation of the projections, since `$arr[]` appends across pages |
| Redirects.FirstNonObject | dyndns/MyraApi.php:292-296 | There is no position exactly when every entry is an object. Otherwise the position holds an entry that is not an object, and every entry before it is one |
| Redirects.FirstNonObjectAppend | dyndns/MyraApi.php:292-296 | The first non-object entry of two runs lies in the first run if it has one, else it is the second run's first, shifted by the first run's length; with none in either there is none |
| Redirects.FirstBadPage | dyndns/MyraApi.php:286-296 | The page it names is a kept page with an entry that is not an object |
| Redirects.FirstBadPageAppend | dyndns/MyraApi.php:286-316 | Once a page is the first bad page, later pages never change that |
| Redirects.AllObjectsAllItems | dyndns/MyraApi.php:286-296 | A listing has an entry that is not an object exactly when it has a bad page |
| Redirects.FirstBadEntry | dyndns/MyraApi.php:286-296 | The entry the loop throws on is the first non-object entry of the whole listing, at the position after all items of the earlier pages |
| Redirects.RedirectsOf | dyndns/MyraApi.php:286-322 | The first page holding an entry that is not an object throws on its first such entry. Otherwise a failed listing is passed on, and a complete listing gives every item projected in order, or "no redirects" when there is none |
| Redirects.SentUntilBadPagePrefix | dyndns/MyraApi.php:286-316 | The requests up to the first bad page are a non-empty prefix of the listing's requests, and a successful result sent them all |
| Redirects.ListingOf | dyndns/MyraApi.php:286-322 | What the method sends and returns for a listing: the requests up to the first bad page and `RedirectsOf` |
| Redirects.GetRedirectsSpec | dyndns/MyraApi.php:274-323 | The listing `FetchAll` makes of the redirects of the subdomain, read through `ListingOf` |
| Redirects.GetRedirects | dyndns/MyraApi.php:274-323 | The method sends exactly the requests of `GetRedirectsSpec` and returns its result |
| Redirects.RedirectsFromPages | dyndns/MyraApi.php:286-322 | After the count request, the page loop and the empty-result check send and return `ListingOf` the listing continued from that request |
| Redirects.ListingFromPages | dyndns/MyraApi.php:286-322 | That listing, read off the count request and what the page loop did: at a bad page, the requests up to that page and its first non-object entry; otherwise all requests and `RedirectsOf` |
| Redirects.CollectRedirects | dyndns/MyraApi.php:286-316 | Without a page holding a non-object entry, the page loop sends what the loop specification sends and stops the same way, and when it completes it has projected every item of every page, in order. Otherwise it stops after the request for the first such page and reports that page's first non-object entry |
| Redirects.ProjectItems | dyndns/MyraApi.php:292-312 | The inner loop projects each entry of one page, in order, when all are objects. Otherwise it stops at the first entry that is not an object and reports it |
| Redirects.RedirectsInPageOrder | dyndns/MyraApi.php:286-312 | In a successful result the entry for item j of page p follows the entries of all earlier pages and is that item's projection |
| Redirects.RedirectCodes | dyndns/MyraApi.php:293-306 | Every entry of a successful result is 301 exactly when its item's type is loosely 'permanent', and 302 otherwise. It has one entry per item and copies the id and objectType |
| Redirects.EmptyListingThrows | dyndns/MyraApi.php:318-322 | A success is never empty. The result is "no redirects" exactly when the listing completed without items. A failed listing whose entries are all objects is passed on unchanged, and only a failed listing is |
| Redirects.RedirectRequests | dyndns/MyraApi.php:276-289 | The requests are page 1 for the count, then pages 1, 2, ... each once and in order. A successful result fetched exactly the page count's worth of pages |
| Redirects.NonObjectEntryThrows | dyndns/MyraApi.php:292-297 | Under PHP 8 an entry that is not an object makes the assignment to its type throw: a success means every entry was an object, a listing with such an entry throws on its first one, and a listing without one never throws that way |
| Redirects.NullEntryThrows | dyndns/MyraApi.php:296 | A page listing a null entry ends the call with that exception |
| DynDns.ArgcGuardAsWrittenAdmitsMissingAddress | dyndns/dyndns.php:29-32 | The guard as written lets a run with only the IPv4 address through, and the IPv6 value is then null |
| DynDns.ArgcGuardAdmitsBothAddresses | dyndns/dyndns.php:29-32 | Past the corrected guard both addresses are strings, and the guard as written also passes |
| DynDns.LooselyFalse | dyndns/dyndns.php:41-52 | `$apikey == false` for a string holds under PHP 8 exactly for "" and "0" |
| DynDns.Matches | dyndns/dyndns.php:75 | An item matches when its record type is loosely 'A' or 'AAAA' and its name is loosely the subdomain |
| DynDns.Remember | dyndns/dyndns.php:74-81 | A matching item overwrites the entry under its type's key with its id and stamp; any other item leaves `$rec` unchanged |
| DynDns.SelectInto | dyndns/dyndns.php:68-87 | `$rec` after the items in the order listed |
| DynDns.SelectIntoAppend | dyndns/dyndns.php:68-87 | Remembering records over two runs of items equals remembering over their concatenation, since `$rec` carries over from page to page |
| DynDns.SelectKeys | dyndns/dyndns.php:75-76 | `$rec` only ever gets the keys "A", "AAAA" and "1" (the key of boolean true) |
| DynDns.SelectHasKey | dyndns/dyndns.php:74-81 | A type has an entry exactly when some listed item matches the filter with that type |
| DynDns.SelectKeepsLastMatch | dyndns/dyndns.php:74-81 | The entry for a type holds the id and stamp of the last matching item of that type: later matches overwrite earlier ones |
| DynDns.UpdateBody | dyndns/dyndns.php:89-111 | The update payload: the kept id and stamp of the type (null when none was kept), the address, the record name, active and enabled true, the type and ttl "300" |
| DynDns.UpdateUsesLastMatch | dyndns/dyndns.php:89-111 | An update body carries the id and stamp of the last matching record of its type and the given address |
| DynDns.UpdateWithoutMatch | dyndns/dyndns.php:89-111 | With no matching record of a type, its update body carries a null id and a null stamp |
| DynDns.UpdateUrl | dyndns/dyndns.php:100 | An update goes to the domain's own URL, untrimmed |
| DynDns.UpdateBodyIsSent | dyndns/dyndns.php:89-100 | An update body is never loosely null, so it is always encoded and sent |
| DynDns.UpdateRequest | dyndns/dyndns.php:89-113 | An update request is a POST to .../rapi/dnsRecords/itsantetime.de whose body is the encoding of the update body |
| DynDns.UpdateCallSends | dyndns/dyndns.php:100-113 | An update sends exactly its request, and a reply it returns is never flagged |
| DynDns.AfterUpdates | dyndns/dyndns.php:100-120 | An exception from the A update ends the run with 255 after one request; one from the AAAA update with 255 after both; then a flagged AAAA reply exits 1 and anything else 0 |
| DynDns.Finish | dyndns/dyndns.php:57-120 | A listing stopped by a flagged reply exits 1, one stopped otherwise exits 255, both before any update; a complete listing is followed by the two updates |
| DynDns.RunSpec | dyndns/dyndns.php:9-120 | The script with the corrected argument guard: fewer than two addresses exit 1 with nothing sent |
| DynDns.RunSpecAsWritten | dyndns/dyndns.php:9-120 | The script with the guard as written: only a run with no address at all exits 1 there |
| DynDns.RunPastArgcGuard | dyndns/dyndns.php:39-120 | Past the argument guard: the credential checks exit 1 with nothing sent; otherwise the listing, the selection and the two updates, with `$argv[1]` and `$argv[2]` as the addresses |
| DynDns.Run | dyndns/dyndns.php:9-120 | The script's exit status and requests are exactly those of `RunSpec`, the run with the corrected argument guard |
| DynDns.ListRecords | dyndns/dyndns.php:57-87 | The listing sends the requests of `FetchAll` and stops the same way. When it completes, `$rec` is the selection over every listed item |
| DynDns.CollectRecords | dyndns/dyndns.php:68-87 | The page loop sends what the loop specification sends and stops the same way. When it completes, `$rec` is the selection over every item of every page, in order |
| DynDns.RememberAll | dyndns/dyndns.php:74-81 | The inner loop updates `$rec` by each item of one page in order |
| DynDns.SendUpdates | dyndns/dyndns.php:89-118 | The two updates go out in order. An exception from either ends the run with 255. Only the second reply's flag decides between 1 and 0 |
| DynDns.FinishShape | dyndns/dyndns.php:100-118 | A failed listing exits 255 with no update sent. Otherwise the A update is sent, and the AAAA update only if the A update returned. The status is 0 exactly when both returned |
| DynDns.ExitStatus | dyndns/dyndns.php:29-118 | Under the guard as written and under the corrected guard alike: the status is always 0, 1 or 255. It is 1 exactly when that guard or a credential check stops the run, and then nothing is sent |
| DynDns.RunRequests | dyndns/dyndns.php:9-118 | Past the guard as written and the credential checks, the run sends the listing's requests, then the A update with `$argv[1]`. It sends the AAAA update, with `$argv[2]` (null when only one address was given), exactly when the A update returned. Both updates use the kept record references, and a run that exits 0 sent both. Past the corrected guard the run is the same |

## Left out

- The HTTPS transport (`curlExec`, TLS options, redirects, timeouts) is out of scope. The network is the `send` parameter, and a transport error is not distinguished from a non-200 status. In particular `curlExec` turns off the checks of the peer certificate and of the host name (CURLOPT_SSL_VERIFYPEER and CURLOPT_SSL_VERIFYHOST set to 0), so any server that answers can forge the replies; a pure `send` cannot express who answers.
- Paging.FetchAll: `send` is a function of the request, so identical requests get identical responses. The count request and the page-1 request are identical whenever the clock reads the same second for calls 0 and 1 (`date('c')` has one-second resolution); the model then gives both the same reply, where the server could answer them differently.
- The cryptographic functions, base64, `json_encode`, `json_decode` and `date('c')` are not computed. They are parameters; their real definitions are outside PHP code the model covers.
- `MyraApi::log` and every `echo` are left out because they only produce console output, including the diagnostic echoed in skip mode. That diagnostic is kept as the reply's warning.
- The constructor's extension checks, the `DEBUG` constant and `require_once` are left out; they do not affect any result.
- Reading the key and secret files and `trim` are not modelled: `apiKey` and `secret` are the trimmed contents. A missing file reads as the empty string, as in PHP.
- JSON numbers with a fraction or an exponent are not represented: `Json` has integers only. A decoded float anywhere (a count, a field, a violation) is outside the model.
- Paging.PageCount: some non-integer operands are treated as an unusable count (255 in the script, an exception in `getRedirects`) although PHP 8 converts them and carries on. These are a `count` that is null, a boolean, a numeric string or a leading-numeric string (such as "10abc", read as 10 with a warning), and a `pageSize` that is `true`, or a numeric or leading-numeric string whose number is not zero. For every other non-integer operand the model's exception is exact: a null or false `pageSize`, or a string whose number is zero, becomes 0 and raises DivisionByZeroError, and a string that is not numeric even in its leading part, a list or an object raises a TypeError.
- Paging.PageCount: the count is computed on integers. PHP divides as floats and rounds up with `ceil`, which agrees with the integer ceiling while the count stays below 2^53.
- Json.ListItems: a `list` or `violationList` that decodes to an object is iterated as no items. PHP's `foreach` would iterate its properties.
- Json.PhpString: a non-scalar violation field renders as "" (a list as "Array"). PHP raises an error for an object there.
- MyraApi.RequestBody: null and false (and an encoding failure, where `json_encode` returns false) are represented as no body. The signature and Content-Length treat them as the empty string, as PHP does; what `curlExec` makes of a posted `false` is not part of this model.
- MyraApi.Headers: Content-Length counts characters. PHP's `strlen` counts bytes, which differs for non-ASCII bodies.
- DynDns.UpdateRequest: payload objects are maps, so the key order of the encoded update bodies is not represented.
- MyraApi.Call: `$skipErrors` is a boolean here. The source passes an integer and only tests its truth.
- DynDns.Run: the method follows the corrected argument guard (see Findings). The guard as written is modelled by `RunSpecAsWritten`, and `ExitStatus` and `RunRequests` state its runs too, including the one-address run that sends an AAAA update with a null value.

## Findings

| source | as written | input that shows it | evidently intended | confidence | as-written member | corrected member |
|---|---|---|---|---|---|---|
| dyndns/dyndns.php:29 | `$argc < 2` rejects only a run with no address. The error message asks for both an IPv4 and an IPv6 address | argv = ["dyndns.php", "192.0.2.1"]: the guard passes and `$argv[2]` is null | `$argc < 3` | medium; not executed | DynDns.ArgcGuardAsWrittenAdmitsMissingAddress | DynDns.ArgcGuardAdmitsBothAddresses |
