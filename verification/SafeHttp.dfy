// The outbound HTTP client's redirect loop. The resolver, the transport and URL parsing are
// parameters that may answer anything at each hop.
module SafeHttp {
  import opened Ascii
  import opened Options

  datatype Host = Literal(address: Address) | Name(name: string)

  datatype Address = Address(text: string)

  // An absolute URL as the parser gives it; the path holds the query.
  datatype Url = Url(https: bool, credentials: bool, host: Host, port: int, path: string)

  // Two URLs that passed validation have one origin when host and port agree.
  datatype Origin = Origin(https: bool, host: Host, port: int)

  type Headers = map<string, string>

  datatype Request = Request(url: Url, address: Address, verb: string, headers: Headers, body: Option<string>)

  // A response without a location, or with an empty one, has the empty text here.
  datatype Response = Response(status: int, location: string, body: string)

  datatype Exchange = Exchange(request: Request, answer: Option<Response>)

  datatype Outcome = Answered(response: Response) | Unsafe(reason: Reason) | NoUrl | NoLookup | NoAnswer

  datatype Reason = NotHttpsOrCredentials | PrivateAddress | TooManyRedirects

  // What the loop cannot see: DNS at each hop, which addresses are private, the servers, and the
  // reading of a location against the current URL.
  datatype World = World(
    resolve: (nat, string) -> Option<seq<Address>>,
    isPrivate: Address -> bool,
    send: (nat, Request) -> Option<Response>,
    join: (Url, string) -> Option<Url>)

  // The loop's variables.
  datatype Hop = Hop(url: Url, verb: string, body: Option<string>, headers: Headers)

  function OriginOf(url: Url): Origin {
    Origin(url.https, url.host, url.port)
  }

  predicate IsOutbound(url: Url) {
    url.https && !url.credentials
  }

  predicate IsRedirect(status: int) {
    status == 301 || status == 302 || status == 303 || status == 307 || status == 308
  }

  // ---- headers ------------------------------------------------------------------------

  const BLOCKED: set<string> := {
    "authorization", "proxy-authorization", "cookie", "x-api-key", "access_token", "x-giromesa-signature"
  }

  predicate IsSensitive(name: string) {
    LowerAll(name) in BLOCKED || "x-giromesa-" <= LowerAll(name)
  }

  predicate IsBodyHeader(name: string) {
    LowerAll(name) == "content-type" || LowerAll(name) == "content-length"
  }

  /** The credentials' names, written out. */
  ghost predicate NamesACredential(name: string) {
    || Spells(name, "authorization") || Spells(name, "proxy-authorization") || Spells(name, "cookie")
    || Spells(name, "x-api-key") || Spells(name, "access_token") || Spells(name, "x-giromesa-signature")
    || (|name| >= 11 && Spells(name[..11], "x-giromesa-"))
  }

  /** The names of the headers that describe a body. */
  ghost predicate DescribesTheBody(name: string) {
    Spells(name, "content-type") || Spells(name, "content-length")
  }

  lemma SensitiveIff(name: string)
    ensures IsSensitive(name) <==> NamesACredential(name)
  {
    SpellsIff(name, "authorization");
    SpellsIff(name, "proxy-authorization");
    SpellsIff(name, "cookie");
    SpellsIff(name, "x-api-key");
    SpellsIff(name, "access_token");
    SpellsIff(name, "x-giromesa-signature");
    BeginsIff(name, "x-giromesa-");
  }

  lemma BodyHeaderIff(name: string)
    ensures IsBodyHeader(name) <==> DescribesTheBody(name)
  {
    SpellsIff(name, "content-type");
    SpellsIff(name, "content-length");
  }

  lemma NoCredentialDescribesTheBody(name: string)
    ensures !(NamesACredential(name) && DescribesTheBody(name))
  {
    SensitiveIff(name);
    BodyHeaderIff(name);
  }

  function Without(headers: Headers, drop: string -> bool): Headers {
    map name | name in headers && !drop(name) :: headers[name]
  }

  // ---- one hop ------------------------------------------------------------------------

  datatype Lookup = Found(address: Address) | Refused | Unresolved

  /** The address to pin: the literal host, or the first of the resolved ones, provided none of them
      is private. */
  function Pin(world: World, k: nat, url: Url): Lookup {
    match url.host
    case Literal(address) => if world.isPrivate(address) then Refused else Found(address)
    case Name(name) =>
      match world.resolve(k, name)
      case None => Unresolved
      case Some(addresses) =>
        if addresses == [] || exists i :: 0 <= i < |addresses| && world.isPrivate(addresses[i]) then Refused
        else Found(addresses[0])
  }

  predicate RewritesToGet(verb: string, status: int) {
    status == 303 || ((status == 301 || status == 302) && verb == "POST")
  }

  /** The loop's variables after a redirect to `next`. */
  function Redirected(hop: Hop, next: Url, status: int): Hop {
    var kept := if OriginOf(next) != OriginOf(hop.url) then Without(hop.headers, IsSensitive) else hop.headers;
    if RewritesToGet(hop.verb, status) then Hop(next, "GET", None, Without(kept, IsBodyHeader))
    else Hop(next, hop.verb, hop.body, kept)
  }

  datatype Trace = Trace(exchanges: seq<Exchange>, outcome: Outcome)

  /** The requests made from hop `k` on, and how it ends. */
  function Follow(world: World, hop: Hop, k: nat, maxRedirects: int): Trace
    decreases maxRedirects - k
  {
    var pin := Pin(world, k, hop.url);
    if pin.Unresolved? then Trace([], NoLookup)
    else if pin.Refused? then Trace([], Unsafe(PrivateAddress))
    else
      var request := Request(hop.url, pin.address, hop.verb, hop.headers, hop.body);
      var answer := world.send(k, request);
      var made := Exchange(request, answer);
      if answer.None? then Trace([made], NoAnswer)
      else if !IsRedirect(answer.value.status) || answer.value.location == "" then Trace([made], Answered(answer.value))
      else if k >= maxRedirects then Trace([made], Unsafe(TooManyRedirects))
      else
        var next := world.join(hop.url, answer.value.location);
        if next.None? then Trace([made], NoUrl)
        else if !IsOutbound(next.value) then Trace([made], Unsafe(NotHttpsOrCredentials))
        else
          var rest := Follow(world, Redirected(hop, next.value, answer.value.status), k + 1, maxRedirects);
          Trace([made] + rest.exchanges, rest.outcome)
  }

  /** `start` is the URL given, if it parses; `verb` is already in upper case; `maxRedirects` is three
      unless the caller says otherwise. */
  function FetchTrace(
      world: World, start: Option<Url>, verb: string, body: Option<string>, headers: Headers, maxRedirects: int
  ): Trace {
    if start.None? then Trace([], NoUrl)
    else if !IsOutbound(start.value) then Trace([], Unsafe(NotHttpsOrCredentials))
    else Follow(world, Hop(start.value, verb, body, headers), 0, maxRedirects)
  }

  lemma OneMoreExchange(before: seq<Exchange>, made: Exchange, rest: seq<Exchange>)
    ensures before + ([made] + rest) == before + [made] + rest
  {
  }

  /** The loop, reassigning url, method, body and headers at each redirect. */
  method Fetch(
      world: World, start: Option<Url>, verb: string, body: Option<string>, headers: Headers, maxRedirects: int)
    returns (trace: Trace)
    ensures trace == FetchTrace(world, start, verb, body, headers, maxRedirects)
  {
    if start.None? { return Trace([], NoUrl); }
    if !IsOutbound(start.value) { return Trace([], Unsafe(NotHttpsOrCredentials)); }
    var hop := Hop(start.value, verb, body, headers);
    ghost var whole := Follow(world, hop, 0, maxRedirects);
    var exchanges := [];
    var k := 0;
    while true
      invariant whole.outcome == Follow(world, hop, k, maxRedirects).outcome
      invariant whole.exchanges == exchanges + Follow(world, hop, k, maxRedirects).exchanges
      decreases maxRedirects - k
    {
      var pin := Pin(world, k, hop.url);
      if pin.Unresolved? { return Trace(exchanges, NoLookup); }
      if pin.Refused? { return Trace(exchanges, Unsafe(PrivateAddress)); }
      var request := Request(hop.url, pin.address, hop.verb, hop.headers, hop.body);
      var answer := world.send(k, request);
      ghost var before, made := exchanges, Exchange(request, answer);
      exchanges := exchanges + [Exchange(request, answer)];
      if answer.None? { return Trace(exchanges, NoAnswer); }
      if !IsRedirect(answer.value.status) || answer.value.location == "" {
        return Trace(exchanges, Answered(answer.value));
      }
      if k >= maxRedirects { return Trace(exchanges, Unsafe(TooManyRedirects)); }
      var next := world.join(hop.url, answer.value.location);
      if next.None? { return Trace(exchanges, NoUrl); }
      if !IsOutbound(next.value) { return Trace(exchanges, Unsafe(NotHttpsOrCredentials)); }
      hop := Redirected(hop, next.value, answer.value.status);
      OneMoreExchange(before, made, Follow(world, hop, k + 1, maxRedirects).exchanges);
      k := k + 1;
    }
  }

  // ---- how many requests, and to whom -------------------------------------------------

  lemma {:induction false} FollowIsBounded(world: World, hop: Hop, k: nat, maxRedirects: int)
    ensures |Follow(world, hop, k, maxRedirects).exchanges| <= (if maxRedirects > k then maxRedirects - k else 0) + 1
    decreases maxRedirects - k
  {
    if k < maxRedirects && |Follow(world, hop, k, maxRedirects).exchanges| > 1 {
      var answer := Follow(world, hop, k, maxRedirects).exchanges[0].answer.value;
      var next := world.join(hop.url, answer.location).value;
      FollowIsBounded(world, Redirected(hop, next, answer.status), k + 1, maxRedirects);
    }
  }

  /** What the lookup of a URL finds: the address to connect to is the host itself if it is one, or the
      first of at least one resolved, and none found is private. */
  ghost predicate LeadsTo(world: World, k: nat, url: Url, address: Address) {
    match url.host
    case Literal(own) => address == own && !world.isPrivate(own)
    case Name(name) =>
      && world.resolve(k, name).Some?
      && var found := world.resolve(k, name).value;
         found != [] && address == found[0] && forall i :: 0 <= i < |found| ==> !world.isPrivate(found[i])
  }

  /** A request as it may leave: over HTTPS, without credentials in the URL, to an address that is not
      private, chosen by the lookup made for it. */
  ghost predicate IsSafe(world: World, k: nat, request: Request) {
    && request.url.https && !request.url.credentials
    && !world.isPrivate(request.address)
    && LeadsTo(world, k, request.url, request.address)
  }

  /** After its first request a trace goes on as the trace of the redirected hop. */
  lemma FollowGoesOn(world: World, hop: Hop, k: nat, maxRedirects: int)
    requires |Follow(world, hop, k, maxRedirects).exchanges| > 1
    ensures var exchanges := Follow(world, hop, k, maxRedirects).exchanges;
            && k < maxRedirects && exchanges[0].answer.Some?
            && var answer := exchanges[0].answer.value;
               var next := world.join(hop.url, answer.location);
               && next.Some? && IsOutbound(next.value)
               && exchanges[1..] ==
                  Follow(world, Redirected(hop, next.value, answer.status), k + 1, maxRedirects).exchanges
  {
  }

  lemma {:induction false} FirstIsSafe(world: World, hop: Hop, k: nat, maxRedirects: int)
    requires IsOutbound(hop.url) && Follow(world, hop, k, maxRedirects).exchanges != []
    ensures IsSafe(world, k, Follow(world, hop, k, maxRedirects).exchanges[0].request)
  {
  }

  ghost predicate AllSafe(world: World, k: nat, exchanges: seq<Exchange>) {
    forall i :: 0 <= i < |exchanges| ==> IsSafe(world, k + i, exchanges[i].request)
  }

  lemma AllSafeFrom(world: World, k: nat, exchanges: seq<Exchange>)
    requires exchanges != [] && IsSafe(world, k, exchanges[0].request) && AllSafe(world, k + 1, exchanges[1..])
    ensures AllSafe(world, k, exchanges)
  {
    forall i | 0 <= i < |exchanges| ensures IsSafe(world, k + i, exchanges[i].request) {
      if i > 0 {
        assert IsSafe(world, k + 1 + (i - 1), exchanges[1..][i - 1].request);
      }
    }
  }

  lemma {:induction false} FollowIsSafe(world: World, hop: Hop, k: nat, maxRedirects: int)
    requires IsOutbound(hop.url)
    ensures AllSafe(world, k, Follow(world, hop, k, maxRedirects).exchanges)
    decreases maxRedirects - k
  {
    var exchanges := Follow(world, hop, k, maxRedirects).exchanges;
    if exchanges != [] {
      FirstIsSafe(world, hop, k, maxRedirects);
      if |exchanges| > 1 {
        FollowGoesOn(world, hop, k, maxRedirects);
        var answer := exchanges[0].answer.value;
        var next := Redirected(hop, world.join(hop.url, answer.location).value, answer.status);
        FollowIsSafe(world, next, k + 1, maxRedirects);
      }
      AllSafeFrom(world, k, exchanges);
    }
  }

  /** For any answers: at most one request more than the redirects allowed, each one safe. */
  lemma EveryRequestIsSafe(
      world: World, start: Option<Url>, verb: string, body: Option<string>, headers: Headers, maxRedirects: int)
    ensures var exchanges := FetchTrace(world, start, verb, body, headers, maxRedirects).exchanges;
            && |exchanges| <= (if maxRedirects > 0 then maxRedirects else 0) + 1
            && forall i :: 0 <= i < |exchanges| ==> IsSafe(world, i, exchanges[i].request)
  {
    if start.Some? && IsOutbound(start.value) {
      var hop := Hop(start.value, verb, body, headers);
      FollowIsBounded(world, hop, 0, maxRedirects);
      FollowIsSafe(world, hop, 0, maxRedirects);
    }
  }

  /** The first request goes to `url`; each later one to where the answer before it points. */
  ghost predicate IsChain(world: World, url: Url, exchanges: seq<Exchange>) {
    && (exchanges != [] ==> exchanges[0].request.url == url)
    && forall i :: 0 <= i < |exchanges| - 1 ==> Leads(world, exchanges[i], exchanges[i + 1])
  }

  ghost predicate Redirects(response: Response) {
    response.status in {301, 302, 303, 307, 308} && response.location != ""
  }

  ghost predicate Leads(world: World, from: Exchange, to: Exchange) {
    && from.answer.Some? && Redirects(from.answer.value)
    && world.join(from.request.url, from.answer.value.location) == Some(to.request.url)
  }

  /** Why no request is made for a URL at hop `k`. */
  ghost predicate FailsLookup(world: World, k: nat, url: Url, outcome: Outcome) {
    match outcome
    case NoLookup => url.host.Name? && world.resolve(k, url.host.name).None?
    case Unsafe(PrivateAddress) =>
      (match url.host
       case Literal(own) => world.isPrivate(own)
       case Name(name) =>
         && world.resolve(k, name).Some?
         && var found := world.resolve(k, name).value;
            found == [] || exists i :: 0 <= i < |found| && world.isPrivate(found[i]))
    case _ => false
  }

  /** Why a trace ends after request `k`: its answer is handed back only if it redirects nowhere, and a
      redirect is not followed past the limit, to no URL, to an unsafe one or to one whose lookup fails. */
  ghost predicate EndsAt(world: World, k: nat, last: Exchange, outcome: Outcome, maxRedirects: int) {
    match last.answer
    case None => outcome == NoAnswer
    case Some(answer) =>
      if !Redirects(answer) then outcome == Answered(answer)
      else if k >= maxRedirects then outcome == Unsafe(TooManyRedirects)
      else
        match world.join(last.request.url, answer.location)
        case None => outcome == NoUrl
        case Some(next) =>
          if !next.https || next.credentials then outcome == Unsafe(NotHttpsOrCredentials)
          else FailsLookup(world, k + 1, next, outcome)
  }

  ghost predicate EndsWell(world: World, k: nat, url: Url, trace: Trace, maxRedirects: int) {
    var n := |trace.exchanges|;
    if n == 0 then FailsLookup(world, k, url, trace.outcome)
    else EndsAt(world, k + n - 1, trace.exchanges[n - 1], trace.outcome, maxRedirects)
  }

  lemma {:induction false} OneRequestEndsWell(world: World, hop: Hop, k: nat, maxRedirects: int)
    requires |Follow(world, hop, k, maxRedirects).exchanges| <= 1
    ensures EndsWell(world, k, hop.url, Follow(world, hop, k, maxRedirects), maxRedirects)
  {
  }

  lemma LongerChain(world: World, k: nat, first: Exchange, next: Url, rest: Trace, maxRedirects: int)
    requires rest.exchanges != [] && IsChain(world, next, rest.exchanges)
    requires EndsWell(world, k + 1, next, rest, maxRedirects)
    requires first.answer.Some? && Redirects(first.answer.value)
    requires world.join(first.request.url, first.answer.value.location) == Some(next)
    ensures IsChain(world, first.request.url, [first] + rest.exchanges)
    ensures EndsWell(world, k, first.request.url, Trace([first] + rest.exchanges, rest.outcome), maxRedirects)
  {
    var exchanges := [first] + rest.exchanges;
    forall i | 0 <= i < |exchanges| - 1 ensures Leads(world, exchanges[i], exchanges[i + 1]) {
      if i > 0 {
        assert Leads(world, rest.exchanges[i - 1], rest.exchanges[i]);
      }
    }
  }

  lemma {:induction false} FollowIsAChain(world: World, hop: Hop, k: nat, maxRedirects: int)
    ensures IsChain(world, hop.url, Follow(world, hop, k, maxRedirects).exchanges)
    ensures EndsWell(world, k, hop.url, Follow(world, hop, k, maxRedirects), maxRedirects)
    decreases maxRedirects - k
  {
    var exchanges := Follow(world, hop, k, maxRedirects).exchanges;
    if |exchanges| > 1 {
      FollowGoesOn(world, hop, k, maxRedirects);
      var answer := exchanges[0].answer.value;
      var next := Redirected(hop, world.join(hop.url, answer.location).value, answer.status);
      FollowIsAChain(world, next, k + 1, maxRedirects);
      LongerChain(world, k, exchanges[0], next.url, Follow(world, next, k + 1, maxRedirects), maxRedirects);
    } else {
      OneRequestEndsWell(world, hop, k, maxRedirects);
    }
  }

  /** A whole fetch: the URL given is refused, or its trace is such a chain and ends for such a reason. */
  lemma FetchEndsWell(
      world: World, start: Option<Url>, verb: string, body: Option<string>, headers: Headers, maxRedirects: int)
    ensures var trace := FetchTrace(world, start, verb, body, headers, maxRedirects);
            match start
            case None => trace == Trace([], NoUrl)
            case Some(url) =>
              if !url.https || url.credentials then trace == Trace([], Unsafe(NotHttpsOrCredentials))
              else IsChain(world, url, trace.exchanges) && EndsWell(world, 0, url, trace, maxRedirects)
  {
    if start.Some? && IsOutbound(start.value) {
      FollowIsAChain(world, Hop(start.value, verb, body, headers), 0, maxRedirects);
    }
  }

  // ---- what each request carries ------------------------------------------------------

  /** The origin changed somewhere before request `i`. */
  predicate Crossed(exchanges: seq<Exchange>, i: nat)
    requires i < |exchanges|
  {
    i > 0
      && (OriginOf(exchanges[0].request.url) != OriginOf(exchanges[1].request.url) || Crossed(exchanges[1..], i - 1))
  }

  /** An answer before request `i` turned the method into GET. */
  predicate Rewritten(exchanges: seq<Exchange>, i: nat)
    requires i < |exchanges|
  {
    i > 0 && (Rewrites(exchanges[0]) || Rewritten(exchanges[1..], i - 1))
  }

  predicate Rewrites(exchange: Exchange) {
    exchange.answer.Some? && RewritesToGet(exchange.request.verb, exchange.answer.value.status)
  }

  function Carried(headers: Headers, crossed: bool, rewritten: bool): Headers {
    var kept := if crossed then Without(headers, IsSensitive) else headers;
    if rewritten then Without(kept, IsBodyHeader) else kept
  }

  lemma WithoutTwice(headers: Headers, drop: string -> bool, other: string -> bool)
    ensures Without(Without(headers, drop), drop) == Without(headers, drop)
    ensures Without(Without(headers, drop), other) == Without(Without(headers, other), drop)
  {
  }

  lemma CarriedTwice(headers: Headers, c1: bool, r1: bool, c2: bool, r2: bool)
    ensures Carried(Carried(headers, c1, r1), c2, r2) == Carried(headers, c1 || c2, r1 || r2)
  {
    WithoutTwice(headers, IsSensitive, IsBodyHeader);
    WithoutTwice(headers, IsBodyHeader, IsSensitive);
    WithoutTwice(Without(headers, IsSensitive), IsBodyHeader, IsSensitive);
  }

  /** Request `i` in full: the headers lose the sensitive ones once the origin has changed and the
      body's ones once the method was rewritten; the body and the method last until then. */
  ghost predicate CarriesExactly(hop: Hop, exchanges: seq<Exchange>, i: nat)
    requires i < |exchanges|
  {
    var request := exchanges[i].request;
    && request.headers == Carried(hop.headers, Crossed(exchanges, i), Rewritten(exchanges, i))
    && request.verb == (if Rewritten(exchanges, i) then "GET" else hop.verb)
    && request.body == (if Rewritten(exchanges, i) then None else hop.body)
  }

  lemma {:induction false} FollowCarries(world: World, hop: Hop, k: nat, maxRedirects: int, i: nat)
    requires i < |Follow(world, hop, k, maxRedirects).exchanges|
    ensures CarriesExactly(hop, Follow(world, hop, k, maxRedirects).exchanges, i)
    decreases maxRedirects - k
  {
    if i > 0 {
      var exchanges := Follow(world, hop, k, maxRedirects).exchanges;
      var answer := exchanges[0].answer.value;
      var next := Redirected(hop, world.join(hop.url, answer.location).value, answer.status);
      var rest := Follow(world, next, k + 1, maxRedirects).exchanges;
      assert exchanges[1..] == rest;
      FollowCarries(world, next, k + 1, maxRedirects, i - 1);
      var crossed := OriginOf(exchanges[0].request.url) != OriginOf(exchanges[1].request.url);
      CarriedTwice(hop.headers, crossed, Rewrites(exchanges[0]), Crossed(rest, i - 1), Rewritten(rest, i - 1));
    }
  }

  /** Two URLs of one origin, written out. */
  ghost predicate SameOrigin(a: Url, b: Url) {
    a.https == b.https && a.host == b.host && a.port == b.port
  }

  lemma {:induction false} CrossedIff(exchanges: seq<Exchange>, i: nat)
    requires i < |exchanges|
    ensures !Crossed(exchanges, i) <==>
            forall j :: 0 <= j <= i ==> SameOrigin(exchanges[j].request.url, exchanges[0].request.url)
    decreases i
  {
    if i > 0 {
      CrossedIff(exchanges[1..], i - 1);
      assert forall j :: 1 <= j <= i ==> exchanges[j] == exchanges[1..][j - 1];
    }
  }

  /** The answer turns the request after it into a GET: 303 always, 301 and 302 after a POST. */
  ghost predicate TurnsIntoGet(exchange: Exchange) {
    && exchange.answer.Some?
    && var status := exchange.answer.value.status;
       status == 303 || (status in {301, 302} && exchange.request.verb == "POST")
  }

  lemma {:induction false} RewrittenIff(exchanges: seq<Exchange>, i: nat)
    requires i < |exchanges|
    ensures !Rewritten(exchanges, i) <==> forall j :: 0 <= j < i ==> !TurnsIntoGet(exchanges[j])
    decreases i
  {
    if i > 0 {
      RewrittenIff(exchanges[1..], i - 1);
      assert forall j :: 1 <= j < i ==> exchanges[j] == exchanges[1..][j - 1];
    }
  }

  /** The header `name` is carried as given, or left out. */
  ghost predicate CarriedIf(headers: Headers, carried: Headers, name: string, kept: bool) {
    (name in carried <==> name in headers && kept) && (name in carried ==> carried[name] == headers[name])
  }

  /** A credential header reaches a request exactly when it was given and all requests up to it had
      one origin, coming back to an origin does not bring it back. */
  lemma CredentialsStayHome(
      world: World, start: Option<Url>, verb: string, body: Option<string>, headers: Headers, maxRedirects: int, i: nat,
      name: string)
    requires i < |FetchTrace(world, start, verb, body, headers, maxRedirects).exchanges| && NamesACredential(name)
    ensures var exchanges := FetchTrace(world, start, verb, body, headers, maxRedirects).exchanges;
            CarriedIf(
              headers, exchanges[i].request.headers, name,
              forall j :: 0 <= j <= i ==> SameOrigin(exchanges[j].request.url, exchanges[0].request.url))
  {
    SensitiveIff(name);
    BodyHeaderIff(name);
    NoCredentialDescribesTheBody(name);
    FollowCarries(world, Hop(start.value, verb, body, headers), 0, maxRedirects, i);
    CrossedIff(FetchTrace(world, start, verb, body, headers, maxRedirects).exchanges, i);
  }

  /** The body, the method and the headers that describe the body reach a request exactly as given as long
      as no earlier answer rewrote the request; after that the method is GET and there is neither a body nor
      such a header. */
  lemma BodyFollowsTheMethod(
      world: World, start: Option<Url>, verb: string, body: Option<string>, headers: Headers, maxRedirects: int, i: nat)
    requires i < |FetchTrace(world, start, verb, body, headers, maxRedirects).exchanges|
    ensures var exchanges := FetchTrace(world, start, verb, body, headers, maxRedirects).exchanges;
            var request := exchanges[i].request;
            var kept := forall j :: 0 <= j < i ==> !TurnsIntoGet(exchanges[j]);
            && (if kept then request.verb == verb && request.body == body
                else request.verb == "GET" && request.body == None)
            && forall name :: DescribesTheBody(name) ==> CarriedIf(headers, request.headers, name, kept)
  {
    FollowCarries(world, Hop(start.value, verb, body, headers), 0, maxRedirects, i);
    RewrittenIff(FetchTrace(world, start, verb, body, headers, maxRedirects).exchanges, i);
    forall name | DescribesTheBody(name) ensures IsBodyHeader(name) && !IsSensitive(name) {
      SensitiveIff(name);
      BodyHeaderIff(name);
      NoCredentialDescribesTheBody(name);
    }
  }

  /** Every other header is carried unchanged to every request. */
  lemma OtherHeadersAreCarried(
      world: World, start: Option<Url>, verb: string, body: Option<string>, headers: Headers, maxRedirects: int, i: nat,
      name: string)
    requires i < |FetchTrace(world, start, verb, body, headers, maxRedirects).exchanges|
    requires !NamesACredential(name) && !DescribesTheBody(name)
    ensures CarriedIf(
              headers, FetchTrace(world, start, verb, body, headers, maxRedirects).exchanges[i].request.headers, name,
              true)
  {
    SensitiveIff(name);
    BodyHeaderIff(name);
    FollowCarries(world, Hop(start.value, verb, body, headers), 0, maxRedirects, i);
  }
}
