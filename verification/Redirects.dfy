/**
 The manual redirect follower of backend/outbound_security.py: every hop is validated
 before it is sent, and what a hop may carry shrinks along the chain.
 */
module Redirects {
  import opened Wrappers

  type Headers = map<string, string>

  /** Scheme, host and port. */
  type Origin = (string, string, int)

  /** The library functions a chain depends on: urlsplit, urljoin and str.lower. */
  datatype Library = Library(origin: string -> Origin, join: (string, string) -> string, lower: string -> string)

  /** Keyword arguments of a request; `rest` holds all but the headers. */
  datatype Kwargs = Kwargs(headers: Option<Headers>, rest: map<string, string>)

  /** The session defaults that Session.request merges into every request. */
  datatype Defaults = Defaults(
    params: map<string, string>, auth: Option<string>, headers: Headers, cookies: map<string, string>)

  datatype Response = Response(status: int, location: string)

  /** The request the follower is about to make, and whether session credentials may go with it. */
  datatype Pending = Pending(verb: string, url: string, kwargs: Kwargs, trusted: bool)

  /** One request as sent, the URL that validation accepted last if nothing was sent since, the
      defaults in force, and what came back; None if the sender raised. */
  datatype Hop = Hop(
    verb: string, url: string, kwargs: Kwargs, approved: Option<string>, defaults: Defaults, response: Option<Response>)

  datatype Outcome = Returned(response: Response, history: seq<Response>) | Blocked | SenderRaised | TooManyRedirects

  const REDIRECT_STATUSES: set<int> := {301, 302, 303, 307, 308}
  const SECRET_HEADERS: set<string> := {"authorization", "proxy-authorization", "cookie", "x-api-key", "api-key"}
  const BODY_HEADERS: set<string> := {"content-length", "content-type", "transfer-encoding"}
  const BODY_ARGUMENTS: set<string> := {"data", "json", "files", "content"}

  // ---- One redirect ---------------------------------------------------------

  predicate Redirects(response: Response) {
    response.status in REDIRECT_STATUSES && response.location != ""
  }

  /** _remove_headers */
  function Without(library: Library, headers: Headers, forbidden: set<string>): Headers {
    map name | name in headers && library.lower(name) !in forbidden :: headers[name]
  }

  function NextMethod(verb: string, status: int): string {
    if status == 303 && verb != "HEAD" then "GET"
    else if status == 302 && verb != "HEAD" then "GET"
    else if status == 301 && verb == "POST" then "GET"
    else verb
  }

  /** _redirect_method_and_kwargs, the arguments; the caller then drops "params". */
  function NextKwargs(library: Library, verb: string, next: string, kwargs: Kwargs, crossed: bool): Kwargs {
    var headers := if kwargs.headers.Some? then kwargs.headers.value else map[];
    var public := if crossed then Without(library, headers, SECRET_HEADERS) else headers;
    var rest := if crossed then kwargs.rest - {"auth", "cookies"} else kwargs.rest;
    var rewritten := next == "GET" && verb != "GET";
    var kept := if rewritten then Without(library, public, BODY_HEADERS) else public;
    Kwargs(if kept != map[] || kwargs.headers.Some? then Some(kept) else None,
           (if rewritten then rest - BODY_ARGUMENTS else rest) - {"params"})
  }

  /** What the defaults look like to a hop. */
  function Visible(library: Library, defaults: Defaults, first: bool, trusted: bool): Defaults {
    Defaults(
      if first then defaults.params else map[],
      if trusted then defaults.auth else None,
      if trusted then defaults.headers else Without(library, defaults.headers, SECRET_HEADERS),
      if trusted then defaults.cookies else map[])
  }

  /** The second half of a turn of the loop: what a redirect makes of the pending request. */
  function Redirected(library: Library, p: Pending, r: Response): Pending {
    var url := library.join(p.url, r.location);
    var verb := NextMethod(p.verb, r.status);
    var crossed := library.origin(p.url) != library.origin(url);
    Pending(verb, url, NextKwargs(library, p.verb, verb, p.kwargs, crossed), p.trusted && !crossed)
  }

  // ---- Chains ---------------------------------------------------------------

  /** What is pending after the hops in `log`. */
  function After(library: Library, start: Pending, log: seq<Hop>): Pending {
    if log == [] then start
    else
      var before := After(library, start, log[..|log| - 1]);
      var last := log[|log| - 1];
      if last.response.Some? then Redirected(library, before, last.response.value) else before
  }

  /** A hop sends the pending request to a URL validated for it, with what the session collected
      in cookies by then. */
  ghost predicate Sends(library: Library, stored: Defaults, p: Pending, first: bool, hop: Hop) {
    && hop.verb == p.verb && hop.url == p.url && hop.kwargs == p.kwargs && hop.approved == Some(p.url)
    && exists cookies: map<string, string> ::
         hop.defaults == Visible(library, stored.(cookies := cookies), first, p.trusted)
  }

  /** Each hop sends what is pending, and follows a redirect. */
  ghost predicate Chain(library: Library, stored: Defaults, start: Pending, log: seq<Hop>) {
    log == [] ||
    var front, last := log[..|log| - 1], log[|log| - 1];
    && Chain(library, stored, start, front)
    && (front != [] ==> front[|front| - 1].response.Some? && Redirects(front[|front| - 1].response.value))
    && Sends(library, stored, After(library, start, front), front == [], last)
  }

  lemma ChainGrows(
    library: Library, stored: Defaults, start: Pending, log: seq<Hop>, hop: Hop, cookies: map<string, string>)
    requires Chain(library, stored, start, log)
    requires log != [] ==> log[|log| - 1].response.Some? && Redirects(log[|log| - 1].response.value)
    requires var p := After(library, start, log);
      && hop.verb == p.verb && hop.url == p.url && hop.kwargs == p.kwargs && hop.approved == Some(p.url)
      && hop.defaults == Visible(library, stored.(cookies := cookies), log == [], p.trusted)
    ensures Chain(library, stored, start, log + [hop])
    ensures After(library, start, log + [hop]) ==
      if hop.response.Some? then Redirected(library, After(library, start, log), hop.response.value)
      else After(library, start, log)
  {
    assert (log + [hop])[..|log|] == log;
  }

  lemma {:induction false} ChainPrefix(library: Library, stored: Defaults, start: Pending, log: seq<Hop>, n: nat)
    requires Chain(library, stored, start, log) && n <= |log|
    ensures Chain(library, stored, start, log[..n])
    ensures n < |log| ==> Sends(library, stored, After(library, start, log[..n]), n == 0, log[n])
    ensures 0 < n < |log| ==> log[n - 1].response.Some? && Redirects(log[n - 1].response.value)
    decreases |log|
  {
    if n < |log| {
      var front := log[..|log| - 1];
      if n < |front| {
        assert front[..n] == log[..n];
        ChainPrefix(library, stored, start, front, n);
      }
    } else {
      assert log[..n] == log;
    }
  }

  /** One step of what is pending along a chain. */
  lemma AfterStep(library: Library, stored: Defaults, start: Pending, log: seq<Hop>, n: nat)
    requires Chain(library, stored, start, log) && 0 < n < |log|
    ensures log[n - 1].response.Some?
    ensures After(library, start, log[..n]) ==
      Redirected(library, After(library, start, log[..n - 1]), log[n - 1].response.value)
    ensures log[n - 1].url == After(library, start, log[..n - 1]).url
    ensures log[n].url == After(library, start, log[..n]).url
    ensures log[n - 1].verb == After(library, start, log[..n - 1]).verb
    ensures log[n].verb == After(library, start, log[..n]).verb
  {
    ChainPrefix(library, stored, start, log, n);
    ChainPrefix(library, stored, start, log, n - 1);
    assert log[..n][..n - 1] == log[..n - 1];
  }

  // ---- What holds along every chain -----------------------------------------

  predicate SecretFree(library: Library, headers: Headers) {
    forall name :: name in headers ==> library.lower(name) !in SECRET_HEADERS
  }

  predicate SecretFreeArguments(library: Library, kwargs: Kwargs) {
    && "auth" !in kwargs.rest && "cookies" !in kwargs.rest
    && (kwargs.headers.Some? ==> SecretFree(library, kwargs.headers.value))
  }

  /** Neither the request nor the session contributes a credential. */
  predicate NoCredentials(library: Library, hop: Hop) {
    && SecretFreeArguments(library, hop.kwargs)
    && hop.defaults.auth.None? && hop.defaults.cookies == map[] && SecretFree(library, hop.defaults.headers)
  }

  predicate NoBody(library: Library, verb: string, kwargs: Kwargs) {
    && verb == "GET"
    && (forall key :: key in BODY_ARGUMENTS ==> key !in kwargs.rest)
    && (kwargs.headers.Some? ==>
          forall name :: name in kwargs.headers.value ==> library.lower(name) !in BODY_HEADERS)
  }

  lemma CrossingStrips(library: Library, p: Pending, r: Response)
    requires library.origin(p.url) != library.origin(library.join(p.url, r.location))
      || (!p.trusted && SecretFreeArguments(library, p.kwargs))
    ensures !Redirected(library, p, r).trusted && SecretFreeArguments(library, Redirected(library, p, r).kwargs)
  {
  }

  lemma {:induction false} StrippedAfterCrossing(
    library: Library, stored: Defaults, start: Pending, log: seq<Hop>, i: nat, k: nat)
    requires Chain(library, stored, start, log) && i < k < |log|
    requires library.origin(log[i].url) != library.origin(log[i + 1].url)
    ensures var p := After(library, start, log[..k]); !p.trusted && SecretFreeArguments(library, p.kwargs)
  {
    AfterStep(library, stored, start, log, k);
    if i + 1 < k {
      StrippedAfterCrossing(library, stored, start, log, i, k - 1);
    }
    CrossingStrips(library, After(library, start, log[..k - 1]), log[k - 1].response.value);
  }

  /** After a hop to another origin no credential is sent again, even back to the first origin. */
  lemma NoCredentialAfterCrossing(library: Library, stored: Defaults, start: Pending, log: seq<Hop>, i: nat, k: nat)
    requires Chain(library, stored, start, log) && i < k < |log|
    requires library.origin(log[i].url) != library.origin(log[i + 1].url)
    ensures NoCredentials(library, log[k])
  {
    StrippedAfterCrossing(library, stored, start, log, i, k);
    ChainPrefix(library, stored, start, log, k);
  }

  lemma RewritingStrips(library: Library, p: Pending, r: Response)
    requires (p.verb != "GET" && NextMethod(p.verb, r.status) == "GET") || NoBody(library, p.verb, p.kwargs)
    ensures NoBody(library, Redirected(library, p, r).verb, Redirected(library, p, r).kwargs)
  {
  }

  /** A method rewritten to GET stays GET, without a body. */
  lemma {:induction false} RewrittenStaysBodyless(
    library: Library, stored: Defaults, start: Pending, log: seq<Hop>, i: nat, k: nat)
    requires Chain(library, stored, start, log) && i < k < |log|
    requires log[i].verb != "GET" && log[i + 1].verb == "GET"
    ensures NoBody(library, log[k].verb, log[k].kwargs)
    decreases k
  {
    AfterStep(library, stored, start, log, k);
    ChainPrefix(library, stored, start, log, k);
    ChainPrefix(library, stored, start, log, k - 1);
    if i + 1 < k {
      RewrittenStaysBodyless(library, stored, start, log, i, k - 1);
    }
    RewritingStrips(library, After(library, start, log[..k - 1]), log[k - 1].response.value);
  }

  /** Arguments that a redirect may take away: credentials, query parameters, and a body once another
      method was chosen. */
  predicate Losable(key: string, rewritten: bool) {
    key in {"auth", "cookies", "params"} || (rewritten && key in BODY_ARGUMENTS)
  }

  predicate LosableHeader(library: Library, name: string, rewritten: bool) {
    library.lower(name) in SECRET_HEADERS || (rewritten && library.lower(name) in BODY_HEADERS)
  }

  /** A later hop carries everything else an earlier one did, and nothing new. */
  predicate Inherits(library: Library, earlier: Kwargs, later: Kwargs, rewritten: bool) {
    && (forall key :: key in later.rest ==> key in earlier.rest && later.rest[key] == earlier.rest[key])
    && (forall key :: key in earlier.rest && !Losable(key, rewritten) ==> key in later.rest)
    && (earlier.headers.Some? <==> later.headers.Some?)
    && InheritsHeaders(library, HeadersOf(earlier), HeadersOf(later), rewritten)
  }

  function HeadersOf(kwargs: Kwargs): Headers {
    if kwargs.headers.Some? then kwargs.headers.value else map[]
  }

  predicate InheritsHeaders(library: Library, earlier: Headers, later: Headers, rewritten: bool) {
    && (forall name :: name in later ==> name in earlier && later[name] == earlier[name])
    && (forall name :: name in earlier && !LosableHeader(library, name, rewritten) ==> name in later)
  }

  lemma RedirectedInherits(library: Library, p: Pending, r: Response)
    ensures var q := Redirected(library, p, r); Inherits(library, p.kwargs, q.kwargs, q.verb != p.verb)
  {
  }

  lemma InheritsOn(library: Library, a: Kwargs, b: Kwargs, c: Kwargs, early: bool, late: bool)
    requires Inherits(library, a, b, early) && Inherits(library, b, c, late)
    ensures Inherits(library, a, c, early || late)
  {
  }

  lemma InheritsNothing(library: Library, a: Kwargs)
    ensures Inherits(library, a, a, false)
  {
  }

  lemma {:induction false} PendingInherits(
    library: Library, stored: Defaults, start: Pending, log: seq<Hop>, k: nat)
    requires Chain(library, stored, start, log) && k < |log|
    ensures var p := After(library, start, log[..k]);
      Inherits(library, start.kwargs, p.kwargs, p.verb != start.verb) && p.verb in {start.verb, "GET"}
  {
    if k > 0 {
      PendingInherits(library, stored, start, log, k - 1);
      AfterStep(library, stored, start, log, k);
      var before, r := After(library, start, log[..k - 1]), log[k - 1].response.value;
      RedirectedInherits(library, before, r);
      var after := Redirected(library, before, r);
      InheritsOn(library, start.kwargs, before.kwargs, after.kwargs,
                 before.verb != start.verb, after.verb != before.verb);
    } else {
      InheritsNothing(library, start.kwargs);
    }
  }

  /** Along a chain nothing is lost but credentials, query parameters and, once the method has
      changed, the body: with 307 and 308 the body arrives. */
  lemma OthersSurvive(library: Library, stored: Defaults, start: Pending, log: seq<Hop>, k: nat)
    requires Chain(library, stored, start, log) && k < |log|
    ensures Inherits(library, start.kwargs, log[k].kwargs, log[k].verb != start.verb)
    ensures log[k].verb in {start.verb, "GET"}
  {
    PendingInherits(library, stored, start, log, k);
    ChainPrefix(library, stored, start, log, k);
  }

  /** Query parameters of the caller and of the session go out once. */
  lemma ParametersOnlyOnce(library: Library, stored: Defaults, start: Pending, log: seq<Hop>, k: nat)
    requires Chain(library, stored, start, log) && 0 < k < |log|
    ensures "params" !in log[k].kwargs.rest && log[k].defaults.params == map[]
  {
    AfterStep(library, stored, start, log, k);
    ChainPrefix(library, stored, start, log, k);
  }

  lemma SameOriginKeeps(library: Library, p: Pending, r: Response, key: string, name: string)
    requires library.origin(p.url) == library.origin(library.join(p.url, r.location))
    ensures Redirected(library, p, r).trusted == p.trusted
    ensures key in {"auth", "cookies"} && key in p.kwargs.rest ==>
      var rest := Redirected(library, p, r).kwargs.rest; key in rest && rest[key] == p.kwargs.rest[key]
    ensures library.lower(name) !in BODY_HEADERS && name in HeadersOf(p.kwargs) ==>
      name in HeadersOf(Redirected(library, p, r).kwargs)
    ensures library.lower(name) !in BODY_HEADERS && name in HeadersOf(p.kwargs) ==>
      HeadersOf(Redirected(library, p, r).kwargs)[name] == HeadersOf(p.kwargs)[name]
  {
  }

  /** While a chain stays on one origin the credentials go with every hop: those of the session
      and those of the request, in its headers or not. */
  lemma {:induction false} CredentialsStayAtHome(
    library: Library, stored: Defaults, start: Pending, log: seq<Hop>, k: nat, key: string, name: string)
    requires Chain(library, stored, start, log) && k < |log| && start.trusted
    requires forall i :: 0 < i <= k ==> library.origin(log[i - 1].url) == library.origin(log[i].url)
    ensures After(library, start, log[..k]).trusted
    ensures log[k].defaults.auth == stored.auth && log[k].defaults.headers == stored.headers
    ensures key in {"auth", "cookies"} && key in start.kwargs.rest ==>
      key in log[k].kwargs.rest && log[k].kwargs.rest[key] == start.kwargs.rest[key]
    ensures name in HeadersOf(start.kwargs) && library.lower(name) !in BODY_HEADERS ==>
      var headers := HeadersOf(log[k].kwargs); name in headers && headers[name] == HeadersOf(start.kwargs)[name]
    decreases k
  {
    ChainPrefix(library, stored, start, log, k);
    if k > 0 {
      AfterStep(library, stored, start, log, k);
      ChainPrefix(library, stored, start, log, k - 1);
      CredentialsStayAtHome(library, stored, start, log, k - 1, key, name);
      SameOriginKeeps(library, After(library, start, log[..k - 1]), log[k - 1].response.value, key, name);
    } else {
      assert log[..k] == [];
    }
  }

  /** Section 15.4 of RFC 9110: only 307 and 308 promise the method; HEAD is never rewritten,
      and nothing becomes anything but GET. */
  lemma MethodsAreKeptOrBecomeGet(verb: string, status: int)
    requires status in REDIRECT_STATUSES
    ensures NextMethod(verb, status) in {verb, "GET"}
    ensures verb == "HEAD" || status in {307, 308} ==> NextMethod(verb, status) == verb
    ensures verb == "POST" ==> (NextMethod(verb, status) == "POST" <==> status in {307, 308})
    ensures verb !in {"GET", "HEAD", "POST"} ==> (NextMethod(verb, status) == verb <==> status in {301, 307, 308})
  {
  }

  /** The history holds the responses of the first hops. */
  predicate Answered(log: seq<Hop>, history: seq<Response>) {
    |history| <= |log| && forall k :: 0 <= k < |history| ==> log[k].response == Some(history[k])
  }

  /** Over the whole chain: each hop goes to the URL that was validated since the hop before it. */
  lemma OnlyValidatedUrls(library: Library, stored: Defaults, start: Pending, log: seq<Hop>, k: nat)
    requires Chain(library, stored, start, log) && k < |log|
    ensures log[k].approved == Some(log[k].url)
  {
    ChainPrefix(library, stored, start, log, k);
  }

  /** Each hop but the first goes where the answer to the one before points, and only after a redirect. */
  lemma HopsFollowAnswers(library: Library, stored: Defaults, start: Pending, log: seq<Hop>, k: nat)
    requires Chain(library, stored, start, log) && k < |log|
    ensures k == 0 ==> log[k].url == start.url && log[k].verb == start.verb && log[k].kwargs == start.kwargs
    ensures k > 0 ==> log[k - 1].response.Some?
    ensures k > 0 ==>
      var answer := log[k - 1].response.value;
      && answer.status in {301, 302, 303, 307, 308} && answer.location != ""
      && log[k].url == library.join(log[k - 1].url, answer.location)
      && log[k].verb == NextMethod(log[k - 1].verb, answer.status)
  {
    ChainPrefix(library, stored, start, log, k);
    if k > 0 {
      AfterStep(library, stored, start, log, k);
    } else {
      assert log[..0] == [];
    }
  }

  // ---- The follower ---------------------------------------------------------

  class Session {
    const library: Library
    var params: map<string, string>
    var auth: Option<string>
    var headers: Headers
    var cookies: map<string, string>
    ghost var approved: Option<string>      // the URL validated and not yet used
    ghost var log: seq<Hop>                 // the hops of the current request
    ghost var refused: Option<string>       // the URL of the current request that validation refused

    constructor (library: Library, defaults: Defaults)
      ensures this.library == library && Stored() == defaults
    {
      this.library := library;
      params, auth, headers, cookies := defaults.params, defaults.auth, defaults.headers, defaults.cookies;
      approved, log, refused := None, [], None;
    }

    function Stored(): Defaults
      reads this
    {
      Defaults(params, auth, headers, cookies)
    }

    /** validate_outbound_url: whether it accepts depends on the name service. */
    method Validate(url: string) returns (ok: bool)
      modifies this`approved, this`refused
      ensures approved == if ok then Some(url) else None
      ensures refused == if ok then old(refused) else Some(url)
    {
      ok := *;
      approved := if ok then Some(url) else None;
      refused := if ok then refused else Some(url);
    }

    /** Session.request: merges the present defaults into the request. It may collect cookies
        into the present jar, and it may raise. */
    method Sender(verb: string, url: string, kwargs: Kwargs) returns (response: Option<Response>)
      modifies this`approved, this`cookies, this`log
      ensures approved == None
      ensures log == old(log) + [Hop(verb, url, kwargs, old(approved), old(Stored()), response)]
    {
      response := *;
      log, approved := log + [Hop(verb, url, kwargs, approved, Stored(), response)], None;
      cookies := *;
    }

    /** _send_requests_hop */
    method SendHop(verb: string, url: string, kwargs: Kwargs, first: bool, trusted: bool)
      returns (response: Option<Response>)
      requires first ==> trusted
      modifies this
      ensures approved == None && refused == old(refused)
      ensures log == old(log) +
        [Hop(verb, url, kwargs, old(approved), Visible(library, old(Stored()), first, trusted), response)]
      // The session is as before, whether or not the sender raised.
      ensures Stored() == old(Stored()).(cookies := cookies)
      ensures !trusted ==> cookies == old(cookies)
    {
      if first && trusted {
        response := Sender(verb, url, kwargs);
        return;
      }
      var original := Stored();
      if !first {
        params := map[];
      }
      if !trusted {
        auth, headers, cookies := None, Without(library, headers, SECRET_HEADERS), map[];
      }
      response := Sender(verb, url, kwargs);
      params, auth, headers := original.params, original.auth, original.headers;
      if !trusted {
        cookies := original.cookies;   // the same jar object; a trusted hop has filled it in place
      }
    }

    /** The first half of a turn of the loop: validate, then send. Not ok if the URL is refused. */
    method Attempt(p: Pending, first: bool, ghost stored: Defaults, ghost start: Pending, ghost history: seq<Response>)
      returns (ok: bool, response: Option<Response>)
      requires Chain(library, stored, start, log) && Stored() == stored.(cookies := cookies) && first == (log == [])
      requires Answered(log, history)
      requires p == After(library, start, log) && (first ==> p.trusted)
      requires log != [] ==> log[|log| - 1].response.Some? && Redirects(log[|log| - 1].response.value)
      modifies this
      ensures Chain(library, stored, start, log) && Stored() == stored.(cookies := cookies)
      ensures Answered(log, history)
      ensures !ok ==> log == old(log)
      ensures refused == if ok then old(refused) else Some(p.url)
      // Nothing is sent but to the URL validated just before.
      ensures ok ==>
        && |log| == |old(log)| + 1 && old(log) == log[..|old(log)|] && log[|old(log)|].response == response
        && log[|old(log)|].url == p.url && log[|old(log)|].approved == Some(p.url)
        && After(library, start, log) == if response.Some? then Redirected(library, p, response.value) else p
    {
      response := None;
      ok := Validate(p.url);
      if ok {
        ghost var before, jar := log, cookies;
        response := SendHop(p.verb, p.url, p.kwargs, first, p.trusted);
        ChainGrows(library, stored, start, before, log[|before|], jar);
        assert log == before + [log[|before|]];
      }
    }

    /** Between two turns of the loop: every hop so far was answered by a redirect. */
    ghost predicate Between(
      stored: Defaults, start: Pending, current: Pending, history: seq<Response>, follow: bool, limit: nat)
      reads this
    {
      && Chain(library, stored, start, log) && |log| == |history| <= limit && (!follow ==> log == [])
      && refused == None
      && Stored() == stored.(cookies := cookies) && Answered(log, history)
      && current == After(library, start, log) && (log == [] ==> current.trusted)
      && (log != [] ==> log[|log| - 1].response.Some? && Redirects(log[|log| - 1].response.value))
    }

    /** The refused URL is the one to be requested next: the first, or the last redirect's. */
    ghost predicate StoppedAt(start: Pending, follow: bool, limit: nat)
      reads this
    {
      && refused == Some(After(library, start, log).url) && |log| <= limit
      && (log != [] ==>
            follow && log[|log| - 1].response.Some? && Redirects(log[|log| - 1].response.value))
    }

    /** One turn of the loop: it ends the request, or leaves the next one pending. */
    method Turn(current: Pending, history: seq<Response>, follow: bool, limit: nat,
                ghost stored: Defaults, ghost start: Pending)
      returns (ended: Option<Outcome>, next: Pending, more: seq<Response>)
      requires Between(stored, start, current, history, follow, limit)
      modifies this
      ensures Stored() == stored.(cookies := cookies) && Chain(library, stored, start, log)
      ensures |log| <= limit + 1 && (!follow ==> |log| <= 1)
      ensures ended.None? ==> |more| == |history| + 1 && Between(stored, start, next, more, follow, limit)
      ensures ended.Some? && ended.value.Returned? ==>
        var outcome := ended.value;
        && |log| == |outcome.history| + 1 && log[|log| - 1].response == Some(outcome.response)
        && (!follow || !Redirects(outcome.response)) && Answered(log, outcome.history)
      ensures ended == Some(TooManyRedirects) ==>
        |log| == limit + 1 && log[limit].response.Some? && Redirects(log[limit].response.value)
      ensures ended.Some? ==> (ended.value.SenderRaised? <==> log != [] && log[|log| - 1].response.None?)
      ensures ended.Some? ==> (ended.value.Blocked? <==> refused.Some?)
      ensures refused.Some? ==> StoppedAt(start, follow, limit)
    {
      next, more := current, history;
      var ok, response := Attempt(current, history == [], stored, start, history);
      if !ok {
        return Some(Blocked), next, more;
      }
      if response.None? {
        return Some(SenderRaised), next, more;
      }
      if !follow || !Redirects(response.value) {
        return Some(Returned(response.value, history)), next, more;
      }
      if |history| >= limit {
        return Some(TooManyRedirects), next, more;
      }
      ok := Validate(library.join(current.url, response.value.location));
      if !ok {
        return Some(Blocked), next, more;
      }
      FollowedBetween(stored, start, current, history, response.value, follow, limit);
      return None, Redirected(library, current, response.value), history + [response.value];
    }

    lemma FollowedBetween(stored: Defaults, start: Pending, current: Pending, history: seq<Response>,
                          response: Response, follow: bool, limit: nat)
      requires Chain(library, stored, start, log) && |log| == |history| + 1 <= limit && follow
      requires Stored() == stored.(cookies := cookies) && Answered(log, history)
      requires log[|log| - 1].response == Some(response) && Redirects(response) && refused == None
      requires After(library, start, log) == Redirected(library, current, response)
      ensures Between(stored, start, Redirected(library, current, response), history + [response], follow, limit)
    {
    }

    /** _request_with_validated_redirects */
    method Request(verb: string, url: string, kwargs: Kwargs, follow: bool, limit: nat) returns (outcome: Outcome)
      modifies this
      ensures Chain(library, old(Stored()), Pending(verb, url, kwargs, true), log)
      ensures |log| <= limit + 1 && (!follow ==> |log| <= 1)
      ensures Stored() == old(Stored()).(cookies := cookies)
      ensures outcome.Returned? ==>
        && |log| == |outcome.history| + 1 && log[|log| - 1].response == Some(outcome.response)
        && (!follow || !Redirects(outcome.response)) && Answered(log, outcome.history)
      ensures outcome.TooManyRedirects? ==>
        |log| == limit + 1 && log[limit].response.Some? && Redirects(log[limit].response.value)
      ensures outcome.SenderRaised? <==> log != [] && log[|log| - 1].response.None?
      ensures outcome.Blocked? <==> refused.Some?
      ensures refused.Some? ==> StoppedAt(Pending(verb, url, kwargs, true), follow, limit)
    {
      log, refused := [], None;
      var start := Pending(verb, url, kwargs, true);
      var current, history := start, [];
      ghost var stored := Stored();
      while true
        invariant Between(stored, start, current, history, follow, limit)
        decreases limit - |history|
      {
        var ended;
        ended, current, history := Turn(current, history, follow, limit, stored, start);
        if ended.Some? {
          return ended.value;
        }
      }
    }
  }
}
