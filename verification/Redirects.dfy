/**
  The HTTP acquisition loop against an arbitrary server: which requests it sends, with which headers,
  and what it returns. URL resolution, secrets and responses are arbitrary functions.
 */
module Redirects {
  import opened Basics

  datatype Scheme = Http | Https | OtherScheme(name: string)

  /** Two URLs are equal exactly if their serialisations are. */
  datatype Url = Url(scheme: Scheme, host: Option<string>, port: Option<nat>, rest: string) {
    function PortOrDefault(): Option<nat> {
      if port.Some? then port else match scheme
        case Http => Some(80)
        case Https => Some(443)
        case OtherScheme(_) => None
    }
  }

  predicate SameOrigin(a: Url, b: Url) {
    a.scheme == b.scheme && a.host == b.host && a.PortOrDefault() == b.PortOrDefault()
  }

  datatype Validators = Validators(issuedUrl: Url, etag: Option<string>, lastModified: Option<string>) {
    /** `HttpValidators::validate`: issued over HTTP, with at least one value and none empty. */
    predicate Valid() {
      && !issuedUrl.scheme.OtherScheme?
      && (etag.Some? || lastModified.Some?)
      && etag != Some("") && lastModified != Some("")
    }
  }

  /** One request as sent: whether extensible headers went along, and its conditional headers. */
  datatype Request = Request(url: Url, extensible: bool, ifNoneMatch: Option<string>, ifModifiedSince: Option<string>) {
    predicate Conditional() {
      ifNoneMatch.Some? || ifModifiedSince.Some?
    }
  }

  datatype FailureKind =
    | HttpStatus | HttpSuccessNotRepresentation | RedirectDowngrade | TooManyRedirects | RedirectLoop
    | ContentLengthExceeded | BodyBytesExceeded | InvalidUtf8 | Transport(code: int)

  /** A streamed body: the bytes that arrive, and the failure that breaks the stream after them, if any. */
  datatype Body = Body(bytes: seq<nat>, broken: Option<int>)

  datatype Reply =
    | NoReply(code: int)
    | Reply(status: nat, location: Option<string>, etag: Option<string>, lastModified: Option<string>,
            contentLength: Option<nat>, body: Body)

  datatype Acquired =
    | NotModified(validators: Validators)
    | Document(text: string, effective: Url, issued: Option<Validators>)
    | Failed(kind: FailureKind, status: Option<nat>)
    | SecretUnavailable

  /**
    The configuration and the surroundings. A server answers from all requests so far; a secret may be
    available at one hop and not at another; resolving a location or decoding bytes may fail.
   */
  datatype Fetch = Fetch(
    source: Url, follow: bool, maxRedirects: nat, maxBytes: nat, validators: Option<Validators>,
    secrets: nat -> bool, resolve: (Url, string) -> Option<Url>, decode: seq<nat> -> Option<string>,
    server: seq<Request> -> Reply)

  predicate Direct(f: Fetch, current: Url, redirects: nat) {
    redirects == 0 && current == f.source
  }

  function RequestFor(f: Fetch, current: Url, redirects: nat, allowed: bool): Request {
    var conditional := Direct(f, current, redirects) && f.validators.Some? && f.validators.value.issuedUrl == f.source;
    Request(current, allowed,
      if conditional then f.validators.value.etag else None,
      if conditional then f.validators.value.lastModified else None)
  }

  function FromResponse(issued: Url, reply: Reply): Option<Validators>
    requires reply.Reply?
  {
    if reply.etag.Some? || reply.lastModified.Some? then Some(Validators(issued, reply.etag, reply.lastModified))
      else None
  }

  /** A direct 304 keeps each validator the response does not replace. */
  function Merged(existing: Validators, reply: Reply): Validators
    requires reply.Reply?
  {
    var returned := FromResponse(existing.issuedUrl, reply);
    Validators(
      existing.issuedUrl,
      if returned.Some? && returned.value.etag.Some? then returned.value.etag else existing.etag,
      if returned.Some? && returned.value.lastModified.Some? then returned.value.lastModified
        else existing.lastModified)
  }

  predicate IsRedirect(status: nat) {
    status in {301, 302, 303, 307, 308}
  }

  /** `validate_redirect`, in its order of checks; success tells whether the hop keeps the origin. */
  datatype Hop = Refused(kind: FailureKind, status: Option<nat>) | Allowed(sameOrigin: bool)

  function ValidateRedirect(
    current: Url, next: Url, seen: set<Url>, redirects: nat, maxRedirects: nat, status: nat): Hop
  {
    if next.scheme.OtherScheme? then Refused(HttpStatus, Some(status))
    else if current.scheme.Https? && next.scheme.Http? then Refused(RedirectDowngrade, None)
    else if redirects == maxRedirects then Refused(TooManyRedirects, None)
    else if next in seen then Refused(RedirectLoop, None)
    else Allowed(SameOrigin(current, next))
  }

  /** What one reply leads to. */
  datatype Verdict = Hopping(next: Url, sameOrigin: bool) | Ending(result: Acquired)

  /** `read_bounded`: at most one byte more than the bound is read, so a break after that is never met. */
  datatype BoundedRead = WithinBound(bytes: seq<nat>) | TooLong | ReadFailed(code: int)

  function ReadBounded(body: Body, maxBytes: nat): BoundedRead {
    if |body.bytes| > maxBytes then TooLong
    else if body.broken.Some? then ReadFailed(body.broken.value)
    else WithinBound(body.bytes)
  }

  function ReadDocument(f: Fetch, current: Url, redirects: nat, reply: Reply): Acquired
    requires reply.Reply?
  {
    if !(200 <= reply.status < 300) then Failed(HttpStatus, Some(reply.status))
    else if reply.status != 200 && reply.status != 203 then Failed(HttpSuccessNotRepresentation, Some(reply.status))
    else if reply.contentLength.Some? && reply.contentLength.value > f.maxBytes then Failed(ContentLengthExceeded, None)
    else match ReadBounded(reply.body, f.maxBytes)
      case TooLong => Failed(BodyBytesExceeded, None)
      case ReadFailed(code) => Failed(Transport(code), None)
      case WithinBound(bytes) =>
        var text := f.decode(bytes);
        if text.None? then Failed(InvalidUtf8, None)
        else Document(text.value, current,
               if Direct(f, current, redirects) then FromResponse(f.source, reply) else None)
  }

  function Judge(f: Fetch, current: Url, seen: set<Url>, redirects: nat, reply: Reply): Verdict {
    if reply.NoReply? then Ending(Failed(Transport(reply.code), None))
    else if reply.status == 304 && Direct(f, current, redirects) then
      Ending(if f.validators.None? then Failed(HttpStatus, Some(304))
        else NotModified(Merged(f.validators.value, reply)))
    else if f.follow && IsRedirect(reply.status) then
      var next := if reply.location.None? then None else f.resolve(current, reply.location.value);
      if next.None? then Ending(Failed(HttpStatus, Some(reply.status)))
      else match ValidateRedirect(current, next.value, seen, redirects, f.maxRedirects, reply.status)
        case Refused(kind, status) => Ending(Failed(kind, status))
        case Allowed(sameOrigin) => Hopping(next.value, sameOrigin)
    else Ending(ReadDocument(f, current, redirects, reply))
  }

  /** The rest of an acquisition: its result, and the requests it still sends. */
  datatype Course = Course(result: Acquired, requests: seq<Request>)

  function Follow(f: Fetch, current: Url, seen: set<Url>, redirects: nat, allowed: bool, history: seq<Request>): Course
    requires redirects <= f.maxRedirects
    decreases f.maxRedirects - redirects
  {
    if allowed && !f.secrets(redirects) then Course(SecretUnavailable, [])
    else
      var request := RequestFor(f, current, redirects, allowed);
      match Judge(f, current, seen, redirects, f.server(history + [request]))
      case Ending(result) => Course(result, [request])
      case Hopping(next, sameOrigin) =>
        var rest := Follow(f, next, seen + {next}, redirects + 1, allowed && sameOrigin, history + [request]);
        Course(rest.result, [request] + rest.requests)
  }

  function Acquisition(f: Fetch): Course {
    Follow(f, f.source, {f.source}, 0, true, [])
  }

  /** What was sent so far, followed by the rest, is the whole acquisition. */
  ghost predicate OnCourse(f: Fetch, current: Url, seen: set<Url>, redirects: nat, allowed: bool, sent: seq<Request>) {
    && redirects <= f.maxRedirects
    && var rest := Follow(f, current, seen, redirects, allowed, sent);
       Acquisition(f) == Course(rest.result, sent + rest.requests)
  }

  /** One request and its reply: the acquisition ends here, or stays on course one hop later. */
  lemma OneRequest(f: Fetch, current: Url, seen: set<Url>, redirects: nat, allowed: bool, sent: seq<Request>)
    requires OnCourse(f, current, seen, redirects, allowed, sent)
    ensures allowed && !f.secrets(redirects) ==> Acquisition(f) == Course(SecretUnavailable, sent)
    ensures
      var requests := sent + [RequestFor(f, current, redirects, allowed)];
      !(allowed && !f.secrets(redirects)) ==>
        match Judge(f, current, seen, redirects, f.server(requests))
        case Ending(result) => Acquisition(f) == Course(result, requests)
        case Hopping(next, sameOrigin) =>
          OnCourse(f, next, seen + {next}, redirects + 1, allowed && sameOrigin, requests)
  {
    var request := RequestFor(f, current, redirects, allowed);
    var requests := sent + [request];
    if !(allowed && !f.secrets(redirects)) {
      match Judge(f, current, seen, redirects, f.server(requests)) {
        case Ending(_) =>
        case Hopping(next, sameOrigin) =>
          var rest := Follow(f, next, seen + {next}, redirects + 1, allowed && sameOrigin, requests);
          assert sent + ([request] + rest.requests) == requests + rest.requests;
      }
    }
  }

  /** `acquire_http`: one loop over current URL, seen set, hop count and header flag. */
  method AcquireHttp(f: Fetch) returns (result: Acquired, requests: seq<Request>)
    ensures Course(result, requests) == Acquisition(f)
  {
    var current := f.source;
    var seen := {current};
    var redirects: nat := 0;
    var extensibleHeadersAllowed := true;
    requests := [];
    while true
      invariant OnCourse(f, current, seen, redirects, extensibleHeadersAllowed, requests)
      decreases f.maxRedirects - redirects
    {
      OneRequest(f, current, seen, redirects, extensibleHeadersAllowed, requests);
      if extensibleHeadersAllowed && !f.secrets(redirects) {
        return SecretUnavailable, requests;
      }
      requests := requests + [RequestFor(f, current, redirects, extensibleHeadersAllowed)];
      match Judge(f, current, seen, redirects, f.server(requests)) {
        case Ending(outcome) =>
          return outcome, requests;
        case Hopping(next, sameOrigin) =>
          seen := seen + {next};
          extensibleHeadersAllowed := extensibleHeadersAllowed && sameOrigin;
          redirects := redirects + 1;
          current := next;
      }
    }
  }

  // ---------------------------------------------------------------- what no server can bring about

  /** The conversation from one point on: bounded, without repetition, and never downgraded. */
  lemma {:induction false} CourseIsBounded(
    f: Fetch, current: Url, seen: set<Url>, redirects: nat, allowed: bool, history: seq<Request>)
    requires redirects <= f.maxRedirects && current in seen
    ensures
      var requests := Follow(f, current, seen, redirects, allowed, history).requests;
      && |requests| <= f.maxRedirects - redirects + 1
      && (requests != [] ==> requests[0].url == current)
      && (forall i :: 1 <= i < |requests| ==> requests[i].url !in seen)
      && (forall i, j :: 0 <= i < j < |requests| ==> requests[i].url != requests[j].url)
      && (forall i :: 0 < i < |requests| ==> !(requests[i - 1].url.scheme.Https? && requests[i].url.scheme.Http?))
      && (forall i :: 0 < i < |requests| ==> !requests[i].url.scheme.OtherScheme?)
    decreases f.maxRedirects - redirects
  {
    if !(allowed && !f.secrets(redirects)) {
      var request := RequestFor(f, current, redirects, allowed);
      match Judge(f, current, seen, redirects, f.server(history + [request])) {
        case Ending(_) =>
        case Hopping(next, sameOrigin) =>
          CourseIsBounded(f, next, seen + {next}, redirects + 1, allowed && sameOrigin, history + [request]);
      }
    }
  }

  lemma SameOriginComposes(a: Url, b: Url, c: Url)
    requires SameOrigin(a, b)
    ensures SameOrigin(a, c) <==> SameOrigin(b, c)
  {
  }

  /** Extensible headers accompany a request exactly while no hop has left the origin. */
  lemma {:induction false} HeadersStayHome(
    f: Fetch, current: Url, seen: set<Url>, redirects: nat, allowed: bool, history: seq<Request>)
    requires redirects <= f.maxRedirects && current in seen
    ensures
      var requests := Follow(f, current, seen, redirects, allowed, history).requests;
      forall i :: 0 <= i < |requests| ==>
        (requests[i].extensible <==> allowed && forall j :: 0 <= j <= i ==> SameOrigin(current, requests[j].url))
    decreases f.maxRedirects - redirects
  {
    if !(allowed && !f.secrets(redirects)) {
      var request := RequestFor(f, current, redirects, allowed);
      match Judge(f, current, seen, redirects, f.server(history + [request])) {
        case Ending(_) =>
        case Hopping(next, sameOrigin) =>
          HeadersStayHome(f, next, seen + {next}, redirects + 1, allowed && sameOrigin, history + [request]);
          var rest := Follow(f, next, seen + {next}, redirects + 1, allowed
            && sameOrigin, history + [request]).requests;
          CourseIsBounded(f, next, seen + {next}, redirects + 1, allowed && sameOrigin, history + [request]);
          assert Follow(f, current, seen, redirects, allowed, history).requests == [request] + rest;
          StaysHome(current, next, request, rest, allowed);
      }
    }
  }

  /** One request in front of requests that stay home from the next hop. */
  lemma StaysHome(current: Url, next: Url, request: Request, rest: seq<Request>, allowed: bool)
    requires request.url == current && request.extensible == allowed && (rest != [] ==> rest[0].url == next)
    requires forall i :: 0 <= i < |rest| ==>
      (rest[i].extensible <==>
        allowed && SameOrigin(current, next) && forall j :: 0 <= j <= i ==> SameOrigin(next, rest[j].url))
    ensures forall i :: 0 <= i < |[request] + rest| ==>
      (([request] + rest)[i].extensible <==>
        allowed && forall j :: 0 <= j <= i ==> SameOrigin(current, ([request] + rest)[j].url))
  {
    forall i | 0 < i < |[request] + rest|
      ensures ([request] + rest)[i].extensible
        <==> allowed && forall j :: 0 <= j <= i ==> SameOrigin(current, ([request] + rest)[j].url)
    {
      assert ([request] + rest)[i] == rest[i - 1];
      HomeFromNext(current, next, request, rest, i - 1);
    }
  }

  /** Staying home from `current` is staying home from `next`, one request later. */
  lemma HomeFromNext(current: Url, next: Url, request: Request, rest: seq<Request>, i: nat)
    requires i < |rest| && rest[0].url == next && request.url == current
    ensures
      (forall j :: 0 <= j <= i + 1 ==> SameOrigin(current, ([request] + rest)[j].url))
      <==> SameOrigin(current, next) && forall j :: 0 <= j <= i ==> SameOrigin(next, rest[j].url)
  {
    var all := [request] + rest;
    if SameOrigin(current, next) && forall j :: 0 <= j <= i ==> SameOrigin(next, rest[j].url) {
      forall j | 0 <= j <= i + 1 ensures SameOrigin(current, all[j].url) {
        if j > 0 {
          assert SameOrigin(next, rest[j - 1].url);
          SameOriginComposes(current, next, rest[j - 1].url);
        }
      }
    }
    if forall j :: 0 <= j <= i + 1 ==> SameOrigin(current, all[j].url) {
      assert SameOrigin(current, all[1].url);
      forall j | 0 <= j <= i ensures SameOrigin(next, rest[j].url) {
        assert SameOrigin(current, all[j + 1].url);
        SameOriginComposes(current, next, rest[j].url);
      }
    }
  }

  /** After a first hop nothing is conditional and nothing comes back with validators. */
  lemma {:induction false} NothingConditionalLater(
    f: Fetch, current: Url, seen: set<Url>, redirects: nat, allowed: bool, history: seq<Request>)
    requires 0 < redirects <= f.maxRedirects
    ensures
      var course := Follow(f, current, seen, redirects, allowed, history);
      && (forall i :: 0 <= i < |course.requests| ==> !course.requests[i].Conditional())
      && !course.result.NotModified?
      && (course.result.Document? ==>
            course.result.issued.None? && course.requests != []
              && course.result.effective == course.requests[|course.requests| - 1].url)
    decreases f.maxRedirects - redirects
  {
    if !(allowed && !f.secrets(redirects)) {
      var request := RequestFor(f, current, redirects, allowed);
      match Judge(f, current, seen, redirects, f.server(history + [request])) {
        case Ending(_) =>
        case Hopping(next, sameOrigin) =>
          NothingConditionalLater(f, next, seen + {next}, redirects + 1, allowed && sameOrigin, history + [request]);
      }
    }
  }

  /** Same scheme and host, and the same port, where 80 need not be written for http nor 443 for https. */
  predicate AtHome(source: Url, url: Url) {
    && url.scheme == source.scheme && url.host == source.host
    && (url.port == source.port
        || (url.scheme.Http? && {url.port, source.port} == {None, Some(80)})
        || (url.scheme.Https? && {url.port, source.port} == {None, Some(443)}))
  }

  /** Origins compare as the URL standard says. */
  lemma SameOriginIsHome(source: Url, url: Url)
    ensures SameOrigin(source, url) <==> AtHome(source, url)
  {
    var ports := {url.port, source.port};
    assert url.port in ports && source.port in ports;
    if SameOrigin(source, url) && url.port != source.port {
      assert ports == {None, url.PortOrDefault()};
    }
  }

  /**
    Against any server: at most `maxRedirects + 1` requests, no URL twice, no step from https to http,
    and extensible headers only to the source's own origin.
   */
  lemma AcquisitionIsContained(f: Fetch)
    ensures
      var requests := Acquisition(f).requests;
      && |requests| <= f.maxRedirects + 1
      && (forall i, j :: 0 <= i < j < |requests| ==> requests[i].url != requests[j].url)
      && (forall i :: 0 < i < |requests| ==> !(requests[i - 1].url.scheme.Https? && requests[i].url.scheme.Http?))
      && (forall i :: 0 <= i < |requests| ==>
            (requests[i].extensible <==> forall j :: 0 <= j <= i ==> AtHome(f.source, requests[j].url)))
  {
    CourseIsBounded(f, f.source, {f.source}, 0, true, []);
    HeadersStayHome(f, f.source, {f.source}, 0, true, []);
    forall url: Url ensures SameOrigin(f.source, url) <==> AtHome(f.source, url) {
      SameOriginIsHome(f.source, url);
    }
  }

  // ---------------------------------------------------------------- what the answers decide

  /** The answer to everything sent so far redirects to `next`, resolved against the last URL. */
  predicate RedirectsTo(f: Fetch, sent: seq<Request>, next: Url)
    requires sent != []
  {
    var reply := f.server(sent);
    && f.follow && reply.Reply? && reply.status in {301, 302, 303, 307, 308} && reply.location.Some?
    && f.resolve(sent[|sent| - 1].url, reply.location.value) == Some(next)
  }

  /** The first request goes to the source, and every later one where the answer before it redirects. */
  predicate Conversation(f: Fetch, sent: seq<Request>) {
    && (sent != [] ==> sent[0].url == f.source)
    && forall i :: 0 < i < |sent| ==> RedirectsTo(f, sent[..i], sent[i].url)
  }

  /** What the loop knows before its next request. */
  predicate Underway(f: Fetch, current: Url, seen: set<Url>, redirects: nat, history: seq<Request>) {
    && |history| == redirects <= f.maxRedirects && Conversation(f, history)
    && (if history == [] then current == f.source else RedirectsTo(f, history, current))
    && seen == (set i | 0 <= i < |history| :: history[i].url) + {current}
  }

  lemma OneHopMore(
    f: Fetch, current: Url, seen: set<Url>, redirects: nat, history: seq<Request>, request: Request, next: Url)
    requires Underway(f, current, seen, redirects, history) && request.url == current && redirects < f.maxRedirects
    requires RedirectsTo(f, history + [request], next)
    ensures Underway(f, next, seen + {next}, redirects + 1, history + [request])
  {
    var sent := history + [request];
    forall i | 0 < i < |sent| ensures RedirectsTo(f, sent[..i], sent[i].url) {
      assert sent[..i] == if i < |history| then history[..i] else history;
    }
    assert (set i | 0 <= i < |sent| :: sent[i].url) == (set i | 0 <= i < |history| :: history[i].url) + {current} by {
      assert forall i :: 0 <= i < |history| ==> sent[i] == history[i];
      assert sent[|history|].url == current;
    }
  }

  /**
    What the last answer makes of the acquisition. Given the requests sent, the result is no answer's failure; the
    stored validators, updated, for a direct 304; a failed redirect; a status that is no document; or what reading the
    body within the bound gives.
   */
  function Decided(f: Fetch, sent: seq<Request>): Acquired
    requires sent != []
  {
    var reply, current := f.server(sent), sent[|sent| - 1].url;
    if reply.NoReply? then Failed(Transport(reply.code), None)
    else if reply.status == 304 && |sent| == 1 then
      if f.validators.None? then Failed(HttpStatus, Some(304))
      else
        var held := f.validators.value;
        NotModified(Validators(held.issuedUrl, if reply.etag.Some? then reply.etag else held.etag,
                               if reply.lastModified.Some? then reply.lastModified else held.lastModified))
    else if f.follow && reply.status in {301, 302, 303, 307, 308} then
      var next := if reply.location.None? then None else f.resolve(current, reply.location.value);
      if next.None? || next.value.scheme.OtherScheme? then Failed(HttpStatus, Some(reply.status))
      else if current.scheme.Https? && next.value.scheme.Http? then Failed(RedirectDowngrade, None)
      else if |sent| > f.maxRedirects then Failed(TooManyRedirects, None)
      else Failed(RedirectLoop, None)
    else if reply.status < 200 || reply.status >= 300 then Failed(HttpStatus, Some(reply.status))
    else if reply.status != 200 && reply.status != 203 then Failed(HttpSuccessNotRepresentation, Some(reply.status))
    else if reply.contentLength.Some? && reply.contentLength.value > f.maxBytes then Failed(ContentLengthExceeded, None)
    else if |reply.body.bytes| > f.maxBytes then Failed(BodyBytesExceeded, None)
    else if reply.body.broken.Some? then Failed(Transport(reply.body.broken.value), None)
    else if f.decode(reply.body.bytes).None? then Failed(InvalidUtf8, None)
    else
      Document(f.decode(reply.body.bytes).value, current,
               if |sent| == 1 && (reply.etag.Some? || reply.lastModified.Some?)
               then Some(Validators(f.source, reply.etag, reply.lastModified)) else None)
  }

  /** The URL was requested before. */
  predicate Visited(sent: seq<Request>, url: Url) {
    exists i :: 0 <= i < |sent| && sent[i].url == url
  }

  /** The last answer redirects to a URL that was requested before. */
  predicate Loops(f: Fetch, sent: seq<Request>)
    requires sent != []
  {
    exists i :: 0 <= i < |sent| && RedirectsTo(f, sent, sent[i].url)
  }

  /** A secret is missing for the next request, or the last answer decides. */
  predicate Concludes(f: Fetch, sent: seq<Request>, result: Acquired) {
    && (if result.SecretUnavailable? then !f.secrets(|sent|) else sent != [] && result == Decided(f, sent))
    && (result == Failed(RedirectLoop, None) ==> sent != [] && Loops(f, sent))
  }

  lemma EndingIsDecided(
    f: Fetch, current: Url, seen: set<Url>, redirects: nat, allowed: bool, history: seq<Request>)
    requires Underway(f, current, seen, redirects, history)
    requires Judge(f, current, seen, redirects,
      f.server(history + [RequestFor(f, current, redirects, allowed)])).Ending?
    ensures
      var sent := history + [RequestFor(f, current, redirects, allowed)];
      Judge(f, current, seen, redirects, f.server(sent)).result == Decided(f, sent)
  {
  }

  /** A refused loop is a redirect to a URL that was seen. */
  lemma LoopIsSeen(f: Fetch, current: Url, seen: set<Url>, redirects: nat, sent: seq<Request>)
    requires sent != [] && sent[|sent| - 1].url == current
    requires Judge(f, current, seen, redirects, f.server(sent)) == Ending(Failed(RedirectLoop, None))
    ensures exists next :: next in seen && RedirectsTo(f, sent, next)
  {
    var next := f.resolve(current, f.server(sent).location.value).value;
    assert next in seen && RedirectsTo(f, sent, next);
  }

  lemma JudgedIsDecided(
    f: Fetch, current: Url, seen: set<Url>, redirects: nat, allowed: bool, history: seq<Request>)
    requires Underway(f, current, seen, redirects, history)
    ensures
      var sent := history + [RequestFor(f, current, redirects, allowed)];
      match Judge(f, current, seen, redirects, f.server(sent))
      case Ending(result) => Concludes(f, sent, result)
      case Hopping(next, sameOrigin) => RedirectsTo(f, sent, next) && redirects < f.maxRedirects
  {
    var sent := history + [RequestFor(f, current, redirects, allowed)];
    match Judge(f, current, seen, redirects, f.server(sent)) {
      case Ending(result) =>
        EndingIsDecided(f, current, seen, redirects, allowed, history);
        if result == Failed(RedirectLoop, None) {
          LoopIsSeen(f, current, seen, redirects, sent);
          var next :| next in seen && RedirectsTo(f, sent, next);
          SeenIsVisited(history, RequestFor(f, current, redirects, allowed), next);
        }
      case Hopping(_, _) =>
    }
  }

  lemma SeenIsVisited(history: seq<Request>, request: Request, url: Url)
    requires url == request.url || url in (set i | 0 <= i < |history| :: history[i].url)
    ensures Visited(history + [request], url)
  {
    var sent := history + [request];
    if url == request.url {
      assert sent[|history|].url == url;
    } else {
      var i :| 0 <= i < |history| && history[i].url == url;
      assert sent[i].url == url;
    }
  }

  lemma ConversationMore(
    f: Fetch, current: Url, seen: set<Url>, redirects: nat, history: seq<Request>, request: Request)
    requires Underway(f, current, seen, redirects, history) && request.url == current
    ensures Conversation(f, history + [request])
  {
    var sent := history + [request];
    forall i | 0 < i < |sent| ensures RedirectsTo(f, sent[..i], sent[i].url) {
      assert sent[..i] == if i < |history| then history[..i] else history;
    }
  }

  /** One request, or none, and what follows it; `history` in front. */
  lemma FollowUnfolds(
    f: Fetch, current: Url, seen: set<Url>, redirects: nat, allowed: bool, history: seq<Request>)
    requires redirects <= f.maxRedirects
    ensures
      var rest := Follow(f, current, seen, redirects, allowed, history);
      if allowed && !f.secrets(redirects) then rest.result == SecretUnavailable && history + rest.requests == history
      else
        var sent := history + [RequestFor(f, current, redirects, allowed)];
        match Judge(f, current, seen, redirects, f.server(sent))
        case Ending(result) => rest.result == result && history + rest.requests == sent
        case Hopping(next, sameOrigin) =>
          && redirects < f.maxRedirects
          && var tail := Follow(f, next, seen + {next}, redirects + 1, allowed && sameOrigin, sent);
             rest.result == tail.result && history + rest.requests == sent + tail.requests
  {
    if !(allowed && !f.secrets(redirects)) {
      var request := RequestFor(f, current, redirects, allowed);
      var sent := history + [request];
      match Judge(f, current, seen, redirects, f.server(sent)) {
        case Ending(_) =>
        case Hopping(next, sameOrigin) =>
          var tail := Follow(f, next, seen + {next}, redirects + 1, allowed && sameOrigin, sent);
          assert history + ([request] + tail.requests) == sent + tail.requests;
      }
    }
  }

  /** From any point on, the acquisition stays a conversation. */
  lemma {:induction false} FollowConverses(
    f: Fetch, current: Url, seen: set<Url>, redirects: nat, allowed: bool, history: seq<Request>)
    requires Underway(f, current, seen, redirects, history)
    ensures Conversation(f, history + Follow(f, current, seen, redirects, allowed, history).requests)
    decreases f.maxRedirects - redirects
  {
    FollowUnfolds(f, current, seen, redirects, allowed, history);
    if !(allowed && !f.secrets(redirects)) {
      var sent := history + [RequestFor(f, current, redirects, allowed)];
      match Judge(f, current, seen, redirects, f.server(sent)) {
        case Ending(_) =>
          ConversationMore(f, current, seen, redirects, history, RequestFor(f, current, redirects, allowed));
        case Hopping(next, sameOrigin) =>
          HopStaysUnderway(f, current, seen, redirects, allowed, history, next);
          FollowConverses(f, next, seen + {next}, redirects + 1, allowed && sameOrigin, sent);
      }
    }
  }

  lemma HopStaysUnderway(
    f: Fetch, current: Url, seen: set<Url>, redirects: nat, allowed: bool, history: seq<Request>, next: Url)
    requires Underway(f, current, seen, redirects, history)
    requires
      var verdict := Judge(f, current, seen, redirects,
        f.server(history + [RequestFor(f, current, redirects, allowed)]));
      verdict.Hopping? && verdict.next == next
    ensures redirects < f.maxRedirects
    ensures
      Underway(f, next, seen + {next}, redirects + 1, history + [RequestFor(f, current, redirects, allowed)])
  {
    JudgedIsDecided(f, current, seen, redirects, allowed, history);
    OneHopMore(f, current, seen, redirects, history, RequestFor(f, current, redirects, allowed), next);
  }

  /** And it ends with a missing secret or with what the last answer decides. */
  lemma {:induction false} FollowConcludes(
    f: Fetch, current: Url, seen: set<Url>, redirects: nat, allowed: bool, history: seq<Request>)
    requires Underway(f, current, seen, redirects, history)
    ensures
      var rest := Follow(f, current, seen, redirects, allowed, history);
      Concludes(f, history + rest.requests, rest.result)
    decreases f.maxRedirects - redirects
  {
    FollowUnfolds(f, current, seen, redirects, allowed, history);
    if !(allowed && !f.secrets(redirects)) {
      var sent := history + [RequestFor(f, current, redirects, allowed)];
      match Judge(f, current, seen, redirects, f.server(sent)) {
        case Ending(_) => JudgedIsDecided(f, current, seen, redirects, allowed, history);
        case Hopping(next, sameOrigin) =>
          HopStaysUnderway(f, current, seen, redirects, allowed, history, next);
          FollowConcludes(f, next, seen + {next}, redirects + 1, allowed && sameOrigin, sent);
      }
    }
  }

  /**
    The whole acquisition, by its requests and answers: it begins at the source, goes on only where an answer
    redirects, resolved against the URL that was asked, and its result is what the last answer decides, unless a
    secret was missing for the next request. Requests with extensible headers had their secrets, and stored validators
    went out once, with the first request.
   */
  lemma AcquisitionSpelledOut(f: Fetch)
    ensures
      var course := Acquisition(f);
      && Conversation(f, course.requests) && Concludes(f, course.requests, course.result)
      && SecretsThere(f, course.requests, 0) && ConditionalOnce(f, course.requests)
  {
    SecretsAreThere(f, f.source, {f.source}, 0, true, []);
    ConditionalHeadersSpelledOut(f);
    FollowConverses(f, f.source, {f.source}, 0, true, []);
    FollowConcludes(f, f.source, {f.source}, 0, true, []);
    assert [] + Acquisition(f).requests == Acquisition(f).requests;
  }

  /** Stored validators go out whole with the first request if they were issued for the source, and never again. */
  predicate ConditionalOnce(f: Fetch, requests: seq<Request>) {
    forall i :: 0 <= i < |requests| ==>
      var ours := f.validators.Some? && f.validators.value.issuedUrl == f.source;
      var held := if i == 0 && ours then f.validators else None;
      && requests[i].ifNoneMatch == (if held.Some? then held.value.etag else None)
      && requests[i].ifModifiedSince == (if held.Some? then held.value.lastModified else None)
  }

  lemma ConditionalHeadersSpelledOut(f: Fetch)
    ensures ConditionalOnce(f, Acquisition(f).requests)
  {
    if f.secrets(0) {
      var request := RequestFor(f, f.source, 0, true);
      assert [] + [request] == [request];
      match Judge(f, f.source, {f.source}, 0, f.server([request])) {
        case Ending(_) =>
        case Hopping(next, sameOrigin) =>
          NothingConditionalLater(f, next, {f.source} + {next}, 1, sameOrigin, [request]);
          var later := Follow(f, next, {f.source} + {next}, 1, sameOrigin, [request]).requests;
          assert Acquisition(f).requests == [request] + later;
          forall i | 0 < i < |Acquisition(f).requests| ensures !Acquisition(f).requests[i].Conditional() {
            assert Acquisition(f).requests[i] == later[i - 1];
          }
      }
    }
  }

  predicate SecretsThere(f: Fetch, requests: seq<Request>, hop: nat) {
    forall i :: 0 <= i < |requests| && requests[i].extensible ==> f.secrets(hop + i)
  }

  /** A request bears extensible headers only if its secrets were there. */
  lemma {:induction false} SecretsAreThere(
    f: Fetch, current: Url, seen: set<Url>, redirects: nat, allowed: bool, history: seq<Request>)
    requires redirects <= f.maxRedirects
    ensures
      SecretsThere(f, Follow(f, current, seen, redirects, allowed, history).requests, redirects)
    decreases f.maxRedirects - redirects
  {
    if !(allowed && !f.secrets(redirects)) {
      var sent := history + [RequestFor(f, current, redirects, allowed)];
      match Judge(f, current, seen, redirects, f.server(sent)) {
        case Ending(_) =>
        case Hopping(next, sameOrigin) =>
          SecretsAreThere(f, next, seen + {next}, redirects + 1, allowed && sameOrigin, sent);
      }
    }
  }

  /** A document was read whole: its status says so, and its body is within the bound. */
  lemma DocumentsAreBounded(f: Fetch)
    ensures
      var course := Acquisition(f);
      course.result.Document? ==>
        && course.requests != []
        && var reply := f.server(course.requests);
           && reply.Reply? && (reply.status == 200 || reply.status == 203)
           && |reply.body.bytes| <= f.maxBytes && reply.body.broken.None?
           && f.decode(reply.body.bytes) == Some(course.result.text)
           && course.result.effective == course.requests[|course.requests| - 1].url
  {
    AcquisitionSpelledOut(f);
  }

  /** The answer to the only request, when there was only one. */
  function OnlyReply(f: Fetch): Reply {
    f.server([RequestFor(f, f.source, 0, true)])
  }

  /**
    Validators belong to direct answers. They go out with the first request alone and only if issued
    for the source; a 304 counts exactly as the answer to that request while validators are held;
    fresh ones come back only from a direct document.
   */
  lemma ValidatorsAreDirect(f: Fetch)
    ensures
      var course, reply := Acquisition(f), OnlyReply(f);
      && (forall i :: 0 <= i < |course.requests| && course.requests[i].Conditional() ==>
            i == 0 && f.validators.Some? && f.validators.value.issuedUrl == f.source)
      && (course.result.NotModified? <==> f.secrets(0) && f.validators.Some? && reply.Reply? && reply.status == 304)
      && (course.result.NotModified? ==>
            |course.requests| == 1 && course.result.validators == Merged(f.validators.value, reply))
      && (course.result.Document? ==>
            course.requests != [] && course.result.effective == course.requests[|course.requests| - 1].url)
      && (course.result.Document? && course.result.issued.Some? ==>
            && |course.requests| == 1 && reply.Reply?
            && course.result.issued == Some(Validators(f.source, reply.etag, reply.lastModified)))
  {
    if f.secrets(0) {
      var request := RequestFor(f, f.source, 0, true);
      assert [] + [request] == [request];
      match Judge(f, f.source, {f.source}, 0, f.server([request])) {
        case Ending(_) =>
        case Hopping(next, sameOrigin) =>
          NothingConditionalLater(f, next, {f.source} + {next}, 1, sameOrigin, [request]);
      }
    }
  }

  /**
    When a 304 counts, exactly. Under held validators that satisfy their contract it is the answer to one
    request, which was conditional if and only if the validators were issued for the source's own URL; so an
    unconditional request is answered "not modified" exactly when they were issued for another one.
   */
  lemma NotModifiedIsConditionalIff(f: Fetch)
    requires f.validators.Some? ==> f.validators.value.Valid()
    ensures
      var course, reply := Acquisition(f), OnlyReply(f);
      && (course.result.NotModified? ==>
            && f.validators.Some? && |course.requests| == 1
            && (course.requests[0].Conditional() <==> f.validators.value.issuedUrl == f.source))
      && (course.result.NotModified? && !course.requests[0].Conditional() <==>
            && f.secrets(0) && reply.Reply? && reply.status == 304
            && f.validators.Some? && f.validators.value.issuedUrl != f.source)
  {
    ValidatorsAreDirect(f);
    if f.secrets(0) {
      assert [] + [RequestFor(f, f.source, 0, true)] == [RequestFor(f, f.source, 0, true)];
    }
  }

  /** The source now, and the URL its validators were issued for before it was edited. */
  const NEW_URL: Url := Url(Https, Some("example.org"), None, "/new")
  const OLD_URL: Url := NEW_URL.(rest := "/old")

  /** Validators of the old URL, and a server that answers 304 to everything. */
  const EDITED_SOURCE: Fetch := Fetch(
    NEW_URL, true, 5, 1024, Some(Validators(OLD_URL, Some("v1"), None)),
    hop => true, (url, location) => None, bytes => None, requests => Reply(304, None, None, None, None, Body([], None)))

  /** An input: the edited source is taken for unmodified without a conditional request. */
  lemma ForeignValidatorsAccepted()
    ensures
      var course := Acquisition(EDITED_SOURCE);
      && EDITED_SOURCE.validators.value.Valid()
      && course.result == NotModified(Validators(OLD_URL, Some("v1"), None))
      && course.requests == [Request(NEW_URL, true, None, None)]
  {
    ValidatorsAreDirect(EDITED_SOURCE);
    assert OLD_URL.rest[1] != NEW_URL.rest[1];
    assert Acquisition(EDITED_SOURCE).requests == [RequestFor(EDITED_SOURCE, NEW_URL, 0, true)];
  }
}
