/** The SSRF-guarded HTTP session: every hop of a redirect chain is validated and
    pinned from scratch. */
module Redirects {
  import opened Wrappers

  const MAX_REDIRECTS: nat := 5
  const REDIRECT_STATUS_CODES: set<int> := {301, 302, 303, 307, 308}

  /** A parsed URL; `port` is None when absent or 0. */
  datatype Parsed = Parsed(scheme: string, host: string, port: Option<nat>)

  /** What `urlparse` makes of a URL: nothing, with a ValueError; or its parts, of which
      the port may still be the one that raises. */
  datatype Parse = Unparsable | Parts(url: Parsed, portValid: bool)

  /** A resolver's answer to one lookup: an error, a name that it cannot encode (an
      over-long label), or addresses that may not parse. */
  datatype Answer = Unresolved | Unencodable | Addresses(ips: seq<string>)

  datatype Reply = NetworkError | Answered(status: int, location: Option<string>)

  /** Everything outside the session. The resolver and the servers may answer
      differently at every hop. */
  datatype World = World(
    parse: string -> Parse,
    join: (string, string) -> Option<string>,      // urljoin; None is a ValueError
    isIpLiteral: string -> bool,
    isIpAddress: string -> bool,
    isPublic: string -> bool,                      // passes every range check
    allowlisted: string -> bool,
    resolve: (nat, string) -> Answer,
    serve: (nat, string, string) -> Reply)         // hop, url, pinned address

  datatype Failure = SsrfError | NetworkFailure | ValueError

  /** Every address of an answer is a well-formed one, and public unless the operator
      trusts the host; and there is one. */
  predicate Acceptable(w: World, host: string, ips: seq<string>) {
    ips != [] && forall ip :: ip in ips ==> w.isIpAddress(ip) && (w.allowlisted(host) || w.isPublic(ip))
  }

  /** Resolves a host name (IP literals refused) and rejects it unless all its addresses pass. */
  method ValidateHostname(w: World, hop: nat, host: string) returns (r: Result<seq<string>, Failure>)
    ensures r.Ok? <==>
      && host != "" && !w.isIpLiteral(host) && w.resolve(hop, host).Addresses? && w.resolve(hop, host).ips != []
      && forall ip :: ip in w.resolve(hop, host).ips ==> w.isIpAddress(ip) && (w.allowlisted(host) || w.isPublic(ip))
    ensures r.Ok? ==> r.value == w.resolve(hop, host).ips
    ensures r == Err(ValueError) <==> host != "" && !w.isIpLiteral(host) && w.resolve(hop, host).Unencodable?
    ensures r.Err? ==> r.error == SsrfError || r.error == ValueError
  {
    if host == "" {
      return Err(SsrfError);
    }
    var allowlisted := w.allowlisted(host);
    if w.isIpLiteral(host) {
      return Err(SsrfError);
    }
    var answer := w.resolve(hop, host);
    if answer.Unresolved? {
      return Err(SsrfError);
    }
    if answer.Unencodable? {
      return Err(ValueError);
    }
    var valid: seq<string> := [];
    for i := 0 to |answer.ips|
      invariant valid == answer.ips[..i]
      invariant forall ip :: ip in valid ==> w.isIpAddress(ip) && (allowlisted || w.isPublic(ip))
    {
      var ip := answer.ips[i];
      if !w.isIpAddress(ip) {
        return Err(SsrfError);
      }
      if !allowlisted && !w.isPublic(ip) {
        return Err(SsrfError);
      }
      valid := valid + [ip];
    }
    if valid == [] {
      return Err(SsrfError);
    }
    return Ok(valid);
  }

  /** One request as it was sent: the URL, and the address and port the connection was
      pinned to. */
  datatype Hop = Hop(url: string, ip: string, port: nat)

  /** A pin for hop `n` is legitimate: http or https, to the first of the addresses just
      resolved for this very host, all of which passed. */
  ghost predicate Pinned(w: World, n: nat, hop: Hop) {
    var parsed := w.parse(hop.url);
    && parsed.Parts? && parsed.portValid && (parsed.url.scheme == "http" || parsed.url.scheme == "https")
    && parsed.url.host != "" && !w.isIpLiteral(parsed.url.host)
    && var answer := w.resolve(n, parsed.url.host);
    && answer.Addresses? && Acceptable(w, parsed.url.host, answer.ips) && hop.ip == answer.ips[0]
    && hop.port == match parsed.url.port case Some(p) => p case None => if parsed.url.scheme == "http" then 80 else 443
  }

  /** Taking this URL apart raises a ValueError that nothing turns into a refusal: it does
      not parse, its host cannot be encoded, or its port is none. */
  ghost predicate Unforeseen(w: World, n: nat, url: string) {
    var parsed := w.parse(url);
    parsed.Parts? ==>
      && (parsed.url.scheme == "http" || parsed.url.scheme == "https")
      && parsed.url.host != "" && !w.isIpLiteral(parsed.url.host)
      && var answer := w.resolve(n, parsed.url.host);
      || answer.Unencodable?
      || (answer.Addresses? && Acceptable(w, parsed.url.host, answer.ips) && !parsed.portValid)
  }

  method ValidateAndUnpack(w: World, n: nat, url: string) returns (r: Result<Hop, Failure>)
    ensures r.Ok? ==> r.value.url == url && Pinned(w, n, r.value)
    ensures r.Err? ==> Unpinnable(w, n, url)
    ensures r.Err? ==> r.error == SsrfError || r.error == ValueError
    ensures r == Err(ValueError) <==> Unforeseen(w, n, url)
  {
    var parse := w.parse(url);
    if parse.Unparsable? {
      return Err(ValueError);
    }
    var parsed := parse.url;
    if parsed.scheme != "http" && parsed.scheme != "https" {
      return Err(SsrfError);
    }
    if parsed.host == "" {
      return Err(SsrfError);
    }
    var ips := ValidateHostname(w, n, parsed.host);
    if ips.Err? {
      return Err(ips.error);
    }
    if !parse.portValid {
      return Err(ValueError);
    }
    var port: nat;
    if parsed.port.Some? {
      port := parsed.port.value;
    } else if parsed.scheme == "http" {
      port := 80;
    } else {
      port := 443;
    }
    return Ok(Hop(url, ips.value[0], port));
  }

  function SchemeOf(w: World, url: string): string {
    if w.parse(url).Parts? then w.parse(url).url.scheme else ""
  }

  /** The requests of a run, each reply leading to the next hop's URL. */
  ghost predicate Chain(w: World, hops: seq<Hop>) {
    && (forall i :: 0 <= i < |hops| ==> Pinned(w, i, hops[i]))
    && (forall i :: 0 <= i < |hops| - 1 ==> Follows(w, i, hops[i], hops[i + 1]))
  }

  /** Hop `n` was answered by a redirect to `next`, and not from https to http. */
  ghost predicate Follows(w: World, n: nat, hop: Hop, next: Hop) {
    var reply := w.serve(n, hop.url, hop.ip);
    && reply.Answered? && reply.status in REDIRECT_STATUS_CODES
    && reply.location.Some? && reply.location.value != ""
    && w.join(hop.url, reply.location.value) == Some(next.url)
    && !(SchemeOf(w, hop.url) == "https" && SchemeOf(w, next.url) == "http")
  }

  /** The last request got a response that ends the chain. */
  ghost predicate Final(w: World, n: nat, hop: Hop, follow: bool) {
    var reply := w.serve(n, hop.url, hop.ip);
    && reply.Answered?
    && (!follow || reply.status !in REDIRECT_STATUS_CODES || reply.location.None? || reply.location.value == "")
  }

  /** A redirect whose Location cannot be joined or, from an https hop, parsed. From an
      http hop the joined URL is not looked at before the next one is validated. */
  ghost predicate BrokenLocation(w: World, n: nat, hop: Hop) {
    var reply := w.serve(n, hop.url, hop.ip);
    && reply.Answered? && reply.status in REDIRECT_STATUS_CODES
    && reply.location.Some? && reply.location.value != ""
    && var next := w.join(hop.url, reply.location.value);
    next.None? || (SchemeOf(w, hop.url) == "https" && w.parse(next.value).Unparsable?)
  }

  /** A redirect from https to http. */
  ghost predicate Downgrade(w: World, n: nat, hop: Hop) {
    var reply := w.serve(n, hop.url, hop.ip);
    && reply.Answered? && reply.status in REDIRECT_STATUS_CODES
    && reply.location.Some? && reply.location.value != ""
    && var next := w.join(hop.url, reply.location.value);
    next.Some? && SchemeOf(w, hop.url) == "https" && SchemeOf(w, next.value) == "http"
  }

  /** No request can be pinned to this URL at this hop. */
  ghost predicate Unpinnable(w: World, n: nat, url: string) {
    forall hop: Hop :: hop.url == url ==> !Pinned(w, n, hop)
  }

  /** Why a run that may follow redirects ends at hop `n` without a response to return. */
  ghost predicate DeadEnd(w: World, n: nat, hop: Hop, next: string) {
    || w.serve(n, hop.url, hop.ip).NetworkError?
    || BrokenLocation(w, n, hop)
    || Downgrade(w, n, hop)
    || (Follows(w, n, hop, Hop(next, "", 0)) && Unpinnable(w, n + 1, next))
  }

  /** The requests of a run from `url`: a chain that goes on as long as a redirect leads to
      a hop that can be pinned, at most MAX_REDIRECTS times; without `follow`, not at all. */
  ghost predicate Ran(w: World, url: string, follow: bool, hops: seq<Hop>) {
    && |hops| <= (if follow then MAX_REDIRECTS + 1 else 1) && Chain(w, hops)
    && (hops == [] <==> Unpinnable(w, 0, url))
    && (hops != [] ==> hops[0].url == url)
    && (follow && 0 < |hops| <= MAX_REDIRECTS ==> Stops(w, |hops| - 1, hops[|hops| - 1]))
  }

  /** No hop follows this one. */
  ghost predicate Stops(w: World, n: nat, hop: Hop) {
    forall next: Hop :: Follows(w, n, hop, next) ==> !Pinned(w, n + 1, next)
  }

  /** The run ends in a ValueError: at its first URL, at a Location that raises, or at the
      URL it goes to next. */
  ghost predicate EndsUnforeseen(w: World, url: string, follow: bool, hops: seq<Hop>) {
    if hops == [] then Unforeseen(w, 0, url)
    else
      var n, last := |hops| - 1, hops[|hops| - 1];
      follow && (BrokenLocation(w, n, last) || (n < MAX_REDIRECTS && NextUnforeseen(w, n, last)))
  }

  ghost predicate NextUnforeseen(w: World, n: nat, hop: Hop) {
    exists next :: Follows(w, n, hop, Hop(next, "", 0)) && Unforeseen(w, n + 1, next)
  }

  class Session {
    /** Responses received and not closed yet, by hop. */
    var open: set<nat>

    constructor ()
      ensures open == {}
    {
      open := {};
    }

    method Close(n: nat)
      modifies this
      ensures open == old(open) - {n}
    {
      open := open - {n};
    }

    /** What comes of a response: it is returned, or closed before its Location is
        followed or refused as a downgrade, or left behind by a Location that raises. */
    method Follow(w: World, n: nat, hop: Hop, follow: bool) returns (r: Result<Option<string>, Failure>)
      requires w.serve(n, hop.url, hop.ip).Answered? && open == {n}
      modifies this
      ensures r.Ok? && r.value.None? <==> Final(w, n, hop, follow)
      ensures r.Ok? && r.value.Some? ==> follow && Follows(w, n, hop, Hop(r.value.value, "", 0))
      ensures r.Err? ==> follow && r.error == if BrokenLocation(w, n, hop) then ValueError else SsrfError
      ensures BrokenLocation(w, n, hop) && follow ==> r.Err?
      ensures r == Err(SsrfError) <==> follow && Downgrade(w, n, hop)
      ensures r == Err(SsrfError) ==> w.parse(hop.url).Parts? && w.parse(hop.url).url.scheme == "https"
      ensures r.Ok? && r.value.Some? && w.parse(r.value.value).Parts? && w.parse(r.value.value).url.scheme == "http" ==>
        !(w.parse(hop.url).Parts? && w.parse(hop.url).url.scheme == "https")
      ensures open == if r == Ok(None) || r == Err(ValueError) then {n} else {}
    {
      var response := w.serve(n, hop.url, hop.ip);
      if !follow || response.status !in REDIRECT_STATUS_CODES {
        return Ok(None);
      }
      if response.location.None? || response.location.value == "" {
        return Ok(None);
      }
      var next := w.join(hop.url, response.location.value);
      if next.None? {
        return Err(ValueError);
      }
      if SchemeOf(w, hop.url) == "https" {
        if w.parse(next.value).Unparsable? {
          return Err(ValueError);
        }
        if SchemeOf(w, next.value) == "http" {
          Close(n);
          return Err(SsrfError);
        }
      }
      Close(n);
      return Ok(Some(next.value));
    }

    /** Follows redirects by hand. The requests made form a chain of at most
        MAX_REDIRECTS + 1 pinned hops. A returned response is the last one, and the only
        one left open; every failure leaves none open, except the one the code does not
        foresee: a Location that raises before its response is closed. It fails early only
        at a dead end: a network error, a Location that raises, a downgrade, or a URL to go
        to next, `next`, that cannot be pinned. */
    method RequestWithRedirects(w: World, url: string, follow: bool)
      returns (r: Result<nat, Failure>, hops: seq<Hop>, ghost next: string)
      requires open == {}
      modifies this
      ensures Ran(w, url, follow, hops) && |hops| <= 6
      ensures r.Ok? <==> hops != [] && Final(w, |hops| - 1, hops[|hops| - 1], follow)
      ensures r.Ok? ==> r.value == |hops| - 1 && open == {r.value}
      ensures r.Err? ==>
        if follow && hops != [] && BrokenLocation(w, |hops| - 1, hops[|hops| - 1])
        then open == {|hops| - 1} && r.error == ValueError else open == {}
      ensures r == Err(ValueError) <==> EndsUnforeseen(w, url, follow, hops)
      ensures r.Err? && 0 < |hops| <= MAX_REDIRECTS ==> DeadEnd(w, |hops| - 1, hops[|hops| - 1], next)
      ensures r == Err(NetworkFailure) <==>
        hops != [] && w.serve(|hops| - 1, hops[|hops| - 1].url, hops[|hops| - 1].ip).NetworkError?
    {
      hops, next := [], url;
      var current := url;
      hide Chain, Pinned, Follows, Final, Ran, BrokenLocation, Downgrade, EndsUnforeseen, Unforeseen, DeadEnd;
      ChainOfNone(w, url, follow);
      for n := 0 to MAX_REDIRECTS + 1
        invariant open == {} && |hops| == n && Going(w, url, follow, hops, current)
      {
        var pin := ValidateAndUnpack(w, n, current);
        if pin.Err? {
          EndsAtPin(w, url, follow, hops, current);
          return Err(pin.error), hops, current;
        }
        PinnedNext(w, url, follow, hops, current, pin.value);
        hops := hops + [pin.value];
        if w.serve(n, pin.value.url, pin.value.ip).NetworkError? {
          EndsAtResponse(w, url, follow, hops, current);
          return Err(NetworkFailure), hops, current;
        }
        open := open + {n};
        var onward := Follow(w, n, pin.value, follow);
        if onward.Err? || onward.value.None? {
          EndsAtResponse(w, url, follow, hops, current);
          if onward.Err? {
            return Err(onward.error), hops, current;
          }
          return Ok(n), hops, current;
        }
        current := onward.value.value;
        Followed(w, url, follow, hops, current);
      }
      EndsAtLimit(w, url, follow, hops, current);
      return Err(SsrfError), hops, current;
    }
  }

  // ----- A run and how it ends

  /** A chain from the URL that has not ended: it goes on to `current`. */
  ghost predicate Going(w: World, url: string, follow: bool, hops: seq<Hop>, current: string) {
    && Chain(w, hops)
    && (if hops == [] then current == url
        else
          && follow && hops[0].url == url && !BrokenLocation(w, |hops| - 1, hops[|hops| - 1])
          && Follows(w, |hops| - 1, hops[|hops| - 1], Hop(current, "", 0)))
  }

  /** The same, with its last request made. */
  ghost predicate Asked(w: World, url: string, follow: bool, hops: seq<Hop>) {
    hops != [] && hops[0].url == url && Chain(w, hops) && (!follow ==> |hops| == 1)
  }

  lemma ChainOfNone(w: World, url: string, follow: bool)
    ensures Going(w, url, follow, [], url)
  {
  }

  lemma PinnedNext(w: World, url: string, follow: bool, hops: seq<Hop>, current: string, pin: Hop)
    requires Going(w, url, follow, hops, current) && Pinned(w, |hops|, pin) && pin.url == current
    ensures Asked(w, url, follow, hops + [pin])
  {
    ChainExtends(w, hops, pin);
  }

  lemma Followed(w: World, url: string, follow: bool, hops: seq<Hop>, next: string)
    requires Asked(w, url, follow, hops) && follow && !BrokenLocation(w, |hops| - 1, hops[|hops| - 1])
    requires Follows(w, |hops| - 1, hops[|hops| - 1], Hop(next, "", 0))
    ensures Going(w, url, follow, hops, next)
  {
  }

  /** What a run that ended comes to. */
  ghost predicate Ended(w: World, url: string, follow: bool, hops: seq<Hop>, next: string) {
    && Ran(w, url, follow, hops)
    && (hops != [] && !Final(w, |hops| - 1, hops[|hops| - 1], follow) && |hops| <= MAX_REDIRECTS ==>
          DeadEnd(w, |hops| - 1, hops[|hops| - 1], next))
  }

  lemma EndsAtPin(w: World, url: string, follow: bool, hops: seq<Hop>, next: string)
    requires Going(w, url, follow, hops, next) && Unpinnable(w, |hops|, next) && |hops| <= MAX_REDIRECTS
    ensures Ended(w, url, follow, hops, next)
    ensures EndsUnforeseen(w, url, follow, hops) <==> Unforeseen(w, |hops|, next)
    ensures hops != [] ==>
      var n, last := |hops| - 1, hops[|hops| - 1];
      !Final(w, n, last, follow) && !BrokenLocation(w, n, last) && w.serve(n, last.url, last.ip).Answered?
  {
    if hops != [] {
      var n, last := |hops| - 1, hops[|hops| - 1];
      assert Pinned(w, 0, hops[0]);
      FollowedIsNotFinal(w, n, last, next);
      NothingFollows(w, n, last, next);
      hide Chain, Pinned, Follows, Unforeseen, Unpinnable, BrokenLocation, Final, Stops;
      if Unforeseen(w, n + 1, next) {
        assert NextUnforeseen(w, n, last);
      } else if other :| Follows(w, n, last, Hop(other, "", 0)) && Unforeseen(w, n + 1, other) {
        OneNext(w, n, last, next, other);
      }
    }
  }

  lemma OneNext(w: World, n: nat, hop: Hop, a: string, b: string)
    requires Follows(w, n, hop, Hop(a, "", 0)) && Follows(w, n, hop, Hop(b, "", 0))
    ensures a == b
  {
  }

  /** A redirect that is followed out of a pinned hop ends nothing. */
  lemma FollowedIsNotFinal(w: World, n: nat, hop: Hop, next: string)
    requires Follows(w, n, hop, Hop(next, "", 0))
    ensures !Final(w, n, hop, true) && w.serve(n, hop.url, hop.ip).Answered?
  {
  }

  lemma EndsAtResponse(w: World, url: string, follow: bool, hops: seq<Hop>, next: string)
    requires Asked(w, url, follow, hops) && |hops| <= MAX_REDIRECTS + 1
    requires var n, last := |hops| - 1, hops[|hops| - 1];
      || w.serve(n, last.url, last.ip).NetworkError? || Final(w, n, last, follow)
      || (follow && (BrokenLocation(w, n, last) || Downgrade(w, n, last)))
    ensures Ended(w, url, follow, hops, next)
    ensures EndsUnforeseen(w, url, follow, hops) <==> follow && BrokenLocation(w, |hops| - 1, hops[|hops| - 1])
    ensures w.serve(|hops| - 1, hops[|hops| - 1].url, hops[|hops| - 1].ip).NetworkError? ==>
      !Final(w, |hops| - 1, hops[|hops| - 1], follow) && !BrokenLocation(w, |hops| - 1, hops[|hops| - 1])
  {
    var n, last := |hops| - 1, hops[|hops| - 1];
    assert Pinned(w, 0, hops[0]);
    NothingFollows(w, n, last, next);
    hide Chain, Pinned, Unforeseen, Unpinnable, Stops;
  }

  lemma EndsAtLimit(w: World, url: string, follow: bool, hops: seq<Hop>, next: string)
    requires Going(w, url, follow, hops, next) && |hops| == MAX_REDIRECTS + 1
    ensures Ended(w, url, follow, hops, next) && !EndsUnforeseen(w, url, follow, hops)
    ensures !Final(w, |hops| - 1, hops[|hops| - 1], follow)
    ensures w.serve(|hops| - 1, hops[|hops| - 1].url, hops[|hops| - 1].ip).Answered?
  {
    assert Pinned(w, 0, hops[0]);
  }

  /** Five redirects are followed, and no more. */
  lemma RunLength(w: World, url: string, follow: bool, hops: seq<Hop>)
    requires Ran(w, url, follow, hops)
    ensures |hops| <= if follow then 6 else 1
    ensures follow && 0 < |hops| < 6 ==> forall next: Hop ::
      Follows(w, |hops| - 1, hops[|hops| - 1], next) ==> !Pinned(w, |hops|, next)
  {
  }

  /** A URL has one run. */
  lemma RunsOnce(w: World, url: string, follow: bool, a: seq<Hop>, b: seq<Hop>)
    requires Ran(w, url, follow, a) && Ran(w, url, follow, b)
    ensures a == b
  {
    if |a| <= |b| {
      PrefixOfRun(w, url, follow, a, b);
    } else {
      PrefixOfRun(w, url, follow, b, a);
    }
  }

  lemma PrefixOfRun(w: World, url: string, follow: bool, a: seq<Hop>, b: seq<Hop>)
    requires Ran(w, url, follow, a) && Ran(w, url, follow, b) && |a| <= |b|
    ensures a == b
  {
    forall i | 0 <= i < |a| ensures a[i] == b[i] { SameHop(w, a, b, i); }
    GoesOn(w, b, |a|);
    hide Chain, Stops, Unpinnable;
  }

  /** Where a chain goes on, it does not stop. */
  lemma GoesOn(w: World, hops: seq<Hop>, n: nat)
    requires Chain(w, hops)
    ensures n < |hops| ==> if n == 0 then !Unpinnable(w, 0, hops[0].url) else !Stops(w, n - 1, hops[n - 1])
  {
    if n < |hops| {
      assert Pinned(w, n, hops[n]);
      assert n > 0 ==> Follows(w, n - 1, hops[n - 1], hops[n]);
    }
  }

  /** Where nothing may follow. */
  lemma NothingFollows(w: World, n: nat, hop: Hop, next: string)
    ensures Final(w, n, hop, true) || DeadEnd(w, n, hop, next) ==> Stops(w, n, hop)
  {
    hide Chain;
  }

  lemma {:induction false} SameHop(w: World, a: seq<Hop>, b: seq<Hop>, i: nat)
    requires Chain(w, a) && Chain(w, b) && i < |a| && i < |b|
    requires a[0].url == b[0].url
    ensures a[i] == b[i]
  {
    assert Pinned(w, i, a[i]) && Pinned(w, i, b[i]);
    if i > 0 {
      SameHop(w, a, b, i - 1);
      assert Follows(w, i - 1, a[i - 1], a[i]) && Follows(w, i - 1, b[i - 1], b[i]);
    }
  }

  /** A chain from the URL to a final response is its run. */
  lemma FinalChainIsRun(w: World, url: string, hops: seq<Hop>)
    requires hops != [] && |hops| <= MAX_REDIRECTS + 1 && hops[0].url == url && Chain(w, hops)
    requires Final(w, |hops| - 1, hops[|hops| - 1], true)
    ensures Ran(w, url, true, hops)
  {
    assert Pinned(w, 0, hops[0]);
  }

  lemma ChainExtends(w: World, hops: seq<Hop>, next: Hop)
    requires Chain(w, hops) && Pinned(w, |hops|, next)
    requires hops != [] ==> Follows(w, |hops| - 1, hops[|hops| - 1], Hop(next.url, "", 0))
    ensures Chain(w, hops + [next])
  {
  }

  /** Once a hop's URL is https, so is that of every later one. */
  lemma {:induction false} HttpsStays(w: World, hops: seq<Hop>, i: nat, j: nat)
    requires Chain(w, hops) && i <= j < |hops|
    requires w.parse(hops[i].url).Parts? && w.parse(hops[i].url).url.scheme == "https"
    ensures w.parse(hops[j].url).Parts? && w.parse(hops[j].url).url.scheme == "https"
    decreases j
  {
    if i < j {
      HttpsStays(w, hops, i, j - 1);
      assert Follows(w, j - 1, hops[j - 1], hops[j]);
      assert Pinned(w, j, hops[j]);
    }
  }

  /** A URL that parses and has this scheme. */
  ghost predicate Is(w: World, url: string, scheme: string) {
    w.parse(url).Parts? && w.parse(url).url.scheme == scheme
  }

  /** What becomes of an answer, by its status, its Location and the two URLs as parsed:
      the five redirects with a Location go on to where it leads, but for https to http
      and for what does not join or, from https, parse; anything else is final. */
  lemma AnswerDecides(w: World, n: nat, hop: Hop, next: Hop)
    requires w.serve(n, hop.url, hop.ip).Answered?
    ensures var reply := w.serve(n, hop.url, hop.ip);
      var redirect := reply.status in {301, 302, 303, 307, 308} && reply.location.Some? && reply.location.value != "";
      && (Final(w, n, hop, true) <==> !redirect)
      && Final(w, n, hop, false)
      && (redirect ==>
            var target := w.join(hop.url, reply.location.value);
            && (BrokenLocation(w, n, hop) <==>
                  target.None? || (Is(w, hop.url, "https") && w.parse(target.value).Unparsable?))
            && (Downgrade(w, n, hop) <==>
                  target.Some? && Is(w, hop.url, "https") && Is(w, target.value, "http"))
            && (Follows(w, n, hop, next) <==>
                  target == Some(next.url) && !(Is(w, hop.url, "https") && Is(w, next.url, "http"))))
  {
  }

  /** No request of any run goes to an address outside the public range, unless the
      operator trusts that hop's own host. */
  lemma OnlyPublicOrTrusted(w: World, hops: seq<Hop>, i: nat)
    requires Chain(w, hops) && i < |hops|
    ensures w.isPublic(hops[i].ip) || w.allowlisted(w.parse(hops[i].url).url.host)
  {
    assert Pinned(w, i, hops[i]);
  }

  /** A server at a public address that answers everything with one redirect; joining a
      Location with an unclosed bracket raises. */
  function RedirectingWorld(location: string): World {
    World(
      url => Parts(Parsed("https", "files.example", None), true),
      (base, target) => if target == "http://[" then None else Some(target),
      host => false,
      ip => true,
      ip => true,
      host => false,
      (n, host) => Addresses(["93.184.216.34"]),
      (n, url, ip) => Answered(302, Some(location)))
  }

  /** The unforeseen failure occurs in the loop as it is written, for a session that hands
      over such a response: one redirect to `http://[` and the response stays open. */
  method BrokenLocationLeavesOpen(s: Session, url: string) returns (r: Result<nat, Failure>)
    requires s.open == {}
    modifies s
    ensures r == Err(ValueError) && s.open == {0}
  {
    var w := RedirectingWorld("http://[");
    var hops;
    ghost var next;
    r, hops, next := s.RequestWithRedirects(w, url, true);
    assert Pinned(w, 0, Hop(url, "93.184.216.34", 443));
    assert |hops| <= 1 by { assert |hops| > 1 ==> Follows(w, 0, hops[0], hops[1]); }
  }
}
