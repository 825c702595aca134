/**
 * The `/releases` request path of app.py:83-159: the rate limiter in front,
 * then a cached answer if the cache is valid, then the token check, then one
 * upstream fetch, the projection and the cache update.  The upstream call is
 * an input: either the decoded release list or a failed request.  The second
 * result of each method says whether upstream was contacted.
 */
module Endpoint {
  import opened Wrappers
  import opened Releases
  import opened ReleaseFilter
  import opened Cache
  import opened RateLimit

  /** What the single upstream request produced. */
  datatype Upstream = Fetched(releases: seq<RawRelease>) | RequestFailed

  /** The JSON body and status the endpoint answers with. */
  datatype Response = ReleaseList(releases: seq<PublicRelease>) | Error(status: int, message: string)

  const RateLimitMessage: string := "Rate limit exceeded"
  const ConfigurationMessage: string := "Service configuration error"
  const UpstreamMessage: string := "Failed to fetch releases from GitHub"
  const InternalMessage: string := "Internal server error"

  /** `if not GITHUB_TOKEN`: an unset or empty token counts as missing. */
  predicate TokenConfigured(token: Option<string>): (configured: bool)
    ensures token == None || token == Some("") ==> !configured
    ensures configured ==> |token.value| > 0
  {
    token.Some? && token.value != ""
  }

  /** The answer of a request that reaches upstream: 502 for a failed request,
      500 for data the projection cannot read, the projection otherwise. */
  function FetchedResponse(upstream: Upstream): (response: Response)
    ensures response.ReleaseList? <==> upstream.Fetched? && Project(upstream.releases).Ok?
    ensures response.Error? ==> response.status == 502 || response.status == 500
    ensures response.Error? && response.status == 502 <==> upstream.RequestFailed?
    ensures response.ReleaseList? ==> forall i :: 0 <= i < |response.releases| ==> response.releases[i].assets != []
  {
    match upstream
    case RequestFailed => Error(502, UpstreamMessage)
    case Fetched(raw) =>
      match Project(raw)
      case Ok(out) => ReleaseList(out)
      case Malformed => Error(500, InternalMessage)
  }

  /** `get_releases()` (app.py:85-159).  A cache hit is answered as stored,
      without looking at the token or upstream; a miss without a token fails
      before any fetch; otherwise upstream decides, and only a successful
      projection is stored. */
  method GetReleases(cache: ReleaseCache, token: Option<string>, upstream: Upstream, now: int)
    returns (response: Response, contacted: bool)
    modifies cache
    ensures old(cache.IsValid(now)) ==>
              response == ReleaseList(old(cache.data.value)) && !contacted && unchanged(cache)
    ensures !old(cache.IsValid(now)) && !TokenConfigured(token) ==>
              response == Error(500, ConfigurationMessage) && !contacted && unchanged(cache)
    ensures !old(cache.IsValid(now)) && TokenConfigured(token) ==>
              contacted && response == FetchedResponse(upstream)
    ensures response.ReleaseList? && contacted ==>
              cache.data == Some(response.releases) && cache.timestamp == Some(now)
    ensures !response.ReleaseList? ==> unchanged(cache)
  {
    if cache.IsValid(now) {
      return ReleaseList(cache.data.value), false;
    }
    if !TokenConfigured(token) {
      return Error(500, ConfigurationMessage), false;
    }
    match upstream {
      case RequestFailed =>
        return Error(502, UpstreamMessage), true;
      case Fetched(raw) =>
        var publicReleases := FilterReleases(raw);
        match publicReleases {
          case Malformed =>
            return Error(500, InternalMessage), true;
          case Ok(out) =>
            cache.Put(out, now);
            return ReleaseList(out), true;
        }
    }
  }

  /** The decorated endpoint: the limiter runs first, and a refused call
      neither reaches the handler nor touches the cache or upstream. */
  method HandleReleases(limiter: Limiter, cache: ReleaseCache, token: Option<string>, upstream: Upstream, now: int)
    returns (response: Response, contacted: bool)
    requires limiter.Valid()
    modifies limiter, cache
    ensures limiter.Valid()
    ensures limiter.log == NextLog(old(limiter.log), now, limiter.maxRequests)
    ensures !Admits(old(limiter.log), now, limiter.maxRequests) ==>
              response == Error(429, RateLimitMessage) && !contacted && unchanged(cache)
    ensures Admits(old(limiter.log), now, limiter.maxRequests) && old(cache.IsValid(now)) ==>
              response == ReleaseList(old(cache.data.value)) && !contacted && unchanged(cache)
    ensures Admits(old(limiter.log), now, limiter.maxRequests) && !old(cache.IsValid(now)) ==>
              contacted == TokenConfigured(token) &&
              response == if TokenConfigured(token) then FetchedResponse(upstream) else Error(500, ConfigurationMessage)
    ensures response.ReleaseList? && contacted ==>
              cache.data == Some(response.releases) && cache.timestamp == Some(now)
    ensures !response.ReleaseList? ==> unchanged(cache)
  {
    var admitted := limiter.Admit(now);
    if !admitted {
      return Error(429, RateLimitMessage), false;
    }
    response, contacted := GetReleases(cache, token, upstream, now);
  }

  // ---------------------------------------------------------------------------
  // Scenarios of a freshly started process

  /** Two listing requests less than five minutes apart: once the first has
      stored a list, the second returns the same list without contacting
      upstream again. */
  method RepeatWithinTtl(token: Option<string>, upstream: Upstream, first: int, second: int)
    returns (firstResponse: Response, secondResponse: Response, secondContacted: bool)
    requires second - first < TtlSeconds
    ensures firstResponse == if TokenConfigured(token) then FetchedResponse(upstream) else Error(500, ConfigurationMessage)
    ensures firstResponse.ReleaseList? ==> secondResponse == firstResponse && !secondContacted
  {
    var cache := new ReleaseCache();
    var firstContacted;
    firstResponse, firstContacted := GetReleases(cache, token, upstream, first);
    secondResponse, secondContacted := GetReleases(cache, token, upstream, second);
  }

  /** A request five minutes or more after the list was stored is a miss and
      goes upstream again (when the token is set). */
  method RefetchAfterTtl(token: Option<string>, upstream: Upstream, first: int, second: int)
    returns (firstResponse: Response, secondResponse: Response, secondContacted: bool)
    requires second - first >= TtlSeconds
    ensures secondContacted == TokenConfigured(token)
    ensures TokenConfigured(token) ==> secondResponse == FetchedResponse(upstream)
  {
    var cache := new ReleaseCache();
    var firstContacted;
    firstResponse, firstContacted := GetReleases(cache, token, upstream, first);
    secondResponse, secondContacted := GetReleases(cache, token, upstream, second);
  }

  /** Thirty-one listing requests less than a minute after the first: the first thirty pass the
      limiter, the thirty-first is refused with 429 and contacts nobody. */
  method BurstOfListingRequests(token: Option<string>, upstream: Upstream, times: seq<int>)
    returns (responses: seq<Response>, lastContacted: bool)
    requires |times| == ReleasesPerMinute + 1
    requires forall j :: 0 <= j < |times| ==> times[0] <= times[j] < times[0] + WindowSeconds
    ensures |responses| == |times|
    ensures forall k :: 0 <= k < ReleasesPerMinute ==> responses[k] != Error(429, RateLimitMessage)
    ensures responses[ReleasesPerMinute] == Error(429, RateLimitMessage) && !lastContacted
  {
    var limiter := new Limiter(ReleasesPerMinute);
    var cache := new ReleaseCache();
    responses := [];
    lastContacted := false;
    var i := 0;
    while i < |times|
      invariant 0 <= i <= |times|
      invariant limiter.Valid() && limiter.maxRequests == ReleasesPerMinute
      invariant i <= ReleasesPerMinute ==> limiter.log == times[..i]
      invariant |responses| == i
      invariant forall k :: 0 <= k < i && k < ReleasesPerMinute ==> responses[k] != Error(429, RateLimitMessage)
      invariant i == |times| ==> responses[ReleasesPerMinute] == Error(429, RateLimitMessage) && !lastContacted
    {
      BurstStep(times, i, ReleasesPerMinute);
      var response, contacted := HandleReleases(limiter, cache, token, upstream, times[i]);
      responses := responses + [response];
      lastContacted := contacted;
      i := i + 1;
    }
  }

  /** Inside the burst nothing leaves the window, so the i-th request is
      admitted exactly while fewer than the threshold are recorded. */
  lemma BurstStep(times: seq<int>, i: nat, maxRequests: nat)
    requires i < |times|
    requires forall j :: 0 <= j < |times| ==> times[0] <= times[j] < times[0] + WindowSeconds
    ensures Admits(times[..i], times[i], maxRequests) == (i < maxRequests)
    ensures NextLog(times[..i], times[i], maxRequests) == if i < maxRequests then times[..i + 1] else times[..i]
  {
    assert forall j :: 0 <= j < i ==> InWindow(times[i], times[..i][j]);
    PruneKeepsAll(times[..i], times[i]);
    assert times[..i + 1] == times[..i] + [times[i]];
  }
}
