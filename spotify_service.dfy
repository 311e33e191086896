/** The backend's Spotify client: a client-credentials token cached with an
    expiry, and a track search whose first hit is reshaped into the fields
    the app shows (title, joined artist names, album art in three sizes). */
module Spotify {
  import opened Wrappers
  import opened Text

  // Token cache

  /** The `expires_in` member of the token reply: absent (3600 seconds is
      assumed), a number of seconds, or a value that is not a number, so
      that `expires_in - 300` raises a `TypeError`. */
  datatype ExpiresIn = DefaultExpiry | Seconds(n: int) | Malformed

  /** What the POST to the token endpoint produced: an error (network,
      timeout, HTTP status, undecodable JSON) or a JSON object, whose
      `access_token` member may be absent. */
  datatype TokenReply = TokenRequestFailed | TokenGranted(accessToken: Option<string>, expiresIn: ExpiresIn)

  /** The exception `_get_access_token` re-raises: the request failed, the
      reply has no `access_token`, `expires_in` is not a number, or the
      expiry falls outside the range of `datetime` (`OverflowError`). */
  datatype TokenError = RequestError | MissingAccessToken | BadExpiry | ExpiryOverflow

  /** The two cached fields, as a value. Clock values are whole seconds
      counted from 0001-01-01 00:00:00, the earliest `datetime`. */
  datatype TokenCache = TokenCache(accessToken: Option<string>, expiresAt: Option<int>)

  const EmptyCache := TokenCache(None, None)

  /** The seconds from 0001-01-01 00:00:00 to 10000-01-01 00:00:00:
      3652059 days, the whole range of `datetime`. */
  const DatetimeSpan := 3652059 * 86400

  /** A clock value `datetime` can hold; adding a `timedelta` whose sum
      falls outside this range raises `OverflowError` (as does building a
      `timedelta` too large for any such sum). */
  predicate InDatetimeRange(t: int) {
    0 <= t < DatetimeSpan
  }

  /** The lifetime assumed when the reply does not give one. */
  const DefaultLifetime := 3600

  /** The safety margin taken off every lifetime. */
  const ExpiryBuffer := 300

  function LifetimeOf(e: ExpiresIn): int
    requires !e.Malformed?
  {
    match e
    case DefaultExpiry => DefaultLifetime
    case Seconds(n) => n
  }

  /** The cached token may be reused: it is a non-empty string, an expiry
      is set, and the clock is still before it. */
  predicate Reusable(c: TokenCache, now: int) {
    c.accessToken.Some? && c.accessToken.value != "" && c.expiresAt.Some? && now < c.expiresAt.value
  }

  /** One call of `_get_access_token` at time `now`, on values: the new
      cache and the returned token or raised error. The token is stored
      before the expiry is computed, so a lifetime that is not a number or
      that takes the expiry out of `datetime`'s range raises with the new
      token and the old expiry in place. */
  function TokenStep(c: TokenCache, now: int, reply: TokenReply): (TokenCache, Result<string, TokenError>) {
    if Reusable(c, now) then (c, Success(c.accessToken.value))
    else
      match reply
      case TokenRequestFailed => (c, Failure(RequestError))
      case TokenGranted(None, _) => (c, Failure(MissingAccessToken))
      case TokenGranted(Some(token), expiresIn) =>
        if expiresIn.Malformed? then (c.(accessToken := Some(token)), Failure(BadExpiry))
        else if !InDatetimeRange(now + LifetimeOf(expiresIn) - ExpiryBuffer) then
          (c.(accessToken := Some(token)), Failure(ExpiryOverflow))
        else (TokenCache(Some(token), Some(now + LifetimeOf(expiresIn) - ExpiryBuffer)), Success(token))
  }

  /** The cached token is returned without asking the token endpoint exactly
      when it is reusable: with a failing endpoint the call succeeds iff the
      cache is reusable, and a reusable cache ignores the reply entirely. */
  lemma ReuseIffReusable(c: TokenCache, now: int, reply: TokenReply)
    ensures TokenStep(c, now, TokenRequestFailed).1.Success? <==> Reusable(c, now)
    ensures Reusable(c, now) ==> TokenStep(c, now, reply) == (c, Success(c.accessToken.value))
  {
  }

  /** A refresh stores the new token and an expiry of `now + expires_in - 300`,
      with 3600 seconds when the reply gives no lifetime, as long as that
      expiry is a `datetime`; otherwise it stores the token, keeps the old
      expiry and raises `OverflowError`. */
  lemma RefreshSetsExpiry(c: TokenCache, now: int, token: string, expiresIn: ExpiresIn)
    requires !Reusable(c, now) && !expiresIn.Malformed?
    ensures var expiry := now + LifetimeOf(expiresIn) - 300;
      var step := TokenStep(c, now, TokenGranted(Some(token), expiresIn));
      && (InDatetimeRange(expiry) ==> step == (TokenCache(Some(token), Some(expiry)), Success(token)))
      && (!InDatetimeRange(expiry) ==> step == (TokenCache(Some(token), c.expiresAt), Failure(ExpiryOverflow)))
    ensures expiresIn == DefaultExpiry && InDatetimeRange(now + 3300) ==>
      TokenStep(c, now, TokenGranted(Some(token), expiresIn)).0.expiresAt == Some(now + 3300)
  {
  }

  /** A failed request or a reply without `access_token` raises and leaves
      both fields as they were. */
  lemma FailureLeavesCache(c: TokenCache, now: int, reply: TokenReply)
    requires !Reusable(c, now)
    requires reply.TokenRequestFailed? || reply.accessToken.None?
    ensures TokenStep(c, now, reply).0 == c
    ensures TokenStep(c, now, reply).1.Failure?
  {
  }

  /** A fresh client has nothing to reuse. */
  lemma EmptyCacheNotReusable(now: int)
    ensures !Reusable(EmptyCache, now)
  {
  }

  /** A non-empty token obtained at `now`, with an expiry `datetime` can
      hold, is returned again, whatever the endpoint would say, by every
      later call before `now + lifetime - 300`, and from that moment on is
      not. When the expiry overflows instead, the call fails, and the token
      it stored is reused exactly while the clock is before the expiry left
      over from earlier. */
  lemma {:induction false} FreshTokenReused(c: TokenCache, now: int, token: string, lifetime: int, later: int, reply: TokenReply)
    requires !Reusable(c, now) && token != ""
    requires now <= later
    ensures var (c1, r) := TokenStep(c, now, TokenGranted(Some(token), Seconds(lifetime)));
      && (InDatetimeRange(now + lifetime - 300) ==>
            r == Success(token)
            && (later < now + lifetime - 300 ==> TokenStep(c1, later, reply) == (c1, Success(token)))
            && (later >= now + lifetime - 300 ==> !Reusable(c1, later)))
      && (!InDatetimeRange(now + lifetime - 300) ==>
            r == Failure(ExpiryOverflow)
            && (Reusable(c1, later) <==> c.expiresAt.Some? && later < c.expiresAt.value))
  {
    RefreshSetsExpiry(c, now, token, Seconds(lifetime));
  }

  /** A lifetime of 10^12 seconds, about 31700 years, takes the expiry past
      year 9999 from any clock value `datetime` holds, so the refresh
      raises although the reply was well formed. */
  lemma HugeLifetimeOverflows(c: TokenCache, now: int, token: string)
    requires !Reusable(c, now) && InDatetimeRange(now)
    ensures TokenStep(c, now, TokenGranted(Some(token), Seconds(1000000000000))) ==
      (c.(accessToken := Some(token)), Failure(ExpiryOverflow))
  {
  }

  /** The service object: credentials are read elsewhere; the cache is the
      two fields the token call updates. */
  class SpotifyService {
    var accessToken: Option<string>
    var tokenExpiresAt: Option<int>

    function Cache(): TokenCache
      reads this
    {
      TokenCache(accessToken, tokenExpiresAt)
    }

    /** `__init__`: no token and no expiry. */
    constructor()
      ensures Cache() == EmptyCache
    {
      accessToken := None;
      tokenExpiresAt := None;
    }

    /** `_get_access_token` at time `now`, with `reply` standing for the
        token endpoint's answer when it is asked. */
    method GetAccessToken(now: int, reply: TokenReply) returns (r: Result<string, TokenError>)
      modifies this
      ensures (Cache(), r) == TokenStep(old(Cache()), now, reply)
    {
      if accessToken.Some? && accessToken.value != "" && tokenExpiresAt.Some? {
        if now < tokenExpiresAt.value {
          return Success(accessToken.value);
        }
      }
      match reply {
        case TokenRequestFailed =>
          return Failure(RequestError);
        case TokenGranted(token, expiresIn) =>
          if token.None? {
            return Failure(MissingAccessToken);
          }
          accessToken := token;
          if expiresIn.Malformed? {
            return Failure(BadExpiry);
          }
          var expiry := now + LifetimeOf(expiresIn) - ExpiryBuffer;
          if !InDatetimeRange(expiry) {
            return Failure(ExpiryOverflow);
          }
          tokenExpiresAt := Some(expiry);
          return Success(token.value);
      }
    }

    /** `search_track`: missing artist or title returns None at once and
        leaves the cache alone; otherwise the token call updates the cache
        as `TokenStep` says, any failure gives None, and the search reply
        is reshaped by `SearchOutcome`. */
    method SearchTrack(artist: string, title: string, now: int, tokenReply: TokenReply,
                       search: (string, string) -> SearchReply) returns (r: Option<TrackInfo>)
      modifies this
      ensures artist == "" || title == "" ==> r == None && Cache() == old(Cache())
      ensures artist != "" && title != "" ==>
        var (c, token) := TokenStep(old(Cache()), now, tokenReply);
        Cache() == c
        && r == (if token.Failure? then None else SearchOutcome(search(token.value, Query(artist, title))))
    {
      if artist == "" || title == "" {
        return None;
      }
      var token := GetAccessToken(now, tokenReply);
      if token.Failure? {
        return None;
      }
      var query := Query(artist, title);
      r := SearchOutcome(search(token.value, query));
    }
  }

  // Search result shaping

  /** The search query sent for an artist and a title. */
  function Query(artist: string, title: string): (q: string)
    ensures StartsWith(q, "artist:") && |q| == |artist| + |title| + 14
    ensures q[7..7 + |artist|] == artist && q[7 + |artist|..] == " track:" + title
  {
    "artist:" + artist + " track:" + title
  }

  /** The `url` member of an album image: absent (indexing raises), `null`,
      or a string. */
  datatype ImageUrl = MissingUrl | UrlValue(url: Option<string>)

  /** An artist entry; `name` is None when absent or not a string, either
      of which makes the join raise. */
  datatype ArtistEntry = ArtistEntry(name: Option<string>)

  datatype Album = Album(name: Option<string>, images: seq<ImageUrl>, releaseDate: Option<string>)

  datatype SpotifyTrack = SpotifyTrack(
    name: Option<string>,
    artists: seq<ArtistEntry>,
    album: Album,
    spotifyUrl: Option<string>,
    durationMs: Option<int>,
    previewUrl: Option<string>)

  /** The search reply: an error, or the list under `tracks.items` (empty
      when either member is absent). */
  datatype SearchReply = SearchFailed | SearchResults(items: seq<SpotifyTrack>)

  /** The dictionary `search_track` returns. */
  datatype TrackInfo = TrackInfo(
    title: Option<string>,
    artist: string,
    album: Option<string>,
    albumArtUrl: Option<string>,
    albumArtSmall: Option<string>,
    albumArtMedium: Option<string>,
    releaseDate: Option<string>,
    spotifyUrl: Option<string>,
    durationMs: Option<int>,
    previewUrl: Option<string>)

  /** The artist names in order, or None when some entry has no usable name. */
  function ArtistNames(artists: seq<ArtistEntry>): (r: Option<seq<string>>)
    ensures r.Some? <==> forall i :: 0 <= i < |artists| ==> artists[i].name.Some?
    ensures r.Some? ==> |r.value| == |artists| && forall i :: 0 <= i < |artists| ==> r.value[i] == artists[i].name.value
  {
    if artists == [] then Some([])
    else
      match (artists[0].name, ArtistNames(artists[1..]))
      case (Some(n), Some(rest)) => Some([n] + rest)
      case _ => None
  }

  /** The image at index `i` has a `url` member. */
  predicate HasUrl(images: seq<ImageUrl>, i: nat) {
    i < |images| && images[i].UrlValue?
  }

  /** The image members of the result are well defined: no images, or the
      first, the last and (with at least two) the second have a `url`. */
  predicate ImagesReadable(images: seq<ImageUrl>) {
    images == [] || (HasUrl(images, 0) && HasUrl(images, |images| - 1) && (|images| > 1 ==> HasUrl(images, 1)))
  }

  /** The result dictionary for the first hit, or None when building it
      raises. */
  function ShapeTrack(t: SpotifyTrack): (r: Option<TrackInfo>)
    ensures r.Some? <==> ImagesReadable(t.album.images) && ArtistNames(t.artists).Some?
  {
    var images := t.album.images;
    match ArtistNames(t.artists)
    case None => None
    case Some(names) =>
      if !ImagesReadable(images) then None
      else
        var first := if images == [] then None else images[0].url;
        Some(TrackInfo(
          t.name,
          Join(names, ", "),
          t.album.name,
          first,
          if images == [] then None else images[|images| - 1].url,
          if |images| > 1 then images[1].url else first,
          t.album.releaseDate,
          t.spotifyUrl,
          t.durationMs,
          t.previewUrl))
  }

  /** Album art: the first image is the full-size art, the last the small
      one, the second (or the first, when there is only one) the medium one;
      with no images all three are None. */
  lemma ImageSelection(t: SpotifyTrack)
    requires ShapeTrack(t).Some?
    ensures var info := ShapeTrack(t).value; var images := t.album.images;
      && (images == [] ==> info.albumArtUrl.None? && info.albumArtSmall.None? && info.albumArtMedium.None?)
      && (images != [] ==> info.albumArtUrl == images[0].url && info.albumArtSmall == images[|images| - 1].url)
      && (|images| == 1 ==> info.albumArtUrl == info.albumArtSmall == info.albumArtMedium)
      && (|images| >= 2 ==> info.albumArtMedium == images[1].url)
  {
  }

  /** The artist field is the names joined with ", " in order: its length
      is the names' lengths plus two characters between each pair. */
  lemma {:induction false} ArtistJoined(t: SpotifyTrack)
    requires ShapeTrack(t).Some?
    ensures var names := ArtistNames(t.artists).value;
      ShapeTrack(t).value.artist == Join(names, ", ")
      && |ShapeTrack(t).value.artist| == TotalLength(names) + 2 * (if names == [] then 0 else |names| - 1)
  {
    JoinLength(ArtistNames(t.artists).value, ", ");
  }

  /** What the search reply becomes: None on an error or an empty result,
      otherwise the shaped first hit. */
  function SearchOutcome(reply: SearchReply): (r: Option<TrackInfo>)
    ensures reply.SearchFailed? || reply.items == [] ==> r.None?
    ensures reply.SearchResults? && reply.items != [] ==> r == ShapeTrack(reply.items[0])
  {
    match reply
    case SearchFailed => None
    case SearchResults(items) => if items == [] then None else ShapeTrack(items[0])
  }
}
