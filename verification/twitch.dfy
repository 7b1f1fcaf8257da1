/** The later revision of the upstream client (`src/twitch.rs`): a setup
    holding the two credentials, a `Client` holding the client id and an
    access token, and the last-occurrence media-URL derivation.

    Network calls are parameters: `auth` answers the token request with the
    parsed `AuthResponse`, `clips` answers a clips request with the parsed
    `data` array, and `parse` stands for `Url::parse`: the serialised URL,
    or `None` when the string does not parse. */
module Twitch {
  import opened Wrappers
  import opened Strings
  import opened Worker
  import opened Helix

  /** `TwitchClientSetup`: the two secrets, read by the caller. */
  datatype ClientSetup = ClientSetup(clientId: string, clientSecret: string)

  /** `Client`: what remains once a token is obtained. */
  datatype Client = Client(clientId: string, accessToken: string)

  const NoValidThumbnailUrl: string := "no valid thumbnail url"

  /** `auth_body`: the client-credentials form body for the setup. */
  function AuthBody(setup: ClientSetup): (body: string)
  {
    TokenBody(setup.clientId, setup.clientSecret)
  }

  /** `auth_body` reads back as the setup's id, its secret and the grant
      type, provided the credentials hold no `&`. */
  lemma AuthBodyFields(setup: ClientSetup)
    requires '&' !in setup.clientId && '&' !in setup.clientSecret
    ensures DecodeForm(AuthBody(setup)) == [("client_id", setup.clientId), ("client_secret", setup.clientSecret),
                                            ("grant_type", GrantType)]
  {
    TokenBodyFields(setup.clientId, setup.clientSecret);
  }

  /** `auth_request`: a form POST to the token endpoint. */
  function AuthRequest(setup: ClientSetup): (req: Request)
    ensures req.verb == Post && req.url == TokenEndpoint
    ensures req.headers.Keys == {"Content-Type"} && req.headers["Content-Type"] == FormContentType
    ensures req.body == Some(AuthBody(setup))
  {
    var headers := SetHeader(map[], "Content-Type", FormContentType);
    Request(Post, TokenEndpoint, headers, Some(AuthBody(setup)))
  }

  /** `Client::authenticated`: the token request, then a client keeping the
      setup's id and the returned token; the secret is not kept. */
  function Authenticated(setup: ClientSetup, auth: Request -> Result<AuthResponse, Error>): (r: Result<Client, Error>)
    ensures r.Success? <==> auth(AuthRequest(setup)).Success?
    ensures r.Success? ==> r.value == Client(setup.clientId, auth(AuthRequest(setup)).value.accessToken)
    ensures r.Failure? ==> r.error == auth(AuthRequest(setup)).error
  {
    var response :- auth(AuthRequest(setup));
    Success(Client(setup.clientId, response.accessToken))
  }

  /** `set_auth_headers`: adds `Client-Id` and a bearer `Authorization`,
      leaving the rest of the request alone. */
  function SetAuthHeaders(client: Client, req: Request): (r: Request)
    ensures r.verb == req.verb && r.url == req.url && r.body == req.body
    ensures r.headers.Keys == req.headers.Keys + {"Client-Id", "Authorization"}
    ensures r.headers["Client-Id"] == client.clientId
    ensures BearerToken(r.headers["Authorization"]) == Some(client.accessToken)
    ensures forall n :: n in req.headers && n != "Client-Id" && n != "Authorization" ==> r.headers[n] == req.headers[n]
  {
    var headers := SetHeader(req.headers, "Client-Id", client.clientId);
    var headers := SetHeader(headers, "Authorization", Bearer(client.accessToken));
    req.(headers := headers)
  }

  /** `fetch_single_clip`'s request: a GET of the clips URL for `id`. */
  function ClipsRequest(client: Client, id: string): (req: Request)
    ensures req.verb == Get && req.body.None?
    ensures PathOf(req.url) == ClipsEndpoint && QueryOf(req.url) == Some("id=" + id)
    ensures req.headers.Keys == {"Client-Id", "Authorization"}
    ensures req.headers["Client-Id"] == client.clientId
    ensures BearerToken(req.headers["Authorization"]) == Some(client.accessToken)
  {
    ClipsUrlQuery(id);
    SetAuthHeaders(client, Request(Get, ClipsUrl(id), map[], None))
  }

  /** `fetch_clip`: the reply must hold exactly one clip, which is returned. */
  function FetchClip(client: Client, id: string, clips: Request -> Result<ClipsBody, Error>): (r: Result<Clip, Error>)
    ensures r.Success? <==> clips(ClipsRequest(client, id)).Success? && |clips(ClipsRequest(client, id)).value.data| == 1
    ensures r.Success? ==> clips(ClipsRequest(client, id)).value.data == [r.value]
    ensures clips(ClipsRequest(client, id)).Failure? ==> r == Failure(clips(ClipsRequest(client, id)).error)
    ensures clips(ClipsRequest(client, id)).Success? && r.Failure? ==>
              r.error == ArrayLength(|clips(ClipsRequest(client, id)).value.data|)
  {
    var body :- clips(ClipsRequest(client, id));
    var decoded :- DecodeClips(body);
    Success(decoded.clip)
  }

  /** The string part of `Clip::media_url`: the thumbnail URL cut at the
      last marker, with the media extension appended. */
  function DeriveMediaUrl(thumbnail: string): (r: Result<string, Error>)
    ensures r.Failure? <==> !Occurs(thumbnail, PreviewMarker)
    ensures r.Failure? ==> r.error == Message(NoValidThumbnailUrl)
    ensures r.Success? ==> exists i :: LastAt(thumbnail, PreviewMarker, i) && r.value == thumbnail[..i] + MediaExtension
  {
    match FindLast(thumbnail, PreviewMarker)
    case None => Failure(Message(NoValidThumbnailUrl))
    case Some(i) => Success(thumbnail[..i] + MediaExtension)
  }

  /** `Clip::media_url`: the derived string as `Url::parse` serialises it,
      or the parse error. */
  function MediaUrl(clip: Clip, parse: string -> Option<string>): (r: Result<string, Error>)
    ensures r.Success? <==> DeriveMediaUrl(clip.thumbnailUrl).Success? && parse(DeriveMediaUrl(clip.thumbnailUrl).value).Some?
    ensures r.Success? ==> r.value == parse(DeriveMediaUrl(clip.thumbnailUrl).value).value
    ensures DeriveMediaUrl(clip.thumbnailUrl).Failure? ==> r == Failure(Message(NoValidThumbnailUrl))
    ensures DeriveMediaUrl(clip.thumbnailUrl).Success? && parse(DeriveMediaUrl(clip.thumbnailUrl).value).None? ==>
              r == Failure(InvalidUrl(DeriveMediaUrl(clip.thumbnailUrl).value))
  {
    var derived :- DeriveMediaUrl(clip.thumbnailUrl);
    match parse(derived)
    case None => Failure(InvalidUrl(derived))
    case Some(url) => Success(url)
  }

  // ---------------------------------------------------------------------
  // Properties of the derivation

  /** A successful derivation ends in the media extension, is shorter than
      the thumbnail by at least the marker less the extension, and leaves no
      marker after its cut. */
  lemma DeriveMediaUrlShape(thumbnail: string)
    requires DeriveMediaUrl(thumbnail).Success?
    ensures var url := DeriveMediaUrl(thumbnail).value;
            |url| >= |MediaExtension| && url[|url| - |MediaExtension|..] == MediaExtension
            && |url| <= |thumbnail| - |PreviewMarker| + |MediaExtension|
    ensures exists i :: 0 <= i < |thumbnail| && DeriveMediaUrl(thumbnail).value == thumbnail[..i] + MediaExtension
                        && !Occurs(thumbnail[i + 1..], PreviewMarker)
  {
    var i :| LastAt(thumbnail, PreviewMarker, i) && DeriveMediaUrl(thumbnail).value == thumbnail[..i] + MediaExtension;
    LastAtSuffixFree(thumbnail, PreviewMarker, i);
    var url := DeriveMediaUrl(thumbnail).value;
    assert url[|url| - |MediaExtension|..] == MediaExtension;
  }

  /** For `p + "-preview" + q` with no marker in `q`, the result is
      `p + ".mp4"`, whatever `p` holds. */
  lemma DeriveMediaUrlSplit(p: string, q: string)
    requires !Occurs(q, PreviewMarker)
    ensures DeriveMediaUrl(p + PreviewMarker + q) == Success(p + MediaExtension)
  {
    var s := p + PreviewMarker + q;
    LastBeforeSuffix(p, q);
    var i :| LastAt(s, PreviewMarker, i) && DeriveMediaUrl(s).value == s[..i] + MediaExtension;
    LastAtUnique(s, PreviewMarker, i, |p|);
    assert s[..|p|] == p;
  }

  /** A marker inside the kept prefix is tolerated: with two markers, the
      cut is made at the second. */
  lemma DeriveMediaUrlTwoMarkers()
    ensures DeriveMediaUrl("a-preview/b-preview.jpg") == Success("a-preview/b.mp4")
  {
    NoMarkerIn(".jpg");
    DeriveMediaUrlSplit("a-preview/b", ".jpg");
    assert "a-preview/b" + PreviewMarker + ".jpg" == "a-preview/b-preview.jpg";
    assert "a-preview/b" + MediaExtension == "a-preview/b.mp4";
  }

  /** Different thumbnails can give one media URL: the derivation forgets
      what follows the marker. */
  lemma DeriveMediaUrlNotInjective()
    ensures DeriveMediaUrl("a-preview1") == DeriveMediaUrl("a-preview2") == Success("a.mp4")
  {
    NoMarkerIn("1");
    NoMarkerIn("2");
    DeriveMediaUrlSplit("a", "1");
    DeriveMediaUrlSplit("a", "2");
    assert "a" + PreviewMarker + "1" == "a-preview1" && "a" + PreviewMarker + "2" == "a-preview2";
    assert "a" + MediaExtension == "a.mp4";
  }

  /** A string shorter than the marker holds none. */
  lemma NoMarkerIn(s: string)
    requires |s| < |PreviewMarker|
    ensures !Occurs(s, PreviewMarker)
  {
  }
}
