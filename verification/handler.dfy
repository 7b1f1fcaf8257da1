/** The earlier, self-contained revision of the redirector (`src/lib.rs`):
    the fetch handler `main` and the helpers it calls in order.

    As in `Twitch`, the network is abstract: `auth` answers the token
    request, `clips` answers a clips request with the parsed `data` array,
    and `parse` stands for `Url::parse`: the serialised URL, or `None` when
    the string does not parse. The two secrets are parameters. */
module Handler {
  import opened Wrappers
  import opened Strings
  import opened Worker
  import opened Helix

  /** What `main` ends in: a redirect, a returned error, or the panic of an
      `unwrap` on a thumbnail URL without the marker. */
  datatype Outcome = Redirect(location: string) | Failed(error: Error) | Panicked

  /** One run of `main`: its outcome and the requests it sent, in order. */
  datatype Run = Run(outcome: Outcome, sent: seq<Request>)

  /** `clip_id`: the request path with its first character split off. */
  function ClipIdOf(path: string): (id: string)
    requires |path| >= 1
    ensures [path[0]] + id == path
  {
    path[1..]
  }

  /** The request `token` sends: a form POST to the token endpoint. */
  function TokenRequest(clientId: string, clientSecret: string): (req: Request)
    ensures req.verb == Post && req.url == TokenEndpoint
    ensures req.headers.Keys == {"Content-Type"} && req.headers["Content-Type"] == FormContentType
    ensures req.body == Some(TokenBody(clientId, clientSecret))
  {
    var headers := SetHeader(map[], "Content-Type", FormContentType);
    Request(Post, TokenEndpoint, headers, Some(TokenBody(clientId, clientSecret)))
  }

  /** The body `token` sends reads back as the id, the secret and the grant
      type, provided the credentials hold no `&`. */
  lemma TokenRequestFields(clientId: string, clientSecret: string)
    requires '&' !in clientId && '&' !in clientSecret
    ensures DecodeForm(TokenRequest(clientId, clientSecret).body.value)
            == [("client_id", clientId), ("client_secret", clientSecret), ("grant_type", GrantType)]
  {
    TokenBodyFields(clientId, clientSecret);
  }

  /** `token`: the access token of the reply to the token request. */
  function Token(clientId: string, clientSecret: string, auth: Request -> Result<AuthResponse, Error>): (r: Result<string, Error>)
    ensures r.Success? <==> auth(TokenRequest(clientId, clientSecret)).Success?
    ensures r.Success? ==> r.value == auth(TokenRequest(clientId, clientSecret)).value.accessToken
    ensures r.Failure? ==> r.error == auth(TokenRequest(clientId, clientSecret)).error
  {
    var response :- auth(TokenRequest(clientId, clientSecret));
    Success(response.accessToken)
  }

  /** The request `clip` sends: a GET of the clips URL for `id` carrying the
      client id and the token. */
  function ClipRequest(clientId: string, token: string, id: string): (req: Request)
    ensures req.verb == Get && req.body.None?
    ensures PathOf(req.url) == ClipsEndpoint && QueryOf(req.url) == Some("id=" + id)
    ensures req.headers.Keys == {"Client-Id", "Authorization"}
    ensures req.headers["Client-Id"] == clientId
    ensures BearerToken(req.headers["Authorization"]) == Some(token)
  {
    ClipsUrlQuery(id);
    var headers := SetHeader(map[], "Client-Id", clientId);
    var headers := SetHeader(headers, "Authorization", Bearer(token));
    Request(Get, ClipsUrl(id), headers, None)
  }

  /** `clip`: the one clip of the reply; any other count is an error. */
  function FetchClip(clientId: string, token: string, id: string, clips: Request -> Result<ClipsBody, Error>): (r: Result<Clip, Error>)
    ensures r.Success? <==> clips(ClipRequest(clientId, token, id)).Success?
                            && |clips(ClipRequest(clientId, token, id)).value.data| == 1
    ensures r.Success? ==> clips(ClipRequest(clientId, token, id)).value.data == [r.value]
    ensures clips(ClipRequest(clientId, token, id)).Failure? ==> r == Failure(clips(ClipRequest(clientId, token, id)).error)
  {
    var body :- clips(ClipRequest(clientId, token, id));
    var decoded :- DecodeClips(body);
    Success(decoded.clip)
  }

  /** The string part of `Clip::media_url`: the thumbnail URL cut at the
      first marker, with the media extension appended. The `unwrap` panics
      when there is no marker, so a caller must rule that out. */
  function DeriveMediaUrl(thumbnail: string): (url: string)
    requires Occurs(thumbnail, PreviewMarker)
    ensures exists i :: FirstAt(thumbnail, PreviewMarker, i) && url == thumbnail[..i] + MediaExtension
  {
    var i := FindFirst(thumbnail, PreviewMarker).value;
    thumbnail[..i] + MediaExtension
  }

  /** `Clip::media_url`: the derived string as `Url::parse` serialises it,
      or the parse error. */
  function MediaUrl(clip: Clip, parse: string -> Option<string>): (r: Result<string, Error>)
    requires Occurs(clip.thumbnailUrl, PreviewMarker)
    ensures r.Success? <==> parse(DeriveMediaUrl(clip.thumbnailUrl)).Some?
    ensures r.Success? ==> r.value == parse(DeriveMediaUrl(clip.thumbnailUrl)).value
    ensures r.Failure? ==> r.error == InvalidUrl(DeriveMediaUrl(clip.thumbnailUrl))
  {
    var derived := DeriveMediaUrl(clip.thumbnailUrl);
    match parse(derived)
    case None => Failure(InvalidUrl(derived))
    case Some(url) => Success(url)
  }

  /** `main`: id, token, clip, media URL, redirect, each step only when the
      one before it succeeded. `Response::redirect` is taken to succeed. */
  function Main(path: string, clientId: string, clientSecret: string,
                auth: Request -> Result<AuthResponse, Error>,
                clips: Request -> Result<ClipsBody, Error>,
                parse: string -> Option<string>): (run: Run)
    requires |path| >= 1
    ensures 1 <= |run.sent| <= 2 && run.sent[0] == TokenRequest(clientId, clientSecret)
    ensures |run.sent| == 2 <==> Token(clientId, clientSecret, auth).Success?
    ensures |run.sent| == 2 ==> run.sent[1] == ClipRequest(clientId, Token(clientId, clientSecret, auth).value, path[1..])
  {
    var id := ClipIdOf(path);
    var tokenRequest := TokenRequest(clientId, clientSecret);
    match Token(clientId, clientSecret, auth)
    case Failure(e) => Run(Failed(e), [tokenRequest])
    case Success(token) =>
      var sent := [tokenRequest, ClipRequest(clientId, token, id)];
      match FetchClip(clientId, token, id, clips)
      case Failure(e) => Run(Failed(e), sent)
      case Success(clip) =>
        if FindFirst(clip.thumbnailUrl, PreviewMarker).None? then Run(Panicked, sent)
        else
          match MediaUrl(clip, parse)
          case Failure(e) => Run(Failed(e), sent)
          case Success(url) => Run(Redirect(url), sent)
  }

  // ---------------------------------------------------------------------
  // Properties of the derivation

  /** The kept prefix holds no marker: the cut is at the first one. */
  lemma DeriveMediaUrlPrefixFree(thumbnail: string)
    requires Occurs(thumbnail, PreviewMarker)
    ensures var n := |DeriveMediaUrl(thumbnail)| - |MediaExtension|;
            0 <= n < |thumbnail|
            && DeriveMediaUrl(thumbnail) == thumbnail[..n] + MediaExtension
            && !Occurs(thumbnail[..n], PreviewMarker)
  {
    var url := DeriveMediaUrl(thumbnail);
    var i :| FirstAt(thumbnail, PreviewMarker, i) && url == thumbnail[..i] + MediaExtension;
    assert |PreviewMarker| == 8 && |MediaExtension| == 4;
    assert |url| - |MediaExtension| == i;
    FirstAtPrefixFree(thumbnail, PreviewMarker, i);
  }

  /** For `p + "-preview" + q` with no marker in `p`, the result is
      `p + ".mp4"`, whatever `q` holds. */
  lemma DeriveMediaUrlSplit(p: string, q: string)
    requires !Occurs(p, PreviewMarker)
    ensures Occurs(p + PreviewMarker + q, PreviewMarker)
    ensures DeriveMediaUrl(p + PreviewMarker + q) == p + MediaExtension
  {
    var s := p + PreviewMarker + q;
    FirstAfterPrefix(p, q);
    var i :| FirstAt(s, PreviewMarker, i) && DeriveMediaUrl(s) == s[..i] + MediaExtension;
    FirstAtUnique(s, PreviewMarker, i, |p|);
    assert s[..|p|] == p;
  }

  // ---------------------------------------------------------------------
  // Properties of `main`

  /** A failed token request ends the run with its error; the clips request
      is never sent, so neither it nor `Url::parse` can change the run. */
  lemma MainStopsAtToken(path: string, clientId: string, clientSecret: string,
                         auth: Request -> Result<AuthResponse, Error>,
                         clips: Request -> Result<ClipsBody, Error>, parse: string -> Option<string>,
                         clips': Request -> Result<ClipsBody, Error>, parse': string -> Option<string>)
    requires |path| >= 1 && auth(TokenRequest(clientId, clientSecret)).Failure?
    ensures Main(path, clientId, clientSecret, auth, clips, parse)
            == Main(path, clientId, clientSecret, auth, clips', parse')
            == Run(Failed(auth(TokenRequest(clientId, clientSecret)).error), [TokenRequest(clientId, clientSecret)])
  {
  }

  /** A failed clip lookup ends the run with its error; `Url::parse` is
      never reached, so it cannot change the run. */
  lemma MainStopsAtClip(path: string, clientId: string, clientSecret: string,
                        auth: Request -> Result<AuthResponse, Error>,
                        clips: Request -> Result<ClipsBody, Error>, parse: string -> Option<string>, parse': string -> Option<string>)
    requires |path| >= 1 && Token(clientId, clientSecret, auth).Success?
    requires FetchClip(clientId, Token(clientId, clientSecret, auth).value, path[1..], clips).Failure?
    ensures Main(path, clientId, clientSecret, auth, clips, parse) == Main(path, clientId, clientSecret, auth, clips, parse')
    ensures Main(path, clientId, clientSecret, auth, clips, parse).outcome
            == Failed(FetchClip(clientId, Token(clientId, clientSecret, auth).value, path[1..], clips).error)
  {
  }

  /** `main` redirects exactly when every step succeeds, and then to the
      parsed form of the URL derived from the one clip of the reply. */
  lemma MainRedirects(path: string, clientId: string, clientSecret: string,
                      auth: Request -> Result<AuthResponse, Error>,
                      clips: Request -> Result<ClipsBody, Error>, parse: string -> Option<string>)
    requires |path| >= 1
    ensures var run := Main(path, clientId, clientSecret, auth, clips, parse);
            var token := Token(clientId, clientSecret, auth);
            run.outcome.Redirect? <==>
              && token.Success?
              && var clip := FetchClip(clientId, token.value, path[1..], clips);
                 && clip.Success?
                 && Occurs(clip.value.thumbnailUrl, PreviewMarker)
                 && parse(DeriveMediaUrl(clip.value.thumbnailUrl)).Some?
    ensures var run := Main(path, clientId, clientSecret, auth, clips, parse);
            run.outcome.Redirect? ==>
              && |run.sent| == 2
              && var clip := FetchClip(clientId, Token(clientId, clientSecret, auth).value, path[1..], clips);
                 && clip.Success? && Occurs(clip.value.thumbnailUrl, PreviewMarker)
                 && run.outcome.location == parse(DeriveMediaUrl(clip.value.thumbnailUrl)).value
  {
  }

  /** A derived URL that `Url::parse` refuses ends the run with the parse
      error for it, after both requests were sent. */
  lemma MainStopsAtUrl(path: string, clientId: string, clientSecret: string,
                       auth: Request -> Result<AuthResponse, Error>,
                       clips: Request -> Result<ClipsBody, Error>, parse: string -> Option<string>)
    requires |path| >= 1 && Token(clientId, clientSecret, auth).Success?
    requires FetchClip(clientId, Token(clientId, clientSecret, auth).value, path[1..], clips).Success?
    requires var thumbnail := FetchClip(clientId, Token(clientId, clientSecret, auth).value, path[1..], clips).value.thumbnailUrl;
             Occurs(thumbnail, PreviewMarker) && parse(DeriveMediaUrl(thumbnail)).None?
    ensures var thumbnail := FetchClip(clientId, Token(clientId, clientSecret, auth).value, path[1..], clips).value.thumbnailUrl;
            var run := Main(path, clientId, clientSecret, auth, clips, parse);
            run.outcome == Failed(InvalidUrl(DeriveMediaUrl(thumbnail))) && |run.sent| == 2
  {
  }

  /** `main` panics exactly when the one clip's thumbnail URL holds no
      marker; a reply of any other shape fails before that. */
  lemma MainPanics(path: string, clientId: string, clientSecret: string,
                   auth: Request -> Result<AuthResponse, Error>,
                   clips: Request -> Result<ClipsBody, Error>, parse: string -> Option<string>)
    requires |path| >= 1
    ensures var run := Main(path, clientId, clientSecret, auth, clips, parse);
            var token := Token(clientId, clientSecret, auth);
            run.outcome.Panicked? <==>
              && token.Success?
              && var clip := FetchClip(clientId, token.value, path[1..], clips);
                 clip.Success? && !Occurs(clip.value.thumbnailUrl, PreviewMarker)
  {
  }

  /** The path `/` gives the empty id, and `main` asks for it anyway. */
  lemma MainEmptyClipId(clientId: string, clientSecret: string,
                        auth: Request -> Result<AuthResponse, Error>,
                        clips: Request -> Result<ClipsBody, Error>, parse: string -> Option<string>)
    requires auth(TokenRequest(clientId, clientSecret)).Success?
    ensures ClipIdOf("/") == ""
    ensures var run := Main("/", clientId, clientSecret, auth, clips, parse);
            |run.sent| == 2 && run.sent[1].url == ClipsEndpoint + "?id="
  {
  }

  /** The end-to-end case: a clip whose thumbnail is
      `.../ExcitedClip123-preview-480x272.jpg` redirects to what `Url::parse`
      makes of `.../ExcitedClip123.mp4`. */
  lemma MainExample(clientId: string, clientSecret: string, token: string, location: string,
                    auth: Request -> Result<AuthResponse, Error>,
                    clips: Request -> Result<ClipsBody, Error>, parse: string -> Option<string>)
    ensures && auth(TokenRequest(clientId, clientSecret)) == Success(AuthResponse(token))
            && clips(ClipRequest(clientId, token, "ExcitedClip123"))
               == Success(ClipsBody([Clip("https://clips-media.example.com/ExcitedClip123-preview-480x272.jpg")]))
            && parse("https://clips-media.example.com/ExcitedClip123.mp4") == Some(location)
            ==> Main("/ExcitedClip123", clientId, clientSecret, auth, clips, parse).outcome == Redirect(location)
  {
    ExampleDerivation();
    assert ClipIdOf("/ExcitedClip123") == "ExcitedClip123";
  }

  /** The derivation step of that case. */
  lemma ExampleDerivation()
    ensures Occurs("https://clips-media.example.com/ExcitedClip123-preview-480x272.jpg", PreviewMarker)
    ensures DeriveMediaUrl("https://clips-media.example.com/ExcitedClip123-preview-480x272.jpg")
            == "https://clips-media.example.com/ExcitedClip123.mp4"
  {
    var p := "https://clips" + "-" + "media.example.com/ExcitedClip123";
    var q := "-480x272.jpg";
    NoMarkerAroundDash("https://clips", "media.example.com/ExcitedClip123");
    DeriveMediaUrlSplit(p, q);
    ExampleStrings(p, PreviewMarker + q);
    assert p + PreviewMarker + q == p + (PreviewMarker + q);
  }

  // Only equalities between string literals, kept apart for the solver.
  lemma ExampleStrings(p: string, mq: string)
    requires p == "https://clips" + "-" + "media.example.com/ExcitedClip123"
    requires mq == "-preview" + "-480x272.jpg"
    ensures p + mq == "https://clips-media.example.com/ExcitedClip123-preview-480x272.jpg"
    ensures p + ".mp4" == "https://clips-media.example.com/ExcitedClip123.mp4"
  {
    assert p == "https://clips-media.example.com/ExcitedClip123";
    assert mq == "-preview-480x272.jpg";
  }
}
