# clip-downloader, modelled in Dafny

clip-downloader is a Cloudflare worker that turns a Twitch clip link into a
redirect to the clip's media file. It takes the clip id from the request
path. It obtains an app access token with the OAuth client-credentials grant
and asks the Helix clips endpoint for that one clip. It then rewrites the
clip's thumbnail URL into the media URL: it cuts the URL at the `-preview`
marker and appends `.mp4`.

The repository holds two revisions of this logic, and both are modelled:

- `src/lib.rs` (module `Handler`) is the self-contained fetch handler `main`.
  It cuts at the **first** marker and `unwrap`s, so it panics when the marker
  is absent.
- `src/twitch.rs` (module `Twitch`) is the later client. It has a setup, a
  `Client` and `fetch_clip`, and it cuts at the **last** marker. It returns
  the error "no valid thumbnail url" when the marker is absent.

The other modules are:

- `Wrappers` holds `Option` and `Result`.
- `Strings` holds substring search (`FindFirst`, `FindLast`, with the ghost
  predicates `FirstAt`, `LastAt`, `OccursOnce`) and splitting on a character
  (`Split`, `Join`, `Cut`).
- `Worker` holds the request, header and error shapes of the worker runtime.
  It also holds raw readings of what is sent: the `&`- and `=`-separated
  fields of a form body, the query of a URL, and the token of a bearer
  credential. These readings are the partners against which the request
  builders are proved.
- `Helix` holds the Twitch endpoints, the wire formats and the JSON shapes.
  It also holds the `[Clip; 1]` rule and facts about the marker.
- `Revisions` relates the two revisions.

The network is abstract. Each upstream call is a function parameter from the
request that is sent to the parsed reply or an error: `auth` for the token
endpoint and `clips` for the clips endpoint. `Url::parse` is the parameter
`parse`. `Handler.Main` returns the outcome together with the
requests sent, in order. That is how "token before clip" and "later steps do
not run" are stated.

The code sends the credentials and the clip id without percent-encoding them.
So the lemmas that read a request back as raw form fields
(`Helix.TokenBodyFields`, `Twitch.AuthBodyFields`,
`Handler.TokenRequestFields`, `Helix.ClipsUrlQuery`) hold for values without
`&`. A server that also decodes `+` and `%XX` reads the same values only when
they hold no `+` or `%` either.
`Helix.TokenBodyAmbiguous` shows two credential pairs that produce one body
when that proviso is dropped. Twitch client ids and secrets are alphanumeric,
so this is not claimed as a defect.

Facts about the code that the model makes explicit:

- `src/lib.rs` does not reject an empty clip id: the path `/` gives the
  empty id, and it is passed on to the clips request
  (`Handler.MainEmptyClipId`).
- `src/lib.rs` panics rather than failing when the marker is missing
  (`Handler.Main` ends in `Panicked`; `Handler.MainPanics`).
- The derivation is not injective. It forgets everything after the marker,
  so `a-preview1` and `a-preview2` both give `a.mp4`
  (`Twitch.DeriveMediaUrlNotInjective`).
- Both files split on `-preview` exactly, with no trailing space
  (`Helix.PreviewMarker`).
- Both files return the URL as `Url::parse` serialises it, and `main`
  redirects to that serialised form. `parse` is therefore a parameter that
  returns the serialised URL, or nothing when the string does not parse.

## Model

| member | source | states |
|---|---|---|
| Strings.FindFirst | src/lib.rs:69 | `split_once`'s search: no result exactly when the pattern is absent, otherwise the leftmost index at which it occurs |
| Strings.FindLast | src/twitch.rs:112 | `rsplit_once`'s search: no result exactly when the pattern is absent, otherwise the rightmost index at which it occurs |
| Strings.FirstIsLastIffOnce | src/twitch.rs:112 | the leftmost and the rightmost occurrence coincide if and only if the pattern occurs exactly once |
| Worker.SetHeader | src/twitch.rs:37-38 | `Headers::set` adds the name with the new value and leaves every other header unchanged |
| Helix.TokenBodyFields | src/twitch.rs:73-76 | the contract of `Helix.TokenBody`, the `format!` of the token body: it reads back as exactly the three fields `client_id`, `client_secret` and `grant_type=client_credentials`, in that order, for credentials without `&` |
| Helix.TokenBodyInjective | src/lib.rs:25-29 | for credentials without `&`, equal token bodies mean equal client ids and equal secrets |
| Helix.ClipsUrlQuery | src/twitch.rs:22 | the contract of `Helix.ClipsUrl`, the `format!` of the clips URL (also src/lib.rs:49): its path is the Helix clips endpoint and its query is `id=<id>`, which reads back as the single field `id` |
| Helix.Bearer | src/twitch.rs:38 | the `Authorization` value is `Bearer ` followed by the token, and reading the bearer credential gives back exactly that token |
| Helix.DecodeClips | src/twitch.rs:120-123 | a clips reply is accepted if and only if `data` has exactly one element, which becomes the clip; any other length fails with a decode error |
| Helix.ClipsRoundTrip | src/twitch.rs:24 | decoding inverts encoding, and every accepted reply is the encoding of the clip it yields |
| Helix.LastBeforeSuffix | src/twitch.rs:112 | in `p + "-preview" + q`, the marker after `p` is the last one when `q` holds none, whatever `p` holds |
| Helix.FirstAfterPrefix | src/lib.rs:69 | in `p + "-preview" + q`, the marker after `p` is the first one when `p` holds none |
| Twitch.AuthBodyFields | src/twitch.rs:72-77 | `auth_body` reads back as the setup's id, its secret and the client-credentials grant type, for credentials without `&` |
| Twitch.AuthRequest | src/twitch.rs:64-91 | the token request is a POST to `https://id.twitch.tv/oauth2/token` whose only header is `Content-Type: application/x-www-form-urlencoded`, and whose body is `auth_body` |
| Twitch.Authenticated | src/twitch.rs:11-19 | authentication succeeds if and only if the token call does; the client then keeps the setup's id and the returned token, and otherwise the call's error is returned |
| Twitch.SetAuthHeaders | src/twitch.rs:35-40 | adds `Client-Id` equal to the client id and an `Authorization` whose bearer token is the access token; method, URL, body and every other header are unchanged |
| Twitch.ClipsRequest | src/twitch.rs:28-33 | the clips request is a GET of the clips endpoint with query `id=<id>`, with exactly the two auth headers and no body |
| Twitch.FetchClip | src/twitch.rs:21-26 | `fetch_clip` succeeds if and only if the reply arrives with exactly one clip, and returns that clip; a failed call gives its own error, and a reply of another length gives a decode error |
| Twitch.DeriveMediaUrl | src/twitch.rs:109-115 | fails with "no valid thumbnail url" if and only if the marker is absent; otherwise it returns the text before the last marker followed by `.mp4` |
| Twitch.MediaUrl | src/twitch.rs:105-117 | `media_url` succeeds if and only if the derivation succeeds and `Url::parse` accepts its result, and then returns the parsed URL; without the marker it fails with "no valid thumbnail url", and with an unparsable result it fails with the parse error |
| Twitch.DeriveMediaUrlShape | src/twitch.rs:110-115 | every derived URL ends in `.mp4`, is at most the thumbnail's length minus 8 plus 4, and no marker starts after the point where it was cut |
| Twitch.DeriveMediaUrlSplit | src/twitch.rs:110-115 | for `p + "-preview" + q` with no marker in `q`, the result is `p + ".mp4"` |
| Twitch.DeriveMediaUrlTwoMarkers | src/twitch.rs:112 | the kept prefix may itself contain the marker: `a-preview/b-preview.jpg` gives `a-preview/b.mp4` |
| Twitch.DeriveMediaUrlNotInjective | src/twitch.rs:110-115 | two different thumbnails can give one media URL |
| Handler.ClipIdOf | src/lib.rs:16-19 | `clip_id` is the path with its first character removed, and putting that character back gives the path |
| Handler.TokenRequest | src/lib.rs:24-36 | the token request is a POST to the token endpoint whose only header is the form content type, and whose body is the client-credentials form body |
| Handler.TokenRequestFields | src/lib.rs:25-29 | the body `token` sends reads back as the id, the secret and the client-credentials grant type, for credentials without `&` |
| Handler.Token | src/lib.rs:21-41 | `token` succeeds if and only if the token call does, and returns the reply's access token or the call's error |
| Handler.ClipRequest | src/lib.rs:49-54 | the clips request is a GET of the clips endpoint with query `id=<id>`, carrying `Client-Id` and a bearer `Authorization` for the token, and nothing else |
| Handler.FetchClip | src/lib.rs:48-59 | `clip` succeeds if and only if the reply arrives with exactly one clip, and returns that clip; a failed call gives its own error |
| Handler.DeriveMediaUrl | src/lib.rs:69 | requires the marker, because `unwrap` panics without it; returns the text before the first marker followed by `.mp4` |
| Handler.MediaUrl | src/lib.rs:67-71 | succeeds if and only if `Url::parse` accepts the derived string, and then returns the parsed URL; otherwise it fails with the parse error for that string |
| Handler.DeriveMediaUrlPrefixFree | src/lib.rs:69 | the kept prefix of the thumbnail holds no marker |
| Handler.DeriveMediaUrlSplit | src/lib.rs:69 | for `p + "-preview" + q` with no marker in `p`, the result is `p + ".mp4"`, whatever `q` holds |
| Handler.Main | src/lib.rs:8-14 | `main` sends the token request first, and sends the clips request for `path[1..]` with the returned token if and only if the token step succeeded; it sends nothing else |
| Handler.MainStopsAtToken | src/lib.rs:10 | a failed token step ends the run with its error after one request, and the clips reply and `Url::parse` cannot change the run |
| Handler.MainStopsAtClip | src/lib.rs:11 | a failed clip step ends the run with its error, and `Url::parse` cannot change the run |
| Handler.MainRedirects | src/lib.rs:8-14 | `main` redirects if and only if the token and clip steps succeed, the thumbnail holds the marker and the derived URL parses; the target is the parsed form of the derived URL |
| Handler.MainStopsAtUrl | src/lib.rs:70 | when the token and clip steps succeed and the thumbnail holds the marker but `Url::parse` refuses the derived string, `main` ends with the parse error for that string, after sending both requests |
| Handler.MainPanics | src/lib.rs:69 | `main` panics if and only if the token and clip steps succeed and the clip's thumbnail holds no marker |
| Handler.MainEmptyClipId | src/lib.rs:16-19 | the path `/` gives the empty id, and `main` still asks the clips endpoint for `id=` |
| Handler.MainExample | src/lib.rs:8-14 | a request for `/ExcitedClip123` whose clip has thumbnail `https://clips-media.example.com/ExcitedClip123-preview-480x272.jpg` redirects to whatever `Url::parse` makes of `https://clips-media.example.com/ExcitedClip123.mp4` |
| Revisions.DerivationsAgreeIffOnce | src/lib.rs:69 | where the marker occurs, the first-occurrence and last-occurrence derivations give the same URL if and only if it occurs exactly once |
| Revisions.DerivationsDisagreeOnTwoMarkers | src/twitch.rs:112 | with two markers around a marker-free head and tail, the revisions keep different prefixes and so always disagree |
| Revisions.TokenRequestsAgree | src/lib.rs:24-36 | both revisions send the identical token request for the same credentials |
| Revisions.TokensAgree | src/twitch.rs:11-19 | both revisions obtain a token under exactly the same replies, and the same token |
| Revisions.ClipLookupsAgree | src/lib.rs:48-59 | both revisions send the identical clips request and accept exactly the same replies, yielding the same clip |

## Left out

- Secret lookups (`env.secret`, src/twitch.rs:55-62, src/lib.rs:22-23 and src/lib.rs:52) are left out. The client id and secret are plain parameters, so a missing secret is not modelled. `clip` in src/lib.rs reads the client id a second time; the model uses the same parameter for both reads.
- `Fetch::send`, the JSON decoding of replies, `Request::new`, `Request::new_with_init`, `RequestInit` and `Headers` are runtime and library calls. Each upstream exchange is a parameter that maps the request to a parsed reply or an error. Only the strings and the header map the code builds are modelled.
- `Url::parse` is the parameter `parse`, which returns the serialised URL or nothing. The URL grammar and its normalisation (lower-cased scheme and host, percent-encoding, default ports, dot segments) are not modelled. The model only says that the result of `parse` is returned and redirected to.
- Helix.TokenBodyFields: the read-back is of raw fields. The `+`-to-space and `%XX` decoding a form-parsing server applies is not modelled, so the lemma and its companions `Twitch.AuthBodyFields`, `Handler.TokenRequestFields` and `Helix.ClipsUrlQuery` say nothing about how such a server reads values holding `+` or `%`.
- Helix.DecodeClips: the error payload `ArrayLength(n)` is the model's own. serde_json reports an empty array as an invalid length and a longer one by its trailing elements. The model says only that every length other than 1 fails, with an error that is not the upstream call's.
- `Response::redirect` (src/lib.rs:13) is taken to succeed. The status code and the `Location` header of the response are not modelled.
- Header names are compared exactly. The runtime's case-insensitive names are not modelled; the code only uses three distinct names.
- `async`/`await` scheduling has no logic of its own here and is not modelled.
- Strings are sequences of characters. The UTF-8 char-boundary panic of `split_off(1)` is not modelled. `Handler.ClipIdOf` and `Handler.Main` require a non-empty path, because `split_off(1)` panics on an empty string.
- Subdomain routing (`clips.` vs `www.`), the response cache and the 404 explanation text are not part of these source files and are not modelled.
