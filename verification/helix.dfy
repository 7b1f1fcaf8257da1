/** The Twitch side of the conversation: endpoints, wire formats and the
    shapes of the JSON replies, as both revisions of the redirector use them.
    Replies are already parsed: only the fields the code reads are kept. */
module Helix {
  import opened Wrappers
  import opened Strings
  import opened Worker

  const TokenEndpoint: string := "https://id.twitch.tv/oauth2/token"
  const ClipsEndpoint: string := "https://api.twitch.tv/helix/clips"
  const FormContentType: string := "application/x-www-form-urlencoded"
  const GrantType: string := "client_credentials"

  /** What a thumbnail URL carries where the media URL has its extension. */
  const PreviewMarker: string := "-preview"
  const MediaExtension: string := ".mp4"

  /** A clip object; only `thumbnail_url` is read. */
  datatype Clip = Clip(thumbnailUrl: string)

  /** The token reply; only `access_token` is read. */
  datatype AuthResponse = AuthResponse(accessToken: string)

  /** A clips reply as JSON: its `data` array, of whatever length. */
  datatype ClipsBody = ClipsBody(data: seq<Clip>)

  /** `Clips { data: [Clip; 1] }`: a reply holding exactly one clip. */
  datatype Clips = Clips(clip: Clip)

  // ---------------------------------------------------------------------
  // Wire formats

  /** The form body of the client-credentials token request. */
  function TokenBody(clientId: string, clientSecret: string): (body: string)
  {
    "client_id=" + clientId + "&client_secret=" + clientSecret + "&grant_type=" + GrantType
  }

  /** The URL asking the clips endpoint for one clip id. */
  function ClipsUrl(id: string): (url: string)
  {
    ClipsEndpoint + "?id=" + id
  }

  /** The value of the `Authorization` header for a token. */
  function Bearer(token: string): (value: string)
    ensures BearerToken(value) == Some(token)
  {
    var value := BearerScheme + token;
    assert value[|BearerScheme|..] == token;
    value
  }

  /** Deserializing `Clips`: serde accepts a `data` array of length 1 only. */
  function DecodeClips(body: ClipsBody): (r: Result<Clips, Error>)
    ensures r.Success? <==> |body.data| == 1
    ensures r.Success? ==> body.data == [r.value.clip]
    ensures r.Failure? ==> r.error == ArrayLength(|body.data|)
  {
    if |body.data| == 1 then Success(Clips(body.data[0])) else Failure(ArrayLength(|body.data|))
  }

  /** Serializing `Clips` back to its JSON shape. */
  function EncodeClips(c: Clips): (body: ClipsBody)
    ensures |body.data| == 1
  {
    ClipsBody([c.clip])
  }

  // ---------------------------------------------------------------------
  // Properties of the formats

  /** A token body reads back as exactly the three form fields, provided the
      credentials hold no `&` (the code does not percent-encode them). */
  lemma TokenBodyFields(clientId: string, clientSecret: string)
    requires '&' !in clientId && '&' !in clientSecret
    ensures DecodeForm(TokenBody(clientId, clientSecret))
            == [("client_id", clientId), ("client_secret", clientSecret), ("grant_type", GrantType)]
  {
    var parts := ["client_id=" + clientId, "client_secret=" + clientSecret, "grant_type=" + GrantType];
    TokenBodyParts(clientId, clientSecret);
    SplitJoin(parts, '&');
    FieldKeysPlain();
    DecodeFieldOf("client_id", clientId);
    DecodeFieldOf("client_secret", clientSecret);
    DecodeFieldOf("grant_type", GrantType);
    DecodeFormOf(TokenBody(clientId, clientSecret), parts);
    var f := DecodeForm(TokenBody(clientId, clientSecret));
    assert f[0] == ("client_id", clientId) && f[1] == ("client_secret", clientSecret);
    assert f[2] == ("grant_type", GrantType);
  }

  /** The token body is its three fields joined by `&`. */
  lemma TokenBodyParts(clientId: string, clientSecret: string)
    requires '&' !in clientId && '&' !in clientSecret
    ensures var parts := ["client_id=" + clientId, "client_secret=" + clientSecret, "grant_type=" + GrantType];
            NoneContains(parts, '&') && Join(parts, '&') == TokenBody(clientId, clientSecret)
  {
    var parts := ["client_id=" + clientId, "client_secret=" + clientSecret, "grant_type=" + GrantType];
    FieldsPlain();
    assert Join(parts[2..], '&') == parts[2];
    assert Join(parts[1..], '&') == parts[1] + "&" + parts[2];
  }

  // The two helpers below only state facts about string literals, kept
  // apart so that the solver meets them one at a time.

  lemma FieldsPlain()
    ensures '&' !in "client_id=" && '&' !in "client_secret=" && '&' !in "grant_type=" && '&' !in GrantType
  {
  }

  lemma FieldKeysPlain()
    ensures '=' !in "client_id" && '=' !in "client_secret" && '=' !in "grant_type"
    ensures "client_id" + "=" == "client_id=" && "client_secret" + "=" == "client_secret="
    ensures "grant_type" + "=" == "grant_type="
  {
  }

  /** Distinct credentials give distinct token bodies, when free of `&`. */
  lemma TokenBodyInjective(id1: string, secret1: string, id2: string, secret2: string)
    requires '&' !in id1 && '&' !in secret1 && '&' !in id2 && '&' !in secret2
    requires TokenBody(id1, secret1) == TokenBody(id2, secret2)
    ensures id1 == id2 && secret1 == secret2
  {
    TokenBodyFields(id1, secret1);
    TokenBodyFields(id2, secret2);
  }

  /** Without that proviso two credential pairs can share one body. */
  lemma TokenBodyAmbiguous()
    ensures TokenBody("a&client_secret=b", "c") == TokenBody("a", "b&client_secret=c")
  {
  }

  /** The clips URL is the endpoint with the query `id=<id>`, and that query
      reads back as the one field `id` when the id holds no `&`. */
  lemma ClipsUrlQuery(id: string)
    ensures PathOf(ClipsUrl(id)) == ClipsEndpoint
    ensures QueryOf(ClipsUrl(id)) == Some("id=" + id)
    ensures '&' !in id ==> DecodeForm("id=" + id) == [("id", id)]
  {
    EndpointPlain();
    assert ClipsUrl(id) == ClipsEndpoint + ['?'] + ("id=" + id);
    CutAfter(ClipsEndpoint, "id=" + id, '?');
    if '&' !in id {
      IdFieldOf(id);
    }
  }

  // A fact about a string literal, kept apart for the solver.
  lemma EndpointPlain()
    ensures '?' !in ClipsEndpoint
  {
  }

  lemma IdFieldOf(id: string)
    requires '&' !in id
    ensures DecodeForm("id=" + id) == [("id", id)]
  {
    assert '&' !in "id=" && '=' !in "id" && "id" + "=" == "id=";
    SplitNone("id=" + id, '&');
    DecodeFieldOf("id", id);
    DecodeFormOf("id=" + id, ["id=" + id]);
    assert DecodeForm("id=" + id)[0] == ("id", id);
  }

  /** Decoding inverts encoding, and encoding inverts every successful
      decoding: a reply is accepted exactly as the single clip it carries. */
  lemma ClipsRoundTrip(c: Clips, body: ClipsBody)
    ensures DecodeClips(EncodeClips(c)) == Success(c)
    ensures DecodeClips(body).Success? ==> EncodeClips(DecodeClips(body).value) == body
  {
  }

  // ---------------------------------------------------------------------
  // The preview marker

  /** An occurrence of the marker starts with `-` and holds no other `-`. */
  lemma MarkerDashes(s: string, i: int)
    requires OccursAt(s, PreviewMarker, i)
    ensures s[i] == '-' && s[i + 1] == 'p'
    ensures forall k :: i < k < i + |PreviewMarker| ==> s[k] != '-'
  {
    assert forall k :: i <= k < i + |PreviewMarker| ==> s[k] == PreviewMarker[k - i];
  }

  /** Two occurrences of the marker never overlap: its first character,
      `-`, appears nowhere else in it. */
  lemma MarkerNoOverlap(s: string, i: int, j: int)
    requires OccursAt(s, PreviewMarker, i) && OccursAt(s, PreviewMarker, j) && i < j
    ensures i + |PreviewMarker| <= j
  {
    MarkerDashes(s, i);
    MarkerDashes(s, j);
  }

  /** In `p + marker + q`, the marker after `p` is the leftmost occurrence
      when `p` holds none. */
  lemma {:induction false} FirstAfterPrefix(p: string, q: string)
    requires !Occurs(p, PreviewMarker)
    ensures FirstAt(p + PreviewMarker + q, PreviewMarker, |p|)
  {
    var s := p + PreviewMarker + q;
    assert s[|p|..|p| + |PreviewMarker|] == PreviewMarker;
    forall j | j < |p| ensures !OccursAt(s, PreviewMarker, j) {
      if OccursAt(s, PreviewMarker, j) {
        MarkerNoOverlap(s, j, |p|);
        assert p[j..j + |PreviewMarker|] == s[j..j + |PreviewMarker|];
        assert OccursAt(p, PreviewMarker, j);
        assert false;
      }
    }
  }

  /** In `p + marker + q`, the marker after `p` is the rightmost occurrence
      when `q` holds none, whatever `p` holds. */
  lemma {:induction false} LastBeforeSuffix(p: string, q: string)
    requires !Occurs(q, PreviewMarker)
    ensures LastAt(p + PreviewMarker + q, PreviewMarker, |p|)
  {
    var s := p + PreviewMarker + q;
    var n := |p| + |PreviewMarker|;
    assert s[|p|..n] == PreviewMarker;
    assert s[n..] == q;
    forall j | |p| < j ensures !OccursAt(s, PreviewMarker, j) {
      if OccursAt(s, PreviewMarker, j) {
        assert OccursAt(s, PreviewMarker, |p|);
        MarkerNoOverlap(s, |p|, j);
        assert q[j - n..j - n + |PreviewMarker|] == s[j..j + |PreviewMarker|];
        assert OccursAt(q, PreviewMarker, j - n);
        assert false;
      }
    }
  }

  /** A string with a single `-`, not followed by `p`, holds no marker. */
  lemma NoMarkerAroundDash(a: string, b: string)
    requires '-' !in a && '-' !in b && (|b| == 0 || b[0] != 'p')
    ensures !Occurs(a + "-" + b, PreviewMarker)
  {
    var s := a + "-" + b;
    if j :| OccursAt(s, PreviewMarker, j) {
      MarkerDashes(s, j);
      assert false;
    }
  }
}
