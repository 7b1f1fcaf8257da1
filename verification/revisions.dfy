/** How the two revisions relate: `src/lib.rs` cuts the thumbnail URL at
    the first marker (and panics without one), `src/twitch.rs` at the last
    (and fails without one); both send the same two requests. */
module Revisions {
  import opened Wrappers
  import opened Strings
  import opened Worker
  import opened Helix
  import Handler
  import Twitch

  /** Where the first-occurrence revision is defined, the two derivations
      give the same URL exactly when the marker occurs once. */
  lemma DerivationsAgreeIffOnce(thumbnail: string)
    requires Occurs(thumbnail, PreviewMarker)
    ensures Twitch.DeriveMediaUrl(thumbnail).Success?
    ensures Handler.DeriveMediaUrl(thumbnail) == Twitch.DeriveMediaUrl(thumbnail).value
            <==> OccursOnce(thumbnail, PreviewMarker)
  {
    var i := FindFirst(thumbnail, PreviewMarker).value;
    var j := FindLast(thumbnail, PreviewMarker).value;
    var first, last := thumbnail[..i] + MediaExtension, thumbnail[..j] + MediaExtension;
    assert Handler.DeriveMediaUrl(thumbnail) == first;
    assert Twitch.DeriveMediaUrl(thumbnail) == Success(last);
    assert |first| == i + |MediaExtension| && |last| == j + |MediaExtension|;
    FirstIsLastIffOnce(thumbnail, PreviewMarker, i, j);
  }

  /** With the marker twice, in `p + marker + q + marker + r` where `p` and
      `r` hold none, the first-occurrence revision keeps `p` and the
      last-occurrence one keeps `p + marker + q`: they always disagree. */
  lemma DerivationsDisagreeOnTwoMarkers(p: string, q: string, r: string)
    requires !Occurs(p, PreviewMarker) && !Occurs(r, PreviewMarker)
    ensures var s := p + PreviewMarker + q + PreviewMarker + r;
            && Occurs(s, PreviewMarker)
            && Handler.DeriveMediaUrl(s) == p + MediaExtension
            && Twitch.DeriveMediaUrl(s) == Success(p + PreviewMarker + q + MediaExtension)
            && Handler.DeriveMediaUrl(s) != Twitch.DeriveMediaUrl(s).value
  {
    var s := p + PreviewMarker + q + PreviewMarker + r;
    assert s == p + PreviewMarker + (q + PreviewMarker + r);
    Handler.DeriveMediaUrlSplit(p, q + PreviewMarker + r);
    Twitch.DeriveMediaUrlSplit(p + PreviewMarker + q, r);
    assert |p + MediaExtension| < |p + PreviewMarker + q + MediaExtension|;
  }

  /** Both revisions send the same token request for the same credentials. */
  lemma TokenRequestsAgree(clientId: string, clientSecret: string)
    ensures Handler.TokenRequest(clientId, clientSecret) == Twitch.AuthRequest(Twitch.ClientSetup(clientId, clientSecret))
  {
  }

  /** Both revisions obtain the same token from the same token endpoint. */
  lemma TokensAgree(clientId: string, clientSecret: string, auth: Request -> Result<AuthResponse, Error>)
    ensures var setup := Twitch.ClientSetup(clientId, clientSecret);
            && (Handler.Token(clientId, clientSecret, auth).Success? <==> Twitch.Authenticated(setup, auth).Success?)
            && (Handler.Token(clientId, clientSecret, auth).Success? ==>
                  Twitch.Authenticated(setup, auth).value == Twitch.Client(clientId, Handler.Token(clientId, clientSecret, auth).value))
  {
    TokenRequestsAgree(clientId, clientSecret);
  }

  /** Both revisions send the same clips request and accept the same replies. */
  lemma ClipLookupsAgree(clientId: string, token: string, id: string, clips: Request -> Result<ClipsBody, Error>)
    ensures Handler.ClipRequest(clientId, token, id) == Twitch.ClipsRequest(Twitch.Client(clientId, token), id)
    ensures Handler.FetchClip(clientId, token, id, clips) == Twitch.FetchClip(Twitch.Client(clientId, token), id, clips)
  {
  }
}
