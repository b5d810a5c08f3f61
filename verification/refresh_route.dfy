/**
 * `POST /api/refresh`: a bearer-token check in the manner of section 2.1 of RFC 6750,
 * then a call to the cached item fetch and a revalidation of the home page.
 */
module RefreshRoute {
  import opened Wrappers
  import opened Text

  /** The key used when `API_REFRESH_KEY` is unset or empty. */
  const DefaultKey: string := "your-secret-api-key"

  /** The scheme prefix, matched case-sensitively. */
  const BearerPrefix: string := "Bearer "

  /** The key requests must present: the environment's key when it is set and non-empty, else the default. */
  function EffectiveKey(env: Option<string>): (key: string)
    ensures key != ""
    ensures env.Some? && env.value != "" ==> key == env.value
    ensures env.None? || env.value == "" ==> key == DefaultKey
  {
    if env.Some? && env.value != "" then env.value else DefaultKey
  }

  /**
   * The guard of `POST`: a non-empty header that starts with `"Bearer "` and whose
   * second space-separated field is the key.
   */
  predicate Authorized(header: Option<string>, key: string) {
    && header.Some?
    && header.value != ""
    && StartsWith(header.value, BearerPrefix)
    && var fields := Split(header.value, ' ');
       |fields| > 1 && fields[1] == key
  }

  /**
   * For a key without spaces, access is granted exactly when the header is
   * `"Bearer " + key`, possibly followed by a space and anything else.
   */
  lemma AuthorizedIff(h: string, key: string)
    requires key != "" && ' ' !in key
    ensures Authorized(Some(h), key) <==> h == BearerPrefix + key || BearerPrefix + key + " " <= h
  {
    if StartsWith(h, BearerPrefix) {
      var token := h[|BearerPrefix|..];
      assert h == "Bearer" + [' '] + token;
      SplitAtSeparator("Bearer", token, ' ');
      FirstPieceIs(token, key, ' ');
      if BearerPrefix + key + " " <= h {
        assert key + [' '] == h[|BearerPrefix|..|BearerPrefix| + |key| + 1];
      }
    }
  }

  /** A key containing a space can never match, since the field it is compared with has none. */
  lemma SpacedKeyNeverMatches(h: string, key: string)
    requires ' ' in key
    ensures !Authorized(Some(h), key)
  {
    SplitPiecesHaveNoSeparator(h, ' ');
  }

  /** The scheme name is matched case-sensitively, unlike section 2.1 of RFC 7235 requires. */
  lemma LowercaseSchemeRejected(key: string)
    ensures !Authorized(Some("bearer " + key), key)
  {
    assert ("bearer " + key)[0] == 'b';
  }

  /** Two spaces after the scheme make the second field empty, which no real key equals. */
  lemma DoubleSpaceRejected(key: string)
    requires key != "" && ' ' !in key
    ensures !Authorized(Some("Bearer  " + key), key)
  {
    AuthorizedIff("Bearer  " + key, key);
    assert ("Bearer  " + key)[7] == ' ';
    assert key[0] in key;
  }

  /** How the refresh work ended. */
  datatype RefreshOutcome = Completed | FetchThrew | RevalidateThrew

  datatype Body = ErrorBody(error: string) | SuccessBody(message: string)

  datatype Response = Response(status: nat, body: Body)

  /** Which side effects the request performed. */
  datatype Effects = Effects(fetched: bool, revalidated: bool)

  datatype Handled = Handled(response: Response, effects: Effects)

  /** `POST`: 401 without touching anything, 200 after a full refresh, 500 when it throws. */
  function Post(header: Option<string>, key: string, outcome: RefreshOutcome): (h: Handled)
    ensures !Authorized(header, key) ==>
      h.response == Response(401, ErrorBody("Unauthorized - Invalid API key")) && h.effects == Effects(false, false)
    ensures Authorized(header, key) ==> h.effects.fetched
    ensures h.response.status == 200 <==> Authorized(header, key) && outcome.Completed?
    ensures h.response.status == 200 ==> h.effects.revalidated && h.response.body.SuccessBody?
    ensures h.response.status == 500 <==> Authorized(header, key) && !outcome.Completed?
    ensures h.response.status in {200, 401, 500}
  {
    if !Authorized(header, key) then
      Handled(Response(401, ErrorBody("Unauthorized - Invalid API key")), Effects(false, false))
    else
      match outcome
      case Completed =>
        Handled(Response(200, SuccessBody("Data refreshed successfully")), Effects(true, true))
      case FetchThrew =>
        Handled(Response(500, ErrorBody("Failed to refresh data")), Effects(true, false))
      case RevalidateThrew =>
        Handled(Response(500, ErrorBody("Failed to refresh data")), Effects(true, true))
  }

  /** A request without an `Authorization` header is refused and triggers nothing. */
  lemma MissingHeaderRefused(key: string, outcome: RefreshOutcome)
    ensures Post(None, key, outcome).response.status == 401
    ensures Post(None, key, outcome).effects == Effects(false, false)
  {
  }
}
