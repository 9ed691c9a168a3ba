/** The authorization-code flow with PKCE against the hosted identity
    provider (section 4 of RFC 7636): the callback address, reading a cookie
    from the `Cookie` request header, the authorization URL, and the
    `Set-Cookie` strings the handlers emit. The verifier (a uuid) and the S256
    challenge function are parameters. */
module Auth {
  import opened Wrappers
  import opened Text
  import opened QueryString

  /** Deployment settings read from the environment. */
  datatype Config = Config(cognitoBaseUrl: string, clientId: string, cognitoLogoutUrl: string)

  function AuthorizationEndpoint(cfg: Config): string {
    cfg.cognitoBaseUrl + "/oauth2/authorize"
  }

  const CallbackPath := "/prod/auth_callback"

  /** Recovers the domain from a callback address built by `GetRedirectUri`. */
  function RedirectUriDomain(uri: string): Option<string> {
    if "https://" <= uri && |uri| >= 8 + |CallbackPath| && uri[|uri| - |CallbackPath|..] == CallbackPath
    then Some(uri[8..|uri| - |CallbackPath|])
    else None
  }

  /** The callback address for the API stage serving `domainName`; the
      domain can be read back from it, so distinct domains get distinct addresses. */
  function GetRedirectUri(domainName: string): (uri: string)
    ensures "https://" <= uri
    ensures RedirectUriDomain(uri) == Some(domainName)
  {
    var uri := "https://" + domainName + CallbackPath;
    assert uri[|uri| - |CallbackPath|..] == CallbackPath;
    assert uri[8..|uri| - |CallbackPath|] == domainName;
    uri
  }

  /** The test a `;`-separated segment of the `Cookie` header must pass to be
      the cookie called `name`: once trimmed, it starts with `name=`. */
  predicate NamesCookie(segment: string, name: string) {
    name + "=" <= Trim(segment)
  }

  /** `segments.find(...)`: the first segment that names the cookie. */
  function FirstMatch(segments: seq<string>, name: string): (found: JsStr)
    ensures found.None? <==> forall i :: 0 <= i < |segments| ==> !NamesCookie(segments[i], name)
    ensures found.Some? ==> exists i :: 0 <= i < |segments| && segments[i] == found.value
                              && NamesCookie(segments[i], name)
                              && forall j :: 0 <= j < i ==> !NamesCookie(segments[j], name)
  {
    FirstHit(segments, (x: string) => NamesCookie(x, name))
  }

  /** `segments.find(p)`. */
  function FirstHit(segments: seq<string>, p: string -> bool): (found: JsStr)
    ensures found.None? <==> forall i :: 0 <= i < |segments| ==> !p(segments[i])
    ensures found.Some? ==> exists i :: 0 <= i < |segments| && segments[i] == found.value && p(segments[i])
                              && forall j :: 0 <= j < i ==> !p(segments[j])
    decreases |segments|
  {
    if |segments| == 0 then None
    else if p(segments[0]) then Some(segments[0])
    else
      var found := FirstHit(segments[1..], p);
      if found.Some? then
        FirstHitLater(segments, p, found.value);
        found
      else
        NoHitLater(segments, p);
        None
  }

  /** A first hit of `p` in the tail, behind a head that misses, is the
      first hit of the whole. */
  lemma FirstHitLater(segments: seq<string>, p: string -> bool, v: string)
    requires |segments| > 0 && !p(segments[0])
    requires exists i :: 0 <= i < |segments[1..]| && segments[1..][i] == v && p(segments[1..][i])
               && forall j :: 0 <= j < i ==> !p(segments[1..][j])
    ensures exists i :: 0 <= i < |segments| && segments[i] == v && p(segments[i])
              && forall j :: 0 <= j < i ==> !p(segments[j])
  {
    var tail := segments[1..];
    var i :| 0 <= i < |tail| && tail[i] == v && p(tail[i]) && forall j :: 0 <= j < i ==> !p(tail[j]);
    assert segments[i + 1] == v;
    forall j | 0 <= j < i + 1 ensures !p(segments[j]) {
      if j > 0 {
        assert segments[j] == tail[j - 1];
      }
    }
  }

  /** No hit of `p` in the tail and none at the head: no hit anywhere. */
  lemma NoHitLater(segments: seq<string>, p: string -> bool)
    requires |segments| > 0 && !p(segments[0])
    requires forall i :: 0 <= i < |segments[1..]| ==> !p(segments[1..][i])
    ensures forall i :: 0 <= i < |segments| ==> !p(segments[i])
  {
    forall i | 0 <= i < |segments| ensures !p(segments[i]) {
      if i > 0 {
        assert segments[i] == segments[1..][i - 1];
      }
    }
  }

  lemma NamedSegmentHasEquals(segment: string, name: string)
    requires NamesCookie(segment, name)
    ensures '=' in segment
  {
    var t := Trim(segment);
    assert (name + "=")[|name|] == '=';
    assert t[|name|] == '=';
    assert '=' in t;
  }

  /** The header is present and some `;`-separated segment names the cookie. */
  predicate HasCookie(header: JsStr, name: string) {
    Truthy(header) && exists i :: 0 <= i < |Split(header.value, ';')| && NamesCookie(Split(header.value, ';')[i], name)
  }

  lemma MatchExists(segments: seq<string>, name: string)
    ensures FirstMatch(segments, name).Some? <==>
              exists i :: 0 <= i < |segments| && NamesCookie(segments[i], name)
  {
  }

  /** Reads cookie `name` from the `Cookie` request header: the text between
      the first and the second `=` of the first segment naming it. A value is
      found exactly when some segment names the cookie, and it never holds `=`. */
  function GetCookie(header: JsStr, name: string): (value: JsStr)
    ensures value.Some? <==> HasCookie(header, name)
    ensures value.Some? ==> '=' !in value.value
  {
    if !Truthy(header) then None
    else
      var segments := Split(header.value, ';');
      var found := FirstMatch(segments, name);
      MatchExists(segments, name);
      if found.None? then None
      else
        NamedSegmentHasEquals(found.value, name);
        SegmentValue(found.value)
  }

  /** `segment.split('=')[1]`: the text between the first and the second `=`,
      defined exactly when the segment holds an `=`. */
  function SegmentValue(segment: string): (v: JsStr)
    ensures v.Some? <==> '=' in segment
    ensures v.Some? ==> '=' !in v.value
    ensures v.Some? ==> var i := IndexOf(segment, '=').value;
                        v.value == Before(segment[i + 1..], '=')
  {
    if '=' in segment then SplitSecondPiece(segment, '='); At(Split(segment, '='), 1)
    else At(Split(segment, '='), 1)
  }

  /** After the name's `=`, the value runs to the next `=` or to the end. */
  lemma SegmentValueCuts(a: string, v: string)
    requires '=' !in a
    ensures SegmentValue(a + "=" + v) == Some(Before(v, '='))
  {
    var s := a + "=" + v;
    assert s == a + ['='] + v;
    IndexOfAfter(a, '=', v);
    assert s[|a| + 1..] == v;
  }

  /** A value holding `=` is cut short at it: `t=a=b` reads as `a`. */
  lemma SegmentValueTruncates(a: string, v: string, rest: string)
    requires '=' !in a && '=' !in v
    ensures SegmentValue(a + "=" + v + "=" + rest) == Some(v)
  {
    assert a + "=" + v + "=" + rest == a + "=" + (v + "=" + rest);
    SegmentValueCuts(a, v + "=" + rest);
    BeforeSeparator(v, '=', rest);
  }

  /** What a browser can send for a cookie: a name free of `;` and `=` that
      does not start with white space, and a value free of `;`. */
  predicate BrowserCookie(p: Param) {
    && ';' !in p.0 && '=' !in p.0 && ';' !in p.1
    && (|p.0| > 0 ==> !IsJsSpace(p.0[0]))
  }

  /** A browser cookie whose value holds no `=` either. */
  predicate PlainCookie(p: Param) {
    BrowserCookie(p) && '=' !in p.1
  }

  /** The segments of the `Cookie` header a browser sends: `name=value`,
      every segment after the first preceded by one space. */
  function CookieSegments(pairs: seq<Param>): (segments: seq<string>)
    ensures |segments| == |pairs|
    ensures forall i :: 0 <= i < |pairs| ==>
              segments[i] == (if i == 0 then "" else " ") + pairs[i].0 + "=" + pairs[i].1
  {
    seq(|pairs|, i requires 0 <= i < |pairs| => (if i == 0 then "" else " ") + pairs[i].0 + "=" + pairs[i].1)
  }

  /** The `Cookie` request header `n1=v1; n2=v2; ...`. */
  function CookieHeader(pairs: seq<Param>): string {
    Join(CookieSegments(pairs), ';')
  }

  /** Whether `name=` starts `n=w`, when neither `n` nor `w` holds `=`, depends only on the names. */
  lemma PrefixOfPair(name: string, n: string, w: string)
    requires '=' !in n && '=' !in w
    ensures name + "=" <= n + "=" + w <==> name == n
  {
    var p := name + "=";
    var s := n + "=" + w;
    if p <= s {
      assert s[|name|] == p[|name|] == '=';
      assert |name| == |n|;
      assert name == p[..|name|];
      assert n == s[..|n|];
    }
  }

  lemma TrimStartOfSegment(lead: string, x: string)
    requires lead == "" || lead == " "
    requires |x| > 0 && !IsJsSpace(x[0])
    ensures TrimStart(lead + x) == x
  {
    if lead == " " {
      assert (lead + x)[1..] == x;
    } else {
      assert lead + x == x;
    }
  }

  lemma TrimEndOfPair(n: string, v: string)
    ensures exists w :: ('=' !in v ==> '=' !in w) && TrimEnd(n + "=" + v) == n + "=" + w
  {
    var x := n + "=" + v;
    var r := TrimEnd(x);
    assert x[|n|] == '=';
    assert |r| > |n|;
    var w := v[..|r| - |n| - 1];
    assert x[..|r|] == n + "=" + w;
    assert forall c :: c in w ==> c in v;
  }

  lemma TrimSegment(lead: string, p: Param)
    requires lead == "" || lead == " "
    requires PlainCookie(p)
    ensures exists w :: '=' !in w && Trim(lead + p.0 + "=" + p.1) == p.0 + "=" + w
  {
    var x := p.0 + "=" + p.1;
    assert x[|p.0|] == '=';
    assert lead + p.0 + "=" + p.1 == lead + x;
    TrimStartOfSegment(lead, x);
    TrimEndOfPair(p.0, p.1);
  }

  lemma SegmentNamesCookie(lead: string, p: Param, name: string)
    requires lead == "" || lead == " "
    requires PlainCookie(p)
    ensures NamesCookie(lead + p.0 + "=" + p.1, name) <==> name == p.0
  {
    TrimSegment(lead, p);
    var w :| '=' !in w && Trim(lead + p.0 + "=" + p.1) == p.0 + "=" + w;
    PrefixOfPair(name, p.0, w);
  }

  lemma SegmentValueOfPair(lead: string, p: Param)
    requires lead == "" || lead == " "
    requires PlainCookie(p)
    ensures SegmentValue(lead + p.0 + "=" + p.1) == Some(p.1)
  {
    var a := lead + p.0;
    assert '=' !in a;
    assert lead + p.0 + "=" + p.1 == a + ['='] + p.1;
    IndexOfAfter(a, '=', p.1);
    var s := a + ['='] + p.1;
    assert s[..|a|] == a;
    assert s[|a| + 1..] == p.1;
    assert Split(p.1, '=') == [p.1];
  }

  lemma CookieHeaderSegments(pairs: seq<Param>)
    requires |pairs| > 0
    requires forall i :: 0 <= i < |pairs| ==> BrowserCookie(pairs[i])
    ensures CookieHeader(pairs) != ""
    ensures Split(CookieHeader(pairs), ';') == CookieSegments(pairs)
  {
    var segments := CookieSegments(pairs);
    assert forall i :: 0 <= i < |segments| ==> ';' !in segments[i];
    SplitJoin(segments, ';');
    assert |segments[0]| > 0;
    assert |Join(segments, ';')| >= |segments[0]|;
  }

  /** When segment `i` names the cookie exactly when pair `i` has that name,
      the first named segment's value is the first such pair's value. */
  lemma {:induction false} FirstMatchIsLookup(segments: seq<string>, pairs: seq<Param>, name: string)
    requires |segments| == |pairs|
    requires forall i :: 0 <= i < |pairs| ==> (NamesCookie(segments[i], name) <==> pairs[i].0 == name)
    requires forall i :: 0 <= i < |pairs| ==> SegmentValue(segments[i]) == Some(pairs[i].1)
    ensures var found := FirstMatch(segments, name);
            (if found.None? then None else SegmentValue(found.value)) == Lookup(pairs, name)
    decreases |segments|
  {
    if |segments| > 0 {
      if NamesCookie(segments[0], name) {
        assert pairs[0].0 == name;
        assert FirstMatch(segments, name) == Some(segments[0]);
        assert Lookup(pairs, name) == Some(pairs[0].1);
      } else {
        assert pairs[0].0 != name;
        var rest, restPairs := segments[1..], pairs[1..];
        forall i | 0 <= i < |restPairs|
          ensures NamesCookie(rest[i], name) <==> restPairs[i].0 == name
          ensures SegmentValue(rest[i]) == Some(restPairs[i].1)
        {
          assert rest[i] == segments[i + 1] && restPairs[i] == pairs[i + 1];
        }
        FirstMatchIsLookup(rest, restPairs, name);
        assert FirstMatch(segments, name) == FirstMatch(rest, name);
        assert Lookup(pairs, name) == Lookup(restPairs, name);
      }
    }
  }

  /** Reading a cookie from a header a browser built gives the value of the
      first cookie with exactly that name; `name_x` or `xname` never match `name`. */
  lemma GetCookieFromHeader(pairs: seq<Param>, name: string)
    requires |pairs| > 0
    requires forall i :: 0 <= i < |pairs| ==> PlainCookie(pairs[i])
    ensures GetCookie(Some(CookieHeader(pairs)), name) == Lookup(pairs, name)
  {
    var segments := CookieSegments(pairs);
    CookieHeaderSegments(pairs);
    forall i | 0 <= i < |pairs|
      ensures NamesCookie(segments[i], name) <==> pairs[i].0 == name
      ensures SegmentValue(segments[i]) == Some(pairs[i].1)
    {
      var lead := if i == 0 then "" else " ";
      SegmentNamesCookie(lead, pairs[i], name);
      SegmentValueOfPair(lead, pairs[i]);
    }
    FirstMatchIsLookup(segments, pairs, name);
  }

  /** Whether `name=` starts `n=w`, for names without `=`, depends only on the names. */
  lemma PrefixOfNamedPair(name: string, n: string, w: string)
    requires '=' !in name && '=' !in n
    ensures name + "=" <= n + "=" + w <==> name == n
  {
    var p := name + "=";
    var s := n + "=" + w;
    if p <= s {
      assert s[|name|] == p[|name|] == '=';
      assert s[|n|] == '=';
      assert |name| == |n|;
      assert name == p[..|name|];
      assert n == s[..|n|];
    }
  }

  lemma TrimBrowserSegment(lead: string, p: Param)
    requires lead == "" || lead == " "
    requires BrowserCookie(p)
    ensures exists w :: Trim(lead + p.0 + "=" + p.1) == p.0 + "=" + w
  {
    var x := p.0 + "=" + p.1;
    assert x[|p.0|] == '=';
    assert lead + p.0 + "=" + p.1 == lead + x;
    TrimStartOfSegment(lead, x);
    TrimEndOfPair(p.0, p.1);
  }

  lemma SegmentNamesBrowserCookie(lead: string, p: Param, name: string)
    requires lead == "" || lead == " "
    requires BrowserCookie(p) && '=' !in name
    ensures NamesCookie(lead + p.0 + "=" + p.1, name) <==> name == p.0
  {
    TrimBrowserSegment(lead, p);
    var w :| Trim(lead + p.0 + "=" + p.1) == p.0 + "=" + w;
    PrefixOfNamedPair(name, p.0, w);
  }

  /** The pairs with every value cut at its first `=`. */
  function CutValues(pairs: seq<Param>): (cut: seq<Param>)
    ensures |cut| == |pairs|
    ensures forall i :: 0 <= i < |pairs| ==> cut[i] == (pairs[i].0, Before(pairs[i].1, '='))
  {
    seq(|pairs|, i requires 0 <= i < |pairs| => (pairs[i].0, Before(pairs[i].1, '=')))
  }

  lemma LookupCutValues(pairs: seq<Param>, name: string)
    ensures Lookup(CutValues(pairs), name) ==
              if Lookup(pairs, name).Some? then Some(Before(Lookup(pairs, name).value, '=')) else None
  {
    var cut := CutValues(pairs);
    var v := Lookup(pairs, name);
    if v.Some? {
      var i :| 0 <= i < |pairs| && pairs[i] == (name, v.value) && forall j :: 0 <= j < i ==> pairs[j].0 != name;
      LookupFirst(cut, i, name);
    }
  }

  /** Reading a cookie from a header a browser built, when values may hold
      `=`: the first cookie with that name answers, its value cut short at
      its first `=`. */
  lemma GetCookieCutsValue(pairs: seq<Param>, name: string)
    requires |pairs| > 0
    requires forall i :: 0 <= i < |pairs| ==> BrowserCookie(pairs[i])
    requires '=' !in name
    ensures GetCookie(Some(CookieHeader(pairs)), name) ==
              if Lookup(pairs, name).Some? then Some(Before(Lookup(pairs, name).value, '=')) else None
  {
    var segments := CookieSegments(pairs);
    var cut := CutValues(pairs);
    CookieHeaderSegments(pairs);
    forall i | 0 <= i < |pairs|
      ensures NamesCookie(segments[i], name) <==> cut[i].0 == name
      ensures SegmentValue(segments[i]) == Some(cut[i].1)
    {
      var lead := if i == 0 then "" else " ";
      SegmentNamesBrowserCookie(lead, pairs[i], name);
      assert '=' !in lead + pairs[i].0;
      assert segments[i] == (lead + pairs[i].0) + "=" + pairs[i].1;
      SegmentValueCuts(lead + pairs[i].0, pairs[i].1);
    }
    FirstMatchIsLookup(segments, cut, name);
    LookupCutValues(pairs, name);
  }

  /** A cookie whose value is `v=w` reads back as `v` alone. */
  lemma GetCookieTruncates(pairs: seq<Param>, name: string, v: string, w: string)
    requires |pairs| > 0
    requires forall i :: 0 <= i < |pairs| ==> BrowserCookie(pairs[i])
    requires '=' !in name && '=' !in v
    requires Lookup(pairs, name) == Some(v + "=" + w)
    ensures GetCookie(Some(CookieHeader(pairs)), name) == Some(v)
  {
    GetCookieCutsValue(pairs, name);
    BeforeSeparator(v, '=', w);
  }

  /** The result of `generateAuthUrl`. */
  datatype AuthRequest = AuthRequest(authUrl: string, codeVerifier: string)

  /** The authorization request parameters, in the order the source lists them; there is no `state`. */
  function AuthParams(cfg: Config, redirectUri: string, codeChallenge: string): seq<Param> {
    [ ("response_type", "code"),
      ("client_id", cfg.clientId),
      ("redirect_uri", redirectUri),
      ("scope", "openid"),
      ("code_challenge", codeChallenge),
      ("code_challenge_method", "S256") ]
  }

  /** Builds the authorization URL for a fresh verifier; the verifier is
      handed back for the `code_verifier` cookie. */
  function GenerateAuthUrl(cfg: Config, redirectUri: string, verifier: string,
                           challenge: string -> string, encode: string -> string): (r: AuthRequest)
    ensures r.codeVerifier == verifier
    ensures AuthorizationEndpoint(cfg) + "?" <= r.authUrl
  {
    var query := Serialize(AuthParams(cfg, redirectUri, challenge(verifier)), encode);
    AuthRequest(AuthorizationEndpoint(cfg) + "?" + query, verifier)
  }

  /** The (still encoded) query parameters of a URL addressed to the authorization endpoint. */
  function AuthUrlParams(cfg: Config, url: string): seq<Param> {
    var p := AuthorizationEndpoint(cfg) + "?";
    if p <= url then Parse(url[|p|..]) else []
  }

  /** The authorization URL carries exactly the six parameters, in order. */
  lemma AuthUrlParameters(cfg: Config, redirectUri: string, verifier: string,
                          challenge: string -> string, encode: string -> string)
    requires FormEncoder(encode)
    ensures AuthUrlParams(cfg, GenerateAuthUrl(cfg, redirectUri, verifier, challenge, encode).authUrl)
            == Encoded(AuthParams(cfg, redirectUri, challenge(verifier)), encode)
  {
    var ps := AuthParams(cfg, redirectUri, challenge(verifier));
    var url := GenerateAuthUrl(cfg, redirectUri, verifier, challenge, encode).authUrl;
    var p := AuthorizationEndpoint(cfg) + "?";
    assert url[|p|..] == Serialize(ps, encode);
    ParseSerialize(ps, encode);
  }

  /** In a list whose names are the encodings of `names`, the first
      occurrence of a name is found, and a name not listed is absent. */
  lemma LookupEncodedName(ps: seq<Param>, names: seq<string>, encode: string -> string, i: nat)
    requires FormEncoder(encode)
    requires |ps| == |names| && i < |names|
    requires forall k :: 0 <= k < |ps| ==> ps[k].0 == encode(names[k])
    requires forall j :: 0 <= j < i ==> names[j] != names[i]
    ensures Lookup(ps, encode(names[i])) == Some(ps[i].1)
  {
    forall j | 0 <= j < i ensures ps[j].0 != encode(names[i]) {
      assert names[j] != names[i];
    }
    LookupFirst(ps, i, encode(names[i]));
  }

  lemma LookupUnlistedName(ps: seq<Param>, names: seq<string>, encode: string -> string, name: string)
    requires FormEncoder(encode)
    requires |ps| == |names| && name !in names
    requires forall k :: 0 <= k < |ps| ==> ps[k].0 == encode(names[k])
    ensures Lookup(ps, encode(name)) == None
  {
    forall k | 0 <= k < |ps| ensures ps[k].0 != encode(name) {
      assert names[k] != name;
    }
  }

  /** The parameter names of the authorization request, as a list. */
  lemma AuthParamNames(cfg: Config, redirectUri: string, codeChallenge: string, encode: string -> string)
      returns (names: seq<string>)
    ensures var ps := Encoded(AuthParams(cfg, redirectUri, codeChallenge), encode);
            && names == ["response_type", "client_id", "redirect_uri", "scope", "code_challenge", "code_challenge_method"]
            && |ps| == |names|
            && forall k :: 0 <= k < |ps| ==> ps[k].0 == encode(names[k])
  {
    var params := AuthParams(cfg, redirectUri, codeChallenge);
    names := seq(|params|, k requires 0 <= k < |params| => params[k].0);
  }

  lemma LookupChallenge(cfg: Config, redirectUri: string, codeChallenge: string, encode: string -> string)
    requires FormEncoder(encode)
    ensures Lookup(Encoded(AuthParams(cfg, redirectUri, codeChallenge), encode), encode("code_challenge"))
            == Some(encode(codeChallenge))
  {
    var names := AuthParamNames(cfg, redirectUri, codeChallenge, encode);
    LookupEncodedName(Encoded(AuthParams(cfg, redirectUri, codeChallenge), encode), names, encode, 4);
  }

  lemma LookupRedirectUri(cfg: Config, redirectUri: string, codeChallenge: string, encode: string -> string)
    requires FormEncoder(encode)
    ensures Lookup(Encoded(AuthParams(cfg, redirectUri, codeChallenge), encode), encode("redirect_uri"))
            == Some(encode(redirectUri))
  {
    var names := AuthParamNames(cfg, redirectUri, codeChallenge, encode);
    LookupEncodedName(Encoded(AuthParams(cfg, redirectUri, codeChallenge), encode), names, encode, 2);
  }

  lemma LookupChallengeMethod(cfg: Config, redirectUri: string, codeChallenge: string, encode: string -> string)
    requires FormEncoder(encode)
    ensures Lookup(Encoded(AuthParams(cfg, redirectUri, codeChallenge), encode), encode("code_challenge_method"))
            == Some(encode("S256"))
  {
    var names := AuthParamNames(cfg, redirectUri, codeChallenge, encode);
    LookupEncodedName(Encoded(AuthParams(cfg, redirectUri, codeChallenge), encode), names, encode, 5);
  }

  lemma LookupNoState(cfg: Config, redirectUri: string, codeChallenge: string, encode: string -> string)
    requires FormEncoder(encode)
    ensures Lookup(Encoded(AuthParams(cfg, redirectUri, codeChallenge), encode), encode("state")) == None
  {
    var names := AuthParamNames(cfg, redirectUri, codeChallenge, encode);
    assert "state"[1] != "scope"[1];
    LookupUnlistedName(Encoded(AuthParams(cfg, redirectUri, codeChallenge), encode), names, encode, "state");
  }

  /** The URL carries the S256 challenge of the returned verifier, the
      callback address, the method `S256`, and no `state`. */
  lemma AuthUrlCarriesChallenge(cfg: Config, redirectUri: string, verifier: string,
                                challenge: string -> string, encode: string -> string)
    requires FormEncoder(encode)
    ensures var r := GenerateAuthUrl(cfg, redirectUri, verifier, challenge, encode);
            var ps := AuthUrlParams(cfg, r.authUrl);
            && Lookup(ps, encode("code_challenge")) == Some(encode(challenge(r.codeVerifier)))
            && Lookup(ps, encode("redirect_uri")) == Some(encode(redirectUri))
            && Lookup(ps, encode("code_challenge_method")) == Some(encode("S256"))
            && Lookup(ps, encode("state")) == None
  {
    AuthUrlParameters(cfg, redirectUri, verifier, challenge, encode);
    LookupChallenge(cfg, redirectUri, challenge(verifier), encode);
    LookupRedirectUri(cfg, redirectUri, challenge(verifier), encode);
    LookupChallengeMethod(cfg, redirectUri, challenge(verifier), encode);
    LookupNoState(cfg, redirectUri, challenge(verifier), encode);
  }

  /** The `Set-Cookie` value the step handlers use to hand the verifier to the browser. */
  function VerifierCookie(verifier: string): string {
    "code_verifier=" + verifier + "; Path=/" + "; Secure" + "; HttpOnly" + "; SameSite=Lax"
  }

  /** The `Set-Cookie` value the login handler uses: the same cookie without a `Path`. */
  function LoginVerifierCookie(verifier: string): string {
    "code_verifier=" + verifier + "; Secure" + "; HttpOnly" + "; SameSite=Lax"
  }

  function AccessTokenCookie(token: string): string {
    "access_token=" + token + "; Secure" + "; HttpOnly" + "; SameSite=Strict"
  }

  const Epoch := "Expires=Thu, 01 Jan 1970 00:00:00 GMT"
  /** The clearing cookies: empty values, the same attributes, and an `Expires` date in the past. */
  const ExpiredVerifierCookie := LoginVerifierCookie("") + "; " + Epoch
  const ExpiredAccessTokenCookie := AccessTokenCookie("") + "; " + Epoch

  /** The cookie a `Set-Cookie` value stores (section 5.2 of RFC 6265): the
      text before the first `;`, split at its first `=`, both sides trimmed. */
  function StoredCookie(setCookie: string): Param {
    var pair := ParsePair(Split(setCookie, ';')[0]);
    (Trim(pair.0), Trim(pair.1))
  }

  /** The attributes of a `Set-Cookie` value: the trimmed `;`-separated segments after the first. */
  function CookieAttributes(setCookie: string): seq<string> {
    TrimmedTail(Split(setCookie, ';'))
  }

  /** Every segment but the first, trimmed. */
  function TrimmedTail(segments: seq<string>): seq<string>
    requires |segments| > 0
  {
    seq(|segments| - 1, i requires 0 <= i < |segments| - 1 => Trim(segments[i + 1]))
  }
  /** An attribute or value with no white space at either end. */
  predicate Trimmed(a: string) {
    |a| > 0 && !IsJsSpace(a[0]) && !IsJsSpace(a[|a| - 1])
  }

  /** The `Set-Cookie` value `name=value; a1; a2; ...`. */
  function SetCookieValue(name: string, value: string, attributes: seq<string>): string {
    name + "=" + value + AttributeSuffix(attributes)
  }

  /** `; a1; a2; ...`. */
  function AttributeSuffix(attributes: seq<string>): string
    decreases |attributes|
  {
    if |attributes| == 0 then "" else "; " + attributes[0] + AttributeSuffix(attributes[1..])
  }

  lemma TrimLeadingSpace(a: string)
    requires Trimmed(a)
    ensures Trim(" " + a) == a
  {
    assert (" " + a)[1..] == a;
    assert TrimStart(" " + a) == a;
  }

  /** The `;`-separated segments of `first; a1; a2; ...`. */
  function CookieSegmentsOf(first: string, attributes: seq<string>): (segments: seq<string>)
    ensures |segments| == |attributes| + 1 && segments[0] == first
    ensures forall i :: 0 <= i < |attributes| ==> segments[i + 1] == " " + attributes[i]
    decreases |attributes|
  {
    if |attributes| == 0 then [first]
    else [first] + CookieSegmentsOf(" " + attributes[0], attributes[1..])
  }

  lemma SplitCons(x: string, y: string, sep: char)
    requires sep !in x
    ensures Split(x + [sep] + y, sep) == [x] + Split(y, sep)
  {
    var s := x + [sep] + y;
    IndexOfAfter(x, sep, y);
    assert s[..|x|] == x && s[|x| + 1..] == y;
  }

  lemma {:induction false} SplitAttributes(first: string, attributes: seq<string>)
    requires ';' !in first
    requires forall i :: 0 <= i < |attributes| ==> ';' !in attributes[i]
    ensures Split(first + AttributeSuffix(attributes), ';') == CookieSegmentsOf(first, attributes)
    decreases |attributes|
  {
    if |attributes| == 0 {
      assert first + AttributeSuffix(attributes) == first;
      assert IndexOf(first, ';') == None;
    } else {
      var next := " " + attributes[0];
      var rest := attributes[1..];
      assert first + AttributeSuffix(attributes) == first + [';'] + (next + AttributeSuffix(rest));
      SplitCons(first, next + AttributeSuffix(rest), ';');
      SplitAttributes(next, rest);
      assert CookieSegmentsOf(first, attributes) == [first] + CookieSegmentsOf(next, rest);
    }
  }

  lemma SetCookieSplit(name: string, value: string, attributes: seq<string>)
    requires ';' !in name && ';' !in value
    requires forall i :: 0 <= i < |attributes| ==> ';' !in attributes[i]
    ensures Split(SetCookieValue(name, value, attributes), ';') == CookieSegmentsOf(name + "=" + value, attributes)
  {
    SplitAttributes(name + "=" + value, attributes);
  }

  /** A `Set-Cookie` value built from plain parts stores `name=value`. */
  lemma SetCookieStores(name: string, value: string, attributes: seq<string>)
    requires ';' !in name && '=' !in name && ';' !in value
    requires Trimmed(name) && (value == "" || Trimmed(value))
    requires forall i :: 0 <= i < |attributes| ==> ';' !in attributes[i]
    ensures StoredCookie(SetCookieValue(name, value, attributes)) == (name, value)
  {
    SetCookieSplit(name, value, attributes);
    var first := name + "=" + value;
    assert Split(SetCookieValue(name, value, attributes), ';')[0] == first;
    IndexOfAfter(name, '=', value);
    assert first[..|name|] == name && first[|name| + 1..] == value;
    assert ParsePair(first) == (name, value);
    TrimWithoutSpaceEnds(name);
    if value != "" {
      TrimWithoutSpaceEnds(value);
    }
  }

  /** ... and carries exactly the listed attributes, in order. */
  lemma SetCookieCarries(name: string, value: string, attributes: seq<string>)
    requires ';' !in name && ';' !in value
    requires forall i :: 0 <= i < |attributes| ==> ';' !in attributes[i] && Trimmed(attributes[i])
    ensures CookieAttributes(SetCookieValue(name, value, attributes)) == attributes
  {
    SetCookieSplit(name, value, attributes);
    SegmentsTrimToAttributes(name + "=" + value, attributes);
  }

  /** Trimming the segments after the first gives back the attributes. */
  lemma SegmentsTrimToAttributes(first: string, attributes: seq<string>)
    requires forall i :: 0 <= i < |attributes| ==> Trimmed(attributes[i])
    ensures TrimmedTail(CookieSegmentsOf(first, attributes)) == attributes
  {
    var segments := CookieSegmentsOf(first, attributes);
    var tail := TrimmedTail(segments);
    forall i | 0 <= i < |attributes| ensures tail[i] == attributes[i] {
      assert segments[i + 1] == " " + attributes[i];
      TrimLeadingSpace(attributes[i]);
    }
  }

  lemma TrimWithoutSpaceEnds(a: string)
    requires Trimmed(a)
    ensures Trim(a) == a
  {
  }

  const LoginVerifierAttributes := ["Secure", "HttpOnly", "SameSite=Lax"]
  const VerifierAttributes := ["Path=/"] + LoginVerifierAttributes

  lemma SuffixCons(a: string, rest: seq<string>)
    ensures AttributeSuffix([a] + rest) == "; " + a + AttributeSuffix(rest)
  {
    assert ([a] + rest)[1..] == rest;
  }

  /** The attribute text of three attributes. */
  lemma SuffixOfThree(a: string, b: string, c: string)
    ensures AttributeSuffix([a, b, c]) == "; " + a + "; " + b + "; " + c
  {
    assert [a, b, c] == [a] + ([b] + ([c] + []));
    SuffixCons(c, []);
    SuffixCons(b, [c]);
    SuffixCons(a, [b, c]);
  }

  lemma LaxSuffix()
    ensures AttributeSuffix(LoginVerifierAttributes) == "; Secure" + "; HttpOnly" + "; SameSite=Lax"
  {
    SuffixOfThree("Secure", "HttpOnly", "SameSite=Lax");
    assert "; " + "Secure" == "; Secure" && "; " + "HttpOnly" == "; HttpOnly" && "; " + "SameSite=Lax" == "; SameSite=Lax";
  }

  lemma PathSuffix()
    ensures AttributeSuffix(VerifierAttributes) == "; Path=/" + "; Secure" + "; HttpOnly" + "; SameSite=Lax"
  {
    SuffixCons("Path=/", LoginVerifierAttributes);
    LaxSuffix();
    assert "; " + "Path=/" == "; Path=/";
  }

  lemma CookieValueShape(name: string, value: string, attributes: seq<string>, suffix: string)
    requires AttributeSuffix(attributes) == suffix
    ensures SetCookieValue(name, value, attributes) == name + "=" + value + suffix
  {
  }

  lemma PathVerifierCookieShape(verifier: string)
    ensures VerifierCookie(verifier) == SetCookieValue("code_verifier", verifier, VerifierAttributes)
  {
    PathSuffix();
    CookieValueShape("code_verifier", verifier, VerifierAttributes, "; Path=/" + "; Secure" + "; HttpOnly" + "; SameSite=Lax");
    assert "code_verifier" + "=" == "code_verifier=";
  }

  lemma LoginVerifierCookieShape(verifier: string)
    ensures LoginVerifierCookie(verifier) == SetCookieValue("code_verifier", verifier, LoginVerifierAttributes)
  {
    LaxSuffix();
    CookieValueShape("code_verifier", verifier, LoginVerifierAttributes, "; Secure" + "; HttpOnly" + "; SameSite=Lax");
    assert "code_verifier" + "=" == "code_verifier=";
  }

  /** The two cookie names the handlers set are plain. */
  lemma CookieNamesPlain()
    ensures ';' !in "code_verifier" && '=' !in "code_verifier" && Trimmed("code_verifier")
    ensures ';' !in "access_token" && '=' !in "access_token" && Trimmed("access_token")
  {
  }

  /** A `Set-Cookie` value built from plain parts reads back as its name,
      value and attributes. */
  lemma SetCookieRoundTrip(name: string, value: string, attributes: seq<string>)
    requires ';' !in name && '=' !in name && Trimmed(name)
    requires ';' !in value && (value == "" || Trimmed(value))
    requires AllPlain(attributes)
    ensures StoredCookie(SetCookieValue(name, value, attributes)) == (name, value)
    ensures CookieAttributes(SetCookieValue(name, value, attributes)) == attributes
  {
    SetCookieStores(name, value, attributes);
    SetCookieCarries(name, value, attributes);
  }

  /** The step handlers' verifier cookie stores `code_verifier=<v>` with
      `Path=/`; the login handler's stores the same cookie without a path. */
  lemma VerifierCookieStores(verifier: string)
    requires ';' !in verifier && Trimmed(verifier)
    ensures StoredCookie(VerifierCookie(verifier)) == ("code_verifier", verifier)
    ensures CookieAttributes(VerifierCookie(verifier)) == VerifierAttributes
    ensures StoredCookie(LoginVerifierCookie(verifier)) == ("code_verifier", verifier)
    ensures CookieAttributes(LoginVerifierCookie(verifier)) == LoginVerifierAttributes
  {
    PathVerifierCookieShape(verifier);
    LoginVerifierCookieShape(verifier);
    CookieNamesPlain();
    AttributesPlain();
    SetCookieRoundTrip("code_verifier", verifier, VerifierAttributes);
    SetCookieRoundTrip("code_verifier", verifier, LoginVerifierAttributes);
  }

  const StrictAttributes := ["Secure", "HttpOnly", "SameSite=Strict"]

  /** An attribute that survives the split on `;` and the trim unchanged. */
  predicate PlainAttribute(a: string) {
    ';' !in a && Trimmed(a)
  }

  predicate AllPlain(attributes: seq<string>) {
    forall i :: 0 <= i < |attributes| ==> PlainAttribute(attributes[i])
  }

  lemma PlainAppend(attributes: seq<string>, a: string)
    requires AllPlain(attributes) && PlainAttribute(a)
    ensures AllPlain(attributes + [a])
  {
    forall i | 0 <= i < |attributes + [a]|
      ensures PlainAttribute((attributes + [a])[i])
    {
      if i < |attributes| {
        assert (attributes + [a])[i] == attributes[i];
      }
    }
  }

  lemma PlainCons(a: string, attributes: seq<string>)
    requires PlainAttribute(a) && AllPlain(attributes)
    ensures AllPlain([a] + attributes)
  {
    forall i | 0 <= i < |[a] + attributes|
      ensures PlainAttribute(([a] + attributes)[i])
    {
      if i > 0 {
        assert ([a] + attributes)[i] == attributes[i - 1];
      }
    }
  }

  lemma PlainThree(a: string, b: string, c: string)
    requires PlainAttribute(a) && PlainAttribute(b) && PlainAttribute(c)
    ensures AllPlain([a, b, c])
  {
  }

  /** Every attribute the handlers set is plain. */
  lemma AttributesPlain()
    ensures AllPlain(LoginVerifierAttributes) && AllPlain(VerifierAttributes) && AllPlain(StrictAttributes)
    ensures PlainAttribute(Epoch)
  {
    assert PlainAttribute("Secure");
    assert PlainAttribute("HttpOnly");
    assert PlainAttribute("SameSite=Lax");
    assert PlainAttribute("SameSite=Strict");
    assert PlainAttribute("Path=/");
    assert PlainAttribute(Epoch);
    PlainThree("Secure", "HttpOnly", "SameSite=Lax");
    PlainThree("Secure", "HttpOnly", "SameSite=Strict");
    PlainCons("Path=/", LoginVerifierAttributes);
  }

  lemma {:induction false} SuffixAppend(attributes: seq<string>, last: string)
    ensures AttributeSuffix(attributes + [last]) == AttributeSuffix(attributes) + "; " + last
    decreases |attributes|
  {
    if |attributes| == 0 {
      assert attributes + [last] == [last];
    } else {
      assert (attributes + [last])[1..] == attributes[1..] + [last];
      SuffixAppend(attributes[1..], last);
    }
  }

  lemma StrictSuffix()
    ensures AttributeSuffix(StrictAttributes) == "; Secure" + "; HttpOnly" + "; SameSite=Strict"
  {
    SuffixOfThree("Secure", "HttpOnly", "SameSite=Strict");
    assert "; " + "Secure" == "; Secure" && "; " + "HttpOnly" == "; HttpOnly" && "; " + "SameSite=Strict" == "; SameSite=Strict";
  }

  lemma AccessTokenCookieShape(token: string)
    ensures AccessTokenCookie(token) == SetCookieValue("access_token", token, StrictAttributes)
  {
    StrictSuffix();
    CookieValueShape("access_token", token, StrictAttributes, "; Secure" + "; HttpOnly" + "; SameSite=Strict");
    assert "access_token" + "=" == "access_token=";
  }

  lemma ExpiredAccessTokenCookieShape()
    ensures ExpiredAccessTokenCookie == SetCookieValue("access_token", "", StrictAttributes + [Epoch])
  {
    AccessTokenCookieShape("");
    SuffixAppend(StrictAttributes, Epoch);
  }

  lemma ExpiredVerifierCookieShape()
    ensures ExpiredVerifierCookie == SetCookieValue("code_verifier", "", LoginVerifierAttributes + [Epoch])
  {
    LoginVerifierCookieShape("");
    SuffixAppend(LoginVerifierAttributes, Epoch);
  }

  /** The access-token cookie stores the token, with strict same-site. */
  lemma AccessTokenCookieStores(token: string)
    requires ';' !in token && Trimmed(token)
    ensures StoredCookie(AccessTokenCookie(token)) == ("access_token", token)
    ensures CookieAttributes(AccessTokenCookie(token)) == StrictAttributes
  {
    AccessTokenCookieShape(token);
    CookieNamesPlain();
    AttributesPlain();
    SetCookieRoundTrip("access_token", token, StrictAttributes);
  }

  /** The two clearing cookies store an empty value under the session
      cookies' names, with an `Expires` date in the past, so the browser drops them. */
  lemma ExpiredAccessTokenCookieStores()
    ensures StoredCookie(ExpiredAccessTokenCookie) == ("access_token", "")
    ensures CookieAttributes(ExpiredAccessTokenCookie) == StrictAttributes + [Epoch]
  {
    ExpiredAccessTokenCookieShape();
    CookieNamesPlain();
    AttributesPlain();
    PlainAppend(StrictAttributes, Epoch);
    SetCookieRoundTrip("access_token", "", StrictAttributes + [Epoch]);
  }

  lemma ExpiredVerifierCookieStores()
    ensures StoredCookie(ExpiredVerifierCookie) == ("code_verifier", "")
    ensures CookieAttributes(ExpiredVerifierCookie) == LoginVerifierAttributes + [Epoch]
  {
    ExpiredVerifierCookieShape();
    CookieNamesPlain();
    AttributesPlain();
    PlainAppend(LoginVerifierAttributes, Epoch);
    SetCookieRoundTrip("code_verifier", "", LoginVerifierAttributes + [Epoch]);
  }
}
