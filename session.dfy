/** Bearer tokens: the claims the server signs at login and refresh, and the
    `verifyToken` middleware that guards every route but registration and login. */
module Session {
  import opened Common

  /** `expiresIn: '15m'`, in seconds. */
  const TokenLifetime: int := 900

  /** A token's payload: the user's id and login, plus the issued-at and
      expiry instants in whole seconds that the signer adds. */
  datatype Claims = Claims(id: Id, login: string, iat: int, exp: int)

  /** The claims of `jwt.sign({ id, login }, secret, { expiresIn: '15m' })`
      signed at `now`: issued-at is `now` in whole seconds, and the token
      expires fifteen minutes later. */
  function IssueClaims(id: Id, login: string, now: Time): (c: Claims)
    ensures c.id == id && c.login == login
    ensures c.iat * 1000 <= now < (c.iat + 1) * 1000
    ensures c.exp == c.iat + TokenLifetime
  {
    Claims(id, login, now / 1000, now / 1000 + TokenLifetime)
  }

  /** `refreshToken`: the caller's verified claims are signed again; only the
      identity carries over, and the expiry depends only on the instant of
      the refresh, not on the presented token's. */
  function RefreshClaims(user: Claims, now: Time): (c: Claims)
    ensures c.id == user.id && c.login == user.login
    ensures c.exp * 1000 > now + (TokenLifetime - 1) * 1000
    ensures c.exp * 1000 <= now + TokenLifetime * 1000
  {
    IssueClaims(user.id, user.login, now)
  }

  /** Two presented tokens with the same identity refresh to the same claims,
      however old or expired the presented one is. */
  lemma RefreshIgnoresPresentedExpiry(a: Claims, b: Claims, now: Time)
    requires a.id == b.id && a.login == b.login
    ensures RefreshClaims(a, now) == RefreshClaims(b, now)
  {
  }

  // ---------------------------------------------------------------- the Authorization header

  /** `s.split(' ')`: the pieces between single spaces, empty ones included. */
  function Split(s: string): (pieces: seq<string>)
    ensures |pieces| >= 1
    ensures forall i :: 0 <= i < |pieces| ==> ' ' !in pieces[i]
  {
    if |s| == 0 then [""]
    else
      var rest := Split(s[1..]);
      if s[0] == ' ' then [""] + rest
      else [[s[0]] + rest[0]] + rest[1..]
  }

  /** `pieces.join(' ')`. */
  function Join(pieces: seq<string>): string
    requires |pieces| >= 1
  {
    if |pieces| == 1 then pieces[0] else pieces[0] + " " + Join(pieces[1..])
  }

  /** Joining the pieces back with single spaces gives the header again. */
  lemma {:induction false} JoinSplit(s: string)
    ensures Join(Split(s)) == s
  {
    if |s| > 0 {
      var rest := Split(s[1..]);
      JoinSplit(s[1..]);
      if s[0] == ' ' {
        assert Split(s) == [""] + rest;
        assert ([""] + rest)[1..] == rest;
        assert Join(Split(s)) == "" + " " + Join(rest);
        assert s == [s[0]] + s[1..];
      } else {
        var ps := [[s[0]] + rest[0]] + rest[1..];
        assert Split(s) == ps;
        if |rest| == 1 {
          assert Join(ps) == [s[0]] + rest[0];
        } else {
          assert ps[1..] == rest[1..];
          assert Join(ps) == ([s[0]] + rest[0]) + " " + Join(rest[1..]);
          assert Join(rest) == rest[0] + " " + Join(rest[1..]);
        }
        assert s == [s[0]] + s[1..];
      }
    }
  }

  /** A word without spaces followed by a space splits off as the first piece. */
  lemma {:induction false} SplitWord(w: string, s: string)
    requires ' ' !in w
    ensures Split(w + " " + s) == [w] + Split(s)
  {
    if |w| == 0 {
      assert w + " " + s == [' '] + s;
      assert (w + " " + s)[1..] == s;
    } else {
      var x := w + " " + s;
      assert x[0] == w[0] && x[1..] == w[1..] + " " + s;
      SplitWord(w[1..], s);
      assert [w[0]] + w[1..] == w;
    }
  }

  /** A word without spaces is one piece. */
  lemma {:induction false} SplitSpaceless(w: string)
    requires ' ' !in w
    ensures Split(w) == [w]
  {
    if |w| > 0 {
      SplitSpaceless(w[1..]);
      assert [w[0]] + w[1..] == w;
    }
  }

  /** Splitting undoes joining pieces that hold no space. */
  lemma {:induction false} SplitJoin(ps: seq<string>)
    requires |ps| >= 1 && forall i :: 0 <= i < |ps| ==> ' ' !in ps[i]
    ensures Split(Join(ps)) == ps
  {
    if |ps| == 1 {
      SplitSpaceless(ps[0]);
    } else {
      SplitJoin(ps[1..]);
      SplitWord(ps[0], Join(ps[1..]));
      assert [ps[0]] + ps[1..] == ps;
    }
  }

  /** `req.headers['authorization']?.split(' ')[1]`: the second piece, if there is one. */
  function BearerToken(header: Option<string>): Option<string> {
    match header
    case None => None
    case Some(h) =>
      var pieces := Split(h);
      if |pieces| < 2 then None else Some(pieces[1])
  }

  /** The token is the second word whatever the first one says, and anything
      after a further space is ignored. */
  lemma BearerTokenOf(scheme: string, token: string, rest: string)
    requires ' ' !in scheme && ' ' !in token
    ensures BearerToken(Some(scheme + " " + token)) == Some(token)
    ensures BearerToken(Some(scheme + " " + token + " " + rest)) == Some(token)
  {
    SplitWord(scheme, token);
    SplitSpaceless(token);
    SplitWord(token, rest);
    assert scheme + " " + token + " " + rest == scheme + " " + (token + " " + rest);
    SplitWord(scheme, token + " " + rest);
  }

  /** What the middleware decides: no usable token (401), a token that fails
      verification (403), or the decoded claims handed on as `req.user`. */
  datatype Gate = Unauthorized | Forbidden | Pass(user: Claims)

  /** `verifyToken`, with `jwt.verify` under the server's secret given as `verify`. */
  function VerifyToken(header: Option<string>, verify: string -> Option<Claims>): (g: Gate)
    ensures g == Unauthorized <==> BearerToken(header).None? || BearerToken(header) == Some("")
    ensures g == Forbidden <==>
              BearerToken(header).Some? && BearerToken(header).value != "" && verify(BearerToken(header).value).None?
    ensures g.Pass? ==>
              BearerToken(header).Some? && BearerToken(header).value != "" &&
              verify(BearerToken(header).value) == Some(g.user)
  {
    match BearerToken(header)
    case None => Unauthorized
    case Some(token) =>
      if token == "" then Unauthorized
      else match verify(token)
        case None => Forbidden
        case Some(claims) => Pass(claims)
  }

  /** A scheme word alone carries no token. */
  lemma SchemeAloneIsUnauthorized(verify: string -> Option<Claims>)
    ensures VerifyToken(Some("Bearer"), verify) == Unauthorized
  {
    SplitSpaceless("Bearer");
  }

  /** Two spaces after the scheme make the second piece empty. */
  lemma DoubleSpaceIsUnauthorized(verify: string -> Option<Claims>, token: string)
    ensures VerifyToken(Some("Bearer  " + token), verify) == Unauthorized
  {
    assert "Bearer  " + token == "Bearer" + " " + (" " + token);
    SplitWord("Bearer", " " + token);
    SplitWord("", token);
    assert "" + " " + token == " " + token;
  }

  /** A well-formed header whose token verifies lets the request through with
      exactly the claims the verifier decoded. */
  lemma WellFormedHeaderPasses(scheme: string, token: string, verify: string -> Option<Claims>, user: Claims)
    requires ' ' !in scheme && ' ' !in token && token != "" && verify(token) == Some(user)
    ensures VerifyToken(Some(scheme + " " + token), verify) == Pass(user)
  {
    BearerTokenOf(scheme, token, "");
  }

  /** What a guarded route answers: the middleware's refusal with its status,
      or whatever the handler answered. */
  datatype Answer<T> = Refused(status: int) | Handled(answer: T)

  /** A route mounted behind `verifyToken` (every route but registration and
      login): the handler runs only after `next()`, and sees the caller as
      `req.user`, the claims the verifier decoded. */
  function Guarded<T>(header: Option<string>, verify: string -> Option<Claims>, handler: Claims -> T): (a: Answer<T>)
    ensures a == Refused(401) <==> BearerToken(header).None? || BearerToken(header) == Some("")
    ensures a == Refused(403) <==>
              BearerToken(header).Some? && BearerToken(header).value != "" && verify(BearerToken(header).value).None?
    ensures a.Handled? <==>
              BearerToken(header).Some? && BearerToken(header).value != "" && verify(BearerToken(header).value).Some?
    ensures a.Handled? ==> a.answer == handler(verify(BearerToken(header).value).value)
  {
    match VerifyToken(header, verify)
    case Unauthorized => Refused(401)
    case Forbidden => Refused(403)
    case Pass(user) => Handled(handler(user))
  }

  /** A guarded handler behind a well-formed header whose token verifies runs
      with exactly the decoded caller, so `req.user.id` is that user's id. */
  lemma GuardedRunsAsCaller<T>(scheme: string, token: string, verify: string -> Option<Claims>, user: Claims, handler: Claims -> T)
    requires ' ' !in scheme && ' ' !in token && token != "" && verify(token) == Some(user)
    ensures Guarded(Some(scheme + " " + token), verify, handler) == Handled(handler(user))
  {
    WellFormedHeaderPasses(scheme, token, verify, user);
  }
}
