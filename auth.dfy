/**
 * The two middlewares that guard routes: `verifyAcessToken`, which reads the
 * `Authorization` header and asks the Firebase token verifier about the
 * bearer token, and `emailVerification`, which compares the email in the
 * path with the verified one. Both are early-return decisions over strings.
 */
module Auth {
  import opened Wrappers

  /** The claims of a verified ID token that the core reads; `email` is absent for accounts without one. */
  datatype DecodedToken = DecodedToken(uid: string, email: Option<string>)

  /** The external verifier's answer: the decoded token, or a rejection (the call throws). */
  datatype Verdict = Verified(token: DecodedToken) | Rejected

  /** Firebase's `verifyIdToken`, an oracle outside the model. */
  type Verifier = string -> Verdict

  const BearerPrefix: string := "Bearer "

  predicate StartsWith(s: string, prefix: string)
  {
    |prefix| <= |s| && s[..|prefix|] == prefix
  }

  /** JavaScript's `s.split(" ")`: the pieces between single spaces, empty pieces included. */
  function Split(s: string): (parts: seq<string>)
    ensures |parts| >= 1
    decreases |s|
  {
    if s == [] then [""]
    else
      var rest := Split(s[1..]);
      if s[0] == ' ' then [""] + rest else [[s[0]] + rest[0]] + rest[1..]
  }

  /** The pieces glued back together with single spaces (JavaScript's `parts.join(" ")`). */
  function Join(parts: seq<string>): string
    requires |parts| >= 1
    decreases |parts|
  {
    if |parts| == 1 then parts[0] else parts[0] + " " + Join(parts[1..])
  }

  /** The first piece is the longest space-free prefix: it is followed by a space or by the end. */
  lemma {:induction false} SplitHead(s: string)
    ensures StartsWith(s, Split(s)[0])
    ensures ' ' !in Split(s)[0]
    ensures |Split(s)[0]| < |s| ==> s[|Split(s)[0]|] == ' ' && |Split(s)| >= 2
    decreases |s|
  {
    if s != [] && s[0] != ' ' {
      var rest := Split(s[1..]);
      SplitHead(s[1..]);
      var head := rest[0];
      var parts := Split(s);
      assert parts == [[s[0]] + head] + rest[1..];
      assert parts[0] == [s[0]] + head;
      assert |parts| == |rest|;
      assert s[..|head| + 1] == [s[0]] + s[1..][..|head|];
      assert |head| < |s[1..]| ==> s[|head| + 1] == s[1..][|head|];
    }
  }

  /** No piece of `split(" ")` holds a space. */
  lemma {:induction false} SplitPiecesHaveNoSpace(s: string)
    ensures forall i :: 0 <= i < |Split(s)| ==> ' ' !in Split(s)[i]
    decreases |s|
  {
    if s != [] {
      var rest := Split(s[1..]);
      SplitPiecesHaveNoSpace(s[1..]);
      var parts := Split(s);
      forall i | 0 <= i < |parts| ensures ' ' !in parts[i] {
        if s[0] == ' ' {
          if i > 0 { assert parts[i] == rest[i - 1]; }
        } else if i == 0 {
          assert parts[0] == [s[0]] + rest[0];
        } else {
          assert parts[i] == rest[i];
        }
      }
    }
  }

  /** Splitting loses nothing: joining the pieces restores the string. */
  lemma {:induction false} JoinSplit(s: string)
    ensures Join(Split(s)) == s
    decreases |s|
  {
    if s != [] {
      var rest := Split(s[1..]);
      JoinSplit(s[1..]);
      if s[0] == ' ' {
        assert Split(s) == [""] + rest;
        assert Split(s)[1..] == rest;
      } else {
        var parts := Split(s);
        assert parts == [[s[0]] + rest[0]] + rest[1..];
        if |rest| > 1 {
          assert parts[1..] == rest[1..];
        }
      }
    }
  }

  /** A space-free word splits into itself. */
  lemma {:induction false} SplitWord(p: string)
    requires ' ' !in p
    ensures Split(p) == [p]
    decreases |p|
  {
    if p != [] {
      assert p[0] != ' ' && ' ' !in p[1..];
      SplitWord(p[1..]);
      assert p == [p[0]] + p[1..];
    }
  }

  /** A space-free word followed by a space splits off as the first piece. */
  lemma {:induction false} SplitAfterWord(p: string, t: string)
    requires ' ' !in p
    ensures Split(p + " " + t) == [p] + Split(t)
    decreases |p|
  {
    var s := p + " " + t;
    if p == [] {
      assert s[1..] == t;
    } else {
      assert p[0] != ' ' && ' ' !in p[1..];
      SplitAfterWord(p[1..], t);
      assert s[0] == p[0] && s[1..] == p[1..] + " " + t;
      var rest := Split(s[1..]);
      assert rest == [p[1..]] + Split(t);
      assert Split(s) == [[p[0]] + rest[0]] + rest[1..];
      assert [p[0]] + p[1..] == p;
    }
  }

  /** Split is the inverse of Join on pieces without spaces. */
  lemma {:induction false} SplitJoin(parts: seq<string>)
    requires |parts| >= 1
    requires forall i :: 0 <= i < |parts| ==> ' ' !in parts[i]
    ensures Split(Join(parts)) == parts
    decreases |parts|
  {
    assert ' ' !in parts[0];
    if |parts| == 1 {
      SplitWord(parts[0]);
    } else {
      var tail := parts[1..];
      assert forall i :: 0 <= i < |tail| ==> ' ' !in tail[i] by {
        forall i | 0 <= i < |tail| ensures ' ' !in tail[i] {
          assert tail[i] == parts[i + 1];
        }
      }
      SplitJoin(tail);
      SplitAfterWord(parts[0], Join(tail));
      assert parts == [parts[0]] + tail;
    }
  }

  /**
   * The token `verifyAcessToken` hands to the verifier: the second
   * space-separated piece of a header that starts with "Bearer ", that is,
   * what follows "Bearer " up to the next space or the end; None when the
   * header is missing or does not start so (the middleware then answers 401
   * without asking the verifier).
   */
  function BearerToken(header: Option<string>): (t: Option<string>)
    ensures t.Some? <==> header.Some? && StartsWith(header.value, BearerPrefix)
    ensures t.Some? ==> |Split(header.value)| >= 2 && t.value == Split(header.value)[1]
    ensures t.Some? ==> ' ' !in t.value
    ensures t.Some? ==>
      var rest := header.value[|BearerPrefix|..];
      StartsWith(rest, t.value) && (|t.value| < |rest| ==> rest[|t.value|] == ' ')
  {
    match header
    case None => None
    case Some(h) =>
      if !StartsWith(h, BearerPrefix) then None
      else
        BearerSplit(h);
        SplitHead(h[|BearerPrefix|..]);
        Some(Split(h)[1])
  }

  /** A header starting with "Bearer " splits into "Bearer" followed by the pieces of the rest. */
  lemma BearerSplit(h: string)
    requires StartsWith(h, BearerPrefix)
    ensures Split(h) == ["Bearer"] + Split(h[|BearerPrefix|..])
  {
    assert h == "Bearer" + " " + h[|BearerPrefix|..];
    SplitAfterWord("Bearer", h[|BearerPrefix|..]);
  }

  /** The token a client sends as `Bearer <token>` is exactly what the verifier is asked about, whatever follows it. */
  lemma BearerTokenRoundTrip(token: string, tail: string)
    requires ' ' !in token
    ensures BearerToken(Some(BearerPrefix + token)) == Some(token)
    ensures BearerToken(Some(BearerPrefix + token + " " + tail)) == Some(token)
  {
    var h1 := BearerPrefix + token;
    assert h1[..|BearerPrefix|] == BearerPrefix && h1[|BearerPrefix|..] == token;
    BearerSplit(h1);
    SplitWord(token);
    var h2 := BearerPrefix + token + " " + tail;
    assert h2[..|BearerPrefix|] == BearerPrefix && h2[|BearerPrefix|..] == token + " " + tail;
    BearerSplit(h2);
    SplitAfterWord(token, tail);
  }

  /** The outcome of `verifyAcessToken`: the decoded token attached to the request, or 401. */
  datatype AuthOutcome = Authenticated(decoded: DecodedToken) | Unauthenticated

  /**
   * `verifyAcessToken`: 401 for a missing or non-Bearer header and for a
   * token the verifier rejects; otherwise the verifier's decoded token.
   */
  function VerifyAccessToken(header: Option<string>, verify: Verifier): (r: AuthOutcome)
    ensures BearerToken(header).None? ==> r == Unauthenticated
    ensures r.Authenticated? <==>
      BearerToken(header).Some? && verify(BearerToken(header).value).Verified?
    ensures r.Authenticated? ==> r.decoded == verify(BearerToken(header).value).token
  {
    match BearerToken(header)
    case None => Unauthenticated
    case Some(token) =>
      match verify(token)
      case Verified(decoded) => Authenticated(decoded)
      case Rejected => Unauthenticated
  }

  /** Without a well-formed Bearer header the verifier's answers make no difference. */
  lemma MalformedHeaderSkipsVerifier(header: Option<string>, v1: Verifier, v2: Verifier)
    requires header.None? || !StartsWith(header.value, BearerPrefix)
    ensures VerifyAccessToken(header, v1) == VerifyAccessToken(header, v2) == Unauthenticated
  {
  }

  /** The outcome of `emailVerification`. */
  datatype EmailCheck = SameEmail | OtherEmail

  /**
   * `emailVerification`: passes only when the path email is exactly the
   * decoded token's email (strict comparison, no normalisation); a token
   * without an email never passes.
   */
  function EmailVerification(pathEmail: string, decoded: DecodedToken): (r: EmailCheck)
    ensures r == SameEmail <==> decoded.email == Some(pathEmail)
  {
    match decoded.email
    case Some(e) => if e == pathEmail then SameEmail else OtherEmail
    case None => OtherEmail
  }

  /** Emails that differ only in letter case are different owners. */
  lemma EmailCaseMatters(decoded: DecodedToken)
    requires decoded.email == Some("A@x.com")
    ensures EmailVerification("a@x.com", decoded) == OtherEmail
  {
    assert "A@x.com"[0] != "a@x.com"[0];
  }

  const Unauthorized: nat := 401
  const Forbidden: nat := 403

  /** Where a middleware chain leaves a request: handed to the route handler, or answered with a status. */
  datatype Gate = Proceed(decoded: DecodedToken) | Halt(status: nat)

  /** The chain `verifyAcessToken` alone, used by routes that need a login but no owner. */
  function AuthenticatedGate(header: Option<string>, verify: Verifier): (g: Gate)
    ensures g.Halt? ==> g.status == Unauthorized
    ensures g.Proceed? <==> VerifyAccessToken(header, verify).Authenticated?
    ensures g.Proceed? ==> g.decoded == VerifyAccessToken(header, verify).decoded
  {
    match VerifyAccessToken(header, verify)
    case Unauthenticated => Halt(Unauthorized)
    case Authenticated(d) => Proceed(d)
  }

  /**
   * The chain `verifyAcessToken, emailVerification` of the owner-scoped
   * routes: 401 when authentication fails (whatever the path email), 403 when
   * it succeeds for another email, otherwise on to the handler.
   */
  function OwnerScopedGate(header: Option<string>, pathEmail: string, verify: Verifier): (g: Gate)
    ensures g == Halt(Unauthorized) <==> VerifyAccessToken(header, verify).Unauthenticated?
    ensures g == Halt(Forbidden) <==>
      VerifyAccessToken(header, verify).Authenticated? &&
      VerifyAccessToken(header, verify).decoded.email != Some(pathEmail)
    ensures g.Proceed? ==>
      VerifyAccessToken(header, verify) == Authenticated(g.decoded) && g.decoded.email == Some(pathEmail)
    ensures g.Halt? ==> g.status == Unauthorized || g.status == Forbidden
  {
    match AuthenticatedGate(header, verify)
    case Halt(s) => Halt(s)
    case Proceed(d) =>
      match EmailVerification(pathEmail, d)
      case OtherEmail => Halt(Forbidden)
      case SameEmail => Proceed(d)
  }

  /** 401 takes precedence over 403: the ownership check never runs on an unauthenticated request. */
  lemma UnauthenticatedBeforeForbidden(header: Option<string>, email1: string, email2: string, verify: Verifier)
    requires VerifyAccessToken(header, verify).Unauthenticated?
    ensures OwnerScopedGate(header, email1, verify) == OwnerScopedGate(header, email2, verify) == Halt(Unauthorized)
  {
  }

  /** A 403 is only ever given to a caller whose token the verifier accepted. */
  lemma ForbiddenOnlyAfterVerification(header: Option<string>, pathEmail: string, verify: Verifier)
    requires OwnerScopedGate(header, pathEmail, verify) == Halt(Forbidden)
    ensures BearerToken(header).Some? && verify(BearerToken(header).value).Verified?
  {
  }
}
