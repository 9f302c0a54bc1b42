/** The two request guards in front of the user routes. `authMiddleware`
    takes the second space-separated word of the `Authorization` header as
    the token; `adminMiddleware` hands the whole header to the verifier and
    then demands the admin role. The token verifier is a parameter: it either
    yields the decoded claims or throws (`None`). */
module Guards {
  import opened Base
  import opened Json
  import Http

  /** `jwt.verify(token, secret)` with the secret fixed. */
  type Verifier = string -> Option<Object>

  /** A guard either calls `next()` with `req.user` set, or answers. */
  datatype Gate = Proceed(user: Object) | Halt(response: Http.Response<()>)

  /** The 401 both guards send: `message: 'Bad request', error: 'Unauthorized'`. */
  const Unauthorized: Http.Response<()> := Http.Fail(401, Http.BadRequest, "Unauthorized")

  /** The 403 `adminMiddleware` sends for a non-admin token. */
  const Forbidden: Http.Response<()> := Http.Fail(403, "Forbidden", "Forbidden")

  // ---------------------------------------------------------------------
  // String.prototype.split with a one-character separator

  /** The position of the first `c` in `s`. */
  function FirstIndex(s: string, c: char): (k: nat)
    requires c in s
    ensures k < |s| && s[k] == c && c !in s[..k]
  {
    if s[0] == c then 0
    else
      var k := 1 + FirstIndex(s[1..], c);
      assert s[..k] == [s[0]] + s[1..][..k - 1];
      k
  }

  /** `s.split(sep)`: the pieces between separators, empty ones included;
      a string without the separator is one piece. */
  function Split(s: string, sep: char): (parts: seq<string>)
    ensures |parts| >= 1
    ensures |parts| >= 2 <==> sep in s
    ensures forall i :: 0 <= i < |parts| ==> sep !in parts[i]
    decreases |s|
  {
    if sep !in s then [s]
    else
      var k := FirstIndex(s, sep);
      [s[..k]] + Split(s[k + 1..], sep)
  }

  /** `parts.join(sep)`. */
  function Join(parts: seq<string>, sep: char): (s: string)
    requires |parts| >= 1
  {
    if |parts| == 1 then parts[0] else parts[0] + [sep] + Join(parts[1..], sep)
  }

  /** Splitting and joining again gives the string back. */
  lemma {:induction false} JoinSplit(s: string, sep: char)
    ensures Join(Split(s, sep), sep) == s
    decreases |s|
  {
    if sep in s {
      var k := FirstIndex(s, sep);
      JoinSplit(s[k + 1..], sep);
      assert s == s[..k] + [sep] + s[k + 1..];
    }
  }

  /** The separator's first occurrence in `w + [sep] + rest`, for a `w`
      without it, is right after `w`. */
  lemma {:induction false} FirstIndexAfter(w: string, rest: string, sep: char)
    requires sep !in w
    ensures FirstIndex(w + [sep] + rest, sep) == |w|
  {
    if w != [] {
      assert (w + [sep] + rest)[1..] == w[1..] + [sep] + rest;
      FirstIndexAfter(w[1..], rest, sep);
    }
  }

  /** A word without the separator, then the separator, splits off first. */
  lemma SplitFirst(w: string, rest: string, sep: char)
    requires sep !in w
    ensures Split(w + [sep] + rest, sep) == [w] + Split(rest, sep)
  {
    var s := w + [sep] + rest;
    FirstIndexAfter(w, rest, sep);
    assert s[..|w|] == w;
    assert s[|w| + 1..] == rest;
  }

  /** Joining pieces free of the separator and splitting again gives the
      pieces back. */
  lemma {:induction false} SplitJoin(parts: seq<string>, sep: char)
    requires |parts| >= 1
    requires forall i :: 0 <= i < |parts| ==> sep !in parts[i]
    ensures Split(Join(parts, sep), sep) == parts
  {
    if |parts| > 1 {
      SplitJoin(parts[1..], sep);
      SplitFirst(parts[0], Join(parts[1..], sep), sep);
      assert parts == [parts[0]] + parts[1..];
    }
  }

  // ---------------------------------------------------------------------
  // authMiddleware

  /** `authHeader.split(' ')[1]`: `None` is `undefined`. */
  function Token(header: string): (token: Option<string>)
    ensures token.Some? <==> ' ' in header
    ensures token.Some? ==> ' ' !in token.value
  {
    var parts := Split(header, ' ');
    if |parts| >= 2 then Some(parts[1]) else None
  }

  /** A present, non-empty header. */
  predicate Given(header: Option<string>) {
    header.Some? && header.value != ""
  }

  /** `authMiddleware`: 401 without a header, without a non-empty second
      word, or when that word does not verify; otherwise on to the handler
      with the decoded claims. */
  function AuthGuard(header: Option<string>, verify: Verifier): (g: Gate)
    ensures !Given(header) ==> g == Halt(Unauthorized)
    ensures g.Proceed? <==> Given(header) && ' ' in header.value && Token(header.value).value != "" && verify(Token(header.value).value).Some?
    ensures g.Proceed? ==> g.user == verify(Token(header.value).value).value
    ensures g.Halt? ==> g.response == Unauthorized
  {
    if !Given(header) then Halt(Unauthorized)
    else
      var token := Token(header.value);
      if token.None? || token.value == "" then Halt(Unauthorized)
      else
        var decoded := verify(token.value);
        if decoded.None? then Halt(Unauthorized) else Proceed(decoded.value)
  }

  /** `authMiddleware` never answers 403. */
  lemma AuthGuardNever403(header: Option<string>, verify: Verifier)
    ensures AuthGuard(header, verify).Halt? ==> AuthGuard(header, verify).response.Code() == 401
  {
  }

  /** `Scheme token` verifies exactly the token, whatever the scheme word:
      "Bearer" is never checked. */
  lemma TokenIsSecondWord(scheme: string, token: string, verify: Verifier)
    requires ' ' !in scheme && ' ' !in token
    ensures AuthGuard(Some(scheme + " " + token), verify) ==
            if token != "" && verify(token).Some? then Proceed(verify(token).value) else Halt(Unauthorized)
  {
    SplitFirst(scheme, token, ' ');
    assert Split(token, ' ') == [token];
    assert scheme + " " + token == scheme + [' '] + token;
  }

  /** Only what follows the first space matters: two headers with the same
      tail are treated alike. */
  lemma SchemeIgnored(scheme1: string, scheme2: string, rest: string, verify: Verifier)
    requires ' ' !in scheme1 && ' ' !in scheme2
    ensures AuthGuard(Some(scheme1 + " " + rest), verify) == AuthGuard(Some(scheme2 + " " + rest), verify)
  {
    TokenAfterScheme(scheme1, rest);
    TokenAfterScheme(scheme2, rest);
  }

  /** After a first word without a space, the token is the first piece of
      what follows the space. */
  lemma TokenAfterScheme(scheme: string, rest: string)
    requires ' ' !in scheme
    ensures Token(scheme + " " + rest) == Some(Split(rest, ' ')[0])
  {
    assert scheme + " " + rest == scheme + [' '] + rest;
    SplitFirst(scheme, rest, ' ');
  }

  // ---------------------------------------------------------------------
  // adminMiddleware

  /** `decoded.role === 'admin'`. */
  predicate IsAdmin(claims: Object) {
    "role" in claims && claims["role"] == Str("admin")
  }

  /** `adminMiddleware`: 401 without a header or when the whole header does
      not verify, 403 for claims without the admin role, otherwise on to the
      handler with the claims. */
  function AdminGuard(header: Option<string>, verify: Verifier): (g: Gate)
    ensures !Given(header) ==> g == Halt(Unauthorized)
    ensures g.Proceed? <==> Given(header) && verify(header.value).Some? && IsAdmin(verify(header.value).value)
    ensures g.Proceed? ==> g.user == verify(header.value).value
    ensures g == Halt(Forbidden) <==> Given(header) && verify(header.value).Some? && !IsAdmin(verify(header.value).value)
    ensures g.Halt? ==> g.response in {Unauthorized, Forbidden}
  {
    if !Given(header) then Halt(Unauthorized)
    else
      var decoded := verify(header.value);
      if decoded.None? then Halt(Unauthorized)
      else if !IsAdmin(decoded.value) then Halt(Forbidden)
      else Proceed(decoded.value)
  }

  /** The admin guard's answer depends on the header only through what the
      verifier makes of the whole string: no "Bearer " is stripped. */
  lemma AdminGuardVerifiesWholeHeader(h: string, verify1: Verifier, verify2: Verifier)
    requires h != "" && verify1(h) == verify2(h)
    ensures AdminGuard(Some(h), verify1) == AdminGuard(Some(h), verify2)
  {
  }

  // ---------------------------------------------------------------------
  // The two guards in a row

  /** `authMiddleware, adminMiddleware`: the second runs only when the first
      lets the request through. */
  function Chain(header: Option<string>, verify: Verifier): (g: Gate)
    ensures g.Proceed? ==> AuthGuard(header, verify).Proceed? && AdminGuard(header, verify).Proceed?
  {
    var first := AuthGuard(header, verify);
    if first.Halt? then first else AdminGuard(header, verify)
  }

  /** With a verifier that refuses every string containing a space, as
      compact-serialised tokens never contain one, no request gets past both
      guards: the first needs a space in the header, and the second then
      hands that header whole to the verifier. */
  lemma ChainAlwaysRejects(header: Option<string>, verify: Verifier)
    requires forall s :: ' ' in s ==> verify(s).None?
    ensures Chain(header, verify) == Halt(Unauthorized)
  {
    if AuthGuard(header, verify).Proceed? {
      assert ' ' in header.value;
    }
  }

  /** The assumption is what closes the chain: a verifier that also accepts
      the whole "Bearer t" header as an admin lets it through. */
  lemma ChainOpensForLenientVerifier(verify: Verifier)
    requires verify("t").Some?
    requires verify("Bearer t") == Some(map["role" := Str("admin")])
    ensures Chain(Some("Bearer t"), verify) == Proceed(map["role" := Str("admin")])
  {
    TokenIsSecondWord("Bearer", "t", verify);
    assert "Bearer" + " " + "t" == "Bearer t";
  }

  // ---------------------------------------------------------------------
  // The admin guard reading the token the way the first guard does

  /** `adminMiddleware` verifying `split(' ')[1]` of the header, as
      `authMiddleware` does, instead of the whole header. */
  function AdminGuardOnToken(header: Option<string>, verify: Verifier): (g: Gate)
    ensures g.Proceed? <==> AuthGuard(header, verify).Proceed? && IsAdmin(AuthGuard(header, verify).user)
    ensures g.Proceed? ==> g.user == AuthGuard(header, verify).user
    ensures g == Halt(Forbidden) <==> AuthGuard(header, verify).Proceed? && !IsAdmin(AuthGuard(header, verify).user)
    ensures g.Halt? ==> g.response in {Unauthorized, Forbidden}
  {
    if !Given(header) then Halt(Unauthorized)
    else
      var token := Token(header.value);
      if token.None? || token.value == "" then Halt(Unauthorized)
      else
        var decoded := verify(token.value);
        if decoded.None? then Halt(Unauthorized)
        else if !IsAdmin(decoded.value) then Halt(Forbidden)
        else Proceed(decoded.value)
  }

  /** The two guards in a row with the corrected admin guard. */
  function ChainOnToken(header: Option<string>, verify: Verifier): (g: Gate)
    ensures g.Proceed? ==> AuthGuard(header, verify).Proceed? && AdminGuardOnToken(header, verify).Proceed?
  {
    var first := AuthGuard(header, verify);
    if first.Halt? then first else AdminGuardOnToken(header, verify)
  }

  /** With the corrected admin guard, `Bearer <token>` passes both guards
      exactly when the token verifies to admin claims, under the same
      verifier that closes the written chain for everyone; other valid
      tokens get 403. */
  lemma ChainOnTokenAdmitsAdmins(scheme: string, token: string, verify: Verifier)
    requires ' ' !in scheme && ' ' !in token
    requires forall s :: ' ' in s ==> verify(s).None?
    ensures Chain(Some(scheme + " " + token), verify) == Halt(Unauthorized)
    ensures var g := ChainOnToken(Some(scheme + " " + token), verify);
            && (g.Proceed? <==> token != "" && verify(token).Some? && IsAdmin(verify(token).value))
            && (g.Proceed? ==> g.user == verify(token).value)
            && (token != "" && verify(token).Some? && !IsAdmin(verify(token).value) ==> g == Halt(Forbidden))
  {
    ChainAlwaysRejects(Some(scheme + " " + token), verify);
    TokenIsSecondWord(scheme, token, verify);
  }
}
