/** backend/utils/helpers.js: the response envelope, the e-mail and password
    validators, and the token claims. Argon2 hashing and JWT signing are
    cryptographic library calls and appear only as oracles passed in by callers. */
module Helpers {
  import opened Wrappers
  import Text

  /** Account roles carried in the users table and in token claims. */
  datatype Role = Customer | Staff | Admin

  /** What a signed token carries: `generateToken` puts exactly these four fields in. */
  datatype Claims = Claims(userId: int, username: string, email: string, role: Role)

  // ---------------------------------------------------------------------------
  // response envelope

  /** The JSON `status` field of every reply. */
  datatype EnvelopeStatus = Success | Error

  /** An HTTP reply: status code plus the `{status, data, message?}` body. */
  datatype Response<T> = Response(code: int, status: EnvelopeStatus, data: Option<T>, message: Option<string>)

  /** A JavaScript string is truthy exactly when it is present and non-empty. */
  predicate Truthy(s: Option<string>) {
    s.Some? && s.value != ""
  }

  /** `sendResponse(res, status, data, message)`. */
  function SendResponse<T>(code: int, data: Option<T>, message: Option<string>): (r: Response<T>)
    ensures r.code == code && r.data == data
    ensures r.status == Error <==> code >= 400
    ensures r.message.Some? <==> Truthy(message)
    ensures r.message.Some? ==> r.message == message
  {
    Response(code, if code >= 400 then Error else Success, data, if Truthy(message) then message else None)
  }

  /** The common shape `sendResponse(res, code, null, "...")`. */
  function Reply<T>(code: int, message: string): (r: Response<T>)
    requires message != ""
    ensures r.code == code && r.data.None? && r.message == Some(message)
    ensures r.status == Error <==> code >= 400
  {
    SendResponse(code, None, Some(message))
  }

  // ---------------------------------------------------------------------------
  // isValidEmail: /^[^\s@]+@[^\s@]+\.[^\s@]+$/

  /** The characters matched by `\s` in a JavaScript regular expression. */
  predicate IsJsSpace(c: char) {
    var n := c as int;
    (0x09 <= n <= 0x0D) || n == 0x20 || n == 0xA0 || n == 0x1680
    || (0x2000 <= n <= 0x200A) || n == 0x2028 || n == 0x2029 || n == 0x202F
    || n == 0x205F || n == 0x3000 || n == 0xFEFF
  }

  /** The class `[^\s@]`. */
  predicate Plain(c: char) {
    !IsJsSpace(c) && c != '@'
  }

  predicate AllPlain(s: string) {
    forall i :: 0 <= i < |s| ==> Plain(s[i])
  }

  /** `domain` has a '.' that is neither its first nor its last character. */
  predicate HasInnerDot(domain: string) {
    exists k :: 1 <= k < |domain| - 1 && domain[k] == '.'
  }

  /** The regular expression read as positions: an '@' at `at` and a '.' at `dot`
      with at least one character before, between and after them, and every
      character other than that '@' in the class `[^\s@]`. */
  ghost predicate MatchesEmailPattern(s: string) {
    exists at, dot ::
      0 < at && at + 1 < dot && dot + 1 < |s| && s[at] == '@' && s[dot] == '.'
      && forall i :: 0 <= i < |s| && i != at ==> Plain(s[i])
  }

  /** `isValidEmail(email)`, computed by cutting at the first '@'. */
  function IsValidEmail(email: string): (ok: bool)
    ensures ok <==> MatchesEmailPattern(email)
  {
    match Text.IndexOf(email, '@')
    case None =>
      false
    case Some(at) =>
      var domain := email[at + 1..];
      var ok := at > 0 && AllPlain(email[..at]) && AllPlain(domain) && HasInnerDot(domain);
      EmailCut(email, at);
      ok
  }

  /** Correctness of cutting at the first '@'. */
  lemma EmailCut(email: string, at: nat)
    requires at < |email| && email[at] == '@' && '@' !in email[..at]
    ensures (at > 0 && AllPlain(email[..at]) && AllPlain(email[at + 1..]) && HasInnerDot(email[at + 1..]))
            <==> MatchesEmailPattern(email)
  {
    var domain := email[at + 1..];
    if at > 0 && AllPlain(email[..at]) && AllPlain(domain) && HasInnerDot(domain) {
      var k :| 1 <= k < |domain| - 1 && domain[k] == '.';
      var dot := at + 1 + k;
      assert email[dot] == '.';
      forall i | 0 <= i < |email| && i != at ensures Plain(email[i]) {
        if i < at {
          assert email[i] == email[..at][i];
        } else {
          assert email[i] == domain[i - at - 1];
        }
      }
    }
    if MatchesEmailPattern(email) {
      var a, dot :| 0 < a && a + 1 < dot && dot + 1 < |email| && email[a] == '@' && email[dot] == '.'
        && forall i :: 0 <= i < |email| && i != a ==> Plain(email[i]);
      // the pattern's '@' is the only one, so it is the first one
      assert a == at;
      assert domain[dot - at - 1] == '.';
      forall i | 0 <= i < |email[..at]| ensures Plain(email[..at][i]) {
        assert email[..at][i] == email[i];
      }
      forall i | 0 <= i < |domain| ensures Plain(domain[i]) {
        assert domain[i] == email[at + 1 + i];
      }
    }
  }

  /** `isValidPassword(password)`: present, non-empty and at least six UTF-16
      code units long. */
  function IsValidPassword(password: Option<string>): (ok: bool)
    ensures ok ==> Truthy(password)
    ensures ok <==> password.Some? && Text.Utf16Length(password.value) >= 6
    ensures password.Some? && |password.value| >= 6 ==> ok
    ensures password.Some? && |password.value| < 3 ==> !ok
  {
    Truthy(password) && Text.Utf16Length(password.value) >= 6
  }

  /** A password of Basic Multilingual Plane characters is valid exactly when it
      has at least six of them. */
  lemma BmpPassword(password: string)
    requires forall i :: 0 <= i < |password| ==> password[i] as int < 0x1_0000
    ensures IsValidPassword(Some(password)) <==> |password| >= 6
  {
    Text.Utf16LengthBmp(password);
  }

  /** Three emoji are six code units, so they pass the six-character rule. */
  lemma AstralPassword()
    ensures IsValidPassword(Some("\U{1F600}\U{1F600}\U{1F600}"))
  {
    var p := "\U{1F600}\U{1F600}\U{1F600}";
    assert p[0] as int >= 0x1_0000 && p[1] as int >= 0x1_0000 && p[2] as int >= 0x1_0000;
    assert Text.Utf16Length(p[2..]) == 2;
    assert Text.Utf16Length(p[1..]) == 4;
  }

  // ---------------------------------------------------------------------------
  // verifyToken

  /** What the JWT library does with a token: returns the payload or throws. */
  datatype JwtOutcome = Verified(claims: Claims) | Thrown

  /** `verifyToken(token)`: the `try { jwt.verify } catch { null }` wrapper. */
  function VerifyToken(jwtVerify: string -> JwtOutcome, token: string): (r: Option<Claims>)
    ensures r.None? <==> jwtVerify(token).Thrown?
    ensures r.Some? ==> r.value == jwtVerify(token).claims
  {
    match jwtVerify(token)
    case Verified(c) => Some(c)
    case Thrown => None
  }
}
