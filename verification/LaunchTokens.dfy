/** Launch tokens: printed with a keyed digest, parsed and verified by Core, and what their age allows. */
module LaunchTokens {
  import opened Wrappers
  import opened Strings

  const APPLICATION_ID_PREFIX := "winexe-v1:"
  const SESSION_IDLE_TIMEOUT_SECS := 600
  const TOKEN_MAX_AGE_SECS := 24 * 60 * 60
  const TOKEN_FUTURE_TOLERANCE_SECS := 5

  datatype Claims = Claims(applicationId: string, issuedAt: U64)

  predicate IsLowercaseHex(s: string) {
    forall i :: 0 <= i < |s| ==> IsDigit(s[i]) || 'a' <= s[i] <= 'f'
  }

  predicate IsHex(s: string, length: nat) {
    |s| == length && IsLowercaseHex(s)
  }

  /** The digest of a payload under a key, printed as 64 hexadecimal digits. */
  type Mac = (string, string) -> string

  ghost predicate IsMac(mac: Mac) {
    forall key: string, payload: string :: IsHex(mac(key, payload), 64)
  }

  predicate IsApplicationId(s: string) {
    |s| >= |APPLICATION_ID_PREFIX| && s[..|APPLICATION_ID_PREFIX|] == APPLICATION_ID_PREFIX &&
    IsHex(s[|APPLICATION_ID_PREFIX|..], 64)
  }

  // ---- Printing ----

  /** Four segments and the digest that seals them. */
  function Sealed(mac: Mac, key: string, segments: seq<string>): string {
    Join(segments, '.') + ['.'] + mac(key, Join(segments, '.'))
  }

  function Sign(mac: Mac, key: string, applicationId: string, issuedAt: U64, nonce: string): string {
    Sealed(mac, key, ["v1", applicationId, Decimal(issuedAt), nonce])
  }

  // ---- Verifying ----

  function ClaimsOf(segments: seq<string>, now: U64): Option<Claims> {
    if |segments| != 4 then None
    else
      var issuedAt := ParseUnsigned(segments[2], U64_MAX);
      if issuedAt.None? || segments[0] != "v1" || !IsApplicationId(segments[1]) || !IsHex(segments[3], 16)
         || issuedAt.value > Saturated(now + TOKEN_FUTURE_TOLERANCE_SECS)
      then None else Some(Claims(segments[1], issuedAt.value))
  }

  function Saturated(n: nat): U64 {
    if n > U64_MAX then U64_MAX else n
  }

  function Verify(mac: Mac, key: string, now: U64, token: string): Option<Claims> {
    var n := FindLast(token, '.');
    if n == |token| then None
    else
      var payload, digest := token[..n], token[n + 1..];
      if !IsHex(digest, 64) || digest != mac(key, payload) then None
      else ClaimsOf(Split(payload, '.'), now)
  }

  lemma HexHasNoDot(s: string)
    requires IsLowercaseHex(s)
    ensures '.' !in s
  {
  }

  lemma ApplicationIdHasNoDot(s: string)
    requires IsApplicationId(s)
    ensures '.' !in s
  {
    var prefix, digest := s[..|APPLICATION_ID_PREFIX|], s[|APPLICATION_ID_PREFIX|..];
    HexHasNoDot(digest);
    assert s == prefix + digest;
    assert '.' !in APPLICATION_ID_PREFIX;
  }

  lemma NumberHasNoDot(s: string)
    requires ParseUnsigned(s, U64_MAX).Some?
    ensures '.' !in s
  {
    var digits := if s[0] == '+' then s[1..] else s;
    assert forall i :: 0 <= i < |s| ==> s[i] == '+' || (exists j :: 0 <= j < |digits| && digits[j] == s[i]) by {
      assert s[0] == '+' ==> forall i :: 1 <= i < |s| ==> digits[i - 1] == s[i];
    }
  }

  /** The segments of acceptable claims contain no separator. */
  lemma ClaimsAreFree(segments: seq<string>, now: U64)
    requires ClaimsOf(segments, now).Some?
    ensures FreeOf(segments, '.')
  {
    assert '.' !in "v1";
    ApplicationIdHasNoDot(segments[1]);
    NumberHasNoDot(segments[2]);
    HexHasNoDot(segments[3]);
  }

  lemma SealedSplits(mac: Mac, key: string, segments: seq<string>)
    requires IsMac(mac)
    ensures var token := Sealed(mac, key, segments);
            var n := FindLast(token, '.');
            n < |token| && token[..n] == Join(segments, '.') && token[n + 1..] == mac(key, Join(segments, '.'))
  {
    var payload := Join(segments, '.');
    HexHasNoDot(mac(key, payload));
    FindLastIn(payload, '.', mac(key, payload));
  }

  lemma AcceptedIsSealed(mac: Mac, key: string, now: U64, token: string) returns (segments: seq<string>)
    requires Verify(mac, key, now, token).Some?
    ensures token == Sealed(mac, key, segments) && ClaimsOf(segments, now) == Verify(mac, key, now, token)
  {
    var n := FindLast(token, '.');
    segments := Split(token[..n], '.');
    JoinOfSplit(token[..n], '.');
    assert token == token[..n] + ['.'] + token[n + 1..];
  }

  lemma SealedIsAccepted(mac: Mac, key: string, now: U64, segments: seq<string>)
    requires IsMac(mac) && ClaimsOf(segments, now).Some?
    ensures Verify(mac, key, now, Sealed(mac, key, segments)) == ClaimsOf(segments, now)
  {
    SealedSplits(mac, key, segments);
    ClaimsAreFree(segments, now);
    SplitOfJoin(segments, '.');
  }

  predicate LowerHex(s: string, length: nat) {
    |s| == length && forall i :: 0 <= i < |s| ==> s[i] in "0123456789abcdef"
  }

  lemma HexIs(s: string, length: nat)
    ensures IsHex(s, length) <==> LowerHex(s, length)
  {
    assert forall i :: 0 <= i < |s| ==> (IsDigit(s[i]) || 'a' <= s[i] <= 'f' <==> s[i] in "0123456789abcdef");
  }

  /** The version, the application id, the issue date, at most five seconds ahead, and a nonce. */
  predicate Carries(segments: seq<string>, claims: Claims, now: U64) {
    && |segments| == 4
    && segments[0] == "v1"
    && segments[1] == claims.applicationId
    && "winexe-v1:" <= claims.applicationId && LowerHex(claims.applicationId[10..], 64)
    && ParseUnsigned(segments[2], U64_MAX) == Some(claims.issuedAt)
    && LowerHex(segments[3], 16)
    && claims.issuedAt <= now + 5
  }

  lemma ClaimsAreCarried(segments: seq<string>, claims: Claims, now: U64)
    ensures ClaimsOf(segments, now) == Some(claims) <==> Carries(segments, claims, now)
  {
    if |segments| == 4 {
      HexIs(segments[3], 16);
      if "winexe-v1:" <= segments[1] {
        HexIs(segments[1][10..], 64);
      }
    }
  }

  /** Main theorem: a token is accepted, with these claims, exactly when it is sealed under the key and
      its segments carry them: the version, the application id, the issue date and a nonce. */
  lemma VerifiesExactlyWhen(mac: Mac, key: string, now: U64, token: string, claims: Claims)
    requires IsMac(mac)
    ensures Verify(mac, key, now, token) == Some(claims) <==>
            exists segments: seq<string> :: token == Sealed(mac, key, segments) && Carries(segments, claims, now)
  {
    if Verify(mac, key, now, token) == Some(claims) {
      var segments := AcceptedIsSealed(mac, key, now, token);
      ClaimsAreCarried(segments, claims, now);
    }
    if segments: seq<string> :| token == Sealed(mac, key, segments) && Carries(segments, claims, now) {
      ClaimsAreCarried(segments, claims, now);
      SealedIsAccepted(mac, key, now, segments);
    }
  }

  /** Round trip: a signed token verifies to what was signed, from five seconds before its date on. */
  lemma SignedTokenVerifies(mac: Mac, key: string, applicationId: string, issuedAt: U64, nonce: string, now: U64)
    requires IsMac(mac) && IsApplicationId(applicationId) && IsHex(nonce, 16)
    ensures Verify(mac, key, now, Sign(mac, key, applicationId, issuedAt, nonce)) ==
            if issuedAt <= now + 5 then Some(Claims(applicationId, issuedAt)) else None
  {
    var segments := ["v1", applicationId, Decimal(issuedAt), nonce];
    DecimalParses(issuedAt, U64_MAX);
    SealedSplits(mac, key, segments);
    assert '.' !in "v1";
    ApplicationIdHasNoDot(applicationId);
    NumberHasNoDot(Decimal(issuedAt));
    HexHasNoDot(nonce);
    SplitOfJoin(segments, '.');
  }

  // ---- What the age of a token allows ----

  function Age(now: U64, claims: Claims): nat {
    if now <= claims.issuedAt then 0 else now - claims.issuedAt
  }

  predicate MayRequest(now: U64, claims: Claims) {
    Age(now, claims) < SESSION_IDLE_TIMEOUT_SECS
  }

  predicate MayRenew(now: U64, claims: Claims) {
    Age(now, claims) < TOKEN_MAX_AGE_SECS
  }

  /** Any other request: the application it is made for, if the token is not idle for too long. */
  function Admits(mac: Mac, key: string, held: string, now: U64): Option<string> {
    var claims := Verify(mac, key, now, held);
    if claims.None? || !MayRequest(now, claims.value) then None else Some(claims.value.applicationId)
  }

  /** `renewSession`: a token that is not too old is answered with a fresh one. */
  function RenewOnce(mac: Mac, key: string, held: string, now: U64, nonce: string): Option<string> {
    var claims := Verify(mac, key, now, held);
    if claims.None? || !MayRenew(now, claims.value) then None
    else Some(Sign(mac, key, claims.value.applicationId, now, nonce))
  }

  /** When a token was issued and with what nonce. */
  type Issue = (U64, string)

  /** The token a holder has after renewing at these issues, each at Core's clock then. */
  function Renewed(mac: Mac, key: string, token: string, issues: seq<Issue>): Option<string> {
    if issues == [] then Some(token)
    else
      match Renewed(mac, key, token, issues[..|issues| - 1])
      case None => None
      case Some(held) => RenewOnce(mac, key, held, issues[|issues| - 1].0, issues[|issues| - 1].1)
  }

  function Latest(first: Issue, issues: seq<Issue>): Issue {
    if issues == [] then first else issues[|issues| - 1]
  }

  /** No two issues in a row are 24 hours apart. */
  predicate InTime(first: Issue, issues: seq<Issue>) {
    issues == [] ||
    var before := issues[..|issues| - 1];
    var next := issues[|issues| - 1];
    InTime(first, before) && Latest(first, before).0 <= next.0 < Latest(first, before).0 + TOKEN_MAX_AGE_SECS &&
    IsHex(next.1, 16)
  }

  /** A renewal gives a fresh token for the same application exactly from five seconds before the issue to
      24 hours after it. */
  lemma RenewalExactlyWhen(mac: Mac, key: string, applicationId: string, issue: Issue, now: U64, nonce: string)
    requires IsMac(mac) && IsApplicationId(applicationId) && IsHex(issue.1, 16)
    ensures RenewOnce(mac, key, Sign(mac, key, applicationId, issue.0, issue.1), now, nonce) ==
            if issue.0 - 5 <= now < issue.0 + 86400 then Some(Sign(mac, key, applicationId, now, nonce)) else None
  {
    SignedTokenVerifies(mac, key, applicationId, issue.0, issue.1, now);
  }

  lemma {:induction false} LatestIsHex(first: Issue, issues: seq<Issue>)
    requires InTime(first, issues) && IsHex(first.1, 16)
    ensures IsHex(Latest(first, issues).1, 16)
  {
  }

  /** A session lasts as long as it is renewed in time: the holder then has a token for the same
      application, dated at the last renewal. */
  lemma {:induction false} RenewalsKeepTheSession(
    mac: Mac, key: string, applicationId: string, first: Issue, issues: seq<Issue>)
    requires IsMac(mac) && IsApplicationId(applicationId) && IsHex(first.1, 16) && InTime(first, issues)
    ensures var latest := Latest(first, issues);
            Renewed(mac, key, Sign(mac, key, applicationId, first.0, first.1), issues) ==
            Some(Sign(mac, key, applicationId, latest.0, latest.1))
  {
    if issues != [] {
      var before := issues[..|issues| - 1];
      var next := issues[|issues| - 1];
      RenewalsKeepTheSession(mac, key, applicationId, first, before);
      LatestIsHex(first, before);
      RenewalExactlyWhen(mac, key, applicationId, Latest(first, before), next.0, next.1);
    }
  }

  /** A session kept by timely renewals admits requests, for its application only, exactly until 600
      seconds after its last renewal; until 24 hours after it one more renewal revives it at once. A clock
      may be five seconds behind that renewal. */
  lemma IdleSessionRecovers(
    mac: Mac, key: string, applicationId: string, first: Issue, issues: seq<Issue>, now: U64, nonce: string)
    requires IsMac(mac) && IsApplicationId(applicationId) && IsHex(first.1, 16) && InTime(first, issues)
    requires IsHex(nonce, 16)
    ensures var last := Latest(first, issues).0;
            var held := Renewed(mac, key, Sign(mac, key, applicationId, first.0, first.1), issues);
            && held.Some?
            && Admits(mac, key, held.value, now) == (if last - 5 <= now < last + 600 then Some(applicationId) else None)
            && var renewed := RenewOnce(mac, key, held.value, now, nonce);
            && (renewed.Some? <==> last - 5 <= now < last + 86400)
            && (renewed.Some? ==> Admits(mac, key, renewed.value, now) == Some(applicationId))
  {
    var latest := Latest(first, issues);
    RenewalsKeepTheSession(mac, key, applicationId, first, issues);
    LatestIsHex(first, issues);
    SignedTokenVerifies(mac, key, applicationId, latest.0, latest.1, now);
    SignedTokenVerifies(mac, key, applicationId, now, nonce, now);
  }
}
