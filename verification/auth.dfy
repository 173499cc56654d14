/** The authentication routes (`routes/auth.js`): the failed-login lockout
    state machine, the MFA gate, password strength and registration, and the
    refresh-token blacklist. Password hashing, TOTP codes and JWT signatures
    are boolean inputs (`passwordOk`, `codeOk`, `tokenValid`). Times are
    milliseconds. */
module Auth {
  import opened Wrappers
  import opened Entities
  import opened Http
  import Seqs

  const LockThreshold: nat := 5
  const LockMinutes: int := 10
  const LockMillis: int := LockMinutes * 60000

  /** Locked while a lockout time is set and still in the future. */
  predicate LockoutActive(u: UserRow, now: int) {
    u.lockoutUntil.Some? && u.lockoutUntil.value > now
  }

  /** Count one more failure; at the threshold, reset the counter and lock
      for ten minutes. The boolean says whether the account got locked. */
  function HandleFailedAttempt(u: UserRow, now: int): (r: (UserRow, bool))
    ensures r.1 <==> u.failedAttempts + 1 >= LockThreshold
    ensures r.1 ==> r.0.failedAttempts == 0 && r.0.lockoutUntil == Some(now + LockMillis)
    ensures r.1 ==> LockoutActive(r.0, now) && !LockoutActive(r.0, now + LockMillis)
    ensures !r.1 ==> r.0.failedAttempts == u.failedAttempts + 1 && r.0.lockoutUntil == u.lockoutUntil
    ensures r.0.failedAttempts < LockThreshold
    ensures r.0 == u.(failedAttempts := r.0.failedAttempts, lockoutUntil := r.0.lockoutUntil)
  {
    var attempts := u.failedAttempts + 1;
    if attempts >= LockThreshold then
      (u.(failedAttempts := 0, lockoutUntil := Some(now + LockMillis)), true)
    else
      (u.(failedAttempts := attempts), false)
  }

  function ResetFailures(u: UserRow): (u': UserRow)
    ensures u'.failedAttempts == 0
    ensures forall now :: !LockoutActive(u', now)
    ensures u' == u.(failedAttempts := 0, lockoutUntil := u'.lockoutUntil)
  {
    u.(failedAttempts := 0, lockoutUntil := None)
  }

  /** An enrolled secret is a truthy `mfa_secret`. */
  predicate HasSecret(u: UserRow) {
    TruthyText(u.mfaSecret)
  }

  /** When the MFA gate lets a login through: with a secret, exactly when
      the code verifies; without one, exactly when MFA is not required. */
  predicate MfaPasses(u: UserRow, codeOk: bool) {
    if HasSecret(u) then codeOk else !u.mfaRequired
  }

  /** One login attempt on a found user: the lockout test, the password,
      the counter reset, then the two MFA conditions. Only the counter and
      the lockout time can change. */
  function Attempt(u: UserRow, now: int, passwordOk: bool, codeOk: bool): (r: (UserRow, Reply))
    ensures LockoutActive(u, now) ==> r == (u, Locked("Account locked"))
    ensures r.1 == Done <==> !LockoutActive(u, now) && passwordOk && MfaPasses(u, codeOk)
    ensures !LockoutActive(u, now) && passwordOk ==>
      r.0.failedAttempts == 0 && r.0.lockoutUntil.None?
    ensures !LockoutActive(u, now) && passwordOk && !MfaPasses(u, codeOk) ==>
      r.1 == Unauthorized("MFA required")
    ensures !LockoutActive(u, now) && !passwordOk ==>
      if u.failedAttempts + 1 >= LockThreshold
      then r.1 == Locked("Account locked") && r.0.failedAttempts == 0 && LockoutActive(r.0, now)
      else r.1 == Unauthorized("Invalid credentials") && r.0.failedAttempts == u.failedAttempts + 1
           && r.0.lockoutUntil == u.lockoutUntil
    ensures u.failedAttempts < LockThreshold ==> r.0.failedAttempts < LockThreshold
    ensures r.0 == u.(failedAttempts := r.0.failedAttempts, lockoutUntil := r.0.lockoutUntil)
  {
    if LockoutActive(u, now) then (u, Locked("Account locked"))
    else if !passwordOk then
      var (u', locked) := HandleFailedAttempt(u, now);
      (u', if locked then Locked("Account locked") else Unauthorized("Invalid credentials"))
    else
      var u' := ResetFailures(u);
      if u.mfaRequired && !HasSecret(u) then (u', Unauthorized("MFA required"))
      else if HasSecret(u) && !codeOk then (u', Unauthorized("MFA required"))
      else (u', Done)
  }

  /** The user table with its next autoincrement id. */
  datatype Accounts = Accounts(users: seq<UserRow>, nextId: Id)

  function FindByEmail(users: seq<UserRow>, email: string): (r: Option<UserRow>)
    ensures r.Some? ==> r.value in users && r.value.email == email
    ensures r.None? ==> forall x :: x in users ==> x.email != email
  {
    Seqs.Find(users, (x: UserRow) => x.email == email)
  }

  /** The `password` field as the bcrypt comparison sees it: absent (or not
      a string), which makes the comparison throw, or compared with the
      stored hash. */
  datatype PasswordField = NoPassword | Compared(matches: bool)

  /** `POST /auth/login`: an unknown email is refused like a wrong password
      but counts nothing; a locked account is refused before the password
      is looked at; a missing password makes the comparison throw, which the
      handler answers with 500 and no change. Only the user's own row
      changes. */
  function Login(st: Accounts, email: string, now: int, password: PasswordField, codeOk: bool): (r: (Accounts, Reply))
    ensures FindByEmail(st.users, email).None? ==> r == (st, Unauthorized("Invalid credentials"))
    ensures FindByEmail(st.users, email).Some? ==>
      var u := FindByEmail(st.users, email).value;
      && (LockoutActive(u, now) ==> r == (st, Locked("Account locked")))
      && (!LockoutActive(u, now) && password.NoPassword? ==> r == (st, ServerError("Login failed")))
      && (!LockoutActive(u, now) && password.Compared? ==>
            var a := Attempt(u, now, password.matches, codeOk);
            && r.1 == a.1
            && a.0 in r.0.users
            && forall x :: x in r.0.users && x.id == u.id ==> x == a.0)
      && (forall x :: x in r.0.users && x.id != u.id <==> x in st.users && x.id != u.id)
    ensures r.0.nextId == st.nextId && |r.0.users| == |st.users|
  {
    match FindByEmail(st.users, email)
    case None => (st, Unauthorized("Invalid credentials"))
    case Some(u) =>
      if LockoutActive(u, now) then (st, Locked("Account locked"))
      else
        match password
        case NoPassword => (st, ServerError("Login failed"))
        case Compared(matches) =>
          var (u', reply) := Attempt(u, now, matches, codeOk);
          (st.(users := Seqs.Replace(st.users, (x: UserRow) => x.id == u.id, u')), reply)
  }

  /** One login attempt in a sequence of attempts on the same user. */
  datatype Try = Try(now: int, passwordOk: bool, codeOk: bool)

  /** Run attempts in order: the final user state and each reply. However
      long the run, only the counter and the lockout time change, and a
      counter that starts below the threshold stays below it. */
  function Replay(u: UserRow, tries: seq<Try>): (r: (UserRow, seq<Reply>))
    ensures |r.1| == |tries|
    ensures r.0 == u.(failedAttempts := r.0.failedAttempts, lockoutUntil := r.0.lockoutUntil)
    ensures u.failedAttempts < LockThreshold ==> r.0.failedAttempts < LockThreshold
    decreases |tries|
  {
    if |tries| == 0 then (u, [])
    else
      var (u1, replies) := Replay(u, tries[..|tries| - 1]);
      var t := tries[|tries| - 1];
      var (u2, reply) := Attempt(u1, t.now, t.passwordOk, t.codeOk);
      (u2, replies + [reply])
  }

  /** Running two stretches of attempts one after the other is running their
      concatenation: the second starts from the state the first left. */
  lemma {:induction false} ReplayConcat(u: UserRow, a: seq<Try>, b: seq<Try>)
    ensures var first := Replay(u, a);
      var second := Replay(first.0, b);
      Replay(u, a + b) == (second.0, first.1 + second.1)
    decreases |b|
  {
    if |b| == 0 {
      assert a + b == a;
      assert Replay(Replay(u, a).0, b) == (Replay(u, a).0, []);
      assert Replay(u, a).1 + [] == Replay(u, a).1;
    } else {
      var b' := b[..|b| - 1];
      var t := b[|b| - 1];
      ReplayConcat(u, a, b');
      assert (a + b)[..|a + b| - 1] == a + b';
      assert (a + b)[|a + b| - 1] == t;
      var first := Replay(u, a);
      var mid := Replay(first.0, b');
      var last := Attempt(mid.0, t.now, t.passwordOk, t.codeOk);
      assert Replay(first.0, b) == (last.0, mid.1 + [last.1]);
      assert Replay(u, a + b) == (last.0, (first.1 + mid.1) + [last.1]);
      assert (first.1 + mid.1) + [last.1] == first.1 + (mid.1 + [last.1]);
    }
  }

  /** Below the threshold, each wrong password adds one to the counter and is
      refused as invalid credentials. */
  lemma {:induction false} WrongStreak(u: UserRow, tries: seq<Try>)
    requires u.failedAttempts + |tries| < LockThreshold
    requires forall i :: 0 <= i < |tries| ==> !tries[i].passwordOk && !LockoutActive(u, tries[i].now)
    ensures Replay(u, tries).0 == u.(failedAttempts := u.failedAttempts + |tries|)
    ensures forall i :: 0 <= i < |tries| ==> Replay(u, tries).1[i] == Unauthorized("Invalid credentials")
    decreases |tries|
  {
    if |tries| > 0 {
      var prefix := tries[..|tries| - 1];
      WrongStreak(u, prefix);
      var t := tries[|tries| - 1];
      var u1 := Replay(u, prefix).0;
      assert !LockoutActive(u1, t.now);
    }
  }

  /** From a clear counter, five wrong passwords give four 401s and then a
      423; the account is then locked for ten minutes even against the right
      password, and afterwards the right password (with MFA satisfied) logs
      in and leaves the counter at 0. */
  lemma FiveWrongPasswordsLock(u: UserRow, tries: seq<Try>, later: int, codeOk: bool)
    requires |tries| == 5 && u.failedAttempts == 0
    requires forall i :: 0 <= i < 5 ==> !tries[i].passwordOk && !LockoutActive(u, tries[i].now)
    ensures Replay(u, tries).1 == [
      Unauthorized("Invalid credentials"), Unauthorized("Invalid credentials"),
      Unauthorized("Invalid credentials"), Unauthorized("Invalid credentials"),
      Locked("Account locked")]
    ensures Replay(u, tries).0.failedAttempts == 0
    ensures Replay(u, tries).0.lockoutUntil == Some(tries[4].now + LockMillis)
    ensures tries[4].now <= later < tries[4].now + LockMillis ==>
      Attempt(Replay(u, tries).0, later, true, codeOk).1 == Locked("Account locked")
    ensures later >= tries[4].now + LockMillis && MfaPasses(u, codeOk) ==>
      Attempt(Replay(u, tries).0, later, true, codeOk).1 == Done
      && Attempt(Replay(u, tries).0, later, true, codeOk).0.failedAttempts == 0
  {
    var prefix := tries[..4];
    WrongStreak(u, prefix);
    assert Replay(u, prefix).0 == u.(failedAttempts := 4);
  }

  /** A locked account answers 423 and keeps its counter, whatever the
      password and code. */
  lemma LockedIgnoresCredentials(u: UserRow, now: int, passwordOk: bool, codeOk: bool)
    requires LockoutActive(u, now)
    ensures Attempt(u, now, passwordOk, codeOk) == (u, Locked("Account locked"))
  {
  }

  /** A correct password clears the counter even when MFA then refuses. */
  lemma MfaFailureKeepsCounterClear(u: UserRow, now: int, codeOk: bool)
    requires !LockoutActive(u, now) && !MfaPasses(u, codeOk)
    ensures Attempt(u, now, true, codeOk).1 == Unauthorized("MFA required")
    ensures Attempt(u, now, true, codeOk).0.failedAttempts == 0
  {
  }

  /** Both MFA refusals carry the same message: the one where MFA is
      required but no secret is enrolled, and the one where the code fails. */
  lemma MfaRefusalsIdentical(u: UserRow, now: int, codeOk: bool)
    requires !LockoutActive(u, now)
    ensures u.mfaRequired && !HasSecret(u) ==> Attempt(u, now, true, codeOk).1 == Unauthorized("MFA required")
    ensures HasSecret(u) && !codeOk ==> Attempt(u, now, true, codeOk).1 == Unauthorized("MFA required")
  {
  }

  predicate IsAsciiLetter(c: char) {
    ('A' <= c <= 'Z') || ('a' <= c <= 'z')
  }

  predicate IsDigit(c: char) {
    '0' <= c <= '9'
  }

  /** The characters a regular-expression `.` does not match. */
  predicate IsLineTerminator(c: char) {
    c == '\n' || c == '\r' || c == '\U{2028}' || c == '\U{2029}'
  }

  /** What `^(?=.*[A-Za-z])(?=.*\d).{8,}$` accepts: at least eight
      characters, none a line terminator, at least one ASCII letter and at
      least one ASCII digit. */
  predicate StrongPassword(pw: string) {
    && |pw| >= 8
    && (forall i :: 0 <= i < |pw| ==> !IsLineTerminator(pw[i]))
    && (exists i :: 0 <= i < |pw| && IsAsciiLetter(pw[i]))
    && (exists i :: 0 <= i < |pw| && IsDigit(pw[i]))
  }

  /** `isPasswordStrong`: one left-to-right scan. */
  method IsPasswordStrong(pw: string) returns (ok: bool)
    ensures ok <==> StrongPassword(pw)
  {
    var letter, digit, clean := false, false, true;
    var i := 0;
    while i < |pw|
      invariant 0 <= i <= |pw|
      invariant letter <==> exists j :: 0 <= j < i && IsAsciiLetter(pw[j])
      invariant digit <==> exists j :: 0 <= j < i && IsDigit(pw[j])
      invariant clean <==> forall j :: 0 <= j < i ==> !IsLineTerminator(pw[j])
    {
      var c := pw[i];
      letter := letter || IsAsciiLetter(c);
      digit := digit || IsDigit(c);
      clean := clean && !IsLineTerminator(c);
      i := i + 1;
    }
    ok := |pw| >= 8 && clean && letter && digit;
  }

  /** The request body of `POST /auth/register`; `None` is an absent field. */
  datatype RegisterBody = RegisterBody(
    email: Option<string>,
    password: Option<string>,
    role: Option<string>,
    clearance: Option<int>,
    department: Option<string>)

  predicate EmailsUnique(users: seq<UserRow>) {
    forall i, j :: 0 <= i < j < |users| ==> users[i].email != users[j].email
  }

  /** `POST /auth/register`: missing fields, then a weak password, then a
      taken email; a new user starts with role `engineer`, clearance 1 and
      department `general` unless the body says otherwise, a clear counter,
      no lockout and no MFA. */
  function Register(st: Accounts, body: RegisterBody): (r: (Accounts, Reply))
    ensures !TruthyText(body.email) || !TruthyText(body.password) ==> r.1 == BadRequest("Missing fields")
    ensures TruthyText(body.email) && TruthyText(body.password) && !StrongPassword(body.password.value) ==>
      r.1 == BadRequest("Weak password")
    ensures (TruthyText(body.email) && TruthyText(body.password) && StrongPassword(body.password.value)
             && FindByEmail(st.users, body.email.value).Some?) ==> r.1 == Conflict("User exists")
    ensures r.1 != Done ==> r.0 == st
    ensures r.1 == Done <==>
      && TruthyText(body.email) && TruthyText(body.password) && StrongPassword(body.password.value)
      && FindByEmail(st.users, body.email.value).None?
    ensures r.1 == Done ==>
      && |r.0.users| == |st.users| + 1
      && r.0.users[..|st.users|] == st.users
      && r.0.nextId == st.nextId + 1
      && var u := r.0.users[|st.users|];
         && u.id == st.nextId && u.email == body.email.value
         && u.role == body.role.GetOr("engineer")
         && u.clearance == Some(body.clearance.GetOr(1))
         && u.department == Some(body.department.GetOr("general"))
         && u.failedAttempts == 0 && u.lockoutUntil.None?
         && u.mfaSecret.None? && !u.mfaRequired
    ensures EmailsUnique(st.users) ==> EmailsUnique(r.0.users)
  {
    if !TruthyText(body.email) || !TruthyText(body.password) then (st, BadRequest("Missing fields"))
    else if !StrongPassword(body.password.value) then (st, BadRequest("Weak password"))
    else if FindByEmail(st.users, body.email.value).Some? then (st, Conflict("User exists"))
    else
      var u := UserRow(
        st.nextId, body.email.value, body.role.GetOr("engineer"),
        Some(body.clearance.GetOr(1)), Some(body.department.GetOr("general")),
        None, false, 0, None);
      assert forall i :: 0 <= i < |st.users| ==> st.users[i] in st.users;
      (Accounts(st.users + [u], st.nextId + 1), Done)
  }

  /** `POST /auth/refresh`: a blacklisted token is refused before it is
      verified; a valid token for an existing user gets a new pair. The
      presented token is not blacklisted. */
  function Refresh(blacklist: set<string>, token: Option<string>, tokenValid: bool, userExists: bool)
    : (r: (set<string>, Reply))
    ensures r.0 == blacklist
    ensures !TruthyText(token) ==> r.1 == BadRequest("Missing token")
    ensures TruthyText(token) && token.value in blacklist ==> r.1 == Unauthorized("Token revoked")
    ensures r.1 == Done <==> TruthyText(token) && token.value !in blacklist && tokenValid && userExists
    ensures TruthyText(token) && token.value !in blacklist && !(tokenValid && userExists) ==>
      r.1 == Unauthorized("Invalid token")
  {
    if !TruthyText(token) then (blacklist, BadRequest("Missing token"))
    else if token.value in blacklist then (blacklist, Unauthorized("Token revoked"))
    else if !tokenValid then (blacklist, Unauthorized("Invalid token"))
    else if !userExists then (blacklist, Unauthorized("Invalid token"))
    else (blacklist, Done)
  }

  /** `POST /auth/logout`: a truthy token joins the blacklist. */
  function Logout(blacklist: set<string>, token: Option<string>): (b: set<string>)
    ensures blacklist <= b
    ensures TruthyText(token) ==> b == blacklist + {token.value}
    ensures !TruthyText(token) ==> b == blacklist
  {
    if TruthyText(token) then blacklist + {token.value} else blacklist
  }

  /** The blacklist operations a sequence of requests can perform. */
  datatype SessionOp =
    | RefreshOp(token: Option<string>, tokenValid: bool, userExists: bool)
    | LogoutOp(token: Option<string>)

  function RunSession(blacklist: set<string>, ops: seq<SessionOp>): set<string>
    decreases |ops|
  {
    if |ops| == 0 then blacklist
    else
      var next := match ops[0]
        case RefreshOp(t, v, e) => Refresh(blacklist, t, v, e).0
        case LogoutOp(t) => Logout(blacklist, t);
      RunSession(next, ops[1..])
  }

  /** The blacklist never shrinks. */
  lemma {:induction false} BlacklistNeverShrinks(blacklist: set<string>, ops: seq<SessionOp>)
    ensures blacklist <= RunSession(blacklist, ops)
    decreases |ops|
  {
    if |ops| > 0 {
      var next := match ops[0]
        case RefreshOp(t, v, e) => Refresh(blacklist, t, v, e).0
        case LogoutOp(t) => Logout(blacklist, t);
      BlacklistNeverShrinks(next, ops[1..]);
    }
  }

  /** Once logged out, a refresh token is refused as revoked for good, even
      while its signature and expiry still verify. */
  lemma LoggedOutTokenRevoked(blacklist: set<string>, token: string, ops: seq<SessionOp>, tokenValid: bool, userExists: bool)
    requires token != ""
    ensures Refresh(RunSession(Logout(blacklist, Some(token)), ops), Some(token), tokenValid, userExists).1
         == Unauthorized("Token revoked")
  {
    BlacklistNeverShrinks(Logout(blacklist, Some(token)), ops);
  }

  /** `POST /auth/mfa/setup`: the caller (from a verified access token) gets
      a fresh secret that replaces any earlier one at once. */
  function EnrollMfa(caller: Option<UserRow>, secret: string): (r: (Option<UserRow>, Reply))
    ensures caller.None? <==> r.1 == Unauthorized("Unauthorized")
    ensures caller.Some? ==> r.0 == Some(caller.value.(mfaSecret := Some(secret))) && r.1 == Done
  {
    match caller
    case None => (None, Unauthorized("Unauthorized"))
    case Some(u) => (Some(u.(mfaSecret := Some(secret))), Done)
  }

  /** `POST /auth/mfa/verify`: the code is checked against the stored secret;
      without a secret it never verifies. */
  function VerifyMfa(caller: Option<UserRow>, codeOk: bool): (r: Reply)
    ensures r == Done <==> caller.Some? && HasSecret(caller.value) && codeOk
    ensures caller.None? ==> r == Unauthorized("Unauthorized")
    ensures caller.Some? && !(HasSecret(caller.value) && codeOk) ==> r == BadRequest("Invalid token")
  {
    match caller
    case None => Unauthorized("Unauthorized")
    case Some(u) => if HasSecret(u) && codeOk then Done else BadRequest("Invalid token")
  }

  /** After enrolling a non-empty secret, verification succeeds exactly
      when the code checks out, and so does a login with the right
      password on an unlocked account. */
  lemma EnrollThenVerify(u: UserRow, secret: string, codeOk: bool, now: int)
    requires secret != ""
    ensures VerifyMfa(EnrollMfa(Some(u), secret).0, codeOk) == Done <==> codeOk
    ensures !LockoutActive(u, now) ==>
      (Attempt(EnrollMfa(Some(u), secret).0.value, now, true, codeOk).1 == Done <==> codeOk)
  {
  }
}
