/**
 * The decision logic of `server/src/controllers/auth.controller.ts`:
 * registration, login, logout, the one-time-password mail throttle, OTP
 * verification and the password reset. Hashing, token signing and token
 * verification, the clock, `Math.random` and the mail server are inputs.
 */
module Auth {
  import opened Wrappers
  import opened Js
  import opened Users
  import opened Http

  /** An OTP document; times are integer milliseconds since the epoch. */
  datatype OtpRecord = OtpRecord(otp: int, count: int, lastSentAt: int, createdAt: int)

  /** The user collection and the OTP collection, whose records are found by email. */
  datatype Store = Store(users: seq<User>, otps: map<string, OtpRecord>)

  /** bcrypt as the handlers use it: `hash` in the pre-save hook, `compare` in `comparePassword`. */
  datatype Crypto = Crypto(hash: string -> string, compare: (string, string) -> bool)

  /** A bcrypt whose hashes are never empty and accept the password they were made from. */
  ghost predicate Sound(c: Crypto) {
    forall p :: c.hash(p) != "" && c.compare(p, c.hash(p))
  }

  /** The pair `generateAccessAndRefreshTokens` signs. */
  datatype Tokens = Tokens(access: string, refresh: string)

  /** The data of a JSON reply. */
  datatype Body = Empty | Account(user: Document, accessToken: Option<string>) | ResetGrant(resetToken: string)

  datatype Answer = Answer(reply: Reply, body: Body, state: Store)

  /** The messages of the replies. */
  const FieldsRequiredMessage := "Name, email, and password are required"
  const ShortPasswordMessage := "Password must be at least 6 characters"
  const EmailTakenMessage := "An account with this email already exists"
  const UploadFailedMessage := "Failed to process profile picture"
  const RegisteredMessage := "User registered successfully"
  const CredentialsRequiredMessage := "Email and password are required"
  const InvalidCredentialsMessage := "Invalid credentials"
  const LoggedInMessage := "User logged in successfully"
  const TooManyRequestsMessage := "Too many requests. Please try again in 5 minutes."
  const OtpSentMessage := "OTP sent successfully. Check your inbox."
  const OtpFieldsRequiredMessage := "Email and OTP are required"
  const OtpMissingMessage := "OTP expired or not found. Please request a new one."
  const WrongOtpMessage := "Invalid verification code."
  const OtpVerifiedMessage := "OTP verified successfully."
  const ResetTokenMissingMessage := "Unauthorized. Reset token missing."
  const ResetTokenInvalidMessage := "Reset token expired or invalid."
  const PasswordUpdatedMessage := "Password updated successfully. Please login."

  function Refuse(status: nat, message: string, store: Store): (a: Answer)
    ensures a.state == store && a.body == Empty && a.reply.status == status
  {
    Answer(Reply(status, message), Empty, store)
  }

  // ---------------------------------------------------------------------------
  // Registration and login
  // ---------------------------------------------------------------------------

  const MinPasswordLength := 6

  /**
   * The document `User.create` stores: the pre-save hook hashes the password,
   * the schema defaults make a plain unverified user, and an empty upload URL
   * is stored as no picture.
   */
  function NewUser(crypto: Crypto, email: string, name: string, password: string, upload: Upload): (u: User)
    ensures u.email == email && u.name == name && u.password == Some(crypto.hash(password))
    ensures u.role == Shopper && !u.isVerified && u.refreshToken.None?
  {
    var picture := if upload.Uploaded? && upload.secureUrl != "" then Some(upload.secureUrl) else None;
    User(name, email, Some(crypto.hash(password)), None, NoAddress, picture, None, Shopper, false)
  }

  /** `POST /auth/register`. The new user's refresh token is stored once the tokens are signed. */
  function Register(store: Store, crypto: Crypto, email: Field, name: Field, password: Field,
                    upload: Upload, tokens: Tokens): (a: Answer)
    ensures a.reply.status in {201, 400, 500}
    ensures a.reply.status == 201 <==>
      (Truthy(email) && Truthy(name) && Truthy(password) && Length(password.value) >= MinPasswordLength
       && FindByEmail(store.users, email.value).None? && !upload.UploadFailed?)
    ensures a.reply.status != 201 ==> a.state == store
    ensures a.reply.status == 500 ==> upload.UploadFailed?
    ensures a.reply.status == 201 ==>
      a.state.otps == store.otps && |a.state.users| == |store.users| + 1 && a.state.users[..|store.users|] == store.users
      && a.state.users[|store.users|] == NewUser(crypto, email.value, name.value, password.value, upload).(refreshToken := Some(tokens.refresh))
      && a.body == Account(Sanitize(a.state.users[|store.users|]), None)
  {
    if !Truthy(email) || !Truthy(name) || !Truthy(password) then
      Refuse(400, FieldsRequiredMessage, store)
    else if Length(password.value) < MinPasswordLength then
      Refuse(400, ShortPasswordMessage, store)
    else if FindByEmail(store.users, email.value).Some? then
      Refuse(400, EmailTakenMessage, store)
    else if upload.UploadFailed? then
      Refuse(500, UploadFailedMessage, store)
    else
      var created := NewUser(crypto, email.value, name.value, password.value, upload);
      var signedIn := created.(refreshToken := Some(tokens.refresh));
      SanitizeIgnoresSecrets(created, created.password, signedIn.refreshToken);
      Answer(Reply(201, RegisteredMessage), Account(Sanitize(created), None),
             store.(users := store.users + [signedIn]))
  }

  /**
   * Registration as the sign-up page reads it: the same handler, with the
   * signed access token also placed in the reply data, as login does.
   */
  function RegisterReturningToken(store: Store, crypto: Crypto, email: Field, name: Field, password: Field,
                                  upload: Upload, tokens: Tokens): (a: Answer)
    ensures var plain := Register(store, crypto, email, name, password, upload, tokens);
      a.reply == plain.reply && a.state == plain.state
      && (a.reply.status != 201 ==> a.body == plain.body)
      && (a.reply.status == 201 ==> a.body == Account(plain.body.user, Some(tokens.access)))
  {
    var plain := Register(store, crypto, email, name, password, upload, tokens);
    if plain.reply.status == 201 then plain.(body := Account(plain.body.user, Some(tokens.access))) else plain
  }

  /** `comparePassword`: a user without a stored hash matches nothing. */
  predicate PasswordMatches(crypto: Crypto, stored: Field, given: string) {
    Truthy(stored) && crypto.compare(given, stored.value)
  }

  /** `POST /auth/login`: the first user with the email, checked against the stored hash. */
  function Login(store: Store, crypto: Crypto, email: Field, password: Field, tokens: Tokens): (a: Answer)
    ensures a.reply.status in {200, 400, 401}
    ensures a.reply.status == 400 <==> !Truthy(email) || !Truthy(password)
    ensures a.reply.status == 401 ==> a.reply.message == InvalidCredentialsMessage
    ensures a.reply.status == 200 <==>
      (Truthy(email) && Truthy(password) && FindByEmail(store.users, email.value).Some?
       && PasswordMatches(crypto, store.users[FindByEmail(store.users, email.value).value].password, password.value))
    ensures a.reply.status != 200 ==> a.state == store
    ensures a.reply.status == 200 ==>
      var i := FindByEmail(store.users, email.value).value;
      a.state == store.(users := UpdateUser(store.users, i, (u: User) => u.(refreshToken := Some(tokens.refresh))))
      && a.body == Account(Sanitize(store.users[i]), Some(tokens.access))
  {
    if !Truthy(email) || !Truthy(password) then
      Refuse(400, CredentialsRequiredMessage, store)
    else
      match FindByEmail(store.users, email.value)
      case None => Refuse(401, InvalidCredentialsMessage, store)
      case Some(i) =>
        if !PasswordMatches(crypto, store.users[i].password, password.value) then
          Refuse(401, InvalidCredentialsMessage, store)
        else
          Answer(Reply(200, LoggedInMessage), Account(Sanitize(store.users[i]), Some(tokens.access)),
                 store.(users := UpdateUser(store.users, i, (u: User) => u.(refreshToken := Some(tokens.refresh)))))
  }

  /** Neither a registration nor a login reply carries a password hash or a refresh token. */
  lemma CredentialRepliesHideSecrets(store: Store, crypto: Crypto, email: Field, name: Field, password: Field,
                                     upload: Upload, tokens: Tokens)
    ensures var a := Register(store, crypto, email, name, password, upload, tokens);
      a.body.Account? ==> PasswordKey !in a.body.user && RefreshTokenKey !in a.body.user
    ensures var a := Login(store, crypto, email, password, tokens);
      a.body.Account? ==> PasswordKey !in a.body.user && RefreshTokenKey !in a.body.user
  {
  }

  /** A caller cannot tell an unknown email from a wrong password: the replies are identical. */
  lemma UnknownEmailLooksLikeWrongPassword(store: Store, crypto: Crypto, email: string, password: string,
                                           other: Store, tokens: Tokens)
    requires email != "" && password != ""
    requires FindByEmail(store.users, email).None?
    requires FindByEmail(other.users, email).Some?
    requires !PasswordMatches(crypto, other.users[FindByEmail(other.users, email).value].password, password)
    ensures Login(store, crypto, Some(email), Some(password), tokens).reply
         == Login(other, crypto, Some(email), Some(password), tokens).reply
  {
  }

  /** With a sound bcrypt, a fresh registration can log in with the password it registered. */
  lemma RegisteredUserCanLogIn(store: Store, crypto: Crypto, email: Field, name: Field, password: Field,
                               upload: Upload, tokens: Tokens, later: Tokens)
    requires Sound(crypto)
    requires Register(store, crypto, email, name, password, upload, tokens).reply.status == 201
    ensures Login(Register(store, crypto, email, name, password, upload, tokens).state, crypto, email, password, later).reply.status == 200
  {
    var users := Register(store, crypto, email, name, password, upload, tokens).state.users;
    var n := |store.users|;
    assert users == store.users + [users[n]];
    FindAppended(store.users, users[n]);
  }

  // ---------------------------------------------------------------------------
  // Logout
  // ---------------------------------------------------------------------------

  /**
   * `POST /auth/logout`, behind the access-token middleware that resolved
   * `caller`: without a refresh-token cookie nothing happens; otherwise the
   * stored refresh token is blanked.
   */
  function Logout(store: Store, caller: UserId, refreshCookie: Field): (a: Answer)
    ensures a.reply.status in {200, 204}
    ensures a.reply.status == 204 <==> !Truthy(refreshCookie)
    ensures a.reply.status == 204 ==> a.state == store
    ensures a.reply.status == 200 ==> a.state.otps == store.otps && |a.state.users| == |store.users|
    ensures a.reply.status == 200 && caller < |store.users| ==> a.state.users[caller].refreshToken == Some("")
    ensures forall k :: 0 <= k < |store.users| && k != caller ==> a.state.users[k] == store.users[k]
  {
    if !Truthy(refreshCookie) then
      Refuse(204, "Already logged out", store)
    else
      Answer(Reply(200, "Logout successful"), Empty,
             store.(users := UpdateUser(store.users, caller, (u: User) => u.(refreshToken := Some("")))))
  }

  /** Logging out twice leaves the same store as logging out once. */
  lemma LogoutIdempotent(store: Store, caller: UserId, refreshCookie: Field)
    ensures var once := Logout(store, caller, refreshCookie).state;
      Logout(once, caller, refreshCookie).state == once
  {
    var once := Logout(store, caller, refreshCookie).state;
    if Truthy(refreshCookie) && caller < |store.users| {
      assert once.users[caller := once.users[caller].(refreshToken := Some(""))] == once.users;
    }
  }

  // ---------------------------------------------------------------------------
  // One-time passwords
  // ---------------------------------------------------------------------------

  /** The resend interval: one minute, in milliseconds. */
  const ResendIntervalMs := 60000
  /** The sends a record allows before the caller must wait for it to expire. */
  const MaxSends := 5

  /** `Math.floor(100000 + Math.random() * 900000)` for `Math.random()` returning `random`. */
  function SixDigitCode(random: real): (code: int)
    requires 0.0 <= random < 1.0
    ensures 100000 <= code <= 999999
  {
    var x := 100000.0 + random * 900000.0;
    assert 100000.0 <= x < 1000000.0;
    x.Floor
  }

  /** Whole seconds still to wait, `Math.ceil(60 - elapsed / 1000)`. */
  function WaitSeconds(elapsedMs: int): (s: nat)
    requires elapsedMs < ResendIntervalMs
    ensures s >= 1
    ensures (s - 1) * 1000 < ResendIntervalMs - elapsedMs <= s * 1000
  {
    CeilDiv(ResendIntervalMs - elapsedMs, 1000)
  }

  /**
   * `Otp.findOneAndUpdate({ email }, ..., { upsert: true })`: a new code sent
   * now, with `$inc: { count: 1 }` counting from nothing for a new record.
   */
  function Resent(existing: Option<OtpRecord>, code: int, now: int): (r: OtpRecord)
    ensures r.otp == code && r.lastSentAt == now && r.createdAt == now
    ensures r.count == if existing.Some? then existing.value.count + 1 else 1
  {
    match existing
    case None => OtpRecord(code, 1, now, now)
    case Some(rec) => rec.(otp := code, count := rec.count + 1, lastSentAt := now, createdAt := now)
  }

  /**
   * `POST /auth/send-otp` at time `now` (milliseconds), with `Math.random()`
   * returning `random` and the mail server accepting the message or not. The
   * record is written before the mail goes out, so a failed mail still counts.
   */
  function SendOtp(store: Store, email: Field, now: int, random: real, mailSent: bool): (a: Answer)
    requires 0.0 <= random < 1.0
    ensures a.reply.status in {200, 400, 404, 429, 500}
    ensures a.reply.status == 400 <==> !Truthy(email)
    ensures a.reply.status == 404 <==> Truthy(email) && FindByEmail(store.users, email.value).None?
    ensures a.reply.status == 429 <==>
      Truthy(email) && FindByEmail(store.users, email.value).Some? && email.value in store.otps
      && (now - store.otps[email.value].lastSentAt < ResendIntervalMs || store.otps[email.value].count >= MaxSends)
    ensures a.reply.status in {400, 404, 429} ==> a.state == store
    ensures a.reply.status in {200, 500} ==> (a.reply.status == 500 <==> !mailSent)
    ensures a.reply.status in {200, 500} ==>
      a.state.users == store.users && a.state.otps.Keys == store.otps.Keys + {email.value}
      && (forall e :: e in store.otps && e != email.value ==> a.state.otps[e] == store.otps[e])
      && a.state.otps[email.value] == Resent(if email.value in store.otps then Some(store.otps[email.value]) else None,
                                             SixDigitCode(random), now)
  {
    if !Truthy(email) then
      Refuse(400, "Email is required", store)
    else if FindByEmail(store.users, email.value).None? then
      Refuse(404, "User not found", store)
    else
      var existing := if email.value in store.otps then Some(store.otps[email.value]) else None;
      if existing.Some? && now - existing.value.lastSentAt < ResendIntervalMs then
        Refuse(429, "Please wait " + DecimalString(WaitSeconds(now - existing.value.lastSentAt))
                    + " seconds before requesting again.", store)
      else if existing.Some? && existing.value.count >= MaxSends then
        Refuse(429, TooManyRequestsMessage, store)
      else
        var updated := store.(otps := store.otps[email.value := Resent(existing, SixDigitCode(random), now)]);
        if mailSent then Answer(Reply(200, OtpSentMessage), Empty, updated)
        else Refuse(500, "", updated)
  }

  /** The throttle comes first: within a minute of the last send a request waits even when the cap is reached. */
  lemma ThrottleBeforeCap(store: Store, email: string, now: int, random: real, mailSent: bool)
    requires 0.0 <= random < 1.0
    requires email != "" && FindByEmail(store.users, email).Some? && email in store.otps
    requires now - store.otps[email].lastSentAt < ResendIntervalMs
    ensures var a := SendOtp(store, Some(email), now, random, mailSent);
      a.reply.status == 429 && StartsWith(a.reply.message, "Please wait ")
  {
    var w := DecimalString(WaitSeconds(now - store.otps[email].lastSentAt));
    var m := "Please wait " + w + " seconds before requesting again.";
    assert SendOtp(store, Some(email), now, random, mailSent).reply == Reply(429, m);
    assert m[..12] == "Please wait ";
  }

  /** Every stored code has six digits and every send count lies in 1..5. */
  ghost predicate OtpsWellFormed(otps: map<string, OtpRecord>) {
    forall e :: e in otps ==> 100000 <= otps[e].otp <= 999999 && 1 <= otps[e].count <= MaxSends
  }

  /** Sending keeps the OTP collection well formed: the cap stops the count at five. */
  lemma SendOtpKeepsOtpsWellFormed(store: Store, email: Field, now: int, random: real, mailSent: bool)
    requires 0.0 <= random < 1.0
    requires OtpsWellFormed(store.otps)
    ensures OtpsWellFormed(SendOtp(store, email, now, random, mailSent).state.otps)
  {
  }

  /** Two accepted sends for one email lie at least a minute apart, whether or not the mail went out. */
  lemma SendsAreAMinuteApart(store: Store, email: Field, first: int, second: int, r1: real, r2: real, m1: bool, m2: bool)
    requires 0.0 <= r1 < 1.0 && 0.0 <= r2 < 1.0
    requires SendOtp(store, email, first, r1, m1).reply.status in {200, 500}
    requires SendOtp(SendOtp(store, email, first, r1, m1).state, email, second, r2, m2).reply.status in {200, 500}
    ensures second - first >= ResendIntervalMs
  {
    var mid := SendOtp(store, email, first, r1, m1).state;
    assert mid.users == store.users;
    assert email.value in mid.otps && mid.otps[email.value].lastSentAt == first;
  }

  /** `POST /auth/verify-otp`: a matching code is consumed and a reset token is handed out. */
  function VerifyOtp(store: Store, email: Field, otp: Field, resetToken: string): (a: Answer)
    ensures a.reply.status in {200, 400, 404}
    ensures a.reply.status == 404 <==> Truthy(email) && Truthy(otp) && email.value !in store.otps
    ensures a.reply.status == 200 <==>
      Truthy(email) && Truthy(otp) && email.value in store.otps && NumberOf(otp.value) == Some(store.otps[email.value].otp)
    ensures a.reply.status != 200 ==> a.state == store
    ensures a.reply.status == 200 ==>
      a.state == store.(otps := store.otps - {email.value}) && a.body == ResetGrant(resetToken)
  {
    if !Truthy(email) || !Truthy(otp) then
      Refuse(400, OtpFieldsRequiredMessage, store)
    else if email.value !in store.otps then
      Refuse(404, OtpMissingMessage, store)
    else if NumberOf(otp.value) != Some(store.otps[email.value].otp) then
      Refuse(400, WrongOtpMessage, store)
    else
      Answer(Reply(200, OtpVerifiedMessage), ResetGrant(resetToken),
             store.(otps := store.otps - {email.value}))
  }

  /** A code works once: presenting it again finds no record. */
  lemma OtpSingleUse(store: Store, email: Field, otp: Field, t1: string, t2: string)
    requires VerifyOtp(store, email, otp, t1).reply.status == 200
    ensures VerifyOtp(VerifyOtp(store, email, otp, t1).state, email, otp, t2).reply.status == 404
  {
  }

  /** The code written into the mail, typed back in, verifies. */
  lemma MailedCodeVerifies(store: Store, email: Field, now: int, random: real, resetToken: string)
    requires 0.0 <= random < 1.0
    requires SendOtp(store, email, now, random, true).reply.status == 200
    ensures var sent := SendOtp(store, email, now, random, true).state;
      VerifyOtp(sent, email, Some(DecimalString(SixDigitCode(random))), resetToken).reply.status == 200
  {
    NumberOfDecimal(SixDigitCode(random));
  }

  // ---------------------------------------------------------------------------
  // Password reset
  // ---------------------------------------------------------------------------

  /** `authHeader.split(' ')[1]` once the header is known to start with "Bearer ". */
  function BearerToken(header: string): (t: string)
    requires StartsWith(header, "Bearer ")
    ensures ' ' !in t
  {
    assert header[6] == ' ';
    Split(header, ' ')[1]
  }

  /** A header "Bearer <t>" with a space-free token yields exactly that token. */
  lemma BearerTokenOf(t: string)
    requires ' ' !in t
    ensures BearerToken("Bearer " + t) == t
  {
    assert "Bearer " + t == "Bearer" + [' '] + t;
    SplitAfterSeparator("Bearer", t, ' ');
  }

  /**
   * The schema's `role` enum admits `'user'` and `'admin'`. `'seller'` is
   * written by the business handlers through `findByIdAndUpdate`, which runs
   * no validators, so a seller's stored role lies outside the enum.
   */
  predicate RoleInEnum(r: Role) {
    r != Seller
  }

  /**
   * The reset, parameterised by what the final `save` validates. With
   * `validateAll` it is the handler's plain `user.save()`, which validates
   * every loaded path, so a stored role outside the enum fails. Without it,
   * only the modified paths (password, refresh token) are validated.
   */
  function Reset(store: Store, crypto: Crypto, header: Field, newPassword: Field, confirmPassword: Field,
                 verify: string -> Option<string>, validateAll: bool): Answer {
    if !Truthy(header) || !StartsWith(header.value, "Bearer ") then
      Refuse(401, ResetTokenMissingMessage, store)
    else
      match verify(BearerToken(header.value))
      case None => Refuse(401, ResetTokenInvalidMessage, store)
      case Some(email) =>
        if newPassword != confirmPassword then
          Refuse(400, "Passwords do not match", store)
        else
          match FindByEmail(store.users, email)
          case None => Refuse(404, "User no longer exists", store)
          case Some(i) =>
            if !Truthy(newPassword) || (validateAll && !RoleInEnum(store.users[i].role)) then
              Refuse(500, "", store)
            else
              Answer(Reply(200, PasswordUpdatedMessage), Empty,
                     store.(users := store.users[i := store.users[i].(
                       password := Some(crypto.hash(newPassword.value)), refreshToken := None)]))
  }

  /** The header carries a Bearer token that `verify` accepts. */
  predicate ValidResetHeader(header: Field, verify: string -> Option<string>) {
    Truthy(header) && StartsWith(header.value, "Bearer ") && verify(BearerToken(header.value)).Some?
  }

  /**
   * `POST /auth/reset-password`. `verify` stands for `jwt.verify` with the
   * reset secret: the email claim of a valid token, or `None`. The new
   * password is checked against the confirmation only once the token is
   * valid. The save fails, uncaught and so a 500, when the new password is
   * missing or empty (the schema's `required` rule) or when the user's
   * stored role lies outside the enum.
   */
  function ResetPassword(store: Store, crypto: Crypto, header: Field, newPassword: Field, confirmPassword: Field,
                         verify: string -> Option<string>): (a: Answer)
    ensures a.reply.status in {200, 400, 401, 404, 500}
    ensures a.reply.status == 401 <==> !ValidResetHeader(header, verify)
    ensures a.reply.status == 400 <==> ValidResetHeader(header, verify) && newPassword != confirmPassword
    ensures ValidResetHeader(header, verify) && newPassword == confirmPassword ==>
      var i := FindByEmail(store.users, verify(BearerToken(header.value)).value);
      && (a.reply.status == 404 <==> i.None?)
      && (a.reply.status == 500 <==> i.Some? && (!Truthy(newPassword) || !RoleInEnum(store.users[i.value].role)))
      && (a.reply.status == 200 <==> i.Some? && Truthy(newPassword) && RoleInEnum(store.users[i.value].role))
    ensures a.reply.status != 200 ==> a.state == store
    ensures a.reply.status == 200 ==>
      var email := verify(BearerToken(header.value)).value;
      var i := FindByEmail(store.users, email);
      i.Some? && Truthy(newPassword) && newPassword == confirmPassword
      && a.state == store.(users := store.users[i.value := store.users[i.value].(
           password := Some(crypto.hash(newPassword.value)), refreshToken := None)])
  {
    Reset(store, crypto, header, newPassword, confirmPassword, verify, true)
  }

  /**
   * A seller can never reset their password: with a valid token and a
   * matching new password the save fails, and nothing changes.
   */
  lemma SellerCannotReset(store: Store, crypto: Crypto, header: Field, newPassword: Field,
                          verify: string -> Option<string>)
    requires ValidResetHeader(header, verify)
    requires FindByEmail(store.users, verify(BearerToken(header.value)).value).Some?
    requires store.users[FindByEmail(store.users, verify(BearerToken(header.value)).value).value].role == Seller
    ensures var a := ResetPassword(store, crypto, header, newPassword, newPassword, verify);
      a.reply.status == 500 && a.state == store
  {
  }

  /**
   * The reset with `user.save({ validateModifiedOnly: true })`: the stored
   * role is not re-validated, so it answers as the handler does for every
   * user outside the seller role, and lets a seller reset too.
   */
  function ResetPasswordModifiedOnly(store: Store, crypto: Crypto, header: Field, newPassword: Field,
                                     confirmPassword: Field, verify: string -> Option<string>): (a: Answer)
    ensures ValidResetHeader(header, verify) && newPassword == confirmPassword ==>
      var i := FindByEmail(store.users, verify(BearerToken(header.value)).value);
      a.reply.status == 200 <==> i.Some? && Truthy(newPassword)
    ensures a.reply.status != 200 ==> a.state == store
    ensures a.reply.status == 200 ==>
      ValidResetHeader(header, verify) && newPassword == confirmPassword && Truthy(newPassword) &&
      var i := FindByEmail(store.users, verify(BearerToken(header.value)).value);
      i.Some? && a.state == store.(users := store.users[i.value := store.users[i.value].(
        password := Some(crypto.hash(newPassword.value)), refreshToken := None)])
  {
    Reset(store, crypto, header, newPassword, confirmPassword, verify, false)
  }

  /** The corrected reset and the handler differ only on a user whose stored role is outside the enum. */
  lemma ModifiedOnlyAgreesOffSellers(store: Store, crypto: Crypto, header: Field, newPassword: Field,
                                     confirmPassword: Field, verify: string -> Option<string>)
    requires forall k :: 0 <= k < |store.users| ==> RoleInEnum(store.users[k].role)
    ensures ResetPasswordModifiedOnly(store, crypto, header, newPassword, confirmPassword, verify)
         == ResetPassword(store, crypto, header, newPassword, confirmPassword, verify)
  {
  }

  /** After a reset, the new password logs in, given a sound bcrypt. */
  lemma ResetThenLogin(store: Store, crypto: Crypto, header: Field, newPassword: Field,
                       verify: string -> Option<string>, tokens: Tokens)
    requires Sound(crypto)
    requires ResetPassword(store, crypto, header, newPassword, newPassword, verify).reply.status == 200
    requires verify(BearerToken(header.value)).value != ""
    ensures var after := ResetPassword(store, crypto, header, newPassword, newPassword, verify).state;
      var email := verify(BearerToken(header.value)).value;
      Login(after, crypto, Some(email), newPassword, tokens).reply.status == 200
  {
    var email := verify(BearerToken(header.value)).value;
    var i := FindByEmail(store.users, email).value;
    var after := ResetPassword(store, crypto, header, newPassword, newPassword, verify).state;
    assert forall k :: 0 <= k < |store.users| ==> after.users[k].email == store.users[k].email;
    assert FindByEmail(after.users, email) == Some(i);
  }

  /** The reset, unlike registration, applies no length rule: a one-letter password is saved. */
  lemma ResetSkipsLengthRule(store: Store, crypto: Crypto, verify: string -> Option<string>)
    requires |store.users| == 1 && store.users[0].email == "a@b.c" && store.users[0].role != Seller
    requires verify("t") == Some("a@b.c")
    ensures ResetPassword(store, crypto, Some("Bearer t"), Some("x"), Some("x"), verify).reply.status == 200
  {
    var header := "Bearer t";
    assert header == "Bearer " + "t";
    assert StartsWith(header, "Bearer ");
    BearerTokenOf("t");
    assert FindByEmail(store.users, "a@b.c") == Some(0);
  }

  /** With the corrected save, every user, a seller included, logs in with the new password after a reset. */
  lemma ResetThenLoginAnyRole(store: Store, crypto: Crypto, header: Field, newPassword: Field,
                              verify: string -> Option<string>, tokens: Tokens)
    requires Sound(crypto)
    requires ValidResetHeader(header, verify) && verify(BearerToken(header.value)).value != ""
    requires FindByEmail(store.users, verify(BearerToken(header.value)).value).Some? && Truthy(newPassword)
    ensures var after := ResetPasswordModifiedOnly(store, crypto, header, newPassword, newPassword, verify).state;
      Login(after, crypto, Some(verify(BearerToken(header.value)).value), newPassword, tokens).reply.status == 200
  {
    var email := verify(BearerToken(header.value)).value;
    var i := FindByEmail(store.users, email).value;
    var after := ResetPasswordModifiedOnly(store, crypto, header, newPassword, newPassword, verify).state;
    assert forall k :: 0 <= k < |store.users| ==> after.users[k].email == store.users[k].email;
    assert FindByEmail(after.users, email) == Some(i);
  }
}
