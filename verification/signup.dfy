/**
 * The sign-up page, `client/src/pages/auth/signup.tsx`: the form schema that
 * guards submission, the payload sent to `POST /auth/register`, and what the
 * page stores in the session after a successful reply. The email-format check
 * of the schema is an input predicate.
 */
module Signup {
  import opened Wrappers
  import opened Users
  import opened Http
  import Auth
  import opened AuthSlice
  import opened Js

  datatype SignupForm = SignupForm(name: string, email: string, password: string, confirmPassword: string)

  /** A schema issue: the field it is attached to and its message. */
  datatype Issue = Issue(path: string, message: string)

  const MinNameLength := 2
  const MinPasswordLength := 6

  function FieldIssues(f: SignupForm, isEmail: string -> bool): (r: seq<Issue>)
    ensures |r| <= 3
    ensures forall k :: 0 <= k < |r| ==> r[k].path in {"name", "email", "password"}
  {
    (if Length(f.name) < MinNameLength then [Issue("name", "Name must be at least 2 characters")] else [])
    + (if !isEmail(f.email) then [Issue("email", "Invalid email address")] else [])
    + (if Length(f.password) < MinPasswordLength then [Issue("password", "Password must be at least 6 characters")] else [])
  }

  /**
   * `signupSchema.safeParse`: the field checks in declaration order, then the
   * object refinement. Every field is a string, so failed length or format
   * checks do not stop the refinement from running.
   */
  function Validate(f: SignupForm, isEmail: string -> bool): (issues: seq<Issue>)
    ensures issues == [] <==>
      Length(f.name) >= MinNameLength && isEmail(f.email) && Length(f.password) >= MinPasswordLength && f.password == f.confirmPassword
    ensures Length(f.name) < MinNameLength ==> Issue("name", "Name must be at least 2 characters") in issues
    ensures Length(f.password) < MinPasswordLength ==> Issue("password", "Password must be at least 6 characters") in issues
    ensures !isEmail(f.email) ==> Issue("email", "Invalid email address") in issues
    ensures Issue("confirmPassword", "Passwords do not match") in issues <==> f.password != f.confirmPassword
    ensures forall k :: 0 <= k < |issues| && issues[k].path == "confirmPassword" ==> k == |issues| - 1
  {
    var fields := FieldIssues(f, isEmail);
    fields + (if f.password != f.confirmPassword then [Issue("confirmPassword", "Passwords do not match")] else [])
  }

  /** The body of `POST /auth/register`: `confirmPassword` stays on the page. */
  datatype Payload = Payload(name: string, email: string, password: string)

  function ToPayload(f: SignupForm): (p: Payload)
    ensures p.name == f.name && p.email == f.email && p.password == f.password
  {
    Payload(f.name, f.email, f.password)
  }

  /** The register handler on a payload from the page; the page sends no picture. */
  function Submit(store: Auth.Store, crypto: Auth.Crypto, p: Payload, tokens: Auth.Tokens): Auth.Answer {
    Auth.Register(store, crypto, Some(p.email), Some(p.name), Some(p.password), NoFile, tokens)
  }

  /**
   * A form the schema accepts passes every check the server makes of the
   * fields, so registration succeeds unless the email is taken (when the
   * format check refuses the empty string).
   */
  lemma AcceptedFormPassesServerChecks(f: SignupForm, isEmail: string -> bool, store: Auth.Store,
                                       crypto: Auth.Crypto, tokens: Auth.Tokens)
    requires !isEmail("")
    requires Validate(f, isEmail) == []
    ensures var a := Submit(store, crypto, ToPayload(f), tokens);
      a.reply.status == 201 <==> FindByEmail(store.users, f.email).None?
    ensures var a := Submit(store, crypto, ToPayload(f), tokens);
      a.reply.status != 201 ==> a.reply == Reply(400, Auth.EmailTakenMessage)
  {
    assert f.email != "";
  }

  /**
   * `onSubmit` after the reply: a successful one dispatches `setCredentials`
   * with the `user` and `accessToken` it finds in the reply data; a failure
   * only shows a toast.
   */
  function AfterReply(s: AuthState, a: Auth.Answer): (r: AuthState)
    ensures !a.body.Account? ==> r == s
    ensures a.body.Account? ==> r.user == Some(a.body.user) && r.isAuthenticated && r.token == a.body.accessToken
  {
    match a.body
    case Account(user, token) => Reduce(s, SetCredentials(user, token))
    case _ => s
  }

  /**
   * As written, the register reply carries the user but no access token, so
   * a successful sign-up leaves the session marked authenticated with no
   * token: the one reply that breaks the session's consistency.
   */
  lemma SignupLeavesNoToken(s: AuthState, store: Auth.Store, crypto: Auth.Crypto, p: Payload, tokens: Auth.Tokens)
    requires Submit(store, crypto, p, tokens).reply.status == 201
    ensures var r := AfterReply(s, Submit(store, crypto, p, tokens));
      r.isAuthenticated && r.token.None? && !Consistent(r)
  {
  }

  /** With the access token in the reply, a successful sign-up leaves a consistent session holding that token. */
  lemma CorrectedSignupIsConsistent(s: AuthState, store: Auth.Store, crypto: Auth.Crypto, p: Payload, tokens: Auth.Tokens)
    ensures var a := Auth.RegisterReturningToken(store, crypto, Some(p.email), Some(p.name), Some(p.password), NoFile, tokens);
      a.reply.status == 201 ==> AfterReply(s, a).token == Some(tokens.access) && Consistent(AfterReply(s, a))
    ensures var a := Auth.RegisterReturningToken(store, crypto, Some(p.email), Some(p.name), Some(p.password), NoFile, tokens);
      a.reply.status != 201 ==> AfterReply(s, a) == s
  {
  }
}
