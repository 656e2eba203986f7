/**
 * `POST` of `src/api/auth/login/route.ts`. The body must be an object with a
 * string zod takes for an e-mail address and a non-empty password; the user
 * is looked up by e-mail and, if found, a session is started. The password
 * is never compared with anything.
 *
 * `generateToken(user.id)` is the `token` parameter and `Date.now()` the
 * `now` parameter.
 */
module Login {
  import opened Wrappers
  import opened JsonData
  import opened Env
  import opened Http
  import opened Validators
  import opened Db
  import opened Auth
  import opened Sessions

  const InvalidCredentials := "Invalid email or password"

  /** `loginSchema`. */
  const LoginSchema: ObjectSchema := [
    ("email", Required(StringRule(0, None, EmailAddress))),
    ("password", Required(StringRule(1, None, AnyText)))
  ]

  /** A body passes `loginSchema` exactly when it holds an e-mail string and a non-empty password string. */
  lemma LoginSchemaMeaning(body: Json, check: FormatCheck)
    ensures Accepts(LoginSchema, body, check) <==>
      && body.JObject?
      && TextAt(body, "email").Some? && check(EmailAddress, TextAt(body, "email").value)
      && TextAt(body, "password").Some? && TextAt(body, "password").value != ""
  {
    if Accepts(LoginSchema, body, check) {
      assert FieldOk(LoginSchema[0].1, Member(body, LoginSchema[0].0), check);
      assert FieldOk(LoginSchema[1].1, Member(body, LoginSchema[1].0), check);
    }
    if && body.JObject?
       && TextAt(body, "email").Some? && check(EmailAddress, TextAt(body, "email").value)
       && TextAt(body, "password").Some? && TextAt(body, "password").value != ""
    {
      forall i | 0 <= i < |LoginSchema|
        ensures FieldOk(LoginSchema[i].1, Member(body, LoginSchema[i].0), check)
      {
        assert i == 0 || i == 1;
      }
    }
  }

  /** Replacing the password of an accepted body by any other non-empty string keeps it accepted. */
  lemma AnyPasswordWillDo(fields: map<string, Json>, check: FormatCheck, password: string)
    requires Accepts(LoginSchema, JObject(fields), check) && password != ""
    ensures Accepts(LoginSchema, JObject(fields["password" := JString(password)]), check)
  {
    var other := JObject(fields["password" := JString(password)]);
    LoginSchemaMeaning(JObject(fields), check);
    assert TextAt(other, "email") == TextAt(JObject(fields), "email");
    assert TextAt(other, "password") == Some(password);
    LoginSchemaMeaning(other, check);
  }

  /** The seven columns the route selects, as the response serialises them. */
  function UserJson(u: User): (j: Json)
    ensures j.JObject? && j.fields.Keys == {"id", "email", "firstName", "lastName", "username", "isPremium", "walletAddress"}
    ensures TextAt(j, "id") == Some(u.id) && TextAt(j, "email") == Some(u.email)
    ensures TextAt(j, "username") == u.username && TextAt(j, "walletAddress") == u.walletAddress
    ensures TextAt(j, "firstName") == Some(u.firstName) && TextAt(j, "lastName") == Some(u.lastName)
    ensures j.fields["isPremium"] == JBool(u.isPremium)
  {
    JObject(map[
      "id" := JString(u.id),
      "email" := JString(u.email),
      "firstName" := JString(u.firstName),
      "lastName" := JString(u.lastName),
      "username" := NullableString(u.username),
      "isPremium" := JBool(u.isPremium),
      "walletAddress" := NullableString(u.walletAddress)
    ])
  }

  /** The body reached the schema and passed it. */
  predicate Admitted(request: Request, check: FormatCheck) {
    request.body.Some? && Accepts(LoginSchema, request.body.value, check)
  }

  method Post(store: Store, cfg: Config, check: FormatCheck, request: Request, token: string, now: int)
    returns (response: Response)
    requires store.Valid()
    modifies store`sessions
    ensures store.Valid() && fresh(response)
    ensures request.body.None? ==>
      && response.status == 500 && response.body == JsonBody(ErrorJson(InternalError))
      && response.cookies == [] && store.sessions == old(store.sessions)
    ensures request.body.Some? && !Admitted(request, check) ==>
      && response.status == 400 && response.body == ValidationIssues
      && response.cookies == [] && store.sessions == old(store.sessions)
    ensures Admitted(request, check) && !store.online ==>
      && response.status == 500 && response.body == JsonBody(ErrorJson(InternalError))
      && response.cookies == [] && store.sessions == old(store.sessions)
    ensures Admitted(request, check) && store.online ==>
      var found := FindFirst(store.users, ByEmail(StringMember(request.body.value, "email")));
      && (found.None? ==>
            && response.status == 401 && response.body == JsonBody(ErrorJson(InvalidCredentials))
            && response.cookies == [] && store.sessions == old(store.sessions))
      && (found.Some? ==>
            && response.status == 200
            && response.body == JsonBody(JObject(map["user" := UserJson(found.value), "token" := JString(token)]))
            && response.cookies == [CookieSet(AuthCookie, token, AuthCookieOptions(cfg))]
            && store.sessions == old(store.sessions) + [NewSession(found.value.id, token, now)])
  {
    if request.body.None? {
      response := new Response.FromJson(ErrorJson(InternalError), 500);
      return;
    }
    var body := request.body.value;
    if !Accepts(LoginSchema, body, check) {
      response := new Response.FromValidationIssues();
      return;
    }
    if !store.online {
      response := new Response.FromJson(ErrorJson(InternalError), 500);
      return;
    }
    var user := FindFirst(store.users, ByEmail(StringMember(body, "email")));
    if user.None? {
      response := new Response.FromJson(ErrorJson(InvalidCredentials), 401);
      return;
    }
    var u := user.value;
    NewSessionValid(cfg, store.users, store.sessions, u, token, now);
    store.CreateSession(NewSession(u.id, token, now));
    response := new Response.FromJson(JObject(map["user" := UserJson(u), "token" := JString(token)]), 200);
    response.SetCookie(AuthCookie, token, AuthCookieOptions(cfg));
  }
}
