/**
 * `POST` of `src/api/auth/register/route.ts`. A body that passes the schema
 * is refused when a stored user already has its e-mail or, if one is given,
 * its username; otherwise the user is created (not premium, no wallet, and
 * no password stored) and a session is started exactly as at login.
 *
 * The store's id generator is the `newId` parameter, `generateToken` the
 * `token` parameter and `Date.now()` the `now` parameter.
 */
module Register {
  import opened Wrappers
  import opened JsonData
  import opened Env
  import opened Http
  import opened Validators
  import opened Db
  import opened Auth
  import opened Sessions

  const AlreadyExists := "User with this email or username already exists"

  /** `registerSchema`. */
  const RegisterSchema: ObjectSchema := [
    ("email", Required(StringRule(0, None, EmailAddress))),
    ("firstName", Required(StringRule(1, None, AnyText))),
    ("lastName", Required(StringRule(1, None, AnyText))),
    ("password", Required(StringRule(8, None, AnyText))),
    ("username", Optional(StringRule(3, None, AnyText)))
  ]

  /**
   * A body passes `registerSchema` exactly when it holds an e-mail string,
   * non-empty first and last names, a password of at least eight characters,
   * and either no username or one of at least three characters.
   */
  lemma RegisterSchemaMeaning(body: Json, check: FormatCheck)
    ensures Accepts(RegisterSchema, body, check) <==>
      && body.JObject?
      && TextAt(body, "email").Some? && check(EmailAddress, TextAt(body, "email").value)
      && TextAt(body, "firstName").Some? && TextAt(body, "firstName").value != ""
      && TextAt(body, "lastName").Some? && TextAt(body, "lastName").value != ""
      && TextAt(body, "password").Some? && |TextAt(body, "password").value| >= 8
      && (Member(body, "username").None? ||
          (TextAt(body, "username").Some? && |TextAt(body, "username").value| >= 3))
  {
    if Accepts(RegisterSchema, body, check) {
      assert FieldOk(RegisterSchema[0].1, Member(body, RegisterSchema[0].0), check);
      assert FieldOk(RegisterSchema[1].1, Member(body, RegisterSchema[1].0), check);
      assert FieldOk(RegisterSchema[2].1, Member(body, RegisterSchema[2].0), check);
      assert FieldOk(RegisterSchema[3].1, Member(body, RegisterSchema[3].0), check);
      assert FieldOk(RegisterSchema[4].1, Member(body, RegisterSchema[4].0), check);
    }
    if && body.JObject?
       && TextAt(body, "email").Some? && check(EmailAddress, TextAt(body, "email").value)
       && TextAt(body, "firstName").Some? && TextAt(body, "firstName").value != ""
       && TextAt(body, "lastName").Some? && TextAt(body, "lastName").value != ""
       && TextAt(body, "password").Some? && |TextAt(body, "password").value| >= 8
       && (Member(body, "username").None? ||
           (TextAt(body, "username").Some? && |TextAt(body, "username").value| >= 3))
    {
      forall i | 0 <= i < |RegisterSchema|
        ensures FieldOk(RegisterSchema[i].1, Member(body, RegisterSchema[i].0), check)
      {
        assert i == 0 || i == 1 || i == 2 || i == 3 || i == 4;
      }
    }
  }

  /** `{ OR: [{ email }, ...(username ? [{ username }] : [])] }`. */
  function Conflicts(email: string, username: Option<string>): User -> bool {
    (v: User) => v.email == email || (username.Some? && v.username == username)
  }

  /** The six columns the route selects: the wallet address is not among them. */
  function RegisteredUserJson(u: User): (j: Json)
    ensures j.JObject? && j.fields.Keys == {"id", "email", "firstName", "lastName", "username", "isPremium"}
    ensures "walletAddress" !in j.fields
    ensures TextAt(j, "id") == Some(u.id) && TextAt(j, "email") == Some(u.email)
    ensures TextAt(j, "username") == u.username
    ensures TextAt(j, "firstName") == Some(u.firstName) && TextAt(j, "lastName") == Some(u.lastName)
    ensures j.fields["isPremium"] == JBool(u.isPremium)
  {
    JObject(map[
      "id" := JString(u.id),
      "email" := JString(u.email),
      "firstName" := JString(u.firstName),
      "lastName" := JString(u.lastName),
      "username" := NullableString(u.username),
      "isPremium" := JBool(u.isPremium)
    ])
  }

  /** The user `prisma.user.create` makes from the parsed body: never premium, with no wallet address. */
  function NewUser(id: string, body: Json): (u: User)
    ensures u.id == id && u.email == StringMember(body, "email")
    ensures u.firstName == StringMember(body, "firstName") && u.lastName == StringMember(body, "lastName")
    ensures u.username == TextAt(body, "username")
    ensures !u.isPremium && u.walletAddress.None?
  {
    User(id, StringMember(body, "email"), StringMember(body, "firstName"), StringMember(body, "lastName"),
         TextAt(body, "username"), false, None)
  }

  /**
   * A user the conflict check lets in keeps the keys of the table unique,
   * and afterwards its e-mail conflicts with a stored user.
   */
  lemma {:induction false} AddingUnconflictedUser(users: seq<User>, u: User)
    requires UniqueKeys(users)
    requires u.id !in Ids(users)
    requires FindFirst(users, Conflicts(u.email, u.username)).None?
    ensures UniqueKeys(users + [u])
    ensures FindFirst(users + [u], Conflicts(u.email, u.username)).Some?
  {
    var all := users + [u];
    forall i, j | 0 <= i < j < |all|
      ensures && all[i].id != all[j].id
              && all[i].email != all[j].email
              && (all[i].username.Some? ==> all[i].username != all[j].username)
    {
      if j == |users| {
        assert all[i] in users;
        assert !Conflicts(u.email, u.username)(all[i]);
        assert all[i].id in Ids(users);
      }
    }
    assert u in all && Conflicts(u.email, u.username)(u);
  }

  /** The body reached the schema and passed it. */
  predicate Admitted(request: Request, check: FormatCheck) {
    request.body.Some? && Accepts(RegisterSchema, request.body.value, check)
  }

  method Post(store: Store, cfg: Config, check: FormatCheck, request: Request, newId: string, token: string, now: int)
    returns (response: Response)
    requires store.Valid()
    requires newId !in Ids(store.users)
    modifies store`users, store`sessions
    ensures store.Valid() && fresh(response)
    ensures request.body.None? ==>
      && response.status == 500 && response.body == JsonBody(ErrorJson(InternalError)) && response.cookies == []
      && store.users == old(store.users) && store.sessions == old(store.sessions)
    ensures request.body.Some? && !Admitted(request, check) ==>
      && response.status == 400 && response.body == ValidationIssues && response.cookies == []
      && store.users == old(store.users) && store.sessions == old(store.sessions)
    ensures Admitted(request, check) && !store.online ==>
      && response.status == 500 && response.body == JsonBody(ErrorJson(InternalError)) && response.cookies == []
      && store.users == old(store.users) && store.sessions == old(store.sessions)
    ensures Admitted(request, check) && store.online ==>
      var body := request.body.value;
      var u := NewUser(newId, body);
      var existing := FindFirst(old(store.users), Conflicts(u.email, u.username));
      && (existing.Some? ==>
            && response.status == 400 && response.body == JsonBody(ErrorJson(AlreadyExists)) && response.cookies == []
            && store.users == old(store.users) && store.sessions == old(store.sessions))
      && (existing.None? ==>
            && store.users == old(store.users) + [u]
            && store.sessions == old(store.sessions) + [NewSession(newId, token, now)]
            && response.status == 200
            && response.body == JsonBody(JObject(map["user" := RegisteredUserJson(u), "token" := JString(token)]))
            && response.cookies == [CookieSet(AuthCookie, token, AuthCookieOptions(cfg))])
  {
    if request.body.None? {
      response := new Response.FromJson(ErrorJson(InternalError), 500);
      return;
    }
    var body := request.body.value;
    if !Accepts(RegisterSchema, body, check) {
      response := new Response.FromValidationIssues();
      return;
    }
    if !store.online {
      response := new Response.FromJson(ErrorJson(InternalError), 500);
      return;
    }
    var u := NewUser(newId, body);
    var existing := FindFirst(store.users, Conflicts(u.email, u.username));
    if existing.Some? {
      response := new Response.FromJson(ErrorJson(AlreadyExists), 400);
      return;
    }
    response := SignUp(store, cfg, u, token, now);
  }

  /**
   * The success path: the user is stored, a session is started for it, and
   * the response carries the user, the token and the auth cookie.
   */
  method SignUp(store: Store, cfg: Config, u: User, token: string, now: int) returns (response: Response)
    requires store.Valid()
    requires u.id !in Ids(store.users)
    requires FindFirst(store.users, Conflicts(u.email, u.username)).None?
    modifies store`users, store`sessions
    ensures store.Valid() && fresh(response)
    ensures store.users == old(store.users) + [u]
    ensures store.sessions == old(store.sessions) + [NewSession(u.id, token, now)]
    ensures response.status == 200
    ensures response.body == JsonBody(JObject(map["user" := RegisteredUserJson(u), "token" := JString(token)]))
    ensures response.cookies == [CookieSet(AuthCookie, token, AuthCookieOptions(cfg))]
  {
    AddingUnconflictedUser(store.users, u);
    IdsAppend(store.users, u);
    store.CreateUser(u);
    assert store.resets.Keys <= Ids(store.users);
    assert u in store.users;
    NewSessionValid(cfg, store.users, store.sessions, u, token, now);
    store.CreateSession(NewSession(u.id, token, now));
    response := new Response.FromJson(JObject(map["user" := RegisteredUserJson(u), "token" := JString(token)]), 200);
    response.SetCookie(AuthCookie, token, AuthCookieOptions(cfg));
  }

  /** The same registration sent twice: the second is refused and the store keeps only the first user. */
  method RegisterTwice(store: Store, cfg: Config, check: FormatCheck, request: Request,
                       id1: string, id2: string, token1: string, token2: string, now: int)
    returns (first: Response, second: Response)
    requires store.Valid() && store.online
    requires id1 !in Ids(store.users) && id2 !in Ids(store.users) && id1 != id2
    modifies store`users, store`sessions
    ensures store.Valid()
    ensures first.status == 200 ==>
      && second.status == 400
      && |store.users| == |old(store.users)| + 1
      && |store.sessions| == |old(store.sessions)| + 1
  {
    first := Post(store, cfg, check, request, id1, token1, now);
    ghost var afterFirst := store.users;
    assert id2 !in Ids(store.users) by {
      assert forall v :: v in store.users ==> v in old(store.users) || v.id == id1;
    }
    second := Post(store, cfg, check, request, id2, token2, now);
    if first.status == 200 {
      assert Admitted(request, check) && store.online;
      var u := NewUser(id1, request.body.value);
      assert afterFirst == old(store.users) + [u];
      AddingUnconflictedUser(old(store.users), u);
      assert NewUser(id2, request.body.value).email == u.email;
      assert FindFirst(afterFirst, Conflicts(u.email, u.username)).Some?;
    }
  }
}
