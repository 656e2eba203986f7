/**
 * The user, session and password-reset tables, held in memory. `online`
 * false stands for a store that throws on every call.
 */
module Db {
  import opened Wrappers

  datatype User = User(
    id: string,
    email: string,
    firstName: string,
    lastName: string,
    username: Option<string>,
    isPremium: bool,
    walletAddress: Option<string>)

  datatype Session = Session(userId: string, token: string, expiresAt: int)

  /** A row of the reset table; the table is keyed by user id, one row per user. */
  datatype ResetToken = ResetToken(token: string, expires: int)

  function Ids(users: seq<User>): set<string> {
    set u | u in users :: u.id
  }

  /** Appending a user adds its id and no other. */
  lemma IdsAppend(users: seq<User>, u: User)
    ensures Ids(users + [u]) == Ids(users) + {u.id}
  {
    assert forall v :: v in users + [u] <==> v in users || v == u;
  }

  /** Ids, emails and given usernames are each unique in the user table. */
  predicate UniqueKeys(users: seq<User>) {
    forall i, j :: 0 <= i < j < |users| ==>
      && users[i].id != users[j].id
      && users[i].email != users[j].email
      && (users[i].username.Some? ==> users[i].username != users[j].username)
  }

  /** `findUnique`/`findFirst`: a user matching the filter if there is one, and `None` only when none does. */
  function FindFirst(users: seq<User>, filter: User -> bool): (r: Option<User>)
    ensures r.Some? ==> r.value in users && filter(r.value)
    ensures r.None? <==> forall u :: u in users ==> !filter(u)
  {
    if users == [] then None
    else if filter(users[0]) then Some(users[0])
    else
      var r := FindFirst(users[1..], filter);
      assert forall u :: u in users ==> u == users[0] || u in users[1..];
      r
  }

  function ById(id: string): User -> bool {
    (v: User) => v.id == id
  }

  function ByEmail(email: string): User -> bool {
    (v: User) => v.email == email
  }

  /** With unique ids, looking a present user up by id finds that user. */
  lemma FindById(users: seq<User>, u: User)
    requires UniqueKeys(users) && u in users
    ensures FindFirst(users, ById(u.id)) == Some(u)
  {
    var r := FindFirst(users, ById(u.id));
    var i :| 0 <= i < |users| && users[i] == u;
    var j :| 0 <= j < |users| && users[j] == r.value;
    assert i == j;
  }

  /** With unique e-mails, looking a present user up by e-mail finds that user. */
  lemma FindByEmail(users: seq<User>, u: User)
    requires UniqueKeys(users) && u in users
    ensures FindFirst(users, ByEmail(u.email)) == Some(u)
  {
    var r := FindFirst(users, ByEmail(u.email));
    var i :| 0 <= i < |users| && users[i] == u;
    var j :| 0 <= j < |users| && users[j] == r.value;
    assert i == j;
  }

  /**
   * `deleteMany({ where: { token } })`: the sessions holding another token, in
   * their order, each as many times as the table holds it.
   */
  function WithoutToken(sessions: seq<Session>, token: string): (r: seq<Session>)
    ensures forall s :: s in r <==> s in sessions && s.token != token
    ensures forall s :: multiset(r)[s] == if s.token == token then 0 else multiset(sessions)[s]
    ensures |r| <= |sessions|
  {
    if sessions == [] then []
    else
      var rest := WithoutToken(sessions[1..], token);
      assert sessions == [sessions[0]] + sessions[1..];
      assert forall s :: s in sessions ==> s == sessions[0] || s in sessions[1..];
      if sessions[0].token == token then rest else [sessions[0]] + rest
  }

  /** When no session holds the token, deleting by it leaves the table as it was. */
  lemma {:induction false} WithoutAbsentToken(sessions: seq<Session>, token: string)
    requires forall s :: s in sessions ==> s.token != token
    ensures WithoutToken(sessions, token) == sessions
  {
    if sessions != [] {
      assert forall s :: s in sessions[1..] ==> s in sessions;
      WithoutAbsentToken(sessions[1..], token);
      assert sessions == [sessions[0]] + sessions[1..];
    }
  }

  /** Deleting by a token a second time removes nothing more. */
  lemma {:induction false} WithoutTokenIdempotent(sessions: seq<Session>, token: string)
    ensures WithoutToken(WithoutToken(sessions, token), token) == WithoutToken(sessions, token)
  {
    if sessions != [] {
      WithoutTokenIdempotent(sessions[1..], token);
      var rest := WithoutToken(sessions[1..], token);
      if sessions[0].token != token {
        assert ([sessions[0]] + rest)[1..] == rest;
      }
    }
  }

  class Store {
    var online: bool
    var users: seq<User>
    var sessions: seq<Session>
    var resets: map<string, ResetToken>

    /** The unique keys of the user table, and every session and reset row belongs to a user. */
    ghost predicate Valid()
      reads this
    {
      && UniqueKeys(users)
      && (forall s :: s in sessions ==> s.userId in Ids(users))
      && resets.Keys <= Ids(users)
    }

    constructor ()
      ensures Valid() && online
      ensures users == [] && sessions == [] && resets == map[]
    {
      online := true;
      users := [];
      sessions := [];
      resets := map[];
    }

    /** `prisma.user.create`; the store stays valid when the keys stay unique. */
    method CreateUser(u: User)
      modifies this`users
      ensures users == old(users) + [u]
      ensures old(Valid()) && UniqueKeys(users) ==> Valid()
    {
      IdsAppend(users, u);
      users := users + [u];
    }

    /** `prisma.session.create`; the store stays valid when the session's user is stored. */
    method CreateSession(s: Session)
      modifies this`sessions
      ensures sessions == old(sessions) + [s]
      ensures old(Valid()) && s.userId in Ids(users) ==> Valid()
    {
      sessions := sessions + [s];
    }

    /** `prisma.session.deleteMany({ where: { token } })`; the store stays valid. */
    method DeleteSessions(token: string)
      modifies this`sessions
      ensures sessions == WithoutToken(old(sessions), token)
      ensures old(Valid()) ==> Valid()
    {
      sessions := WithoutToken(sessions, token);
    }

    /**
     * `prisma.passwordResetToken.upsert` keyed by `userId`: overwrites the
     * user's row or creates it; the store stays valid when the user is stored.
     */
    method UpsertReset(userId: string, row: ResetToken)
      modifies this`resets
      ensures resets == old(resets)[userId := row]
      ensures old(Valid()) && userId in Ids(users) ==> Valid()
    {
      resets := resets[userId := row];
    }
  }
}
