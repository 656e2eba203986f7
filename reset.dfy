/**
 * The forgot-password handler of `src/app/api/auth/reset-password/route.ts`:
 * for a known e-mail a fresh 32-byte token, written as lower-case hex, is
 * stored in the user's reset row (overwriting any earlier one) with a
 * one-hour expiry and mailed; an unknown e-mail gets the same 200 as a
 * known one would, without touching anything.
 *
 * `crypto.randomBytes(32)` is the `random` parameter, `Date.now()` the `now`
 * parameter, and `sendResetEmail` is the returned `mail` together with the
 * `mailDelivered` parameter saying whether the mailer succeeded.
 */
module PasswordReset {
  import opened Wrappers
  import opened JsonData
  import opened Http
  import opened Validators
  import opened Db

  type byte = x: int | 0 <= x < 256

  predicate IsHexDigit(c: char) {
    '0' <= c <= '9' || 'a' <= c <= 'f'
  }

  function DigitValue(c: char): (n: nat)
    requires IsHexDigit(c)
    ensures n < 16
  {
    if c <= '9' then c as int - '0' as int else c as int - 'a' as int + 10
  }

  /** The lower-case hex digit of a nibble; reading it back gives the nibble. */
  function HexDigit(n: nat): (c: char)
    requires n < 16
    ensures IsHexDigit(c) && DigitValue(c) == n
  {
    if n < 10 then ('0' as int + n) as char else ('a' as int + n - 10) as char
  }

  /** Every hex digit is the digit of its own value. */
  lemma DigitRoundTrip(c: char)
    requires IsHexDigit(c)
    ensures HexDigit(DigitValue(c)) == c
  {
  }

  /** `buffer.toString('hex')`: two lower-case digits per byte, high nibble first. */
  function Hex(bytes: seq<byte>): (s: string)
    ensures |s| == 2 * |bytes|
    ensures forall i :: 0 <= i < |s| ==> IsHexDigit(s[i])
  {
    if bytes == [] then ""
    else [HexDigit(bytes[0] / 16), HexDigit(bytes[0] % 16)] + Hex(bytes[1..])
  }

  /** Reading hex back: `None` for an odd length or a character that is not a lower-case hex digit. */
  function FromHex(s: string): (r: Option<seq<byte>>)
    ensures r.Some? ==> 2 * |r.value| == |s|
  {
    if |s| == 0 then Some([])
    else if |s| == 1 || !IsHexDigit(s[0]) || !IsHexDigit(s[1]) then None
    else
      match FromHex(s[2..])
      case None => None
      case Some(rest) => Some([DigitValue(s[0]) * 16 + DigitValue(s[1])] + rest)
  }

  lemma {:induction false} HexRoundTrip(bytes: seq<byte>)
    ensures FromHex(Hex(bytes)) == Some(bytes)
  {
    if bytes != [] {
      var s := Hex(bytes);
      HexRoundTrip(bytes[1..]);
      assert s[0] == HexDigit(bytes[0] / 16) && s[1] == HexDigit(bytes[0] % 16);
      assert s[2..] == Hex(bytes[1..]);
      assert DigitValue(s[0]) * 16 + DigitValue(s[1]) == bytes[0];
      assert FromHex(s) == Some([bytes[0]] + bytes[1..]);
      assert [bytes[0]] + bytes[1..] == bytes;
    }
  }

  lemma {:induction false} FromHexRoundTrip(s: string)
    requires FromHex(s).Some?
    ensures Hex(FromHex(s).value) == s
  {
    if |s| > 0 {
      var rest := FromHex(s[2..]).value;
      FromHexRoundTrip(s[2..]);
      var b: byte := DigitValue(s[0]) * 16 + DigitValue(s[1]);
      assert FromHex(s).value == [b] + rest;
      assert b / 16 == DigitValue(s[0]) && b % 16 == DigitValue(s[1]);
      DigitRoundTrip(s[0]);
      DigitRoundTrip(s[1]);
      assert Hex([b] + rest) == [s[0], s[1]] + s[2..];
    }
  }

  /** Different random bytes give different tokens. */
  lemma HexInjective(a: seq<byte>, b: seq<byte>)
    requires Hex(a) == Hex(b)
    ensures a == b
  {
    HexRoundTrip(a);
    HexRoundTrip(b);
  }

  const TokenBytes := 32
  const ResetLifetimeMs := 1000 * 60 * 60
  const IfUserExists := "If user exists, a reset link will be sent."
  const ResetSent := "Password reset email sent."
  const SomethingWentWrong := "Something went wrong"

  /** `sendResetEmail(email, token)`. */
  datatype ResetEmail = ResetEmail(to: string, token: string)

  /**
   * `const { email } = await req.json()` as the lookup can use it: only a
   * string. A body that is not JSON or not an object, or an `email` that is
   * missing or not a string, makes the route fail before or at the lookup.
   */
  function RequestedEmail(request: Request): Option<string> {
    if request.body.Some? then TextAt(request.body.value, "email") else None
  }

  method Post(store: Store, request: Request, random: seq<byte>, now: int, mailDelivered: bool)
    returns (response: Response, mail: Option<ResetEmail>)
    requires store.Valid()
    requires |random| == TokenBytes
    modifies store`resets
    ensures store.Valid() && fresh(response) && response.cookies == []
    ensures RequestedEmail(request).None? || !store.online ==>
      && response.status == 500 && response.body == JsonBody(ErrorJson(SomethingWentWrong))
      && store.resets == old(store.resets) && mail.None?
    ensures RequestedEmail(request).Some? && store.online ==>
      var email := RequestedEmail(request).value;
      var found := FindFirst(store.users, ByEmail(email));
      && (found.None? ==>
            && response.status == 200 && response.body == JsonBody(MessageJson(IfUserExists))
            && store.resets == old(store.resets) && mail.None?)
      && (found.Some? ==>
            && store.resets == old(store.resets)[found.value.id := ResetToken(Hex(random), now + ResetLifetimeMs)]
            && mail == Some(ResetEmail(email, Hex(random)))
            && (mailDelivered ==> response.status == 200 && response.body == JsonBody(MessageJson(ResetSent)))
            && (!mailDelivered ==> response.status == 500 && response.body == JsonBody(ErrorJson(SomethingWentWrong))))
    ensures mail.Some? ==>
      |mail.value.token| == 64 && forall i :: 0 <= i < |mail.value.token| ==> IsHexDigit(mail.value.token[i])
  {
    mail := None;
    var email := RequestedEmail(request);
    if email.None? || !store.online {
      response := new Response.FromJson(ErrorJson(SomethingWentWrong), 500);
      return;
    }
    var user := FindFirst(store.users, ByEmail(email.value));
    if user.None? {
      response := new Response.FromJson(MessageJson(IfUserExists), 200);
      return;
    }
    var token := Hex(random);
    assert user.value.id in Ids(store.users);
    store.UpsertReset(user.value.id, ResetToken(token, now + ResetLifetimeMs));
    mail := Some(ResetEmail(email.value, token));
    if !mailDelivered {
      response := new Response.FromJson(ErrorJson(SomethingWentWrong), 500);
      return;
    }
    response := new Response.FromJson(MessageJson(ResetSent), 200);
  }

  /**
   * Asking twice for the same account with different random bytes leaves only
   * the second token stored for it: the first link stops matching.
   */
  method RequestTwice(store: Store, request: Request, first: seq<byte>, second: seq<byte>, now1: int, now2: int)
    returns (r1: Response, r2: Response)
    requires store.Valid() && store.online
    requires |first| == TokenBytes && |second| == TokenBytes && first != second
    requires RequestedEmail(request).Some?
    requires FindFirst(store.users, ByEmail(RequestedEmail(request).value)).Some?
    modifies store`resets
    ensures var u := FindFirst(store.users, ByEmail(RequestedEmail(request).value)).value;
      && u.id in store.resets
      && store.resets[u.id] == ResetToken(Hex(second), now2 + ResetLifetimeMs)
      && store.resets[u.id].token != Hex(first)
  {
    var m1, m2;
    r1, m1 := Post(store, request, first, now1, true);
    r2, m2 := Post(store, request, second, now2, true);
    if Hex(second) == Hex(first) {
      HexInjective(second, first);
    }
  }
}
