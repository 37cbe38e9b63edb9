/**
 * The `authenticate` middleware of server.js: take the token after the first
 * space of the Authorization header, verify it with the fixed key, load the
 * user it names, then either call `next` or answer 401/404.
 */
module Auth {
  import opened Form
  import opened UserModel
  import opened Crypto

  /** Index of the first space in `s`. */
  function FirstSpace(s: string): (i: nat)
    requires ' ' in s
    ensures i < |s| && s[i] == ' ' && ' ' !in s[..i]
  {
    if s[0] == ' ' then 0
    else
      var i := FirstSpace(s[1..]) + 1;
      assert s[..i] == [s[0]] + s[1..][..i - 1];
      i
  }

  /** `s.split(' ')`: the pieces between single spaces, empty pieces included. */
  function Split(s: string): (parts: seq<string>)
    ensures |parts| >= 1
    ensures forall k :: 0 <= k < |parts| ==> ' ' !in parts[k]
    decreases |s|
  {
    if ' ' !in s then [s]
    else
      var i := FirstSpace(s);
      [s[..i]] + Split(s[i + 1..])
  }

  /** `parts.join(' ')`. */
  function Join(parts: seq<string>): string
    requires |parts| >= 1
  {
    if |parts| == 1 then parts[0] else parts[0] + " " + Join(parts[1..])
  }

  /** Joining the pieces of a split gives the header back. */
  lemma {:induction false} JoinSplit(s: string)
    ensures Join(Split(s)) == s
    decreases |s|
  {
    if ' ' in s {
      var i := FirstSpace(s);
      JoinSplit(s[i + 1..]);
      assert s == s[..i] + " " + s[i + 1..];
    }
  }

  /** Splitting a join of space-free pieces gives the pieces back. */
  lemma {:induction false} SplitJoin(parts: seq<string>)
    requires |parts| >= 1
    requires forall k :: 0 <= k < |parts| ==> ' ' !in parts[k]
    ensures Split(Join(parts)) == parts
  {
    if |parts| > 1 {
      var s := Join(parts);
      var head := parts[0];
      assert s == head + " " + Join(parts[1..]);
      assert s[|head|] == ' ';
      assert s[..|head|] == head;
      assert ' ' in s;
      var i := FirstSpace(s);
      assert i == |head|;
      assert s[i + 1..] == Join(parts[1..]);
      SplitJoin(parts[1..]);
    }
  }

  /**
   * `req.headers.authorization?.split(' ')[1]`, kept only when truthy: the
   * piece between the first and the second space (or the end).
   */
  function TokenOf(header: Option<string>): (t: Option<string>)
    ensures t.Some? ==> t.value != [] && ' ' !in t.value
    ensures header.None? ==> t.None?
  {
    if header.None? then None
    else
      var parts := Split(header.value);
      if |parts| < 2 || parts[1] == "" then None else Some(parts[1])
  }

  /** A header without a space carries no token: "No token provided". */
  lemma NoSpaceNoToken(h: string)
    requires ' ' !in h
    ensures TokenOf(Some(h)).None?
  {
  }

  /**
   * Every header with a space reads `w + " " + t + rest`, with `w` and `t`
   * space-free and `rest` empty or starting at the next space: the token is
   * `t`, and there is none when `t` is empty.
   */
  lemma {:induction false} SecondWord(w: string, t: string, rest: string)
    requires ' ' !in w && ' ' !in t
    requires rest == "" || rest[0] == ' '
    ensures TokenOf(Some(w + " " + t + rest)) == (if t == "" then None else Some(t))
  {
    var s := w + " " + t + rest;
    assert s[|w|] == ' ' && s[..|w|] == w;
    assert ' ' in s;
    assert FirstSpace(s) == |w|;
    var after := s[|w| + 1..];
    assert after == t + rest;
    if rest == "" {
      assert after == t;
    } else {
      assert after[|t|] == ' ' && after[..|t|] == t;
      assert ' ' in after;
      assert FirstSpace(after) == |t|;
    }
    assert Split(after)[0] == t;
    assert Split(s) == [w] + Split(after);
  }

  /** A `Bearer <token>` header yields the token, whatever the scheme word, when the token is compact. */
  lemma BearerToken(scheme: string, token: string)
    requires ' ' !in scheme
    requires Compact(token)
    ensures TokenOf(Some(scheme + " " + token)) == Some(token)
  {
    SplitJoin([scheme, token]);
    assert Join([scheme, token]) == scheme + " " + Join([token]);
  }

  /** `jwt.verify(token, SecretKey)` on the header's token; None when there is no token or it fails. */
  function Verified(header: Option<string>, jwt: Jwt, now: nat): Option<Payload>
  {
    var t := TokenOf(header);
    if t.None? then None else jwt.verify(t.value, SecretKey, now)
  }

  /** What the middleware decides: call `next` with the user, or answer. */
  datatype Decision = Next(user: User) | Deny(status: nat, message: string)

  /** The middleware's decision, as a function of the header, the users and the clock. */
  function Gate(header: Option<string>, users: seq<User>, jwt: Jwt, now: nat): (d: Decision)
    requires IdsArePositions(users)
    ensures TokenOf(header).None? ==> d == Deny(401, "No token provided")
    ensures TokenOf(header).Some? && jwt.verify(TokenOf(header).value, SecretKey, now).None? ==>
              d == Deny(401, "Unauthorized")
    ensures Verified(header, jwt, now).Some? &&
            FindById(users, Verified(header, jwt, now).value.claims.id).None? ==>
              d == Deny(404, "User not found")
    ensures d.Next? <==>
              Verified(header, jwt, now).Some? &&
              FindById(users, Verified(header, jwt, now).value.claims.id).Some?
    ensures d.Next? ==> d.user in users && d.user.id == Verified(header, jwt, now).value.claims.id
  {
    var token := TokenOf(header);
    if token.None? then Deny(401, "No token provided")
    else
      var decoded := jwt.verify(token.value, SecretKey, now);
      if decoded.None? then Deny(401, "Unauthorized")
      else
        var user := FindById(users, decoded.value.claims.id);
        if user.None? then Deny(404, "User not found") else Next(user.value)
  }

  /** One request passing through the middleware: `req.user`, the response sent, and whether `next` ran. */
  class Exchange {
    const authorization: Option<string>
    var user: Option<User>
    var response: Option<(nat, string)>
    var forwarded: bool

    constructor (authorization: Option<string>)
      ensures this.authorization == authorization
      ensures user.None? && response.None? && !forwarded
    {
      this.authorization := authorization;
      user := None;
      response := None;
      forwarded := false;
    }

    /**
     * `authenticate(req, res, next)`: `req.user` is assigned only once the
     * token has verified; `next` runs exactly when the gate lets the request
     * through, and then `req.user` is the user the token names.
     */
    method Authenticate(users: seq<User>, jwt: Jwt, now: nat)
      requires IdsArePositions(users)
      modifies this
      ensures forwarded == (old(forwarded) || Gate(authorization, users, jwt, now).Next?)
      ensures Gate(authorization, users, jwt, now).Next? ==>
                user == Some(Gate(authorization, users, jwt, now).user) && response == old(response)
      ensures Gate(authorization, users, jwt, now).Deny? ==>
                response == Some((Gate(authorization, users, jwt, now).status, Gate(authorization, users, jwt, now).message))
      ensures Verified(authorization, jwt, now).None? ==> user == old(user)
      ensures Verified(authorization, jwt, now).Some? ==>
                user == FindById(users, Verified(authorization, jwt, now).value.claims.id)
    {
      var token := TokenOf(authorization);
      if token.None? {
        response := Some((401, "No token provided"));
        return;
      }
      var decoded := jwt.verify(token.value, SecretKey, now);
      if decoded.None? {
        response := Some((401, "Unauthorized"));
        return;
      }
      user := FindById(users, decoded.value.claims.id);
      if user.None? {
        response := Some((404, "User not found"));
        return;
      }
      forwarded := true;
    }
  }
}

/** How `/login` and `authenticate` meet: both use `SecretKey`. */
module TokenFlow {
  import opened Form
  import opened UserModel
  import opened Crypto
  import opened Users
  import opened Auth

  /**
   * A token `/login` has just issued, sent back as `Bearer <token>` within
   * its hour, lets the request through as the user who logged in, provided
   * jsonwebtoken verifies what it signed with the same key and its tokens
   * are compact.
   */
  lemma IssuedTokenPassesGate(
    users: seq<User>, f: LoginForm, isEmail: string -> bool, bcrypt: Bcrypt, jwt: Jwt, iat: nat, now: nat)
    requires IdsArePositions(users)
    requires Login(users, f, isEmail, bcrypt, jwt, iat).Ok?
    requires forall c :: SignVerifies(jwt, c, SecretKey, iat, now)
    requires forall c :: Compact(jwt.sign(c, SecretKey, TokenLifetime, iat))
    requires now < iat + TokenLifetime
    ensures var s := Login(users, f, isEmail, bcrypt, jwt, iat).value;
            s.userId < |users| &&
            Gate(Some("Bearer " + s.token), users, jwt, now) == Next(users[s.userId])
  {
    var s := Login(users, f, isEmail, bcrypt, jwt, iat).value;
    var u := users[FindByEmail(users, f.email.value).value];
    assert s.token == jwt.sign(ClaimsOf(u), SecretKey, TokenLifetime, iat);
    assert SignVerifies(jwt, ClaimsOf(u), SecretKey, iat, now);
    assert Compact(jwt.sign(ClaimsOf(u), SecretKey, TokenLifetime, iat));
    BearerToken("Bearer", s.token);
  }
}
