/**
 * The users table as seen by login and by the bearer-token check: lookup by
 * username, password authentication, and the demonstration token scheme
 * (48 random hex characters followed by the username, resolved by comparing
 * the token's last five characters with whole usernames).
 */
module Auth {
  import opened Domain

  /** Password verification against a stored hash, a foreign call kept abstract. */
  type Verifier = (string, string) -> bool

  /** The unique constraint on the username column. */
  predicate UniqueUsernames(users: seq<User>)
  {
    forall i, j | 0 <= i < j < |users| :: users[i].username != users[j].username
  }

  /** The first row of the users table whose username equals `name`. */
  function FindUser(users: seq<User>, name: string): (r: Option<User>)
    ensures r.Some? ==> r.value in users && r.value.username == name
    ensures r.None? <==> forall k | 0 <= k < |users| :: users[k].username != name
  {
    if users == [] then None
    else if users[0].username == name then Some(users[0])
    else FindUser(users[1..], name)
  }

  /** With unique usernames, looking a user up by name finds exactly that user. */
  lemma {:induction false} FindUserUnique(users: seq<User>, u: User)
    requires UniqueUsernames(users) && u in users
    ensures FindUser(users, u.username) == Some(u)
  {
    if users[0] != u {
      var j :| 0 <= j < |users| && users[j] == u;
      assert users[0].username != users[j].username;
      assert users[1..][j - 1] == u;
      FindUserUnique(users[1..], u);
    }
  }

  /** Look the user up, then check the password against the stored hash. */
  function AuthenticateUser(users: seq<User>, verify: Verifier, username: string, password: string): (r: Option<User>)
    ensures r.Some? ==> r.value in users && r.value.username == username
                        && verify(password, r.value.hashedPassword)
  {
    match FindUser(users, username)
    case None => None
    case Some(u) => if verify(password, u.hashedPassword) then Some(u) else None
  }

  /**
   * Authentication returns a user exactly when that user has the given name
   * and the password verifies, and fails exactly when no such user exists.
   */
  lemma AuthenticateIff(users: seq<User>, verify: Verifier, username: string, password: string)
    requires UniqueUsernames(users)
    ensures forall u | u in users ::
              AuthenticateUser(users, verify, username, password) == Some(u)
              <==> u.username == username && verify(password, u.hashedPassword)
    ensures AuthenticateUser(users, verify, username, password).None?
            <==> !exists u | u in users :: u.username == username && verify(password, u.hashedPassword)
  {
    forall u | u in users
      ensures AuthenticateUser(users, verify, username, password) == Some(u)
              <==> u.username == username && verify(password, u.hashedPassword)
    {
      FindUserUnique(users, u);
    }
  }

  predicate IsHexDigit(c: char)
  {
    '0' <= c <= '9' || 'a' <= c <= 'f'
  }

  /** What 24 random bytes rendered as lower-case hex look like. */
  predicate ValidTokenPrefix(prefix: string)
  {
    |prefix| == 48 && forall i | 0 <= i < |prefix| :: IsHexDigit(prefix[i])
  }

  /** The random prefix (a parameter here) followed by the username. */
  function CreateAccessToken(prefix: string, username: string): (token: string)
    requires ValidTokenPrefix(prefix)
    ensures |token| == 48 + |username|
    ensures token[..48] == prefix && token[48..] == username
  {
    prefix + username
  }

  /** The slice `token[-5:]`: the last five characters, or all of a shorter token. */
  function TokenTail(token: string): (tail: string)
    ensures |tail| == if |token| < 5 then |token| else 5
    ensures tail == token[|token| - |tail|..]
  {
    if |token| <= 5 then token else token[|token| - 5..]
  }

  /** The user whose whole username equals the token's tail, else 401. */
  function ResolveToken(users: seq<User>, token: string): (r: Result<User>)
    ensures r.Ok? ==> r.value in users && r.value.username == TokenTail(token)
    ensures r.Err? <==> forall k | 0 <= k < |users| :: users[k].username != TokenTail(token)
    ensures r.Err? ==> r.error == Unauthorized
  {
    match FindUser(users, TokenTail(token))
    case None => Err(Unauthorized)
    case Some(u) => Ok(u)
  }

  /**
   * The tail of an issued token: the username's last five characters, or,
   * for a shorter name, the last hex characters of the prefix and the name.
   */
  lemma IssuedTokenTail(prefix: string, username: string)
    requires ValidTokenPrefix(prefix)
    ensures TokenTail(CreateAccessToken(prefix, username))
         == if |username| >= 5 then username[|username| - 5..]
            else prefix[43 + |username|..] + username
  {
    var token := CreateAccessToken(prefix, username);
    if |username| >= 5 {
      assert token[|token| - 5..] == username[|username| - 5..];
    } else {
      assert token[|token| - 5..] == prefix[43 + |username|..] + username;
    }
  }

  /** An issued token only ever resolves to a user whose name has five characters. */
  lemma IssuedTokenResolvesToFiveCharName(users: seq<User>, prefix: string, username: string)
    requires ValidTokenPrefix(prefix)
    requires ResolveToken(users, CreateAccessToken(prefix, username)).Ok?
    ensures |ResolveToken(users, CreateAccessToken(prefix, username)).value.username| == 5
  {
  }

  /** A user's own issued token resolves back to that user exactly when the username has five characters. */
  lemma IssuedTokenResolvesToOwnerIff(users: seq<User>, prefix: string, u: User)
    requires UniqueUsernames(users) && u in users && ValidTokenPrefix(prefix)
    ensures ResolveToken(users, CreateAccessToken(prefix, u.username)) == Ok(u) <==> |u.username| == 5
  {
    IssuedTokenTail(prefix, u.username);
    if |u.username| == 5 {
      assert u.username[0..] == u.username;
      FindUserUnique(users, u);
    }
  }

  /**
   * A token issued for a name of five or more characters resolves as its last
   * five characters would: to whichever user is named so, if any.
   */
  lemma LongUsernameResolvesBySuffix(users: seq<User>, prefix: string, username: string)
    requires ValidTokenPrefix(prefix) && |username| >= 5
    ensures ResolveToken(users, CreateAccessToken(prefix, username))
         == ResolveToken(users, username[|username| - 5..])
  {
    IssuedTokenTail(prefix, username);
  }

  /** The token issued to "malice" is accepted as the token of an existing user "alice". */
  lemma MaliceTokenResolvesToAlice(users: seq<User>, prefix: string, alice: User)
    requires UniqueUsernames(users) && alice in users && alice.username == "alice"
    requires ValidTokenPrefix(prefix)
    ensures ResolveToken(users, CreateAccessToken(prefix, "malice")) == Ok(alice)
  {
    LongUsernameResolvesBySuffix(users, prefix, "malice");
    assert "malice"[1..] == "alice";
    FindUserUnique(users, alice);
  }

  /** Any string ending in a five-character username is accepted as that user's token. */
  lemma ForgedTokenResolves(users: seq<User>, u: User, junk: string)
    requires UniqueUsernames(users) && u in users && |u.username| == 5
    ensures ResolveToken(users, junk + u.username) == Ok(u)
  {
    var token := junk + u.username;
    assert token[|token| - 5..] == u.username;
    FindUserUnique(users, u);
  }

  /** A username of at most five characters, sent on its own, is accepted as that user's token. */
  lemma BareShortUsernameResolves(users: seq<User>, u: User)
    requires UniqueUsernames(users) && u in users && |u.username| <= 5
    ensures ResolveToken(users, u.username) == Ok(u)
  {
    FindUserUnique(users, u);
  }

  /** With the two seeded users, every token issued to "bob" is refused. */
  lemma SeededBobTokenRefused(users: seq<User>, prefix: string)
    requires ValidTokenPrefix(prefix)
    requires |users| == 2 && users[0].username == "alice" && users[1].username == "bob"
    ensures ResolveToken(users, CreateAccessToken(prefix, "bob")) == Err(Unauthorized)
  {
    IssuedTokenTail(prefix, "bob");
    var tail := TokenTail(CreateAccessToken(prefix, "bob"));
    assert tail[4] == 'b';
    assert tail != "alice" && tail != "bob";
  }

  /** The body of a successful login response. */
  datatype TokenResponse = TokenResponse(accessToken: string, tokenType: string)

  /** Login: authenticate, then issue a bearer token for the user, else 400. */
  function Login(users: seq<User>, verify: Verifier, prefix: string, username: string, password: string): (r: Result<TokenResponse>)
    requires ValidTokenPrefix(prefix)
    ensures r.Ok? <==> AuthenticateUser(users, verify, username, password).Some?
    ensures r.Ok? ==> r.value == TokenResponse(CreateAccessToken(prefix, username), "bearer")
    ensures r.Err? ==> r.error == InvalidCredentials
  {
    match AuthenticateUser(users, verify, username, password)
    case None => Err(InvalidCredentials)
    case Some(u) => Ok(TokenResponse(CreateAccessToken(prefix, u.username), "bearer"))
  }

  /**
   * Login succeeds exactly when a user of that name exists and the password
   * verifies; an unknown name and a wrong password give the same failure.
   */
  lemma LoginOutcome(users: seq<User>, verify: Verifier, prefix: string, username: string, password: string)
    requires UniqueUsernames(users) && ValidTokenPrefix(prefix)
    ensures Login(users, verify, prefix, username, password)
         == if exists u | u in users :: u.username == username && verify(password, u.hashedPassword)
            then Ok(TokenResponse(CreateAccessToken(prefix, username), "bearer"))
            else Err(InvalidCredentials)
  {
    AuthenticateIff(users, verify, username, password);
  }
}
