/**
 * `AuthService`: registration and login over a user table keyed by the
 * normalised email (trimmed, lower-cased). bcrypt and JWT signing are
 * uninterpreted functions.
 */
module Auth {
  import opened Wrappers

  datatype User = User(
    id: string,
    email: string,
    name: string,
    passwordHash: Option<string>,
    role: string,
    clubId: Option<string>,
    language: string)

  /** The user as the API returns it: every column but the password hash. */
  datatype PublicUser = PublicUser(id: string, email: string, name: string, role: string, clubId: Option<string>, language: string)

  /** The signed JWT payload. */
  datatype TokenPayload = TokenPayload(sub: string, role: string, clubId: Option<string>)

  datatype AuthResponse = AuthResponse(user: PublicUser, accessToken: string)

  /** `bcrypt.hash(password, rounds)`, `bcrypt.compare(password, hash)` and `jwtService.signAsync(payload)`. */
  datatype Crypto = Crypto(hash: (string, int) -> string, compare: (string, string) -> bool, sign: TokenPayload -> string)

  /** The user table, by its unique email column. */
  type Users = map<string, User>

  datatype AuthOutcome = AuthOutcome(result: Result<AuthResponse, HttpError>, users: Users)

  const BcryptRounds: int := 12
  const PlayerRole: string := "PLAYER"
  const SpanishLanguage: string := "ES"
  const RegisterFieldsMessage: string := "email, name and password are required"
  const EmailInUseMessage: string := "Email already in use"
  const LoginFieldsMessage: string := "email and password are required"
  const InvalidCredentialsMessage: string := "Invalid credentials"

  // ---------------------------------------------------------------------------
  // Normalisation (ASCII)

  /** The ASCII characters `String.prototype.trim` removes. */
  predicate IsSpace(c: char) {
    c == ' ' || c == '\t' || c == '\n' || c == '\r' || c == '\U{B}' || c == '\U{C}'
  }

  predicate AllSpace(s: string) {
    forall i :: 0 <= i < |s| ==> IsSpace(s[i])
  }

  function TrimStart(s: string): (r: string)
    ensures |r| <= |s| && r == s[|s| - |r|..]
    ensures AllSpace(s[..|s| - |r|])
    ensures |r| > 0 ==> !IsSpace(r[0])
  {
    if |s| > 0 && IsSpace(s[0]) then TrimStart(s[1..]) else s
  }

  function TrimEnd(s: string): (r: string)
    ensures |r| <= |s| && r == s[..|r|]
    ensures AllSpace(s[|r|..])
    ensures |r| > 0 ==> !IsSpace(r[|r| - 1])
  {
    if |s| > 0 && IsSpace(s[|s| - 1]) then TrimEnd(s[..|s| - 1]) else s
  }

  /** `s.trim()`. */
  function Trim(s: string): string {
    TrimEnd(TrimStart(s))
  }

  function LowerChar(c: char): char {
    if 'A' <= c <= 'Z' then (c as int + 32) as char else c
  }

  /** `s.toLowerCase()`. */
  function Lower(s: string): (r: string)
    ensures |r| == |s|
    ensures forall i :: 0 <= i < |s| ==> r[i] == LowerChar(s[i])
  {
    seq(|s|, i requires 0 <= i < |s| => LowerChar(s[i]))
  }

  /** `email.trim().toLowerCase()`. */
  function NormalizeEmail(email: string): string {
    Lower(Trim(email))
  }

  /** `email?.trim().toLowerCase()` on an optional field. */
  function NormalizedEmail(email: Option<string>): Option<string> {
    if email.Some? then Some(NormalizeEmail(email.value)) else None
  }

  /** `name?.trim()` on an optional field. */
  function NormalizedName(name: Option<string>): Option<string> {
    if name.Some? then Some(Trim(name.value)) else None
  }

  lemma {:induction false} TrimStartOfSpaces(a: string, s: string)
    requires AllSpace(a)
    ensures TrimStart(a + s) == TrimStart(s)
    decreases |a|
  {
    if |a| > 0 {
      assert (a + s)[1..] == a[1..] + s;
      TrimStartOfSpaces(a[1..], s);
    } else {
      assert a + s == s;
    }
  }

  lemma {:induction false} TrimEndOfSpaces(s: string, b: string)
    requires AllSpace(b)
    ensures TrimEnd(s + b) == TrimEnd(s)
    decreases |b|
  {
    if |b| > 0 {
      assert (s + b)[..|s + b| - 1] == s + b[..|b| - 1];
      TrimEndOfSpaces(s, b[..|b| - 1]);
    } else {
      assert s + b == s;
    }
  }

  /** Trailing text after the first non-space survives `TrimStart` untouched. */
  lemma {:induction false} TrimStartAppend(s: string, b: string)
    ensures TrimStart(s + b) == if TrimStart(s) == "" then TrimStart(b) else TrimStart(s) + b
    decreases |s|
  {
    if |s| == 0 {
      assert s + b == b;
    } else if IsSpace(s[0]) {
      assert (s + b)[1..] == s[1..] + b;
      TrimStartAppend(s[1..], b);
    } else {
      assert (s + b)[0] == s[0];
    }
  }

  /** Surrounding whitespace does not change the trimmed text. */
  lemma TrimPadding(a: string, s: string, b: string)
    requires AllSpace(a) && AllSpace(b)
    ensures Trim(a + s + b) == Trim(s)
  {
    assert a + s + b == a + (s + b);
    TrimStartOfSpaces(a, s + b);
    TrimStartAppend(s, b);
    if TrimStart(s) == "" {
      assert TrimStart(b) == "";
    } else {
      TrimEndOfSpaces(TrimStart(s), b);
    }
  }

  lemma {:induction false} TrimStartLower(s: string)
    ensures TrimStart(Lower(s)) == Lower(TrimStart(s))
    decreases |s|
  {
    if |s| > 0 {
      var l := Lower(s);
      assert IsSpace(l[0]) == IsSpace(s[0]);
      if IsSpace(s[0]) {
        assert l[1..] == Lower(s[1..]);
        TrimStartLower(s[1..]);
      }
    }
  }

  lemma {:induction false} TrimEndLower(s: string)
    ensures TrimEnd(Lower(s)) == Lower(TrimEnd(s))
    decreases |s|
  {
    if |s| > 0 {
      var l := Lower(s);
      assert IsSpace(l[|s| - 1]) == IsSpace(s[|s| - 1]);
      if IsSpace(s[|s| - 1]) {
        assert l[..|s| - 1] == Lower(s[..|s| - 1]);
        TrimEndLower(s[..|s| - 1]);
      }
    }
  }

  lemma TrimLower(s: string)
    ensures Trim(Lower(s)) == Lower(Trim(s))
  {
    TrimStartLower(s);
    TrimEndLower(TrimStart(s));
  }

  lemma TrimIdempotent(s: string)
    ensures Trim(Trim(s)) == Trim(s)
  {
    var t := Trim(s);
    if |t| > 0 {
      assert TrimStart(t) == t;
    }
  }

  /** A normalised email normalises to itself. */
  lemma NormalizeEmailIdempotent(email: string)
    ensures NormalizeEmail(NormalizeEmail(email)) == NormalizeEmail(email)
  {
    TrimLower(Trim(email));
    TrimIdempotent(email);
    assert Lower(Lower(Trim(email))) == Lower(Trim(email));
  }

  /**
   * Emails differing only in letter case or in surrounding whitespace
   * normalise to the same key.
   */
  lemma EmailVariantsNormalizeAlike(a: string, variant: string, b: string, email: string)
    requires AllSpace(a) && AllSpace(b) && Lower(variant) == Lower(email)
    ensures NormalizeEmail(a + variant + b) == NormalizeEmail(email)
  {
    TrimPadding(a, variant, b);
    TrimLower(variant);
    TrimLower(email);
  }

  // ---------------------------------------------------------------------------
  // register / login

  function View(u: User): PublicUser {
    PublicUser(u.id, u.email, u.name, u.role, u.clubId, u.language)
  }

  function Payload(u: User): TokenPayload {
    TokenPayload(u.id, u.role, u.clubId)
  }

  /** Every user is stored under its own email. */
  predicate WellKeyed(users: Users) {
    forall k :: k in users ==> users[k].email == k
  }

  /** The normalised email, the trimmed name and the password are all non-empty. */
  predicate RegisterFieldsPresent(email: Option<string>, name: Option<string>, password: Option<string>) {
    Truthy(NormalizedEmail(email)) && Truthy(NormalizedName(name)) && Truthy(password)
  }

  /** `register(email, name, password)`, with `newId` the id the database generates. */
  function Register(users: Users, email: Option<string>, name: Option<string>, password: Option<string>,
                    crypto: Crypto, newId: string): (r: AuthOutcome)
    ensures r.result.Err? ==> r.users == users
    ensures !RegisterFieldsPresent(email, name, password) ==> r.result == Err(BadRequest(RegisterFieldsMessage))
    ensures RegisterFieldsPresent(email, name, password) && NormalizedEmail(email).value in users
      ==> r.result == Err(BadRequest(EmailInUseMessage))
    ensures r.result.Ok? <==> RegisterFieldsPresent(email, name, password) && NormalizedEmail(email).value !in users
    ensures r.result.Ok? ==>
      var k := NormalizedEmail(email).value;
      && k in r.users && (forall j :: j in r.users && j != k ==> j in users)
      && (forall j :: j in users ==> j in r.users && r.users[j] == users[j])
      && r.users[k].id == newId && r.users[k].email == k && r.users[k].name == NormalizedName(name).value
      && r.users[k].passwordHash == Some(crypto.hash(password.value, BcryptRounds))
      && r.users[k].role == PlayerRole && r.users[k].language == SpanishLanguage && r.users[k].clubId.None?
      && r.result.value == AuthResponse(View(r.users[k]), crypto.sign(TokenPayload(newId, PlayerRole, None)))
  {
    var normalizedEmail := NormalizedEmail(email);
    var normalizedName := NormalizedName(name);
    if !RegisterFieldsPresent(email, name, password) then
      AuthOutcome(Err(BadRequest(RegisterFieldsMessage)), users)
    else if normalizedEmail.value in users then
      AuthOutcome(Err(BadRequest(EmailInUseMessage)), users)
    else
      var passwordHash := crypto.hash(password.value, BcryptRounds);
      var user := User(newId, normalizedEmail.value, normalizedName.value, Some(passwordHash), PlayerRole, None, SpanishLanguage);
      AuthOutcome(Ok(AuthResponse(View(user), crypto.sign(Payload(user)))), users[normalizedEmail.value := user])
  }

  /** Registration stores the new user under its own email. */
  lemma RegisterKeepsWellKeyed(users: Users, email: Option<string>, name: Option<string>, password: Option<string>,
                               crypto: Crypto, newId: string)
    requires WellKeyed(users)
    ensures WellKeyed(Register(users, email, name, password, crypto, newId).users)
  {
  }

  /**
   * `login(email, password)`. A missing user, a user without a hash and a
   * wrong password are indistinguishable to the caller.
   */
  function Login(users: Users, email: Option<string>, password: Option<string>, crypto: Crypto): (r: Result<AuthResponse, HttpError>)
    ensures !Truthy(NormalizedEmail(email)) || !Truthy(password) ==> r == Err(BadRequest(LoginFieldsMessage))
    ensures Truthy(NormalizedEmail(email)) && Truthy(password) && r.Err? ==> r == Err(Unauthorized(InvalidCredentialsMessage))
    ensures r.Ok? <==>
      && Truthy(NormalizedEmail(email)) && Truthy(password)
      && var k := NormalizeEmail(email.value);
         k in users && Truthy(users[k].passwordHash) && crypto.compare(password.value, users[k].passwordHash.value)
    ensures r.Ok? ==>
      var u := users[NormalizeEmail(email.value)];
      r.value == AuthResponse(View(u), crypto.sign(TokenPayload(u.id, u.role, u.clubId)))
  {
    var normalizedEmail := NormalizedEmail(email);
    if !Truthy(normalizedEmail) || !Truthy(password) then Err(BadRequest(LoginFieldsMessage))
    else if normalizedEmail.value !in users || !Truthy(users[normalizedEmail.value].passwordHash) then
      Err(Unauthorized(InvalidCredentialsMessage))
    else
      var user := users[normalizedEmail.value];
      if !crypto.compare(password.value, user.passwordHash.value) then Err(Unauthorized(InvalidCredentialsMessage))
      else Ok(AuthResponse(View(user), crypto.sign(Payload(user))))
  }

  /**
   * Registering and then logging in with the same password, under an email
   * that differs only in case or surrounding whitespace, reaches the new user,
   * provided bcrypt accepts its own hash. Both responses carry the same view.
   */
  lemma RegisterThenLogin(users: Users, email: string, name: string, password: string, crypto: Crypto, newId: string,
                          a: string, variant: string, b: string)
    requires Register(users, Some(email), Some(name), Some(password), crypto, newId).result.Ok?
    requires crypto.hash(password, BcryptRounds) != "" && crypto.compare(password, crypto.hash(password, BcryptRounds))
    requires AllSpace(a) && AllSpace(b) && Lower(variant) == Lower(email)
    ensures var reg := Register(users, Some(email), Some(name), Some(password), crypto, newId);
      var login := Login(reg.users, Some(a + variant + b), Some(password), crypto);
      login.Ok? && login.value.user == reg.result.value.user && login.value.user.id == newId
  {
    EmailVariantsNormalizeAlike(a, variant, b, email);
    var reg := Register(users, Some(email), Some(name), Some(password), crypto, newId);
    var k := NormalizeEmail(email);
    assert NormalizedEmail(Some(a + variant + b)) == Some(k);
    assert k in reg.users && reg.users[k].passwordHash == Some(crypto.hash(password, BcryptRounds));
    var login := Login(reg.users, Some(a + variant + b), Some(password), crypto);
    assert login.Ok?;
  }

  /** A second registration under an equivalent email is refused and stores nothing. */
  lemma SecondRegistrationRefused(users: Users, email: string, name: string, password: string, crypto: Crypto,
                                  newId: string, a: string, variant: string, b: string, name2: string,
                                  password2: string, newId2: string)
    requires Register(users, Some(email), Some(name), Some(password), crypto, newId).result.Ok?
    requires AllSpace(a) && AllSpace(b) && Lower(variant) == Lower(email)
    requires name2 != "" && !IsSpace(name2[0]) && password2 != ""
    ensures var reg := Register(users, Some(email), Some(name), Some(password), crypto, newId);
      var again := Register(reg.users, Some(a + variant + b), Some(name2), Some(password2), crypto, newId2);
      again == AuthOutcome(Err(BadRequest(EmailInUseMessage)), reg.users)
  {
    EmailVariantsNormalizeAlike(a, variant, b, email);
    var reg := Register(users, Some(email), Some(name), Some(password), crypto, newId);
    assert NormalizeEmail(a + variant + b) != "";
    assert Trim(name2) != "" by {
      assert TrimStart(name2) == name2;
    }
  }
}
