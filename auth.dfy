/**
 * Registration and login (`AuthService`). Registration normalises the
 * address, refuses one already registered and hands a bcrypt hash of the
 * password to the user service; login answers the same error for an unknown
 * address and for a wrong password, and otherwise signs a token for the user.
 */
module Auth {

  import opened Envelope
  import opened Entities
  import opened Text
  import Users

  const TakenMessage: string := "Bu email zaten kayıtlı"
  const CreateFailedMessage: string := "Kullanıcı oluşturulamadı"
  const CreateFailed: string := "USER_CREATE_FAILED"
  const RegisteredMessage: string := "Kullanıcı oluşturuldu"
  const InvalidMessage: string := "Email veya şifre hatalı"
  const LoginMessage: string := "Giriş başarılı"

  /** What `register` returns about the new user. */
  datatype Registered = Registered(id: int, name: string, email: string)

  /** The JWT payload: the user's id as `sub`, and the e-mail. */
  datatype Claims = Claims(sub: int, email: string)

  /** What `login` returns. */
  datatype Token = Token(accessToken: string)

  class AuthService {
    const users: Users.UserService
    /** `jwtService.sign` with the configured secret. */
    const sign: Claims -> string

    constructor (users: Users.UserService, sign: Claims -> string)
      ensures this.users == users && this.sign == sign
    {
      this.users := users;
      this.sign := sign;
    }

    /**
     * `register`: `hash` is bcrypt at cost 10. The password is hashed here
     * and then passed to `createResponse`, which stores a value carrying the
     * bcrypt prefix as it is.
     */
    method Register(name: string, email: string, password: string, hash: string -> string)
      returns (r: Result<Response<Registered>>)
      requires users.Valid()
      modifies users.db`users, users.db`nextUserId
      ensures users.Valid()
      ensures EmailInUse(old(users.db.users), Normalize(email)) ==>
        && r == Err(Conflict(TakenMessage))
        && users.db.users == old(users.db.users) && users.db.nextUserId == old(users.db.nextUserId)
      ensures !EmailInUse(old(users.db.users), Normalize(email)) ==>
        var u := User(old(users.db.nextUserId), Normalize(email), Trim(name),
                      Users.StoredPassword(hash(password), hash));
        && r == Ok(Success(RegisteredMessage, Registered(u.id, u.name, u.email)))
        && users.db.users == old(users.db.users)[u.id := u]
        && users.db.nextUserId == old(users.db.nextUserId) + 1
      ensures !EmailInUse(old(users.db.users), Normalize(email)) && StartsWith(hash(password), BcryptPrefix) ==>
        users.db.users[old(users.db.nextUserId)].password == hash(password)
    {
      var e := Normalize(email);
      var n := Trim(name);
      NormalizeIdempotent(email);
      TrimIdempotent(name);
      var existing := users.GetByEmailEntity(e);
      if existing.Some? {
        return Err(Conflict(TakenMessage));
      }
      var hashed := hash(password);
      var created := users.CreateResponse(n, e, hashed, hash);
      r := match created
        case Err(f) => Err(f)
        case Ok(resp) =>
          if !resp.success || resp.data.None? then Ok(Failure(CreateFailedMessage, CreateFailed))
          else Ok(Success(RegisteredMessage, Registered(resp.data.value.id, resp.data.value.name, resp.data.value.email)));
    }

    /**
     * `login`: `compare` is `bcrypt.compare`. The user is looked up, password
     * included, by the normalised address.
     */
    function Login(email: string, password: string, compare: (string, string) -> bool): (r: Result<Response<Token>>)
      reads users.db
      requires users.db.Valid()
      ensures r.Err? ==> r == Err(Unauthorized(InvalidMessage))
      ensures r.Ok? <==>
        exists id :: id in users.db.users && users.db.users[id].email == Normalize(email)
                     && compare(password, users.db.users[id].password)
      ensures r.Ok? ==>
        exists id :: id in users.db.users && users.db.users[id].email == Normalize(email)
                     && r.value == Success(LoginMessage, Token(sign(Claims(id, Normalize(email)))))
    {
      NormalizeIdempotent(email);
      var user := users.GetByEmailWithPasswordEntity(Normalize(email));
      if user.None? || !compare(password, user.value.password) then Err(Unauthorized(InvalidMessage))
      else Ok(Success(LoginMessage, Token(sign(Claims(user.value.id, user.value.email)))))
    }

    /**
     * A stored user whose password is the hash of `password`, under a
     * `compare` that accepts that pair, logs in with any spelling of the
     * address that normalises to the stored one, and the token names that user.
     */
    lemma RegisteredUserLogsIn(w1: string, email: string, w2: string, password: string,
                               hash: string -> string, compare: (string, string) -> bool, id: int)
      requires users.Valid() && id in users.db.users
      requires users.db.users[id].email == Normalize(email) && users.db.users[id].password == hash(password)
      requires compare(password, hash(password)) && AllSpace(w1) && AllSpace(w2)
      ensures Login(w1 + email + w2, password, compare) == Ok(Success(LoginMessage, Token(sign(Claims(id, Normalize(email))))))
    {
      NormalizeIgnoresPadding(w1, email, w2);
      var r := Login(w1 + email + w2, password, compare);
      var other :| other in users.db.users && users.db.users[other].email == Normalize(email)
                   && r.value == Success(LoginMessage, Token(sign(Claims(other, Normalize(email)))));
      assert other == id;
    }
  }
}
