/**
 * The user directory (`UserService`): users keyed by a normalised e-mail
 * address, with create, look-up, list, update and delete.
 */
module Users {

  import opened Envelope
  import opened Entities
  import opened Text
  import Table
  import Store

  const EmailTakenMessage: string := "Bu email zaten kullanımda"
  const CreatedMessage: string := "Kullanıcı başarıyla oluşturuldu"
  const ListedMessage: string := "Kullanıcılar listelendi"
  const FoundMessage: string := "Kullanıcı bulundu"
  const NotFoundMessage: string := "Kullanıcı bulunamadı"
  const NotFoundToDeleteMessage: string := "Silinecek kullanıcı bulunamadı"
  const DeletedMessage: string := "Kullanıcı silindi"
  const UpdatedMessage: string := "Kullanıcı güncellendi"
  const UserNotFound: string := "USER_NOT_FOUND"

  /**
   * The password `create` stores: a value that already looks like a bcrypt
   * hash passes through, anything else is hashed.
   */
  function StoredPassword(password: string, hash: string -> string): string
  {
    if StartsWith(password, BcryptPrefix) then password else hash(password)
  }

  /**
   * When the hash carries the bcrypt prefix, the stored password is always a
   * bcrypt hash, storing it again leaves it as it is, and a hash passed in
   * (as `register` does) is stored without being hashed a second time.
   */
  lemma StoredPasswordHashedOnce(password: string, hash: string -> string)
    requires StartsWith(hash(password), BcryptPrefix)
    ensures StartsWith(StoredPassword(password, hash), BcryptPrefix)
    ensures StoredPassword(StoredPassword(password, hash), hash) == StoredPassword(password, hash)
    ensures StoredPassword(hash(password), hash) == hash(password)
  {
  }

  /** What every stored user satisfies: a normalised e-mail and a trimmed name. */
  ghost predicate WellFormed(u: User) {
    IsNormalEmail(u.email) && Trim(u.name) == u.name
  }

  ghost predicate AllWellFormed(t: map<int, User>) {
    forall id :: id in t ==> WellFormed(t[id])
  }

  lemma StoreWellFormed(t: map<int, User>, id: int, u: User)
    requires AllWellFormed(t) && WellFormed(u)
    ensures AllWellFormed(t[id := u])
  {
  }

  /** JavaScript truthiness of an optional string field: present and non-empty. */
  predicate Given(s: Option<string>) {
    s.Some? && s.value != ""
  }

  /**
   * A field of white space only is truthy, so it counts as given, yet it
   * trims to the empty string: as a name it empties the name, as a password
   * it fails the second check and the password is kept.
   */
  lemma BlankFieldIsGiven(w: string)
    requires AllSpace(w) && w != ""
    ensures Given(Some(w)) && Trim(w) == ""
  {
    assert w + [] + [] == w;
    TrimOfPadded(w, [], []);
  }

  /** `find({ order: { id: 'DESC' } })` on the user table, without passwords. */
  function Directory(t: map<int, User>, hi: int): (us: seq<PublicUser>)
    requires forall id :: id in t ==> 1 <= id <= hi && t[id].id == id
    ensures forall i, j :: 0 <= i < j < |us| ==> us[i].id > us[j].id
    ensures forall i :: 0 <= i < |us| ==> us[i].id in t && us[i] == Public(t[us[i].id])
    ensures forall id :: id in t ==> Public(t[id]) in us
  {
    var ks := Table.Select(t, hi, (u: User) => true);
    var us := Table.Project(t, ks, Public);
    assert forall i :: 0 <= i < |us| ==> us[i].id == ks[i];
    us
  }

  class UserService {
    const db: Store.Database

    constructor (db: Store.Database)
      requires db.Valid() && AllWellFormed(db.users)
      ensures this.db == db
      ensures Valid()
    {
      this.db := db;
    }

    ghost predicate Valid()
      reads db
    {
      db.Valid() && AllWellFormed(db.users)
    }

    // -------------------------------------------------------------------
    // Queries

    /**
     * `getByEmailEntity`, and `findByEmail`, which runs the same query: the
     * user whose stored e-mail equals the normalised argument, without its
     * password.
     */
    function GetByEmailEntity(email: string): (r: Option<PublicUser>)
      reads db
      requires db.Valid()
      ensures r.Some? <==> EmailInUse(db.users, Normalize(email))
      ensures r.Some? ==> r.value.id in db.users && r.value == Public(db.users[r.value.id])
      ensures r.Some? ==> r.value.email == Normalize(email)
    {
      var u := db.FindUserByEmail(Normalize(email));
      if u.None? then None else Some(Public(u.value))
    }

    /** `getByEmailWithPasswordEntity`: the same look-up, with the password column. */
    function GetByEmailWithPasswordEntity(email: string): (r: Option<User>)
      reads db
      requires db.Valid()
      ensures r.Some? <==> EmailInUse(db.users, Normalize(email))
      ensures r.Some? ==> r.value.id in db.users && r.value == db.users[r.value.id]
      ensures r.Some? ==> r.value.email == Normalize(email)
    {
      db.FindUserByEmail(Normalize(email))
    }

    /** `findByEmailResponse`: the look-up wrapped in the envelope. */
    function FindByEmailResponse(email: string): (r: Response<PublicUser>)
      reads db
      requires db.Valid()
      ensures r.success <==> EmailInUse(db.users, Normalize(email))
      ensures r.success ==> r.data.Some? && r.data.value.email == Normalize(email) && r.data.value.id in db.users
      ensures r.success ==> r.data.value == Public(db.users[r.data.value.id])
      ensures !r.success ==> r.data.None? && r.error == Some(UserNotFound)
    {
      var u := GetByEmailEntity(email);
      if u.None? then Failure(NotFoundMessage, UserNotFound) else Success(FoundMessage, u.value)
    }

    /** `findAll`: every user, without passwords, highest id first. */
    function FindAll(): (r: Response<seq<PublicUser>>)
      reads db
      requires db.Valid()
      ensures r.success && r.data.Some?
      ensures var us := r.data.value;
              && (forall i, j :: 0 <= i < j < |us| ==> us[i].id > us[j].id)
              && (forall i :: 0 <= i < |us| ==> us[i].id in db.users && us[i] == Public(db.users[us[i].id]))
              && (forall id :: id in db.users ==> Public(db.users[id]) in us)
    {
      Success(ListedMessage, Directory(db.users, db.nextUserId - 1))
    }

    /**
     * Case and white-space variants of an address find the same user, and
     * that user is the one row holding the normalised address.
     */
    lemma LookupIgnoresCaseAndPadding(w1: string, email: string, w2: string)
      requires db.Valid() && AllSpace(w1) && AllSpace(w2)
      ensures GetByEmailEntity(w1 + email + w2) == GetByEmailEntity(email)
      ensures GetByEmailEntity(Lower(email)) == GetByEmailEntity(email)
    {
      NormalizeIgnoresPadding(w1, email, w2);
      NormalizeIgnoresCase(email);
    }

    lemma {:induction false} LookupFindsTheHolder(email: string, id: int)
      requires db.Valid() && id in db.users && db.users[id].email == Normalize(email)
      ensures GetByEmailEntity(email) == Some(Public(db.users[id]))
    {
      var r := GetByEmailEntity(email);
      assert EmailInUse(db.users, Normalize(email));
      assert db.users[r.value.id].email == db.users[id].email;
    }

    // -------------------------------------------------------------------
    // Changes

    /**
     * `create`: normalises the address, refuses one already in use, stores
     * the password through the bcrypt pass-through, and inserts the user.
     */
    method Create(name: string, email: string, password: string, hash: string -> string)
      returns (r: Result<User>)
      requires Valid()
      modifies db`users, db`nextUserId
      ensures Valid()
      ensures EmailInUse(old(db.users), Normalize(email)) ==>
        && r == Err(Conflict(EmailTakenMessage))
        && db.users == old(db.users) && db.nextUserId == old(db.nextUserId)
      ensures !EmailInUse(old(db.users), Normalize(email)) ==>
        && r == Ok(User(old(db.nextUserId), Normalize(email), Trim(name), StoredPassword(password, hash)))
        && db.users == old(db.users)[old(db.nextUserId) := r.value]
        && db.nextUserId == old(db.nextUserId) + 1
    {
      var e := Normalize(email);
      var existing := db.FindUserByEmail(e);
      if existing.Some? {
        return Err(Conflict(EmailTakenMessage));
      }
      var stored := if StartsWith(password, BcryptPrefix) then password else hash(password);
      NormalizeIdempotent(email);
      TrimIdempotent(name);
      StoreWellFormed(db.users, db.nextUserId, User(db.nextUserId, e, Trim(name), stored));
      var u, dup := db.InsertUser(e, Trim(name), stored);
      // The pre-check above tested the same key, so the save never reports a duplicate.
      r := Ok(u);
    }

    /** `createResponse`: `create`, with the saved user wrapped in the envelope. */
    method CreateResponse(name: string, email: string, password: string, hash: string -> string)
      returns (r: Result<Response<User>>)
      requires Valid()
      modifies db`users, db`nextUserId
      ensures Valid()
      ensures EmailInUse(old(db.users), Normalize(email)) ==>
        && r == Err(Conflict(EmailTakenMessage))
        && db.users == old(db.users) && db.nextUserId == old(db.nextUserId)
      ensures !EmailInUse(old(db.users), Normalize(email)) ==>
        var u := User(old(db.nextUserId), Normalize(email), Trim(name), StoredPassword(password, hash));
        && r == Ok(Success(CreatedMessage, u))
        && db.users == old(db.users)[u.id := u]
        && db.nextUserId == old(db.nextUserId) + 1
    {
      var created := Create(name, email, password, hash);
      match created
      case Ok(u) => r := Ok(Success(CreatedMessage, u));
      case Err(f) => r := Err(f);
    }

    /**
     * `deleteByEmail`: removes the user the normalised address names, and
     * with it that user's purchases, returning its id, e-mail and name.
     */
    method DeleteByEmail(email: string) returns (r: Response<PublicUser>)
      requires Valid()
      modifies db`users, db`purchases
      ensures Valid()
      ensures old(GetByEmailEntity(email)).None? ==>
        && r == Failure(NotFoundToDeleteMessage, UserNotFound)
        && db.users == old(db.users) && db.purchases == old(db.purchases)
      ensures old(GetByEmailEntity(email)).Some? ==>
        var u := old(GetByEmailEntity(email)).value;
        && r == Success(DeletedMessage, u)
        && db.users == old(db.users) - {u.id}
        && db.purchases == WithoutUser(old(db.purchases), u.id)
    {
      var found := GetByEmailEntity(email);
      if found.None? {
        return Failure(NotFoundToDeleteMessage, UserNotFound);
      }
      db.RemoveUser(found.value.id);
      r := Success(DeletedMessage, found.value);
    }

    /**
     * `updateByEmail`: changes only the fields supplied. A given name is
     * trimmed; a given address is normalised and refused if another user
     * holds it; a non-blank password is hashed. The id never changes.
     */
    method UpdateByEmail(email: string, name: Option<string>, newEmail: Option<string>,
                         password: Option<string>, hash: string -> string)
      returns (r: Result<Response<PublicUser>>)
      requires Valid()
      modifies db`users
      ensures Valid()
      ensures old(GetByEmailEntity(email)).None? ==>
        r == Ok(Failure(NotFoundMessage, UserNotFound)) && db.users == old(db.users)
      ensures old(GetByEmailEntity(email)).Some? ==>
        var id := old(GetByEmailEntity(email)).value.id;
        var u := old(db.users)[id];
        var conflict := Given(newEmail) && Normalize(newEmail.value) != u.email
                        && EmailInUse(old(db.users), Normalize(newEmail.value));
        && (conflict ==> r == Err(Conflict(EmailTakenMessage)) && db.users == old(db.users))
        && (!conflict ==>
              && id in db.users
              && db.users == old(db.users)[id := db.users[id]]
              && db.users[id].id == id
              && db.users[id].name == (if Given(name) then Trim(name.value) else u.name)
              && db.users[id].email == (if Given(newEmail) then Normalize(newEmail.value) else u.email)
              && db.users[id].password ==
                   (if Given(password) && Trim(password.value) != "" then hash(password.value) else u.password)
              && r == Ok(Success(UpdatedMessage, Public(db.users[id]))))
    {
      var found := GetByEmailEntity(email);
      if found.None? {
        return Ok(Failure(NotFoundMessage, UserNotFound));
      }
      var id := found.value.id;
      var user := db.users[id];
      if Given(name) {
        user := user.(name := Trim(name.value));
        TrimIdempotent(name.value);
      }
      if Given(newEmail) {
        var e := Normalize(newEmail.value);
        if e != user.email {
          var taken := db.FindUserByEmail(e);
          if taken.Some? {
            return Err(Conflict(EmailTakenMessage));
          }
          user := user.(email := e);
        }
        NormalizeIdempotent(newEmail.value);
      }
      if Given(password) && Trim(password.value) != "" {
        user := user.(password := hash(password.value));
      }
      assert user.id == id && WellFormed(user);
      assert !EmailInUseByOther(db.users, user.email, id) by {
        if user.email != db.users[id].email {
          assert !EmailInUse(db.users, user.email);
        }
      }
      StoreWellFormed(db.users, id, user);
      var dup := db.UpdateUser(user);
      // Any other holder of the address was refused above, so the save never reports a duplicate.
      r := Ok(Success(UpdatedMessage, Public(user)));
    }
  }
}
