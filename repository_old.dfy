/** The user store of the old snapshot: users with integer ids from an
    auto-increment column, and the repository's own session field userId,
    which sign-in sets and sign-out clears. Profile updates go through an
    ORM struct update, which skips zero-valued fields. */
module OldRepository {
  import opened Common
  import opened OldDs
  import opened OldApiTypes

  const MsgBadId: string := "неверный id: должен быть > 0"
  const MsgEmptyLogin: string := "логин не может быть пустым"
  const MsgLoginRequired: string := "логин обязателен для заполнения"
  const MsgPasswordRequired: string := "пароль обязателен для заполнения"
  const MsgCreateFailed: string := "ошибка при создании пользователя"
  const MsgWrongCredentials: string := "неверный логин или пароль"
  const MsgBadProfileId: string := "неверный id пользователя"
  const MsgUpdateFailed: string := "ошибка при обновлении профиля"

  const MaxUint64: int := 0xFFFF_FFFF_FFFF_FFFF

  /** The column limits: login varchar(50), password varchar(100). */
  predicate Fits(u: User) {
    |u.login| <= 50 && |u.password| <= 100
  }

  /** The unique index on login. */
  ghost predicate LoginsUnique(users: map<Uint64, User>) {
    forall a, b :: a in users && b in users && a != b ==> users[a].login != users[b].login
  }

  /** Updates(struct) on a user: a non-empty login or password replaces the
      stored one, a true moderator flag is written, zero values are skipped
      and the id is never written. */
  function MergeProfile(cur: User, upd: User): (row: User)
    ensures row.id == cur.id
    ensures row.login == (if upd.login == "" then cur.login else upd.login)
    ensures row.password == (if upd.password == "" then cur.password else upd.password)
    ensures row.isModerator == (upd.isModerator || cur.isModerator)
  {
    User(cur.id,
         if upd.login != "" then upd.login else cur.login,
         if upd.password != "" then upd.password else cur.password,
         if upd.isModerator then true else cur.isModerator)
  }

  /** Merging the empty update changes nothing, and merging twice is
      merging once. */
  lemma MergeProfileIdempotent(cur: User, upd: User)
    ensures MergeProfile(cur, UserFromJSON(UserJSON(0, "", "", false))) == cur
    ensures MergeProfile(MergeProfile(cur, upd), upd) == MergeProfile(cur, upd)
  {
  }

  class OldRepository {
    var users: map<Uint64, User>
    /** The next value of the id sequence. */
    var nextUserId: nat
    /** The signed-in user of the whole process (0: nobody). */
    var userId: Uint64

    /** Stored users sit under their positive ids below the sequence, have a
        non-empty login and password that fit their columns, and unique
        logins. */
    ghost predicate Valid()
      reads this`users, this`nextUserId
    {
      && nextUserId >= 1
      && (forall k :: k in users ==>
            0 < k < nextUserId && users[k].id == k && Fits(users[k])
            && users[k].login != "" && users[k].password != "")
      && LoginsUnique(users)
    }

    /** NewRepository: an empty table and nobody signed in. */
    constructor ()
      ensures users == map[] && nextUserId == 1 && userId == 0
      ensures Valid()
    {
      users := map[];
      nextUserId := 1;
      userId := 0;
    }

    /** GetUserID. */
    function GetUserID(): Uint64
      reads this`userId
    {
      userId
    }

    /** SetUserID: records the signed-in user. */
    method SetUserID(id: Uint64)
      modifies this`userId
      ensures GetUserID() == id
    {
      userId := id;
    }

    /** SignOut: forgets the signed-in user and nothing else. */
    method SignOut()
      modifies this`userId
      ensures GetUserID() == 0
    {
      userId := 0;
    }

    /** GetUserByID: 0 is refused; a missing user is the ORM's own
        not-found error, not the package's sentinel. */
    function GetUserByID(id: Uint64): (r: Result<User>)
      reads this`users
      ensures id == 0 ==> r == Err(Invalid(MsgBadId))
      ensures id != 0 ==> (r.Ok? <==> id in users)
      ensures id != 0 && r.Err? ==> r.error == RecordNotFound
      ensures r.Ok? ==> r.value == users[id]
    {
      if id == 0 then Err(Invalid(MsgBadId))
      else if id in users then Ok(users[id])
      else Err(RecordNotFound)
    }

    /** GetUserByLogin: the login is unique, so at most one user matches. */
    function GetUserByLogin(login: string): (r: Result<User>)
      reads this`users
      requires LoginsUnique(users)
      ensures login == "" ==> r == Err(Invalid(MsgEmptyLogin))
      ensures login != "" ==> (r.Err? <==> forall k :: k in users ==> users[k].login != login)
      ensures login != "" && r.Err? ==> r.error == NotFound
      ensures r.Ok? ==> r.value in users.Values && r.value.login == login
    {
      if login == "" then Err(Invalid(MsgEmptyLogin))
      else if exists k :: k in users && users[k].login == login then
        var k :| k in users && users[k].login == login;
        Ok(users[k])
      else Err(NotFound)
    }

    /** A stored user is found by its login. */
    lemma LoginLookup(k: Uint64)
      requires Valid() && k in users
      ensures GetUserByLogin(users[k].login) == Ok(users[k])
    {
    }

    /** CreateUser: a user with a login, a password and a login nobody has
        is stored under the next id of the sequence. */
    method CreateUser(json: UserJSON) returns (res: Result<User>)
      requires Valid()
      modifies this`users, this`nextUserId
      ensures Valid()
      ensures json.login == "" ==> res == Err(Invalid(MsgLoginRequired))
      ensures json.login != "" && json.password == "" ==> res == Err(Invalid(MsgPasswordRequired))
      ensures json.login != "" && json.password != "" && old(GetUserByLogin(json.login)).Ok? ==> res == Err(AlreadyExists)
      ensures res.Ok? <==>
        (&& json.login != "" && json.password != "" && old(GetUserByLogin(json.login)).Err?
         && old(nextUserId) <= MaxUint64 && Fits(UserFromJSON(json)))
      ensures res.Ok? ==>
        && res.value == UserFromJSON(json).(id := old(nextUserId))
        && users == old(users)[res.value.id := res.value]
        && nextUserId == old(nextUserId) + 1
        && GetUserByLogin(json.login) == Ok(res.value)
      ensures res.Err? ==> users == old(users) && nextUserId == old(nextUserId)
    {
      var u := UserFromJSON(json);
      if u.login == "" {
        return Err(Invalid(MsgLoginRequired));
      }
      if u.password == "" {
        return Err(Invalid(MsgPasswordRequired));
      }
      var existing := GetUserByLogin(u.login);
      if existing.Ok? {
        return Err(AlreadyExists);
      }
      if nextUserId > MaxUint64 || !Fits(u) {
        return Err(Store(MsgCreateFailed));
      }
      var row := u.(id := nextUserId);
      users := users[row.id := row];
      nextUserId := nextUserId + 1;
      LoginLookup(row.id);
      return Ok(row);
    }

    /** SignIn: an unknown login and a wrong password give the same error;
        on success the user becomes the session user. */
    method SignIn(json: UserJSON) returns (res: Result<User>)
      requires Valid()
      modifies this`userId
      ensures json.login == "" ==> res == Err(Invalid(MsgLoginRequired))
      ensures json.login != "" && json.password == "" ==> res == Err(Invalid(MsgPasswordRequired))
      ensures res.Ok? <==>
        (&& json.login != "" && json.password != ""
         && exists k :: k in users && users[k].login == json.login && users[k].password == json.password)
      ensures json.login != "" && json.password != "" && res.Err? ==> res.error == Invalid(MsgWrongCredentials)
      ensures res.Ok? ==> res.value.id in users && users[res.value.id] == res.value && GetUserID() == res.value.id
      ensures res.Err? ==> GetUserID() == old(GetUserID())
    {
      if json.login == "" {
        return Err(Invalid(MsgLoginRequired));
      }
      if json.password == "" {
        return Err(Invalid(MsgPasswordRequired));
      }
      var found := GetUserByLogin(json.login);
      if found.Err? {
        return Err(Invalid(MsgWrongCredentials));
      }
      var user := found.value;
      assert user.id in users && users[user.id] == user;
      if user.password != json.password {
        return Err(Invalid(MsgWrongCredentials));
      }
      SetUserID(user.id);
      assert user.id in users && users[user.id].login == json.login && users[user.id].password == json.password;
      return Ok(user);
    }

    /** UpdateUserProfile: a struct update of the stored user in which a
        requested moderator flag of a non-moderator is dropped; the result
        is the user read back. */
    method UpdateUserProfile(id: Uint64, json: UserJSON) returns (res: Result<User>)
      requires Valid()
      modifies this`users
      ensures Valid()
      ensures id == 0 ==> res == Err(Invalid(MsgBadProfileId))
      ensures id != 0 && id !in old(users) ==> res == Err(RecordNotFound)
      ensures id != 0 && id in old(users) ==>
        var row := MergeProfile(old(users)[id], UserFromJSON(json).(isModerator := json.isModerator && old(users)[id].isModerator));
        if Fits(row) && forall k :: k in old(users) && k != id ==> old(users)[k].login != row.login
        then res == Ok(row) && users == old(users)[id := row]
        else res == Err(Store(MsgUpdateFailed)) && users == old(users)
      ensures res.Ok? ==> res.value.isModerator == old(users)[id].isModerator
      ensures res.Err? ==> users == old(users)
    {
      if id == 0 {
        return Err(Invalid(MsgBadProfileId));
      }
      var current := GetUserByID(id);
      if current.Err? {
        return current;
      }
      var updates := UserFromJSON(json);
      if updates.isModerator && !current.value.isModerator {
        updates := updates.(isModerator := false);
      }
      var row := MergeProfile(current.value, updates);
      if !Fits(row) || exists k :: k in users && k != id && users[k].login == row.login {
        return Err(Store(MsgUpdateFailed));
      }
      users := users[id := row];
      return GetUserByID(id);
    }
  }
}
