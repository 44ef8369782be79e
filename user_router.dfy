/** The registration endpoint `POST /users` of server/routers/user.py. */
module UserRouter {
  import opened Wrappers
  import opened Text
  import opened Http
  import opened UserModel
  import opened Store
  import opened UserSchemas

  /**
   * Where an unexpected exception interrupts the handler, if at all; the model
   * takes it as an input. `FailsAtLookup`: in the duplicate queries.
   * `FailsAtCommit`: in hashing, `add` or `commit`, so the rollback discards
   * the insert. `FailsAfterCommit`: in `refresh` or the log line, when the
   * row is already committed and the rollback has nothing to undo.
   */
  datatype Fault = NoFault | FailsAtLookup | FailsAtCommit | FailsAfterCommit

  const ALREADY_EXISTS: HttpError := HttpError(400, "Username or email already exists")
  const INTERNAL_ERROR: HttpError := HttpError(500, "Internal server error occurred while creating user")

  /** The duplicate check on the already lower-cased name and email. */
  predicate IsDuplicate(users: seq<User>, username: string, email: string) {
    IsUsernameExists(users, username) || IsEmailExists(users, email)
  }

  /**
   * `create_user`: lower-cases the username and email, answers 400 when either
   * is taken, otherwise stores one user with the hash of the password and
   * returns its public fields; an unexpected failure is answered with 500
   * and rolled back, which undoes nothing once the commit has happened.
   * Stored names and emails stay lower case and unique.
   */
  method CreateUser(db: Database, user: UserCreate, hashPassword: string -> string, fault: Fault, now: nat)
    returns (r: Result<UserResponse, HttpError>)
    requires db.Valid() && db.clock <= now
    modifies db
    ensures db.Valid()
    ensures old(db.CaseFolded()) ==> db.CaseFolded()
    ensures r.Err? && fault != FailsAfterCommit ==> unchanged(db)
    ensures r == Err(ALREADY_EXISTS) ==> unchanged(db)
    ensures fault == FailsAtLookup ==> r == Err(INTERNAL_ERROR)
    ensures fault != FailsAtLookup && IsDuplicate(old(db.users), Lower(user.username), Lower(user.email)) ==>
              r == Err(ALREADY_EXISTS)
    ensures fault == FailsAtCommit && !IsDuplicate(old(db.users), Lower(user.username), Lower(user.email)) ==>
              r == Err(INTERNAL_ERROR)
    ensures (fault == NoFault || fault == FailsAfterCommit)
            && !IsDuplicate(old(db.users), Lower(user.username), Lower(user.email)) ==>
              var stored := User(old(db.nextUserId), Lower(user.username), Lower(user.email),
                                 hashPassword(user.password), now, None);
              && db.users == old(db.users) + [stored]
              && db.conversations == old(db.conversations) && db.messages == old(db.messages)
              && db.nextUserId == old(db.nextUserId) + 1
              && db.nextConversationId == old(db.nextConversationId)
              && db.nextMessageId == old(db.nextMessageId)
              && db.clock == now
              && r == (if fault == NoFault then Ok(UserResponse(stored.id, stored.username, stored.email, stored.createdAt))
                       else Err(INTERNAL_ERROR))
  {
    var email := Lower(user.email);
    var username := Lower(user.username);
    if fault == FailsAtLookup {
      return Err(INTERNAL_ERROR);
    }
    if IsUsernameExists(db.users, username) || IsEmailExists(db.users, email) {
      return Err(ALREADY_EXISTS);
    }
    if fault == FailsAtCommit {
      return Err(INTERNAL_ERROR);
    }
    var passwordHash := hashPassword(user.password);
    var added := db.AddUser(username, email, passwordHash, now);
    match added
    case Err(_) =>
      assert false;
    case Ok(newUser) =>
      if fault == FailsAfterCommit {
        return Err(INTERNAL_ERROR);
      }
      r := Ok(UserResponse(newUser.id, newUser.username, newUser.email, newUser.createdAt));
  }

  /** A name that differs from a stored one only in letter case is a duplicate. */
  lemma CaseVariantIsDuplicate(users: seq<User>, existing: User, user: UserCreate)
    requires existing in users
    requires Lower(user.username) == existing.username || Lower(user.email) == existing.email
    ensures IsDuplicate(users, Lower(user.username), Lower(user.email))
  {
    var k :| 0 <= k < |users| && users[k] == existing;
  }

  /** "TestUser" collides with a stored "testuser". */
  lemma MixedCaseUsernameCollides(users: seq<User>, existing: User, email: string, password: string)
    requires existing in users && existing.username == "testuser"
    ensures IsDuplicate(users, Lower("TestUser"), Lower(email))
  {
    assert Lower("TestUser") == "testuser";
    CaseVariantIsDuplicate(users, existing, UserCreate("TestUser", email, password));
  }

  /** "Test@Example.Com" collides with a stored "test@example.com". */
  lemma MixedCaseEmailCollides(users: seq<User>, existing: User, username: string, password: string)
    requires existing in users && existing.email == "test@example.com"
    ensures IsDuplicate(users, Lower(username), Lower("Test@Example.Com"))
  {
    assert Lower("Test@Example.Com") == "test@example.com";
    CaseVariantIsDuplicate(users, existing, UserCreate(username, "Test@Example.Com", password));
  }
}
