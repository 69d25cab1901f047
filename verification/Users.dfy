/** The local user store: a list with first-match loops, and the operations on it. */
module Users {
  import opened Common
  import opened Storage

  datatype Factor = Factor(name: string, kind: string, secret: string)

  datatype User = User(
    id: string,
    login: string,
    role: string,
    oidcID: string,
    samlID: string,
    provisioned: bool,
    password: string,
    suspended: bool,
    connectionsDisabledOnAuthFailure: bool,
    factors: seq<Factor>,
    externalID: string,
    lastLogin: Time
  )

  /** Go's zero value. */
  const NO_USER := User("", "", "", "", "", false, "", false, false, [], "", 0)

  function Blank(u: User): User { u.(password := "") }

  /** What a first-match loop looks for. */
  datatype Query = ByLogin(login: string) | ByID(id: string) | ByOIDCID(ids: set<string>)

  predicate Matches(q: Query, u: User) {
    match q
    case ByLogin(login) => u.login == login
    case ByID(id) => u.id == id
    case ByOIDCID(ids) => u.oidcID in ids
  }

  /** The index of the first match, or the length of the list when there is none. */
  function First(us: seq<User>, q: Query): (k: nat)
    ensures k <= |us|
    ensures forall i :: 0 <= i < k ==> !Matches(q, us[i])
    ensures k < |us| ==> Matches(q, us[k])
  {
    if us == [] || Matches(q, us[0]) then 0 else 1 + First(us[1..], q)
  }

  /** The index of the first user with this login whose hash accepts the password, or the length of the list. */
  function FirstAccepted(us: seq<User>, login: string, password: string, accepts: (string, string) -> bool): (k: nat)
    ensures k <= |us|
    ensures forall i :: 0 <= i < k ==> !(us[i].login == login && accepts(us[i].password, password))
    ensures k < |us| ==> us[k].login == login && accepts(us[k].password, password)
  {
    if us == [] || (us[0].login == login && accepts(us[0].password, password)) then 0
    else 1 + FirstAccepted(us[1..], login, password, accepts)
  }

  predicate Has(us: seq<User>, q: Query) { First(us, q) < |us| }

  function Logins(us: seq<User>): seq<string> { seq(|us|, i requires 0 <= i < |us| => us[i].login) }

  datatype UserError = EmptyLogin | LoginTaken | HashFailed | NotFound | ReadFailed | SaveFailed

  /** How writing users.json ended: the ownership of the file is fixed after its content is written. */
  datatype SaveOutcome = Saved | WriteFailed | OwnershipFailed

  // The effect of each store operation on the list. Fresh IDs and password hashes are inputs.

  datatype UserOp =
    | Add(user: User, newID: string, hash: Option<string>)
    | AddMany(batch: seq<User>, newIDs: nat -> string, hashes: nat -> Option<string>)
    | Update(user: User)
    | SetPassword(userID: string, hash: Option<string>)
    | RemoveLogin(login: string)
    | RemoveID(id: string)
    | Clear

  function AddedUser(us: seq<User>, user: User, newID: string, hash: Option<string>): Result<User, UserError> {
    if user.login == "" then Err(EmptyLogin)
    else if Has(us, ByLogin(user.login)) then Err(LoginTaken)
    else if user.password == "" then Ok(user.(id := newID))
    else if hash.None? then Err(HashFailed)
    else Ok(user.(id := newID, password := hash.value))
  }

  /** The users that a bulk add appends before it finishes or fails, starting at index `k` of the batch. */
  function AddedUsers(us: seq<User>, batch: seq<User>, newIDs: nat -> string, hashes: nat -> Option<string>, k: nat)
    : seq<User>
    requires k <= |batch|
    decreases |batch| - k
  {
    if k == |batch| || Has(us, ByLogin(batch[k].login)) || hashes(k).None? then []
    else
      var u := batch[k].(id := newIDs(k), password := hashes(k).value);
      [u] + AddedUsers(us + [u], batch, newIDs, hashes, k + 1)
  }

  function RemoveAt(us: seq<User>, k: nat): seq<User> {
    if k < |us| then us[..k] + us[k + 1..] else us
  }

  function Updated(us: seq<User>, user: User): seq<User> {
    var k := First(us, ByLogin(user.login));
    if k < |us| then us[k := user.(password := us[k].password)] else us
  }

  function Apply(us: seq<User>, op: UserOp): seq<User> {
    match op
    case Add(user, newID, hash) =>
      (match AddedUser(us, user, newID, hash) case Ok(u) => us + [u] case Err(_) => us)
    case AddMany(batch, newIDs, hashes) => us + AddedUsers(us, batch, newIDs, hashes, 0)
    case Update(user) => Updated(us, user)
    case SetPassword(userID, hash) =>
      var k := First(us, ByID(userID));
      if k < |us| && hash.Some? then us[k := us[k].(password := hash.value)] else us
    case RemoveLogin(login) => RemoveAt(us, First(us, ByLogin(login)))
    case RemoveID(id) => RemoveAt(us, First(us, ByID(id)))
    case Clear => []
  }

  /** The operation changes the list, and so gets as far as saving it. */
  predicate ReachesSave(us: seq<User>, op: UserOp) {
    match op
    case Add(user, newID, hash) => AddedUser(us, user, newID, hash).Ok?
    case AddMany(batch, newIDs, hashes) => |AddedUsers(us, batch, newIDs, hashes, 0)| == |batch|
    case Update(user) => Has(us, ByLogin(user.login))
    case SetPassword(userID, hash) => Has(us, ByID(userID)) && hash.Some?
    case RemoveLogin(login) => Has(us, ByLogin(login))
    case RemoveID(id) => Has(us, ByID(id))
    case Clear => true
  }

  /** The content of users.json after an operation. */
  function FileOf(was: Option<seq<User>>, us: seq<User>, op: UserOp, autoSave: bool, outcome: SaveOutcome)
    : Option<seq<User>>
  {
    if ReachesSave(us, op) && autoSave && !outcome.WriteFailed? then Some(Apply(us, op)) else was
  }

  lemma SameLoginsSameAnswer(a: seq<User>, b: seq<User>, login: string)
    requires Logins(a) == Logins(b)
    ensures First(a, ByLogin(login)) == First(b, ByLogin(login))
  {
    assert |a| == |Logins(a)| == |Logins(b)| == |b|;
    assert forall i :: 0 <= i < |a| ==> a[i].login == Logins(a)[i] == Logins(b)[i] == b[i].login;
  }

  lemma SameLoginsAppended(a: seq<User>, b: seq<User>, u: User)
    requires Logins(a) == Logins(b)
    ensures Logins(a + [u]) == Logins(b + [u])
  {
    assert Logins(a + [u]) == Logins(a) + [u.login];
    assert Logins(b + [u]) == Logins(b) + [u.login];
  }

  /**
   A bulk add has got to index `k`: the users created so far, the whole list, and the list
   that it looks logins up in.
   */
  ghost predicate Adding(start: seq<User>, batch: seq<User>, newIDs: nat -> string, hashes: nat -> Option<string>,
                         k: nat, created: seq<User>, us: seq<User>, existing: seq<User>)
  {
    && k <= |batch| && |created| == k && us == start + created && Logins(existing) == Logins(us)
    && AddedUsers(start, batch, newIDs, hashes, 0) == created + AddedUsers(us, batch, newIDs, hashes, k)
  }

  /** It ends there when the batch ends, the login is taken or there is no hash, and otherwise appends one user. */
  lemma AddingOn(start: seq<User>, batch: seq<User>, newIDs: nat -> string, hashes: nat -> Option<string>,
                 k: nat, created: seq<User>, us: seq<User>, existing: seq<User>)
    requires Adding(start, batch, newIDs, hashes, k, created, us, existing)
    ensures k == |batch| || Has(us, ByLogin(batch[k].login)) || hashes(k).None? ==>
      created == AddedUsers(start, batch, newIDs, hashes, 0) && us == Apply(start, AddMany(batch, newIDs, hashes))
    ensures k < |batch| ==> (Has(existing, ByLogin(batch[k].login)) <==> Has(us, ByLogin(batch[k].login)))
    ensures k < |batch| && !Has(us, ByLogin(batch[k].login)) && hashes(k).Some? ==>
      var u := batch[k].(id := newIDs(k), password := hashes(k).value);
      Adding(start, batch, newIDs, hashes, k + 1, created + [u], us + [u], existing + [u])
  {
    if k == |batch| || Has(us, ByLogin(batch[k].login)) || hashes(k).None? {
      assert created + [] == created;
    } else {
      var u := batch[k].(id := newIDs(k), password := hashes(k).value);
      assert start + (created + [u]) == start + created + [u];
      SameLoginsAppended(existing, us, u);
    }
    if k < |batch| {
      SameLoginsSameAnswer(existing, us, batch[k].login);
      assert |existing| == |Logins(existing)| == |Logins(us)| == |us|;
    }
  }

  class UserStore {
    var users: seq<User>
    const autoSave: bool
    const maxUsers: int
    const file: StoredFile<seq<User>>

    constructor (file: StoredFile<seq<User>>, users: seq<User>, autoSave: bool, maxUsers: int)
      ensures this.file == file && this.users == users && this.autoSave == autoSave && this.maxUsers == maxUsers
    {
      this.file, this.users, this.autoSave, this.maxUsers := file, users, autoSave, maxUsers;
    }

    /** Reopening the store after a successful save gives back the list that was saved. */
    static method NewUserStore(file: StoredFile<seq<User>>, maxUsers: int, readable: bool)
      returns (r: Result<UserStore, UserError>)
      ensures r.Err? <==> file.content.Some? && !readable
      ensures r.Ok? ==> fresh(r.value) && r.value.file == file && r.value.autoSave && r.value.maxUsers == maxUsers
      ensures r.Ok? ==> r.value.users == if file.content.Some? then file.content.value else []
    {
      if file.content.None? {
        var empty := new UserStore(file, [], true, maxUsers);
        return Ok(empty);
      }
      if !readable {
        return Err(ReadFailed);
      }
      var store := new UserStore(file, file.content.value, true, maxUsers);
      return Ok(store);
    }

    /** The content of users.json after an operation that changed the list and then saved it. */
    ghost function FileAfter(was: Option<seq<User>>, now: seq<User>, outcome: SaveOutcome): Option<seq<User>>
      reads this
    {
      if autoSave && outcome != WriteFailed then Some(now) else was
    }

    method SaveUsers(outcome: SaveOutcome) returns (ok: bool)
      modifies file
      ensures ok == outcome.Saved?
      ensures file.content == if outcome.WriteFailed? then old(file.content) else Some(users)
    {
      ok := file.Write(users, !outcome.WriteFailed?);
      if ok {
        ok := outcome.Saved?;
      }
    }

    /** The save that ends an operation, when the store saves by itself. */
    method AutoSave(outcome: SaveOutcome) returns (ok: bool)
      modifies file
      ensures ok == (autoSave ==> outcome.Saved?)
      ensures file.content == FileAfter(old(file.content), users, outcome)
    {
      ok := true;
      if autoSave {
        ok := SaveUsers(outcome);
      }
    }

    method ListUsers() returns (list: seq<User>)
      ensures |list| == |users| && forall i :: 0 <= i < |users| ==> list[i] == Blank(users[i])
    {
      list := [];
      for k := 0 to |users|
        invariant |list| == k && forall i :: 0 <= i < k ==> list[i] == Blank(users[i])
      {
        list := list + [users[k].(password := "")];
      }
    }

    static method ListHasLogin(list: seq<User>, login: string) returns (found: bool)
      ensures found == Has(list, ByLogin(login))
    {
      for i := 0 to |list|
        invariant forall j :: 0 <= j < i ==> list[j].login != login
      {
        if list[i].login == login {
          return true;
        }
      }
      return false;
    }

    method AddUser(user: User, newID: string, hash: Option<string>, outcome: SaveOutcome)
      returns (r: Result<User, UserError>)
      modifies this`users, file
      ensures users == Apply(old(users), Add(user, newID, hash))
      ensures var added := AddedUser(old(users), user, newID, hash);
        r == (if added.Ok? && autoSave && !outcome.Saved? then Err(SaveFailed) else added)
        && file.content == if added.Ok? then FileAfter(old(file.content), users, outcome) else old(file.content)
      ensures var taken := exists u :: u in old(users) && u.login == user.login;
        if user.login == "" then r == Err(EmptyLogin) && users == old(users)
        else if taken then r == Err(LoginTaken) && users == old(users)
        else if user.password != "" && hash.None? then r == Err(HashFailed) && users == old(users)
        else
          && |users| == |old(users)| + 1 && users[..|old(users)|] == old(users)
          && users[|old(users)|] == user.(id := newID, password := if user.password == "" then "" else hash.value)
          && r == if autoSave && !outcome.Saved? then Err(SaveFailed) else Ok(users[|old(users)|])
    {
      if user.login == "" {
        return Err(EmptyLogin);
      }
      var existingUsers := ListUsers();
      SameLoginsSameAnswer(existingUsers, users, user.login);
      var taken := ListHasLogin(existingUsers, user.login);
      if taken {
        return Err(LoginTaken);
      }
      var newUser := user.(id := newID);
      if newUser.password != "" {
        if hash.None? {
          return Err(HashFailed);
        }
        newUser := newUser.(password := hash.value);
      }
      users := users + [newUser];
      var ok := AutoSave(outcome);
      return if ok then Ok(newUser) else Err(SaveFailed);
    }

    /**
     Adds the users one by one, and overwrites each with the ID and hash it got; on
     the first taken login or failed hash the earlier ones stay in the list, unsaved.
     */
    method AddUsers(batch: array<User>, newIDs: nat -> string, hashes: nat -> Option<string>, outcome: SaveOutcome)
      returns (created: seq<User>, error: Option<UserError>)
      modifies this`users, file, batch
      ensures users == Apply(old(users), AddMany(old(batch[..]), newIDs, hashes))
      ensures created == AddedUsers(old(users), old(batch[..]), newIDs, hashes, 0) && |created| <= batch.Length
      ensures error == if |created| < batch.Length
                       then Some(if Has(users, ByLogin(old(batch[..])[|created|].login)) then LoginTaken
                         else HashFailed)
                       else if autoSave && !outcome.Saved? then Some(SaveFailed) else None
      ensures file.content == if |created| < batch.Length then old(file.content)
        else FileAfter(old(file.content), users, outcome)
      ensures forall i :: 0 <= i < |created| ==> batch[i] == created[i]
      ensures forall i :: |created| <= i < batch.Length ==>
        batch[i] == if i == |created| && error == Some(HashFailed) then old(batch[i]).(id := newIDs(i))
          else old(batch[i])
    {
      created := [];
      ghost var start, all := users, batch[..];
      var existingUsers := ListUsers();
      assert Logins(existingUsers) == Logins(users);
      for k := 0 to batch.Length
        invariant Adding(start, all, newIDs, hashes, k, created, users, existingUsers)
        invariant forall i :: 0 <= i < k ==> batch[i] == created[i]
        invariant forall i :: k <= i < batch.Length ==> batch[i] == all[i]
        invariant file.content == old(file.content)
      {
        AddingOn(start, all, newIDs, hashes, k, created, users, existingUsers);
        error := AddNext(batch, k, existingUsers, newIDs(k), hashes(k));
        if error.Some? {
          return;
        }
        existingUsers := existingUsers + [batch[k]];
        created := created + [batch[k]];
      }
      AddingOn(start, all, newIDs, hashes, batch.Length, created, users, existingUsers);
      var ok := AutoSave(outcome);
      error := if ok then None else Some(SaveFailed);
    }

    /** The body of that loop. */
    method AddNext(batch: array<User>, k: nat, existingUsers: seq<User>, newID: string, hash: Option<string>)
      returns (error: Option<UserError>)
      requires k < batch.Length
      modifies this`users, batch
      ensures error == if Has(existingUsers, ByLogin(old(batch[k]).login)) then Some(LoginTaken)
                       else if hash.None? then Some(HashFailed) else None
      ensures batch[k] == if error == Some(LoginTaken) then old(batch[k])
                          else if error == Some(HashFailed) then old(batch[k]).(id := newID)
                          else old(batch[k]).(id := newID, password := hash.value)
      ensures forall i :: 0 <= i < batch.Length && i != k ==> batch[i] == old(batch[i])
      ensures users == if error.None? then old(users) + [batch[k]] else old(users)
    {
      var taken := ListHasLogin(existingUsers, batch[k].login);
      if taken {
        return Some(LoginTaken);
      }
      batch[k] := batch[k].(id := newID);
      if hash.None? {
        return Some(HashFailed);
      }
      batch[k] := batch[k].(password := hash.value);
      users := users + [batch[k]];
      return None;
    }

    method GetUserByID(id: string) returns (r: Result<User, UserError>)
      ensures var k := First(users, ByID(id)); r == if k < |users| then Ok(Blank(users[k])) else Err(NotFound)
    {
      for k := 0 to |users|
        invariant forall i :: 0 <= i < k ==> users[i].id != id
      {
        if users[k].id == id {
          return Ok(users[k].(password := ""));
        }
      }
      return Err(NotFound);
    }

    method GetUserByLogin(login: string) returns (r: Result<User, UserError>)
      ensures var k := First(users, ByLogin(login)); r == if k < |users| then Ok(Blank(users[k])) else Err(NotFound)
    {
      for k := 0 to |users|
        invariant forall i :: 0 <= i < k ==> users[i].login != login
      {
        if users[k].login == login {
          return Ok(users[k].(password := ""));
        }
      }
      return Err(NotFound);
    }

    /** Unlike the other getters this one leaves the password hash in the record. */
    method GetUserByOIDCIDs(oidcIDs: seq<string>) returns (r: Result<User, UserError>)
      ensures var k := First(users, ByOIDCID(Elems(oidcIDs))); r == if k < |users| then Ok(users[k]) else Err(NotFound)
    {
      for k := 0 to |users|
        invariant forall i :: 0 <= i < k ==> users[i].oidcID !in Elems(oidcIDs)
      {
        for i := 0 to |oidcIDs|
          invariant users[k].oidcID !in oidcIDs[..i]
        {
          if users[k].oidcID == oidcIDs[i] {
            return Ok(users[k]);
          }
        }
      }
      return Err(NotFound);
    }

    method LoginExists(login: string) returns (found: bool)
      ensures found == Has(users, ByLogin(login))
    {
      for k := 0 to |users|
        invariant forall i :: 0 <= i < k ==> users[i].login != login
      {
        if users[k].login == login {
          return true;
        }
      }
      return false;
    }

    /** The first user with the login whose stored hash accepts the password. */
    method AuthUser(login: string, password: string, accepts: (string, string) -> bool) returns (user: User, ok: bool)
      ensures var k := FirstAccepted(users, login, password, accepts);
        ok == (k < |users|) && user == if k < |users| then users[k] else NO_USER
    {
      for k := 0 to |users|
        invariant forall i :: 0 <= i < k ==> !(users[i].login == login && accepts(users[i].password, password))
      {
        if users[k].login == login {
          if accepts(users[k].password, password) {
            return users[k], true;
          }
        }
      }
      return NO_USER, false;
    }

    method UpdateUser(user: User, outcome: SaveOutcome) returns (error: Option<UserError>)
      modifies this`users, file
      ensures users == Apply(old(users), Update(user))
      ensures !Has(old(users), ByLogin(user.login)) ==> error == Some(NotFound) && file.content == old(file.content)
      ensures Has(old(users), ByLogin(user.login)) ==>
        error == (if autoSave && !outcome.Saved? then Some(SaveFailed) else None)
        && file.content == FileAfter(old(file.content), users, outcome)
    {
      for k := 0 to |users|
        invariant forall i :: 0 <= i < k ==> users[i].login != user.login
        invariant users == old(users) && file.content == old(file.content)
      {
        if users[k].login == user.login {
          var password := users[k].password;
          users := users[k := user.(password := password)];
          var ok := AutoSave(outcome);
          return if ok then None else Some(SaveFailed);
        }
      }
      return Some(NotFound);
    }

    method UpdatePassword(userID: string, hash: Option<string>, outcome: SaveOutcome) returns (error: Option<UserError>)
      modifies this`users, file
      ensures users == Apply(old(users), SetPassword(userID, hash))
      ensures error == if !Has(old(users), ByID(userID)) then Some(NotFound)
                       else if hash.None? then Some(HashFailed)
                       else if autoSave && !outcome.Saved? then Some(SaveFailed) else None
      ensures file.content == if Has(old(users), ByID(userID)) && hash.Some?
                              then FileAfter(old(file.content), users, outcome) else old(file.content)
    {
      for k := 0 to |users|
        invariant forall i :: 0 <= i < k ==> users[i].id != userID
        invariant users == old(users) && file.content == old(file.content)
      {
        if users[k].id == userID {
          if hash.None? {
            return Some(HashFailed);
          }
          users := users[k := users[k].(password := hash.value)];
          var ok := AutoSave(outcome);
          return if ok then None else Some(SaveFailed);
        }
      }
      return Some(NotFound);
    }

    method DeleteUserByLogin(login: string, outcome: SaveOutcome) returns (error: Option<UserError>)
      modifies this`users, file
      ensures users == Apply(old(users), RemoveLogin(login))
      ensures !Has(old(users), ByLogin(login)) ==> error == Some(NotFound) && file.content == old(file.content)
      ensures Has(old(users), ByLogin(login)) ==>
        error == (if autoSave && !outcome.Saved? then Some(SaveFailed) else None)
        && file.content == FileAfter(old(file.content), users, outcome)
    {
      for k := 0 to |users|
        invariant forall i :: 0 <= i < k ==> users[i].login != login
        invariant users == old(users) && file.content == old(file.content)
      {
        if users[k].login == login {
          users := users[..k] + users[k + 1..];
          var ok := AutoSave(outcome);
          return if ok then None else Some(SaveFailed);
        }
      }
      return Some(NotFound);
    }

    method DeleteUserByID(id: string, outcome: SaveOutcome) returns (error: Option<UserError>)
      modifies this`users, file
      ensures users == Apply(old(users), RemoveID(id))
      ensures !Has(old(users), ByID(id)) ==> error == Some(NotFound) && file.content == old(file.content)
      ensures Has(old(users), ByID(id)) ==>
        error == (if autoSave && !outcome.Saved? then Some(SaveFailed) else None)
        && file.content == FileAfter(old(file.content), users, outcome)
    {
      for k := 0 to |users|
        invariant forall i :: 0 <= i < k ==> users[i].id != id
        invariant users == old(users) && file.content == old(file.content)
      {
        if users[k].id == id {
          users := users[..k] + users[k + 1..];
          var ok := AutoSave(outcome);
          return if ok then None else Some(SaveFailed);
        }
      }
      return Some(NotFound);
    }

    method Empty(outcome: SaveOutcome) returns (ok: bool)
      modifies this`users, file
      ensures users == Apply(old(users), Clear)
      ensures ok == (autoSave ==> outcome.Saved?) && file.content == FileAfter(old(file.content), users, outcome)
    {
      users := [];
      ok := AutoSave(outcome);
    }
  }
}
