/** The HTTP handlers that change the user store, as sequences of store operations. */
module Handlers {
  import opened Common
  import opened Users
  import opened UserRuns

  datatype AuthType = Oidc | Saml

  datatype Email = Email(primary: bool, value: string)

  /**
   A request, with the outcomes of what the handler calls out to: hooks, saves,
   the password hash, the ID of a user it adds, and the clock.
   */
  datatype Request =
    | PostUser(login: string, password: string, role: string, licenses: int, newID: string, hash: Option<string>)
    | DeleteUser(id: string)
    | PatchUser(pathID: string, body: User, hookOk: bool, saved: SaveOutcome, hash: Option<string>)
    | ScimPut(id: string, userName: string, emails: seq<Email>, active: bool, hookOk: bool)
    | ScimPost(userName: string, emails: seq<Email>, externalID: string, maxUsers: int, newID: string)
    | ScimDelete(id: string, hookOk: bool)
    | SetupAdmin(password: string, newID: string, hash: Option<string>)
    | ChangePassword(userID: string, hash: Option<string>)
    | EditFactors(login: string, factors: seq<Factor>)
    | LocalLogin(login: string, now: Time)
    | DisableConnections(login: string)
    | External(login: string, authType: AuthType, authID: string, hookOk: bool, now: Time, newID: string)

  predicate IsAlphaNumeric(s: string) {
    forall i :: 0 <= i < |s| ==> 'a' <= s[i] <= 'z' || 'A' <= s[i] <= 'Z' || '0' <= s[i] <= '9'
  }

  predicate AcceptablePost(us: seq<User>, login: string, password: string, role: string, licenses: int) {
    && IsAlphaNumeric(login)
    && login != ""
    && password != ""
    && role in {"user", "admin"}
    && |us| < licenses
  }

  /** The user name of a SCIM request: without one, the last primary email address. */
  function ScimUsername(userName: string, emails: seq<Email>): string {
    if userName != "" || emails == [] then userName
    else
      var last := emails[|emails| - 1];
      if last.primary then last.value else ScimUsername(userName, emails[..|emails| - 1])
  }

  function Linked(u: User, authType: AuthType, authID: string, now: Time): User {
    var linked := if authType.Oidc? then u.(oidcID := authID) else u.(samlID := authID);
    linked.(connectionsDisabledOnAuthFailure := false, lastLogin := now)
  }

  function Patched(u: User, body: User): User {
    u.(role := if body.role != "" then body.role else u.role, suspended := body.suspended)
  }

  function UpdateOf(us: seq<User>, q: Query, f: User -> User): seq<UserOp> {
    var k := First(us, q);
    if k < |us| then [Update(f(Blank(us[k])))] else []
  }

  /** What a patch does with the record `u` that it found. */
  function PatchOps(u: User, body: User, hookOk: bool, saved: SaveOutcome, hash: Option<string>): seq<UserOp> {
    var p := Patched(u, body);
    if p.suspended != u.suspended && !hookOk then []
    else
      (if p == u then [] else [Update(p)])
      + (if body.password == "" || (p != u && !saved.Saved?) then [] else [SetPassword(body.id, hash)])
  }

  /** The store operations that a request leads to. */
  function Ops(us: seq<User>, r: Request): seq<UserOp> {
    match r
    case PostUser(login, password, role, licenses, newID, hash) =>
      if AcceptablePost(us, login, password, role, licenses)
      then [Add(NO_USER.(login := login, password := password, role := role), newID, hash)] else []
    case DeleteUser(id) => [RemoveID(id)]
    case PatchUser(pathID, body, hookOk, saved, hash) =>
      var k := First(us, ByID(pathID));
      if k == |us| then [] else PatchOps(Blank(us[k]), body, hookOk, saved, hash)
    case ScimPut(id, userName, emails, active, hookOk) =>
      var k := First(us, ByID(id));
      if k == |us| || (active == us[k].suspended && !hookOk) then []
      else
        var name := ScimUsername(userName, emails);
        var u := Blank(us[k]).(suspended := !active);
        [Update(if Has(us, ByLogin(name)) then u else u.(login := name))]
    case ScimPost(userName, emails, externalID, maxUsers, newID) =>
      var name := ScimUsername(userName, emails);
      if Has(us, ByLogin(name)) || maxUsers - |us| <= 0 then []
      else [Add(NO_USER.(login := name, role := "user", provisioned := true, externalID := externalID), newID, None)]
    case ScimDelete(id, hookOk) => if hookOk && Has(us, ByID(id)) then [RemoveID(id)] else []
    case SetupAdmin(password, newID, hash) =>
      if password == "" then []
      else
        var admin := NO_USER.(login := "admin", password := password, role := "admin");
        if Has(us, ByLogin("admin")) then [Update(admin)] else [Add(admin, newID, hash)]
    case ChangePassword(userID, hash) => [SetPassword(userID, hash)]
    case EditFactors(login, factors) => UpdateOf(us, ByLogin(login), (u: User) => u.(factors := factors))
    case LocalLogin(login, now) => UpdateOf(us, ByLogin(login), (u: User) => u.(lastLogin := now))
    case DisableConnections(login) =>
      UpdateOf(us, ByLogin(login), (u: User) => u.(connectionsDisabledOnAuthFailure := true))
    case External(login, authType, authID, hookOk, now, newID) =>
      var k := First(us, ByLogin(login));
      if k == |us|
      then [Add(Linked(NO_USER.(login := login, role := "user"), authType, authID, now), newID, None)]
      else if us[k].connectionsDisabledOnAuthFailure && !hookOk then []
      else [Update(Linked(Blank(us[k]), authType, authID, now))]
  }

  ghost function Handle(us: seq<User>, r: Request): seq<User> {
    ApplyAll(us, Ops(us, r))
  }

  lemma HandleMeans(us: seq<User>, r: Request)
    ensures var ops := Ops(us, r);
      |ops| <= 2 && Handle(us, r) == match |ops|
                                     case 0 => us
                                     case 1 => Apply(us, ops[0])
                                     case _ => Apply(Apply(us, ops[0]), ops[1])
  {
    var ops := Ops(us, r);
    if |ops| == 1 {
      assert ops[1..] == [] && ApplyAll(Apply(us, ops[0]), []) == Apply(us, ops[0]);
    } else if |ops| == 2 {
      var rest := ops[1..];
      assert rest[0] == ops[1] && rest[1..] == [];
      assert ApplyAll(Apply(us, ops[0]), rest) == ApplyAll(Apply(Apply(us, ops[0]), ops[1]), []);
    }
  }

  /** `saved` is how saving the user's record ends, and `passwordSaved` how saving a password does. */
  function SaveOf(op: UserOp, saved: SaveOutcome, passwordSaved: SaveOutcome): SaveOutcome {
    if op.SetPassword? then passwordSaved else saved
  }

  /** The content of users.json after a request. */
  function FileHandled(was: Option<seq<User>>, us: seq<User>, r: Request, autoSave: bool, saved: SaveOutcome,
                       passwordSaved: SaveOutcome)
    : Option<seq<User>>
  {
    var ops := Ops(us, r);
    if ops == [] then was
    else
      var file := FileOf(was, us, ops[0], autoSave, SaveOf(ops[0], saved, passwordSaved));
      if |ops| == 1 then file
      else FileOf(file, Apply(us, ops[0]), ops[1], autoSave, SaveOf(ops[1], saved, passwordSaved))
  }

  datatype HandlerError = HookFailed | StoreFailed(error: UserError)

  /** The external login gets as far as saving the user list. */
  predicate ExternalAccepted(us: seq<User>, login: string, hookOk: bool) {
    var k := First(us, ByLogin(login));
    if k < |us| then us[k].connectionsDisabledOnAuthFailure ==> hookOk else login != ""
  }

  /** A patch gets past the hook and the save of the changed record, if it changes any of it. */
  predicate PatchAccepted(us: seq<User>, pathID: string, body: User, hookOk: bool, saved: bool) {
    var k := First(us, ByID(pathID));
    && k < |us|
    && (body.suspended != us[k].suspended ==> hookOk)
    && (Patched(Blank(us[k]), body) != Blank(us[k]) ==> saved)
  }

  /** The user that an external login writes: a new one, or the existing one with its link and login time set. */
  function ExternalUser(us: seq<User>, r: Request): User
    requires r.External?
  {
    var k := First(us, ByLogin(r.login));
    if k < |us| then Linked(Blank(us[k]), r.authType, r.authID, r.now)
    else Linked(NO_USER.(login := r.login, role := "user"), r.authType, r.authID, r.now).(id := r.newID)
  }

  /** An external login saves the list if it is accepted. */
  lemma ExternalSaves(was: Option<seq<User>>, us: seq<User>, r: Request, autoSave: bool, saved: SaveOutcome)
    requires r.External?
    ensures FileHandled(was, us, r, autoSave, saved, saved)
         == if ExternalAccepted(us, r.login, r.hookOk) && autoSave && !saved.WriteFailed?
            then Some(Handle(us, r)) else was
  {
    HandleMeans(us, r);
  }

  /** A SCIM PUT saves the list if it finds the user, its hook succeeds, and it does not try to rename. */
  lemma ScimPutSaves(was: Option<seq<User>>, us: seq<User>, r: Request, autoSave: bool, saved: SaveOutcome)
    requires r.ScimPut?
    ensures var k := First(us, ByID(r.id));
      FileHandled(was, us, r, autoSave, saved, saved)
      == if k < |us| && (r.active == us[k].suspended ==> r.hookOk)
        && Has(us, ByLogin(ScimUsername(r.userName, r.emails)))
            && autoSave && !saved.WriteFailed?
         then Some(Handle(us, r)) else was
  {
    HandleMeans(us, r);
    var k := First(us, ByID(r.id));
    assert k < |us| ==> Matches(ByLogin(us[k].login), us[k]);
  }

  /** It is accepted unless the hook fails for a user whose connections are disabled, or a new user has no login. */
  lemma ExternalAcceptedExactlyWhen(us: seq<User>, login: string, hookOk: bool)
    requires Distinct(us)
    ensures ExternalAccepted(us, login, hookOk)
      <==> && (login != "" || exists u :: u in us && u.login == "")
           && forall u :: u in us && u.login == login && u.connectionsDisabledOnAuthFailure ==> hookOk
  {
    var k := First(us, ByLogin(login));
    forall i | 0 <= i < |us| && us[i].login == login ensures i == k {
      FirstIsTheOne(us, ByLogin(login), i);
    }
  }

  /**
   What an accepted external login writes: a link of its kind, the login time, and enabled
   connections, in the record of the user or in a new one at the end.
   */
  lemma ExternalWrites(us: seq<User>, r: Request)
    requires r.External? && ExternalAccepted(us, r.login, r.hookOk)
    ensures var us', k := Handle(us, r), First(us, ByLogin(r.login));
      && First(us', ByLogin(r.login)) == k < |us'|
      && us'[k].login == r.login && us'[k].lastLogin == r.now && !us'[k].connectionsDisabledOnAuthFailure
      && (if r.authType.Oidc? then us'[k].oidcID == r.authID else us'[k].samlID == r.authID)
      && (k < |us| ==>
            && us' == us[k := us'[k]]
            && (if r.authType.Oidc? then us'[k].samlID == us[k].samlID else us'[k].oidcID == us[k].oidcID)
            && us'[k] == us[k].(oidcID := us'[k].oidcID, samlID := us'[k].samlID, lastLogin := r.now,
                                connectionsDisabledOnAuthFailure := false))
      && (k == |us| ==>
            && us' == us + [us'[k]]
            && us'[k].id == r.newID && us'[k].role == "user" && us'[k].password == "" && us'[k].factors == []
            && !us'[k].suspended && !us'[k].provisioned)
  {
    ExternalMeans(us, r);
    if Has(us, ByLogin(r.login)) {
      FirstAfterUpdate(us, ExternalUser(us, r));
    } else {
      FirstAfterAppend(us, ExternalUser(us, r));
    }
  }

  lemma ExternalMeans(us: seq<User>, r: Request)
    requires r.External?
    ensures var u := ExternalUser(us, r);
      u.login == r.login
      && Handle(us, r) == if !ExternalAccepted(us, r.login, r.hookOk) then us
                          else if Has(us, ByLogin(r.login)) then Updated(us, u) else us + [u]
  {
    HandleMeans(us, r);
  }

  /** A patch changes role or suspension. */
  predicate PatchesRecord(us: seq<User>, pathID: string, body: User, hookOk: bool) {
    var k := First(us, ByID(pathID));
    k < |us| && (body.suspended != us[k].suspended ==> hookOk) && Patched(Blank(us[k]), body) != Blank(us[k])
  }

  /** The list after that, before it sets a password. */
  function RecordPatched(us: seq<User>, pathID: string, body: User, hookOk: bool): seq<User> {
    if PatchesRecord(us, pathID, body, hookOk)
    then Updated(us, Patched(Blank(us[First(us, ByID(pathID))]), body)) else us
  }

  lemma PatchMeans(us: seq<User>, r: Request)
    requires r.PatchUser?
    ensures var us1 := RecordPatched(us, r.pathID, r.body, r.hookOk);
      Handle(us, r) == if PatchAccepted(us, r.pathID, r.body, r.hookOk, r.saved.Saved?) && r.body.password != ""
                       then Apply(us1, SetPassword(r.body.id, r.hash)) else us1
  {
    HandleMeans(us, r);
  }

  lemma PatchSaves(was: Option<seq<User>>, us: seq<User>, r: Request, autoSave: bool, saved: SaveOutcome,
                   passwordSaved: SaveOutcome)
    requires r.PatchUser?
    ensures var us1 := RecordPatched(us, r.pathID, r.body, r.hookOk);
      var changed := PatchesRecord(us, r.pathID, r.body, r.hookOk);
      var file := if changed && autoSave && !saved.WriteFailed? then Some(us1) else was;
      FileHandled(was, us, r, autoSave, saved, passwordSaved)
      == if PatchAccepted(us, r.pathID, r.body, r.hookOk, r.saved.Saved?) && r.body.password != ""
         then FileOf(file, us1, SetPassword(r.body.id, r.hash), autoSave, passwordSaved) else file
  {
    var k := First(us, ByID(r.pathID));
    if k < |us| {
      var u, p := Blank(us[k]), Patched(Blank(us[k]), r.body);
      assert Matches(ByLogin(p.login), us[k]);
      if p != u {
        assert ReachesSave(us, Update(p));
      }
    }
  }

  lemma PasswordKeepsIDs(us: seq<User>, userID: string, hash: Option<string>)
    ensures Has(Apply(us, SetPassword(userID, hash)), ByID(userID)) <==> Has(us, ByID(userID))
  {
    var us', k := Apply(us, SetPassword(userID, hash)), First(us, ByID(userID));
    assert k < |us| ==> Matches(ByID(userID), us'[k]);
  }

  class UserHandlers {
    const store: UserStore
    const licenseUserCount: int

    constructor (store: UserStore, licenseUserCount: int)
      ensures this.store == store && this.licenseUserCount == licenseUserCount
    {
      this.store, this.licenseUserCount := store, licenseUserCount;
    }

    method AddOrModifyExternalUser(login: string, authType: AuthType, authID: string, hookOk: bool, now: Time,
                                   newID: string, saved: SaveOutcome)
      returns (r: Result<User, HandlerError>)
      modifies store`users, store.file
      ensures store.users == Handle(old(store.users), External(login, authType, authID, hookOk, now, newID))
      ensures store.file.content == FileHandled(old(store.file.content), old(store.users),
          External(login, authType, authID, hookOk, now, newID),
                                                store.autoSave, saved, saved)
      ensures r.Ok? <==> (store.autoSave ==> saved.Saved?) && ExternalAccepted(old(store.users), login, hookOk)
      ensures r.Ok? ==> var k := First(store.users, ByLogin(login));
        k < |store.users| && r.value == Blank(store.users[k])
    {
      ghost var r0 := External(login, authType, authID, hookOk, now, newID);
      ExternalMeans(store.users, r0);
      ExternalSaves(store.file.content, store.users, r0, store.autoSave, saved);
      var found := store.LoginExists(login);
      if found {
        r := ModifyExternalUser(login, authType, authID, hookOk, now, saved);
        return r;
      }
      var newUser := NO_USER.(login := login, role := "user");
      if authType == Oidc {
        newUser := newUser.(oidcID := authID);
      }
      if authType == Saml {
        newUser := newUser.(samlID := authID);
      }
      newUser := newUser.(lastLogin := now);
      var added := store.AddUser(newUser, newID, None, saved);
      FirstAfterAppend(old(store.users), newUser.(id := newID));
      return if added.Ok? then Ok(added.value) else Err(StoreFailed(added.error));
    }

    /** The branch for a user that exists. */
    method ModifyExternalUser(login: string, authType: AuthType, authID: string, hookOk: bool, now: Time,
                              saved: SaveOutcome)
      returns (r: Result<User, HandlerError>)
      requires Has(store.users, ByLogin(login))
      modifies store`users, store.file
      ensures var us := old(store.users);
        var user := Linked(Blank(us[First(us, ByLogin(login))]), authType, authID, now);
        if ExternalAccepted(us, login, hookOk) then
          && store.users == Updated(us, user)
          && store.file.content == store.FileAfter(old(store.file.content), store.users, saved)
          && r == (if store.autoSave && !saved.Saved? then Err(StoreFailed(SaveFailed)) else Ok(user))
          && First(store.users, ByLogin(login)) == First(us, ByLogin(login))
            && Blank(store.users[First(us, ByLogin(login))]) == user
        else store.users == us && store.file.content == old(store.file.content) && r == Err(HookFailed)
    {
      var existing := store.GetUserByLogin(login);
      assert existing.Ok?;  // so the error branch that follows in the code is never taken
      var user := existing.value;
      if authType == Oidc {
        user := user.(oidcID := authID);
      }
      if authType == Saml {
        user := user.(samlID := authID);
      }
      if user.connectionsDisabledOnAuthFailure {
        if !hookOk {
          return Err(HookFailed);
        }
        user := user.(connectionsDisabledOnAuthFailure := false);
      }
      user := user.(lastLogin := now);
      var error := store.UpdateUser(user, saved);
      FirstAfterUpdate(old(store.users), user);
      return if error.Some? then Err(StoreFailed(error.value)) else Ok(user);
    }

    method PostUsers(login: string, password: string, role: string, newID: string, hash: Option<string>,
                     saved: SaveOutcome)
      returns (status: int)
      modifies store`users, store.file
      ensures store.users == Handle(old(store.users), PostUser(login, password, role, licenseUserCount, newID, hash))
      ensures store.file.content == FileHandled(old(store.file.content), old(store.users),
          PostUser(login, password, role, licenseUserCount, newID, hash),
                                                store.autoSave, saved, saved)
      ensures status == if AcceptablePost(old(store.users), login, password, role, licenseUserCount)
                           && !Has(old(store.users), ByLogin(login)) && hash.Some? && (store.autoSave ==> saved.Saved?)
                        then 200 else 400
      ensures status == 200
        <==> && login != "" && IsAlphaNumeric(login) && password != "" && (role == "user" || role == "admin")
             && |old(store.users)| < licenseUserCount && (forall u :: u in old(store.users) ==> u.login != login)
             && hash.Some? && (store.autoSave ==> saved == Saved)
      ensures status == 200 ==>
        store.users == old(store.users) + [NO_USER.(id := newID, login := login, role := role, password := hash.value)]
    {
      HandleMeans(store.users, PostUser(login, password, role, licenseUserCount, newID, hash));
      if !IsAlphaNumeric(login) || login == "" || password == "" || (role != "user" && role != "admin") {
        return 400;
      }
      if |store.users| >= licenseUserCount {
        return 400;
      }
      var added := store.AddUser(NO_USER.(login := login, password := password, role := role), newID, hash, saved);
      return if added.Ok? then 200 else 400;
    }

    method DeleteUserByPath(userID: string, hookOk: bool, saved: SaveOutcome) returns (status: int)
      modifies store`users, store.file
      ensures store.users == Handle(old(store.users), DeleteUser(userID))
      ensures store.file.content == FileHandled(old(store.file.content), old(store.users), DeleteUser(userID),
                                                store.autoSave, saved, saved)
      ensures status == if Has(old(store.users), ByID(userID)) && (store.autoSave ==> saved.Saved?) && hookOk
                        then 200 else 400
    {
      HandleMeans(store.users, DeleteUser(userID));
      var error := store.DeleteUserByID(userID, saved);
      if error.Some? || !hookOk {
        return 400;
      }
      return 200;
    }

    /** The password goes to the user whose ID is in the body, not to the one in the path. */
    method Patch(pathID: string, body: User, hookOk: bool, saved: SaveOutcome, hash: Option<string>,
                 passwordSaved: SaveOutcome)
      returns (status: int)
      modifies store`users, store.file
      ensures store.users == Handle(old(store.users),
          PatchUser(pathID, body, hookOk, if store.autoSave then saved else Saved, hash))
      ensures store.file.content == FileHandled(old(store.file.content), old(store.users),
          PatchUser(pathID, body, hookOk, if store.autoSave then saved else Saved, hash),
                                                store.autoSave, saved, passwordSaved)
      ensures status == if PatchAccepted(old(store.users), pathID, body, hookOk, store.autoSave ==> saved.Saved?)
                           && (body.password != "" ==> hash.Some? && (store.autoSave ==> passwordSaved.Saved?)
                                                       && Has(store.users, ByID(body.id)))
                        then 200 else 400
    {
      ghost var r := PatchUser(pathID, body, hookOk, if store.autoSave then saved else Saved, hash);
      PatchMeans(store.users, r);
      PatchSaves(store.file.content, store.users, r, store.autoSave, saved, passwordSaved);
      var accepted := PatchRecord(pathID, body, hookOk, saved);
      if accepted {
        accepted := PatchPassword(body, hash, passwordSaved);
      }
      return if accepted then 200 else 400;
    }

    /** The part of a patch that sets a password. */
    method PatchPassword(body: User, hash: Option<string>, passwordSaved: SaveOutcome) returns (accepted: bool)
      modifies store`users, store.file
      ensures body.password == "" ==>
        accepted && store.users == old(store.users) && store.file.content == old(store.file.content)
      ensures body.password != "" ==>
        var op := SetPassword(body.id, hash);
        && store.users == Apply(old(store.users), op)
        && store.file.content == FileOf(old(store.file.content), old(store.users), op, store.autoSave, passwordSaved)
        && (accepted <==> hash.Some? && (store.autoSave ==> passwordSaved.Saved?) && Has(store.users, ByID(body.id)))
    {
      if body.password == "" {
        return true;
      }
      PasswordKeepsIDs(store.users, body.id, hash);
      var error := store.UpdatePassword(body.id, hash, passwordSaved);
      return error.None?;
    }

    /** The part of a patch that changes role and suspension. */
    method PatchRecord(pathID: string, body: User, hookOk: bool, saved: SaveOutcome) returns (accepted: bool)
      modifies store`users, store.file
      ensures store.users == RecordPatched(old(store.users), pathID, body, hookOk)
      ensures store.file.content == if PatchesRecord(old(store.users), pathID, body, hookOk)
                                    then store.FileAfter(old(store.file.content), store.users, saved)
                                    else old(store.file.content)
      ensures accepted <==> PatchAccepted(old(store.users), pathID, body, hookOk, store.autoSave ==> saved.Saved?)
    {
      var found := store.GetUserByID(pathID);
      if found.Err? {
        return false;
      }
      var dbUser := found.value;
      var updateUser := false;
      if body.role != "" && dbUser.role != body.role {
        dbUser := dbUser.(role := body.role);
        updateUser := true;
      }
      if dbUser.suspended != body.suspended {
        dbUser := dbUser.(suspended := body.suspended);
        updateUser := true;
        if !hookOk {
          return false;
        }
      }
      assert dbUser == Patched(found.value, body) && (updateUser <==> dbUser != found.value);
      assert Matches(ByLogin(dbUser.login), store.users[First(store.users, ByID(pathID))]);
      if updateUser {
        var error := store.UpdateUser(dbUser, saved);
        if error.Some? {
          return false;
        }
      }
      return true;
    }

    method ScimPutUser(id: string, userName: string, emails: seq<Email>, active: bool, hookOk: bool, saved: SaveOutcome)
      returns (status: int)
      modifies store`users, store.file
      ensures store.users == Handle(old(store.users), ScimPut(id, userName, emails, active, hookOk))
      ensures store.file.content == FileHandled(old(store.file.content), old(store.users),
          ScimPut(id, userName, emails, active, hookOk),
                                                store.autoSave, saved, saved)
      ensures var us, k := old(store.users), First(old(store.users), ByID(id));
        status == if k < |us| && (active == us[k].suspended ==> hookOk)
          && Has(us, ByLogin(ScimUsername(userName, emails)))
                     && (store.autoSave ==> saved.Saved?)
                  then 200 else 400
    {
      HandleMeans(store.users, ScimPut(id, userName, emails, active, hookOk));
      ScimPutSaves(store.file.content, store.users, ScimPut(id, userName, emails, active, hookOk), store.autoSave,
          saved);
      var found := store.GetUserByID(id);
      if found.Err? {
        return 400;
      }
      var user := found.value;
      if !active && !user.suspended {
        if !hookOk {
          return 400;
        }
      }
      if active && user.suspended {
        if !hookOk {
          return 400;
        }
      }
      user := user.(suspended := !active);
      var username := GetUsername(userName, emails);
      ghost var us := store.users;
      assert Matches(ByLogin(user.login), us[First(us, ByID(id))]);
      if user.login != username {
        var taken := store.LoginExists(username);
        if !taken {
          user := user.(login := username);
        }
      }
      var error := store.UpdateUser(user, saved);
      return if error.Some? then 400 else 200;
    }

    method GetUsername(userName: string, emails: seq<Email>) returns (username: string)
      ensures username == ScimUsername(userName, emails)
      ensures userName != "" ==> username == userName
      ensures userName == "" ==>
        || (username == "" && forall i :: 0 <= i < |emails| ==> !emails[i].primary)
        || (exists i :: 0 <= i < |emails| && emails[i].primary && username == emails[i].value
                        && forall j :: i < j < |emails| ==> !emails[j].primary)
    {
      username := userName;
      if username == "" {
        for i := 0 to |emails|
          invariant username == ScimUsername(userName, emails[..i])
          invariant || (username == "" && forall j :: 0 <= j < i ==> !emails[j].primary)
                    || (exists k :: 0 <= k < i && emails[k].primary && username == emails[k].value
                                    && forall j :: k < j < i ==> !emails[j].primary)
        {
          assert emails[..i + 1][..i] == emails[..i];
          if emails[i].primary {
            username := emails[i].value;
          }
        }
        assert emails[..|emails|] == emails;
      }
    }

    method ScimPostUser(userName: string, emails: seq<Email>, externalID: string, newID: string, saved: SaveOutcome)
      returns (status: int)
      modifies store`users, store.file
      ensures store.users == Handle(old(store.users), ScimPost(userName, emails, externalID, store.maxUsers, newID))
      ensures store.file.content == FileHandled(old(store.file.content), old(store.users),
          ScimPost(userName, emails, externalID, store.maxUsers, newID),
                                                store.autoSave, saved, saved)
      ensures var us, name := old(store.users), ScimUsername(userName, emails);
        status == if Has(us, ByLogin(name)) then 409
                  else if |us| < store.maxUsers && name != "" && (store.autoSave ==> saved.Saved?) then 201 else 400
      ensures status == 201 ==>
        var login := ScimUsername(userName, emails);
        store.users == old(store.users)
          + [NO_USER.(id := newID, login := login, role := "user", provisioned := true, externalID := externalID)]
    {
      HandleMeans(store.users, ScimPost(userName, emails, externalID, store.maxUsers, newID));
      var username := GetUsername(userName, emails);
      var taken := store.LoginExists(username);
      if taken {
        return 409;
      }
      if store.maxUsers - |store.users| <= 0 {
        return 400;
      }
      var user := NO_USER.(login := username, role := "user", provisioned := true, externalID := externalID);
      var added := store.AddUser(user, newID, None, saved);
      return if added.Ok? then 201 else 400;
    }

    /** The delete hook runs before the user is removed, and its failure keeps the user. */
    method ScimDeleteUser(id: string, hookOk: bool, saved: SaveOutcome) returns (status: int)
      modifies store`users, store.file
      ensures store.users == Handle(old(store.users), ScimDelete(id, hookOk))
      ensures store.file.content == FileHandled(old(store.file.content), old(store.users), ScimDelete(id, hookOk),
                                                store.autoSave, saved, saved)
      ensures status == if Has(old(store.users), ByID(id)) && hookOk && (store.autoSave ==> saved.Saved?)
                        then 200 else 400
    {
      HandleMeans(store.users, ScimDelete(id, hookOk));
      var found := store.GetUserByID(id);
      if found.Err? || !hookOk {
        return 400;
      }
      var error := store.DeleteUserByID(found.value.id, saved);
      return if error.Some? then 400 else 200;
    }

    /** Setting up an admin that exists replaces everything but the password. */
    method SetupAdminUser(password: string, newID: string, hash: Option<string>, saved: SaveOutcome) returns (ok: bool)
      modifies store`users, store.file
      ensures store.users == Handle(old(store.users), SetupAdmin(password, newID, hash))
      ensures store.file.content == FileHandled(old(store.file.content), old(store.users),
          SetupAdmin(password, newID, hash),
                                                store.autoSave, saved, saved)
      ensures ok <==>
        || password == ""
        || ((Has(old(store.users), ByLogin("admin")) || hash.Some?) && (store.autoSave ==> saved.Saved?))
    {
      HandleMeans(store.users, SetupAdmin(password, newID, hash));
      if password == "" {
        return true;
      }
      var admin := NO_USER.(login := "admin", password := password, role := "admin");
      var found := store.LoginExists("admin");
      if found {
        var error := store.UpdateUser(admin, saved);
        return error.None?;
      }
      var added := store.AddUser(admin, newID, hash, saved);
      return added.Ok?;
    }
  }

  lemma FirstAfterUpdate(us: seq<User>, user: User)
    ensures First(Updated(us, user), ByLogin(user.login)) == First(us, ByLogin(user.login))
  {
    var k, j := First(us, ByLogin(user.login)), First(Updated(us, user), ByLogin(user.login));
    assert Logins(Updated(us, user)) == Logins(us);
    SameLoginsSameAnswer(Updated(us, user), us, user.login);
  }

  lemma FirstAfterAppend(us: seq<User>, user: User)
    requires !Has(us, ByLogin(user.login))
    ensures First(us + [user], ByLogin(user.login)) == |us|
  {
    FirstIsTheOne(us + [user], ByLogin(user.login), |us|);
  }

  // What every handler keeps.

  /** The ID that a request may give to a new user. */
  predicate FreshID(us: seq<User>, r: Request) {
    match r
    case PostUser(_, _, _, _, newID, _) => newID != "" && !Has(us, ByID(newID))
    case ScimPost(_, _, _, _, newID) => newID != "" && !Has(us, ByID(newID))
    case SetupAdmin(_, newID, _) => newID != "" && !Has(us, ByID(newID))
    case External(_, _, _, _, _, newID) => newID != "" && !Has(us, ByID(newID))
    case _ => true
  }

  /** Logins and IDs are distinct, no login is empty, and only the admin may have lost its ID. */
  ghost predicate SoundUsers(us: seq<User>) {
    && Distinct(us)
    && forall i :: 0 <= i < |us| ==> us[i].login != "" && (us[i].id == "" ==> us[i].login == "admin")
  }

  /** The store operations that handlers use: fresh IDs, and updates that keep the ID of the user they replace. */
  ghost predicate HandlerOp(us: seq<User>, op: UserOp) {
    match op
    case Add(_, newID, _) => newID != "" && !Has(us, ByID(newID))
    case AddMany(_, _, _) => false
    case Update(user) =>
      || (user.id == "" && user.login == "admin")
      || !Has(us, ByLogin(user.login))
      || us[First(us, ByLogin(user.login))].id == user.id
    case _ => true
  }

  lemma HandlerOpsAre(us: seq<User>, r: Request)
    requires SoundUsers(us) && FreshID(us, r)
    ensures Ops(us, r) != [] ==> HandlerOp(us, Ops(us, r)[0])
  {
    match r
    case PatchUser(pathID, _, _, _, _) => FirstByIDIsFirstByLogin(us, pathID);
    case ScimPut(id, _, _, _, _) => FirstByIDIsFirstByLogin(us, id);
    case _ =>
  }

  lemma FirstByIDIsFirstByLogin(us: seq<User>, id: string)
    requires Distinct(us)
    ensures Has(us, ByID(id)) ==> First(us, ByLogin(us[First(us, ByID(id))].login)) == First(us, ByID(id))
  {
    if Has(us, ByID(id)) {
      FirstIsTheOne(us, ByLogin(us[First(us, ByID(id))].login), First(us, ByID(id)));
    }
  }

  lemma HandlerOpKeeps(us: seq<User>, op: UserOp)
    requires SoundUsers(us) && HandlerOp(us, op)
    ensures Admissible(us, op) && SoundUsers(Apply(us, op))
  {
    match op
    case Update(user) => UpdateKeeps(us, user);
    case RemoveLogin(login) => RemovalKeepsSound(us, First(us, ByLogin(login)));
    case RemoveID(id) => RemovalKeepsSound(us, First(us, ByID(id)));
    case _ => OperationKeepsDistinct(us, op);
  }

  lemma UpdateKeeps(us: seq<User>, user: User)
    requires SoundUsers(us) && HandlerOp(us, Update(user))
    ensures Admissible(us, Update(user)) && SoundUsers(Updated(us, user))
  {
  }

  lemma RemovalKeepsSound(us: seq<User>, k: nat)
    requires SoundUsers(us)
    ensures SoundUsers(RemoveAt(us, k))
  {
    RemovalKeepsDistinct(us, k);
    var us' := RemoveAt(us, k);
    assert forall i :: 0 <= i < |us'| ==> us'[i] == us[if k < |us| && i >= k then i + 1 else i];
  }

  /** Every request keeps the user list sound, so its operations refine those on the map. */
  lemma HandlersKeepUsersSound(us: seq<User>, r: Request)
    requires SoundUsers(us) && FreshID(us, r)
    ensures AllAdmissible(us, Ops(us, r)) && SoundUsers(Handle(us, r))
  {
    var ops := Ops(us, r);
    HandleMeans(us, r);
    HandlerOpsAre(us, r);
    if |ops| >= 1 {
      HandlerOpKeeps(us, ops[0]);
      assert AllAdmissible(Apply(us, ops[0]), ops[1..]) by {
        if |ops| == 2 {
          assert ops[1..][1..] == [];
          assert ops[1].SetPassword?;
        }
      }
    }
    if |ops| == 2 {
      HandlerOpKeeps(Apply(us, ops[0]), ops[1]);
    }
  }

  // Runs of requests.

  ghost function HandleAll(us: seq<User>, rs: seq<Request>): seq<User>
    decreases |rs|
  {
    if rs == [] then us else HandleAll(Handle(us, rs[0]), rs[1..])
  }

  ghost predicate AllFresh(us: seq<User>, rs: seq<Request>)
    decreases |rs|
  {
    rs == [] || (FreshID(us, rs[0]) && AllFresh(Handle(us, rs[0]), rs[1..]))
  }

  /** The operations that a request leads to, found by looking only at the map. */
  ghost function MapOps(m: UserMap, r: Request): seq<UserOp> {
    match r
    case PostUser(login, password, role, licenses, newID, hash) =>
      if IsAlphaNumeric(login) && login != "" && password != "" && role in {"user", "admin"} && |m.order| < licenses
      then [Add(NO_USER.(login := login, password := password, role := role), newID, hash)] else []
    case DeleteUser(id) => [RemoveID(id)]
    case PatchUser(pathID, body, hookOk, saved, hash) =>
      if WithID(m, pathID).None? then [] else PatchOps(Blank(WithID(m, pathID).value), body, hookOk, saved, hash)
    case ScimPut(id, userName, emails, active, hookOk) =>
      if WithID(m, id).None? || (active == WithID(m, id).value.suspended && !hookOk) then []
      else
        var name := ScimUsername(userName, emails);
        var u := Blank(WithID(m, id).value).(suspended := !active);
        [Update(if name in m.byLogin then u else u.(login := name))]
    case ScimPost(userName, emails, externalID, maxUsers, newID) =>
      var name := ScimUsername(userName, emails);
      if name in m.byLogin || maxUsers - |m.order| <= 0 then []
      else [Add(NO_USER.(login := name, role := "user", provisioned := true, externalID := externalID), newID, None)]
    case ScimDelete(id, hookOk) => if hookOk && WithID(m, id).Some? then [RemoveID(id)] else []
    case SetupAdmin(password, newID, hash) =>
      if password == "" then []
      else
        var admin := NO_USER.(login := "admin", password := password, role := "admin");
        if "admin" in m.byLogin then [Update(admin)] else [Add(admin, newID, hash)]
    case ChangePassword(userID, hash) => [SetPassword(userID, hash)]
    case EditFactors(login, factors) =>
      if login in m.byLogin then [Update(Blank(m.byLogin[login]).(factors := factors))] else []
    case LocalLogin(login, now) =>
      if login in m.byLogin then [Update(Blank(m.byLogin[login]).(lastLogin := now))] else []
    case DisableConnections(login) =>
      if login in m.byLogin then [Update(Blank(m.byLogin[login]).(connectionsDisabledOnAuthFailure := true))] else []
    case External(login, authType, authID, hookOk, now, newID) =>
      if login !in m.byLogin
      then [Add(Linked(NO_USER.(login := login, role := "user"), authType, authID, now), newID, None)]
      else if m.byLogin[login].connectionsDisabledOnAuthFailure && !hookOk then []
      else [Update(Linked(Blank(m.byLogin[login]), authType, authID, now))]
  }

  /** The user that the map has with this ID. */
  ghost function WithID(m: UserMap, id: string): Option<User> {
    match LoginWithID(m, id)
    case None => None
    case Some(l) => if l in m.byLogin then Some(m.byLogin[l]) else None
  }

  lemma SameUserWithID(us: seq<User>, id: string)
    requires Distinct(us)
    ensures WithID(MapOf(us), id) == if Has(us, ByID(id)) then Some(us[First(us, ByID(id))]) else None
  {
    LookupByID(us, id);
  }

  /** What a handler decides by first-match loops over the list is what it would decide by lookups in the map. */
  lemma MapDecidesAlike(us: seq<User>, r: Request)
    requires Distinct(us)
    ensures MapOps(MapOf(us), r) == Ops(us, r)
  {
    if r.PatchUser? || r.ScimPut? || r.ScimDelete? {
      MapDecidesByID(us, r);
    } else {
      MapDecidesByLogin(us, r);
    }
  }

  lemma MapDecidesByID(us: seq<User>, r: Request)
    requires Distinct(us) && (r.PatchUser? || r.ScimPut? || r.ScimDelete?)
    ensures MapOps(MapOf(us), r) == Ops(us, r)
  {
    match r
    case PatchUser(pathID, _, _, _, _) => SameUserWithID(us, pathID);
    case ScimDelete(id, _) => SameUserWithID(us, id);
    case ScimPut(id, userName, emails, _, _) =>
      SameUserWithID(us, id);
      LookupByLogin(us, ScimUsername(userName, emails));
  }

  lemma MapDecidesByLogin(us: seq<User>, r: Request)
    requires Distinct(us) && !r.PatchUser? && !r.ScimPut? && !r.ScimDelete?
    ensures MapOps(MapOf(us), r) == Ops(us, r)
  {
    MapOfMeans(us);
    match r
    case ScimPost(userName, emails, _, _, _) => LookupByLogin(us, ScimUsername(userName, emails));
    case SetupAdmin(_, _, _) => LookupByLogin(us, "admin");
    case EditFactors(login, _) => LookupByLogin(us, login);
    case LocalLogin(login, _) => LookupByLogin(us, login);
    case DisableConnections(login) => LookupByLogin(us, login);
    case External(login, _, _, _, _, _) => LookupByLogin(us, login);
    case _ =>
  }

  /** A run of requests on the map alone. */
  ghost function MapHandleAll(m: UserMap, rs: seq<Request>): UserMap
    decreases |rs|
  {
    if rs == [] then m else MapHandleAll(MapApplyAll(m, MapOps(m, rs[0])), rs[1..])
  }

  /** Over every run of requests logins and IDs stay distinct and the list follows the map. */
  lemma {:induction false} RequestRunsRefine(us: seq<User>, rs: seq<Request>)
    requires SoundUsers(us) && AllFresh(us, rs)
    ensures SoundUsers(HandleAll(us, rs))
    ensures MapOf(HandleAll(us, rs)) == MapHandleAll(MapOf(us), rs)
    decreases |rs|
  {
    if rs != [] {
      HandlersKeepUsersSound(us, rs[0]);
      RunRefines(us, Ops(us, rs[0]));
      MapDecidesAlike(us, rs[0]);
      RequestRunsRefine(Handle(us, rs[0]), rs[1..]);
    }
  }
}
