/** What requests do to passwords, and to the links from users to OIDC entries. */
module RequestEffects {
  import opened Common
  import opened Users
  import opened UserRuns
  import opened Handlers

  function LinkOf(us: seq<User>, login: string): string {
    var k := First(us, ByLogin(login));
    if k < |us| then us[k].oidcID else ""
  }

  /** The operation removes the user with this login. */
  predicate Removes(us: seq<User>, op: UserOp, login: string) {
    match op
    case RemoveLogin(l) => l == login
    case RemoveID(id) => Has(us, ByLogin(login)) && us[First(us, ByLogin(login))].id == id
    case Clear => true
    case _ => false
  }

  /** Otherwise the user stays, linked as it was or as the operation writes it. */
  lemma OpKeepsUser(us: seq<User>, op: UserOp, login: string)
    requires Distinct(Apply(us, op)) && Has(us, ByLogin(login)) && !Removes(us, op, login)
    ensures Has(Apply(us, op), ByLogin(login))
    ensures LinkOf(Apply(us, op), login)
         == if op.Update? && op.user.login == login then op.user.oidcID else LinkOf(us, login)
  {
    if op.RemoveLogin? || op.RemoveID? {
      RemovalKeepsUser(us, if op.RemoveLogin? then First(us, ByLogin(op.login)) else First(us, ByID(op.id)), login);
    } else {
      FirstIsTheOne(Apply(us, op), ByLogin(login), First(us, ByLogin(login)));
    }
  }

  lemma RemovalKeepsUser(us: seq<User>, gone: nat, login: string)
    requires Distinct(RemoveAt(us, gone)) && Has(us, ByLogin(login)) && gone != First(us, ByLogin(login))
    ensures Has(RemoveAt(us, gone), ByLogin(login)) && LinkOf(RemoveAt(us, gone), login) == LinkOf(us, login)
  {
    var us', k := RemoveAt(us, gone), First(us, ByLogin(login));
    var j := if k > gone then k - 1 else k;
    assert us'[j] == us[k];
    FirstIsTheOne(us', ByLogin(login), j);
  }

  /** What a request saves is a list that one of its operations led to. */
  lemma FileIsReached(was: Option<seq<User>>, us: seq<User>, r: Request, autoSave: bool, saved: SaveOutcome,
                      passwordSaved: SaveOutcome)
    ensures var file := FileHandled(was, us, r, autoSave, saved, passwordSaved);
      file == was || file == Some(Handle(us, r)) || (|Ops(us, r)| == 2 && file == Some(Apply(us, Ops(us, r)[0])))
  {
    HandleMeans(us, r);
  }

  // What requests write, field by field, in a list where the record with the ID or login of the request is the k-th.

  /** The list after the record at `k` was replaced; only the password hash of the others may differ. */
  ghost predicate OnlyAt(us: seq<User>, us': seq<User>, k: nat) {
    |us'| == |us| && forall i :: 0 <= i < |us| && i != k ==> us'[i] == us[i].(password := us'[i].password)
  }

  lemma RecordPatchedAt(us: seq<User>, r: Request, k: nat)
    requires Distinct(us) && r.PatchUser? && k < |us| && us[k].id == r.pathID
    ensures First(us, ByID(r.pathID)) == First(us, ByLogin(us[k].login)) == k
    ensures RecordPatched(us, r.pathID, r.body, r.hookOk)
      == if us[k].suspended != r.body.suspended && !r.hookOk then us
         else us[k := us[k].(role := if r.body.role == "" then us[k].role else r.body.role,
                             suspended := r.body.suspended)]
  {
    FirstIsTheOne(us, ByID(r.pathID), k);
    FirstIsTheOne(us, ByLogin(us[k].login), k);
  }

  lemma PasswordOnly(us: seq<User>, userID: string, hash: Option<string>)
    ensures var us' := Apply(us, SetPassword(userID, hash));
      |us'| == |us| && forall i :: 0 <= i < |us| ==> us'[i] == us[i].(password := us'[i].password)
  {
  }

  /** A patch sets the role, when the body names one, and the suspension; a hook that fails prevents both. */
  lemma PatchWrites(us: seq<User>, r: Request, k: nat)
    requires Distinct(us) && r.PatchUser? && k < |us| && us[k].id == r.pathID
    ensures var us' := Handle(us, r);
      if us[k].suspended != r.body.suspended && !r.hookOk then us' == us
      else
        && OnlyAt(us, us', k)
        && us'[k] == us[k].(role := if r.body.role == "" then us[k].role else r.body.role,
                            suspended := r.body.suspended, password := us'[k].password)
  {
    PatchMeans(us, r);
    RecordPatchedAt(us, r, k);
    PasswordOnly(RecordPatched(us, r.pathID, r.body, r.hookOk), r.body.id, r.hash);
  }

  /** It gets through, up to the password, unless the hook fails or a change cannot be saved. */
  lemma PatchAcceptedExactlyWhen(us: seq<User>, r: Request, k: nat)
    requires Distinct(us) && r.PatchUser? && k < |us| && us[k].id == r.pathID
    ensures PatchAccepted(us, r.pathID, r.body, r.hookOk, r.saved.Saved?)
      <==> && (us[k].suspended != r.body.suspended ==> r.hookOk)
           && (us[k].suspended != r.body.suspended || (r.body.role != "" && r.body.role != us[k].role) ==>
                 r.saved == Saved)
  {
    FirstIsTheOne(us, ByID(r.pathID), k);
  }

  /** A SCIM PUT suspends or reactivates, when its hook succeeds and the user name it gives is one in use. */
  lemma ScimPutWrites(us: seq<User>, r: Request, k: nat)
    requires Distinct(us) && r.ScimPut? && k < |us| && us[k].id == r.id
    ensures Handle(us, r)
      == if (us[k].suspended == r.active ==> r.hookOk)
            && exists u :: u in us && u.login == ScimUsername(r.userName, r.emails)
         then us[k := us[k].(suspended := !r.active)] else us
  {
    HandleMeans(us, r);
    FirstIsTheOne(us, ByID(r.id), k);
    FirstIsTheOne(us, ByLogin(us[k].login), k);
    assert Matches(ByLogin(us[k].login), us[k]);
  }

  /** A deletion by ID removes that record; a SCIM one only if its hook succeeds. */
  lemma DeletionWrites(us: seq<User>, r: Request, k: nat)
    requires Distinct(us) && (r.DeleteUser? || r.ScimDelete?) && k < |us| && us[k].id == r.id
    ensures Handle(us, r) == if r.ScimDelete? && !r.hookOk then us else us[..k] + us[k + 1..]
  {
    HandleMeans(us, r);
    FirstIsTheOne(us, ByID(r.id), k);
  }

  /** Setup makes an admin of the given password, or resets all of an existing one but its password hash. */
  lemma SetupWrites(us: seq<User>, password: string, newID: string, h: string, k: nat)
    requires Distinct(us) && password != "" && k <= |us|
    requires if k < |us| then us[k].login == "admin" else forall u :: u in us ==> u.login != "admin"
    ensures Handle(us, SetupAdmin(password, newID, Some(h)))
      == if k < |us| then us[k := NO_USER.(login := "admin", role := "admin", password := us[k].password)]
         else us + [NO_USER.(id := newID, login := "admin", role := "admin", password := h)]
  {
    HandleMeans(us, SetupAdmin(password, newID, Some(h)));
    if k < |us| {
      FirstIsTheOne(us, ByLogin("admin"), k);
    }
  }

  /** The updates by login set one field each, and keep the password hash. */
  lemma UpdatesWrite(us: seq<User>, r: Request, k: nat)
    requires Distinct(us) && (r.EditFactors? || r.LocalLogin? || r.DisableConnections?)
    requires k < |us| && us[k].login == r.login
    ensures Handle(us, r)
      == match r
         case EditFactors(_, factors) => us[k := us[k].(factors := factors)]
         case LocalLogin(_, now) => us[k := us[k].(lastLogin := now)]
         case DisableConnections(_) => us[k := us[k].(connectionsDisabledOnAuthFailure := true)]
         case _ => us
  {
    HandleMeans(us, r);
    FirstIsTheOne(us, ByLogin(r.login), k);
  }

  // Passwords.

  /** Setting up an admin that exists does not set the password: the old one stays valid, and the ID is lost. */
  lemma SetupKeepsOldPassword(us: seq<User>, password: string, newID: string, hash: Option<string>)
    requires Has(us, ByLogin("admin")) && password != ""
    ensures var us', k := Handle(us, SetupAdmin(password, newID, hash)), First(us, ByLogin("admin"));
      HashOf(us', "admin") == HashOf(us, "admin") && First(us', ByLogin("admin")) == k && us'[k].id == ""
  {
    HandleMeans(us, SetupAdmin(password, newID, hash));
    FirstAfterUpdate(us, NO_USER.(login := "admin", password := password, role := "admin"));
  }

  /** So setup gives the admin the new password if and only if there was no admin before. */
  lemma SetupSetsPasswordExactlyWhen(us: seq<User>, password: string, newID: string, h: string)
    requires password != "" && HashOf(us, "admin") != Some(h)
    ensures HashOf(Handle(us, SetupAdmin(password, newID, Some(h))), "admin") == Some(h) <==> !Has(us, ByLogin("admin"))
  {
    if Has(us, ByLogin("admin")) {
      SetupKeepsOldPassword(us, password, newID, Some(h));
    } else {
      HandleMeans(us, SetupAdmin(password, newID, Some(h)));
      FirstAfterAppend(us, NO_USER.(login := "admin", id := newID, password := h, role := "admin"));
    }
  }

  /** A patch that gets through sets the hash of the user whose ID is in its body, and of nobody else. */
  lemma PatchSetsPasswordOf(us: seq<User>, r: Request, h: string, login: string)
    requires SoundUsers(us) && r.PatchUser? && PatchAccepted(us, r.pathID, r.body, r.hookOk, r.saved.Saved?)
    requires r.body.password != "" && r.hash == Some(h) && Has(us, ByLogin(login))
    ensures HashOf(Handle(us, r), login)
         == Some(if us[First(us, ByLogin(login))].id == r.body.id then h else us[First(us, ByLogin(login))].password)
  {
    PatchMeans(us, r);
    FirstByIDIsFirstByLogin(us, r.pathID);
    var k := First(us, ByID(r.pathID));
    var us1 := RecordPatched(us, r.pathID, r.body, r.hookOk);
    assert us1 == us || us1 == us[k := Patched(us[k], r.body)];
    SetPasswordAt(us1, r.body.id, Some(h), First(us, ByLogin(login)));
  }

  lemma SetPasswordAt(us: seq<User>, userID: string, hash: Option<string>, j: nat)
    requires Distinct(us) && j < |us|
    ensures HashOf(Apply(us, SetPassword(userID, hash)), us[j].login)
         == Some(if us[j].id == userID && hash.Some? then hash.value else us[j].password)
  {
    var us' := Apply(us, SetPassword(userID, hash));
    FirstIsTheOne(us', ByLogin(us[j].login), j);
    if us[j].id == userID {
      FirstIsTheOne(us, ByID(userID), j);
    }
  }

  /** It gives the user of its path the new password if and only if its body repeats that user's ID. */
  lemma PatchSetsOwnPasswordExactlyWhen(us: seq<User>, r: Request, h: string)
    requires SoundUsers(us) && r.PatchUser? && PatchAccepted(us, r.pathID, r.body, r.hookOk, r.saved.Saved?)
    requires r.body.password != "" && r.hash == Some(h) && us[First(us, ByID(r.pathID))].password != h
    ensures HashOf(Handle(us, r), us[First(us, ByID(r.pathID))].login) == Some(h) <==> r.body.id == r.pathID
  {
    FirstByIDIsFirstByLogin(us, r.pathID);
    PatchSetsPasswordOf(us, r, h, us[First(us, ByID(r.pathID))].login);
  }

  function UserWith(id: string, login: string, hash: string): User {
    NO_USER.(id := id, login := login, role := "user", password := hash)
  }

  /** A patch of "alice" whose body names bob's ID: alice keeps her password, and bob gets the new one. */
  lemma PatchSetsAnotherPassword() returns (us: seq<User>, r: Request)
    ensures SoundUsers(us) && r.PatchUser? && Has(us, ByID(r.pathID))
    ensures us[First(us, ByID(r.pathID))].login == "alice"
    ensures HashOf(us, "alice") == HashOf(Handle(us, r), "alice") == Some("old hash of alice")
    ensures HashOf(us, "bob") == Some("old hash of bob") && HashOf(Handle(us, r), "bob") == Some("new hash")
  {
    us := [UserWith("1", "alice", "old hash of alice"), UserWith("2", "bob", "old hash of bob")];
    r := PatchUser("1", NO_USER.(id := "2", password := "new"), true, Saved, Some("new hash"));
    assert "alice"[0] != "bob"[0] && "1"[0] != "2"[0];
    FirstIsTheOne(us, ByID("1"), 0);
    FirstIsTheOne(us, ByLogin("alice"), 0);
    FirstIsTheOne(us, ByLogin("bob"), 1);
    PatchSetsPasswordOf(us, r, "new hash", "alice");
    PatchSetsPasswordOf(us, r, "new hash", "bob");
  }

  /** Once setup has blanked the admin's ID, a patch of any user whose body has no ID sets the admin's password. */
  lemma PatchWithoutIDSetsAdminPassword(us: seq<User>, password: string, newID: string, hash: Option<string>,
                                        r: Request, h: string)
    requires SoundUsers(us) && Has(us, ByLogin("admin")) && password != ""
    requires FreshID(us, SetupAdmin(password, newID, hash))
    requires var us1 := Handle(us, SetupAdmin(password, newID, hash));
      r.PatchUser? && PatchAccepted(us1, r.pathID, r.body, r.hookOk, r.saved.Saved?)
    requires r.body.id == "" && r.body.password != "" && r.hash == Some(h)
    ensures HashOf(Handle(Handle(us, SetupAdmin(password, newID, hash)), r), "admin") == Some(h)
  {
    var us1 := Handle(us, SetupAdmin(password, newID, hash));
    HandlersKeepUsersSound(us, SetupAdmin(password, newID, hash));
    SetupKeepsOldPassword(us, password, newID, hash);
    PatchSetsPasswordOf(us1, r, h, "admin");
  }

  /** The request sets or removes the password of the user with this login: by that user's ID, never by its login. */
  predicate MayChangeHash(us: seq<User>, r: Request, login: string) {
    var k := First(us, ByLogin(login));
    k < |us|
    && match r
       case PatchUser(_, body, _, _, _) => body.password != "" && body.id == us[k].id
       case ChangePassword(userID, _) => userID == us[k].id
       case DeleteUser(id) => id == us[k].id
       case ScimDelete(id, _) => id == us[k].id
       case _ => false
  }

  lemma PatchKeepsHash(us: seq<User>, r: Request, login: string)
    requires SoundUsers(us) && r.PatchUser? && Has(us, ByLogin(login)) && !MayChangeHash(us, r, login)
    ensures HashOf(Handle(us, r), login) == HashOf(us, login)
  {
    PatchMeans(us, r);
    FirstByIDIsFirstByLogin(us, r.pathID);
    var k := First(us, ByID(r.pathID));
    var us1 := RecordPatched(us, r.pathID, r.body, r.hookOk);
    assert us1 == us || us1 == us[k := Patched(us[k], r.body)];
    SetPasswordAt(us1, r.body.id, r.hash, First(us, ByLogin(login)));
    FirstIsTheOne(us1, ByLogin(login), First(us, ByLogin(login)));
  }

  lemma OpKeepsHash(us: seq<User>, r: Request, login: string)
    requires SoundUsers(us) && !r.PatchUser? && Has(us, ByLogin(login)) && !MayChangeHash(us, r, login)
    requires Ops(us, r) != []
    ensures |Ops(us, r)| == 1 && !Removes(us, Ops(us, r)[0], login) && !SetsPasswordOf(us, Ops(us, r)[0], login)
  {
    if r.ChangePassword? && Has(us, ByID(r.userID)) {
      FirstByIDIsFirstByLogin(us, r.userID);
    }
  }

  /** Otherwise it keeps the user and the stored hash. */
  lemma RequestKeepsHash(us: seq<User>, r: Request, login: string)
    requires SoundUsers(us) && FreshID(us, r) && Has(us, ByLogin(login)) && !MayChangeHash(us, r, login)
    ensures HashOf(Handle(us, r), login) == HashOf(us, login)
  {
    var ops := Ops(us, r);
    HandleMeans(us, r);
    if r.PatchUser? {
      PatchKeepsHash(us, r, login);
    } else if ops != [] {
      HandlersKeepUsersSound(us, r);
      OpKeepsHash(us, r, login);
      OpKeepsUser(us, ops[0], login);
      HashChangesOnlyBySetPassword(us, ops[0], login);
    }
  }

  /** At some point of the run a request may change the hash of the login. */
  ghost predicate RunMayChangeHash(us: seq<User>, rs: seq<Request>, login: string)
    decreases |rs|
  {
    rs != [] && (MayChangeHash(us, rs[0], login) || RunMayChangeHash(Handle(us, rs[0]), rs[1..], login))
  }

  /**
   Over every run of requests a stored hash changes only by a patch or a password
   change that names the ID of its user, or by the removal of that user.
   */
  lemma {:induction false} HashOverRequests(us: seq<User>, rs: seq<Request>, login: string)
    requires SoundUsers(us) && AllFresh(us, rs) && Has(us, ByLogin(login)) && !RunMayChangeHash(us, rs, login)
    ensures HashOf(HandleAll(us, rs), login) == HashOf(us, login)
    decreases |rs|
  {
    if rs != [] {
      HandlersKeepUsersSound(us, rs[0]);
      RequestKeepsHash(us, rs[0], login);
      HashOverRequests(Handle(us, rs[0]), rs[1..], login);
    }
  }

  // How handlers affect the link from users to OIDC entries.

  /** Requests other than an OIDC login never set a link: they keep it, or clear it. */
  ghost predicate LinksShrink(us: seq<User>, us': seq<User>) {
    forall i :: 0 <= i < |us'| ==> us'[i].oidcID == "" || us'[i].oidcID == LinkOf(us, us'[i].login)
  }

  lemma LinkAt(us: seq<User>, i: nat)
    requires Distinct(us) && i < |us|
    ensures LinkOf(us, us[i].login) == us[i].oidcID
  {
    FirstIsTheOne(us, ByLogin(us[i].login), i);
  }

  predicate SetsNoLink(us: seq<User>, op: UserOp) {
    match op
    case Add(user, _, _) => user.oidcID == ""
    case AddMany(_, _, _) => false
    case Update(user) => user.oidcID == "" || user.oidcID == LinkOf(us, user.login) || !Has(us, ByLogin(user.login))
    case _ => true
  }

  lemma AddLinksShrink(us: seq<User>, u: User)
    requires Distinct(us) && u.oidcID == ""
    ensures LinksShrink(us, us + [u])
  {
    LinksStay(us);
  }

  lemma UpdateLinksShrink(us: seq<User>, user: User)
    requires Distinct(us) && SetsNoLink(us, Update(user))
    ensures LinksShrink(us, Updated(us, user))
  {
    LinksStay(us);
  }

  lemma PasswordLinksShrink(us: seq<User>, userID: string, hash: Option<string>)
    requires Distinct(us)
    ensures LinksShrink(us, Apply(us, SetPassword(userID, hash)))
  {
    LinksStay(us);
    var us' := Apply(us, SetPassword(userID, hash));
    assert forall i :: 0 <= i < |us'| ==> us'[i].oidcID == us[i].oidcID && us'[i].login == us[i].login;
  }

  lemma OpLinksShrink(us: seq<User>, op: UserOp)
    requires Distinct(us) && SetsNoLink(us, op)
    ensures LinksShrink(us, Apply(us, op))
  {
    match op
    case Add(user, newID, hash) =>
      LinksStay(us);
      match AddedUser(us, user, newID, hash) {
        case Ok(u) => AddLinksShrink(us, u);
        case Err(_) =>
      }
    case Update(user) => UpdateLinksShrink(us, user);
    case SetPassword(userID, hash) => PasswordLinksShrink(us, userID, hash);
    case RemoveLogin(login) => RemovalLinksShrink(us, First(us, ByLogin(login)));
    case RemoveID(id) => RemovalLinksShrink(us, First(us, ByID(id)));
    case Clear =>
  }

  lemma RemovalLinksShrink(us: seq<User>, k: nat)
    requires Distinct(us)
    ensures LinksShrink(us, RemoveAt(us, k))
  {
    LinksStay(us);
    var us' := RemoveAt(us, k);
    forall i | 0 <= i < |us'| ensures us'[i].oidcID == "" || us'[i].oidcID == LinkOf(us, us'[i].login) {
      assert us'[i] == us[if k < |us| && i >= k then i + 1 else i];
    }
  }

  lemma RequestSetsNoLink(us: seq<User>, r: Request)
    requires SoundUsers(us) && !(r.External? && r.authType.Oidc?)
    ensures Ops(us, r) != [] ==> SetsNoLink(us, Ops(us, r)[0])
    ensures |Ops(us, r)| == 2 ==> Ops(us, r)[1].SetPassword?
  {
    match r
    case PatchUser(pathID, _, _, _, _) => FirstByIDIsFirstByLogin(us, pathID);
    case ScimPut(id, _, _, _, _) => FirstByIDIsFirstByLogin(us, id);
    case _ =>
  }

  lemma FirstOpSetsNoLink(us: seq<User>, r: Request)
    requires SoundUsers(us) && !(r.External? && r.authType.Oidc?) && Ops(us, r) != []
    ensures LinksShrink(us, Apply(us, Ops(us, r)[0]))
  {
    RequestSetsNoLink(us, r);
    OpLinksShrink(us, Ops(us, r)[0]);
  }

  lemma OnlyOidcLoginsSetLinks(us: seq<User>, r: Request)
    requires SoundUsers(us) && FreshID(us, r)
    requires !(r.External? && r.authType.Oidc?)
    ensures LinksShrink(us, Handle(us, r))
  {
    var ops := Ops(us, r);
    HandleMeans(us, r);
    RequestSetsNoLink(us, r);
    if ops == [] {
      LinksStay(us);
    } else {
      OpLinksShrink(us, ops[0]);
    }
  }

  lemma LinksStay(us: seq<User>)
    requires Distinct(us)
    ensures LinksShrink(us, us)
  {
    forall i | 0 <= i < |us| ensures LinkOf(us, us[i].login) == us[i].oidcID {
      LinkAt(us, i);
    }
  }

  /** The request neither removes the user with this login, nor logs it in anew, nor sets it up as the admin. */
  predicate Spares(us: seq<User>, r: Request, login: string) {
    match r
    case DeleteUser(id) => Has(us, ByLogin(login)) && us[First(us, ByLogin(login))].id != id
    case ScimDelete(id, _) => Has(us, ByLogin(login)) && us[First(us, ByLogin(login))].id != id
    case SetupAdmin(_, _, _) => login != "admin"
    case External(l, authType, _, _, _, _) => authType.Saml? || l != login
    case _ => true
  }

  predicate OpKeepsLinkOf(us: seq<User>, op: UserOp, login: string) {
    !Removes(us, op, login) && (op.Update? && op.user.login == login ==> op.user.oidcID == LinkOf(us, login))
  }

  lemma OpKeepsLink(us: seq<User>, op: UserOp, login: string)
    requires Distinct(Apply(us, op)) && Has(us, ByLogin(login)) && OpKeepsLinkOf(us, op, login)
    ensures Has(Apply(us, op), ByLogin(login)) && LinkOf(Apply(us, op), login) == LinkOf(us, login)
  {
    OpKeepsUser(us, op, login);
  }

  lemma OpsSpare(us: seq<User>, r: Request, login: string)
    requires SoundUsers(us) && Has(us, ByLogin(login)) && Spares(us, r, login)
    ensures Ops(us, r) != [] ==> OpKeepsLinkOf(us, Ops(us, r)[0], login)
    ensures |Ops(us, r)| == 2 ==> Ops(us, r)[1].SetPassword?
  {
    match r
    case PatchUser(pathID, _, _, _, _) => FirstByIDIsFirstByLogin(us, pathID);
    case ScimPut(id, _, _, _, _) => FirstByIDIsFirstByLogin(us, id);
    case _ =>
  }

  lemma FirstOpSpares(us: seq<User>, r: Request, login: string)
    requires SoundUsers(us) && FreshID(us, r) && Has(us, ByLogin(login)) && Spares(us, r, login) && Ops(us, r) != []
    ensures var us1 := Apply(us, Ops(us, r)[0]);
      SoundUsers(us1) && Has(us1, ByLogin(login)) && LinkOf(us1, login) == LinkOf(us, login)
  {
    OpsSpare(us, r, login);
    HandlerOpsAre(us, r);
    HandlerOpKeeps(us, Ops(us, r)[0]);
    OpKeepsLink(us, Ops(us, r)[0], login);
  }

  /** A request that spares a user leaves its link alone. */
  lemma SparedKeepsLink(us: seq<User>, r: Request, login: string)
    requires SoundUsers(us) && FreshID(us, r) && Has(us, ByLogin(login)) && Spares(us, r, login)
    ensures Has(Handle(us, r), ByLogin(login)) && LinkOf(Handle(us, r), login) == LinkOf(us, login)
  {
    var ops := Ops(us, r);
    HandleMeans(us, r);
    if |ops| >= 1 {
      FirstOpSpares(us, r, login);
    }
    if |ops| == 2 {
      OpsSpare(us, r, login);
      HandlersKeepUsersSound(us, r);
      OpKeepsLink(Apply(us, ops[0]), ops[1], login);
    }
  }

  /**
   An accepted OIDC login links the user with that login, and no other, to the entry; a
   refused one changes nothing.
   */
  lemma OidcLoginLinks(us: seq<User>, r: Request)
    requires SoundUsers(us) && FreshID(us, r) && r.External? && r.authType.Oidc?
    ensures !ExternalAccepted(us, r.login, r.hookOk) ==> Handle(us, r) == us
    ensures ExternalAccepted(us, r.login, r.hookOk) ==>
      var us' := Handle(us, r);
      r.login != "" && Has(us', ByLogin(r.login)) && us'[First(us', ByLogin(r.login))].oidcID == r.authID
      && forall i :: 0 <= i < |us'| && us'[i].login != r.login ==> i < |us| && us'[i] == us[i]
  {
    ExternalMeans(us, r);
    if Has(us, ByLogin(r.login)) {
      FirstAfterUpdate(us, ExternalUser(us, r));
    } else {
      FirstAfterAppend(us, ExternalUser(us, r));
    }
  }

  /** A SCIM PUT that renames a user to a free user name is refused and changes nothing. */
  lemma ScimPutNeverRenames(us: seq<User>, id: string, userName: string, emails: seq<Email>, active: bool, hookOk: bool)
    ensures var us' := Handle(us, ScimPut(id, userName, emails, active, hookOk));
      Logins(us') == Logins(us) && (!Has(us, ByLogin(ScimUsername(userName, emails))) ==> us' == us)
  {
    HandleMeans(us, ScimPut(id, userName, emails, active, hookOk));
  }
}
