/** The user list stands in for an insertion-ordered map keyed by login, over every run of its operations. */
module UserRuns {
  import opened Common
  import opened Users

  ghost predicate Distinct(us: seq<User>) {
    forall i, j :: 0 <= i < j < |us| ==> us[i].login != us[j].login && us[i].id != us[j].id
  }

  ghost predicate NoID(us: seq<User>, id: string) {
    forall i :: 0 <= i < |us| ==> us[i].id != id
  }

  datatype UserMap = UserMap(order: seq<string>, byLogin: map<string, User>)

  ghost function MapInsert(m: UserMap, u: User): UserMap {
    UserMap(m.order + [u.login], m.byLogin[u.login := u])
  }

  /** The map that a list stands for. */
  ghost function MapOf(us: seq<User>): UserMap {
    if us == [] then UserMap([], map[]) else MapInsert(MapOf(us[..|us| - 1]), us[|us| - 1])
  }

  /** The map has the users of the list under their logins, in the order of the list. */
  lemma {:induction false} MapOfMeans(us: seq<User>)
    requires Distinct(us)
    ensures MapOf(us).order == Logins(us)
    ensures forall i :: 0 <= i < |us| ==> us[i].login in MapOf(us).byLogin && MapOf(us).byLogin[us[i].login] == us[i]
  {
    if us != [] {
      MapOfMeans(us[..|us| - 1]);
    }
  }

  lemma {:induction false} IndexOfLogin(us: seq<User>, login: string) returns (i: nat)
    requires Distinct(us) && login in MapOf(us).byLogin
    ensures i < |us| && us[i].login == login && MapOf(us).byLogin[login] == us[i]
  {
    i := |us| - 1;
    if us[i].login != login {
      i := IndexOfLogin(us[..i], login);
    }
  }

  /** Nothing of the list is lost in the map. */
  lemma MapOfIsInjective(a: seq<User>, b: seq<User>)
    requires Distinct(a) && Distinct(b) && MapOf(a) == MapOf(b)
    ensures a == b
  {
    MapOfMeans(a);
    MapOfMeans(b);
    assert |a| == |Logins(a)| == |Logins(b)| == |b|;
    forall i | 0 <= i < |a| ensures a[i] == b[i] {
      assert a[i].login == Logins(a)[i] == Logins(b)[i] == b[i].login;
    }
  }

  lemma FirstIsTheOne(us: seq<User>, q: Query, k: nat)
    requires k < |us| && Matches(q, us[k]) && forall i :: 0 <= i < |us| && i != k ==> !Matches(q, us[i])
    ensures First(us, q) == k
  {
  }

  // The operations on the map.

  ghost function LoginWithID(m: UserMap, id: string): Option<string> {
    if l :| l in m.byLogin && m.byLogin[l].id == id then Some(l) else None
  }

  function Without(order: seq<string>, login: string): seq<string> {
    if order == [] then []
    else (if order[0] == login then [] else [order[0]]) + Without(order[1..], login)
  }

  ghost function MapInsertMany(m: UserMap, batch: seq<User>, newIDs: nat -> string, hashes: nat -> Option<string>,
                               k: nat): UserMap
    requires k <= |batch|
    decreases |batch| - k
  {
    if k == |batch| || batch[k].login in m.byLogin || hashes(k).None? then m
    else MapInsertMany(MapInsert(m, batch[k].(id := newIDs(k), password := hashes(k).value)), batch, newIDs, hashes,
        k + 1)
  }

  ghost function MapRemove(m: UserMap, login: string): UserMap {
    UserMap(Without(m.order, login), m.byLogin - {login})
  }

  ghost function MapApply(m: UserMap, op: UserOp): UserMap {
    match op
    case Add(user, newID, hash) =>
      if user.login == "" || user.login in m.byLogin || (user.password != "" && hash.None?) then m
      else MapInsert(m, user.(id := newID, password := if user.password == "" then "" else hash.value))
    case AddMany(batch, newIDs, hashes) => MapInsertMany(m, batch, newIDs, hashes, 0)
    case Update(user) =>
      if user.login !in m.byLogin then m
      else m.(byLogin := m.byLogin[user.login := user.(password := m.byLogin[user.login].password)])
    case SetPassword(userID, hash) =>
      (match LoginWithID(m, userID)
       case None => m
       case Some(l) => if l !in m.byLogin || hash.None? then m
                       else m.(byLogin := m.byLogin[l := m.byLogin[l].(password := hash.value)]))
    case RemoveLogin(login) => MapRemove(m, login)
    case RemoveID(id) => (match LoginWithID(m, id) case None => m case Some(l) => MapRemove(m, l))
    case Clear => UserMap([], map[])
  }

  /** The IDs from index `k` up to `n` are new to the list and distinct. */
  ghost predicate FreshFrom(us: seq<User>, newIDs: nat -> string, k: nat, n: nat) {
    && (forall i: nat :: k <= i < n ==> NoID(us, newIDs(i)))
    && (forall i: nat, j: nat :: k <= i < j < n ==> newIDs(i) != newIDs(j))
  }

  /** New IDs are fresh, and an update does not take over another user's ID. */
  ghost predicate Admissible(us: seq<User>, op: UserOp) {
    match op
    case Add(_, newID, _) => NoID(us, newID)
    case AddMany(batch, newIDs, _) =>
      FreshFrom(us, newIDs, 0, |batch|)
    case Update(user) => Has(us, ByLogin(user.login)) ==> forall i :: 0 <= i < |us| && us[i].id == user.id ==>
      us[i].login == user.login
    case _ => true
  }

  /** The first-match lookup by login is the map lookup. */
  lemma LookupByLogin(us: seq<User>, login: string)
    requires Distinct(us)
    ensures login in MapOf(us).byLogin <==> Has(us, ByLogin(login))
    ensures Has(us, ByLogin(login)) ==> us[First(us, ByLogin(login))] == MapOf(us).byLogin[login]
  {
    MapOfMeans(us);
    if login in MapOf(us).byLogin {
      var i := IndexOfLogin(us, login);
      FirstIsTheOne(us, ByLogin(login), i);
    }
  }

  /** The first-match lookup by ID finds the user that the map has under the login with that ID. */
  lemma LookupByID(us: seq<User>, id: string)
    requires Distinct(us)
    ensures match LoginWithID(MapOf(us), id)
      case None => !Has(us, ByID(id))
      case Some(l) => Has(us, ByID(id)) && l in MapOf(us).byLogin && us[First(us, ByID(id))] == MapOf(us).byLogin[l]
                      && us[First(us, ByID(id))].login == l
  {
    MapOfMeans(us);
    match LoginWithID(MapOf(us), id)
    case None =>
    case Some(l) =>
      var i := IndexOfLogin(us, l);
      FirstIsTheOne(us, ByID(id), i);
  }

  lemma AppendRefines(us: seq<User>, u: User)
    requires Distinct(us) && !Has(us, ByLogin(u.login)) && NoID(us, u.id)
    ensures Distinct(us + [u]) && MapOf(us + [u]) == MapInsert(MapOf(us), u)
  {
    assert (us + [u])[..|us|] == us;
  }

  lemma AddedUsersGoOn(us: seq<User>, batch: seq<User>, newIDs: nat -> string, hashes: nat -> Option<string>, k: nat)
    requires k < |batch| && !Has(us, ByLogin(batch[k].login)) && hashes(k).Some?
    ensures var u := batch[k].(id := newIDs(k), password := hashes(k).value);
      us + AddedUsers(us, batch, newIDs, hashes, k) == us + [u] + AddedUsers(us + [u], batch, newIDs, hashes, k + 1)
  {
    var u := batch[k].(id := newIDs(k), password := hashes(k).value);
    assert us + ([u] + AddedUsers(us + [u], batch, newIDs, hashes, k + 1))
        == us + [u] + AddedUsers(us + [u], batch, newIDs, hashes, k + 1);
  }

  /** A bulk add appends the users that the map inserts, and stops where the map stops. */
  lemma {:induction false} AppendManyRefines(us: seq<User>, batch: seq<User>, newIDs: nat -> string,
                                             hashes: nat -> Option<string>, k: nat)
    requires Distinct(us) && k <= |batch| && FreshFrom(us, newIDs, k, |batch|)
    ensures Distinct(us + AddedUsers(us, batch, newIDs, hashes, k))
    ensures MapOf(us + AddedUsers(us, batch, newIDs, hashes, k)) == MapInsertMany(MapOf(us), batch, newIDs, hashes, k)
    decreases |batch| - k
  {
    if k < |batch| {
      LookupByLogin(us, batch[k].login);
    }
    if k == |batch| || Has(us, ByLogin(batch[k].login)) || hashes(k).None? {
      assert us + [] == us;
    } else {
      AppendOneOfMany(us, batch[k].(id := newIDs(k), password := hashes(k).value), newIDs, k, |batch|);
      AppendManyRefines(us + [batch[k].(id := newIDs(k), password := hashes(k).value)], batch, newIDs, hashes, k + 1);
      AddedUsersGoOn(us, batch, newIDs, hashes, k);
    }
  }

  lemma AppendOneOfMany(us: seq<User>, u: User, newIDs: nat -> string, k: nat, n: nat)
    requires Distinct(us) && k < n && u.id == newIDs(k) && FreshFrom(us, newIDs, k, n) && !Has(us, ByLogin(u.login))
    ensures Distinct(us + [u]) && MapOf(us + [u]) == MapInsert(MapOf(us), u) && FreshFrom(us + [u], newIDs, k + 1, n)
  {
    AppendRefines(us, u);
    FreshAfterAppend(us, u, newIDs, k, n);
  }

  lemma FreshAfterAppend(us: seq<User>, u: User, newIDs: nat -> string, k: nat, n: nat)
    requires k < n && u.id == newIDs(k) && FreshFrom(us, newIDs, k, n)
    ensures FreshFrom(us + [u], newIDs, k + 1, n)
  {
  }

  lemma UpdatesCommute(m: map<string, User>, a: string, x: User, b: string, y: User)
    requires a != b
    ensures m[a := x][b := y] == m[b := y][a := x]
    ensures m[b := y] - {a} == (m - {a})[b := y]
  {
  }

  lemma {:induction false} ReplaceRefines(us: seq<User>, k: nat, u: User)
    requires Distinct(us) && k < |us| && us[k].login == u.login
    ensures MapOf(us[k := u]) == MapOf(us).(byLogin := MapOf(us).byLogin[u.login := u])
  {
    var n := |us| - 1;
    var front, last := us[..n], us[n];
    var us' := us[k := u];
    if k == n {
      assert us'[..n] == front && us'[n] == u;
      assert MapOf(us') == MapInsert(MapOf(front), u);
    } else {
      ReplaceRefines(front, k, u);
      assert us'[..n] == front[k := u] && us'[n] == last;
      assert MapOf(us') == MapInsert(MapOf(front[k := u]), last);
      UpdatesCommute(MapOf(front).byLogin, u.login, u, last.login, last);
    }
  }

  lemma {:induction false} WithoutAppend(order: seq<string>, x: string, login: string)
    ensures Without(order + [x], login) == Without(order, login) + (if x == login then [] else [x])
    ensures login !in order ==> Without(order, login) == order
  {
    if order == [] {
      assert [] + [x] == [x];
    } else {
      assert order + [x] == [order[0]] + (order[1..] + [x]);
      WithoutAppend(order[1..], x, login);
    }
  }

  lemma RemoveLastRefines(us: seq<User>, u: User)
    requires Distinct(us) && Distinct(us + [u])
    ensures MapRemove(MapInsert(MapOf(us), u), u.login) == MapOf(us)
  {
    MapOfMeans(us);
    var m := MapOf(us);
    var n := |us|;
    assert forall i :: 0 <= i < n ==> us[i].login == (us + [u])[i].login != (us + [u])[n].login;
    if u.login in m.byLogin {
      var i := IndexOfLogin(us, u.login);
    }
    assert u.login !in m.order;
    WithoutAppend(m.order, u.login, u.login);
    assert Without(m.order, u.login) == m.order;
    assert m.byLogin[u.login := u] - {u.login} == m.byLogin;
  }

  lemma RemoveBeforeLast(us: seq<User>, k: nat)
    requires k < |us| - 1
    ensures RemoveAt(us, k) == RemoveAt(us[..|us| - 1], k) + [us[|us| - 1]]
  {
  }

  lemma MapOfAppend(us: seq<User>, u: User)
    ensures MapOf(us + [u]) == MapInsert(MapOf(us), u)
  {
    assert (us + [u])[..|us|] == us;
  }

  lemma InsertAfterRemove(m: UserMap, login: string, u: User)
    requires u.login != login
    ensures MapInsert(MapRemove(m, login), u) == MapRemove(MapInsert(m, u), login)
  {
    WithoutAppend(m.order, u.login, login);
    UpdatesCommute(m.byLogin, login, u, u.login, u);
  }

  lemma {:induction false} RemoveRefines(us: seq<User>, k: nat)
    requires Distinct(us) && k < |us|
    ensures MapOf(RemoveAt(us, k)) == MapRemove(MapOf(us), us[k].login)
  {
    var front, last := us[..|us| - 1], us[|us| - 1];
    if k == |us| - 1 {
      assert RemoveAt(us, k) == front && us == front + [last];
      RemoveLastRefines(front, last);
    } else {
      RemoveRefines(front, k);
      RemoveBeforeLast(us, k);
      MapOfAppend(RemoveAt(front, k), last);
      InsertAfterRemove(MapOf(front), us[k].login, last);
    }
  }

  lemma RemoveNothing(us: seq<User>, login: string)
    requires Distinct(us) && !Has(us, ByLogin(login))
    ensures MapRemove(MapOf(us), login) == MapOf(us)
  {
    LookupByLogin(us, login);
    MapOfMeans(us);
    WithoutAppend(MapOf(us).order, login, login);
  }

  lemma SetPasswordRefines(us: seq<User>, userID: string, hash: Option<string>)
    requires Distinct(us)
    ensures MapOf(Apply(us, SetPassword(userID, hash))) == MapApply(MapOf(us), SetPassword(userID, hash))
  {
    LookupByID(us, userID);
    var k := First(us, ByID(userID));
    if k < |us| && hash.Some? {
      MapOfMeans(us);
      ReplaceRefines(us, k, us[k].(password := hash.value));
    }
  }

  lemma RemovalRefines(us: seq<User>, op: UserOp)
    requires Distinct(us) && (op.RemoveLogin? || op.RemoveID?)
    ensures MapOf(Apply(us, op)) == MapApply(MapOf(us), op)
  {
    var k := if op.RemoveLogin? then First(us, ByLogin(op.login)) else First(us, ByID(op.id));
    if op.RemoveID? {
      LookupByID(us, op.id);
      MapOfMeans(us);
    }
    if k < |us| {
      RemoveRefines(us, k);
    } else if op.RemoveLogin? {
      RemoveNothing(us, op.login);
    }
  }

  /** Every operation keeps logins and IDs distinct. */
  lemma OperationKeepsDistinct(us: seq<User>, op: UserOp)
    requires Distinct(us) && Admissible(us, op)
    ensures Distinct(Apply(us, op))
  {
    match op
    case AddMany(batch, newIDs, hashes) => AppendManyRefines(us, batch, newIDs, hashes, 0);
    case RemoveLogin(login) => RemovalKeepsDistinct(us, First(us, ByLogin(login)));
    case RemoveID(id) => RemovalKeepsDistinct(us, First(us, ByID(id)));
    case _ =>
  }

  lemma RemovalKeepsDistinct(us: seq<User>, k: nat)
    requires Distinct(us)
    ensures Distinct(RemoveAt(us, k))
  {
    var us' := RemoveAt(us, k);
    assert forall i :: 0 <= i < |us'| ==> us'[i] == us[if k < |us| && i >= k then i + 1 else i];
  }

  /** Every operation on the list does to it what the operation does to the map. */
  lemma OperationRefines(us: seq<User>, op: UserOp)
    requires Distinct(us) && Admissible(us, op)
    ensures MapOf(Apply(us, op)) == MapApply(MapOf(us), op)
  {
    match op
    case Add(user, newID, hash) =>
      LookupByLogin(us, user.login);
      match AddedUser(us, user, newID, hash) {
        case Ok(u) => AppendRefines(us, u);
        case Err(_) =>
      }
    case AddMany(batch, newIDs, hashes) => AppendManyRefines(us, batch, newIDs, hashes, 0);
    case Update(user) =>
      LookupByLogin(us, user.login);
      var k := First(us, ByLogin(user.login));
      if k < |us| {
        ReplaceRefines(us, k, user.(password := us[k].password));
      }
    case SetPassword(userID, hash) => SetPasswordRefines(us, userID, hash);
    case RemoveLogin(_) => RemovalRefines(us, op);
    case RemoveID(_) => RemovalRefines(us, op);
    case Clear =>
  }

  // Runs.

  ghost function ApplyAll(us: seq<User>, ops: seq<UserOp>): seq<User>
    decreases |ops|
  {
    if ops == [] then us else ApplyAll(Apply(us, ops[0]), ops[1..])
  }

  ghost function MapApplyAll(m: UserMap, ops: seq<UserOp>): UserMap
    decreases |ops|
  {
    if ops == [] then m else MapApplyAll(MapApply(m, ops[0]), ops[1..])
  }

  ghost predicate AllAdmissible(us: seq<User>, ops: seq<UserOp>)
    decreases |ops|
  {
    ops == [] || (Admissible(us, ops[0]) && AllAdmissible(Apply(us, ops[0]), ops[1..]))
  }

  /** Over every run the list keeps logins and IDs distinct and follows the map. */
  lemma {:induction false} RunRefines(us: seq<User>, ops: seq<UserOp>)
    requires Distinct(us) && AllAdmissible(us, ops)
    ensures Distinct(ApplyAll(us, ops))
    ensures MapOf(ApplyAll(us, ops)) == MapApplyAll(MapOf(us), ops)
    decreases |ops|
  {
    if ops != [] {
      OperationKeepsDistinct(us, ops[0]);
      OperationRefines(us, ops[0]);
      RunRefines(Apply(us, ops[0]), ops[1..]);
    }
  }

  /** UpdateUser never changes which logins there are, nor their order. */
  lemma UpdateKeepsLogins(us: seq<User>, user: User)
    ensures Logins(Apply(us, Update(user))) == Logins(us)
  {
  }

  // Credentials.

  ghost function HashOf(us: seq<User>, login: string): Option<string> {
    if Has(us, ByLogin(login)) then Some(us[First(us, ByLogin(login))].password) else None
  }

  /** The operation sets the password of the user with this login. */
  predicate SetsPasswordOf(us: seq<User>, op: UserOp, login: string) {
    op.SetPassword? && op.hash.Some? && Has(us, ByID(op.userID)) && us[First(us, ByID(op.userID))].login == login
  }

  /** An operation that neither sets a user's password nor removes the user leaves the stored hash alone. */
  lemma HashChangesOnlyBySetPassword(us: seq<User>, op: UserOp, login: string)
    requires Distinct(us) && Admissible(us, op)
    requires Has(us, ByLogin(login)) && Has(Apply(us, op), ByLogin(login))
    requires !SetsPasswordOf(us, op, login)
    ensures HashOf(Apply(us, op), login) == HashOf(us, login)
  {
    var us' := Apply(us, op);
    var i, j := First(us, ByLogin(login)), First(us', ByLogin(login));
    OperationKeepsDistinct(us, op);
    match op
    case Add(user, newID, hash) => FirstIsTheOne(us', ByLogin(login), i);
    case AddMany(batch, newIDs, hashes) => FirstIsTheOne(us', ByLogin(login), i);
    case Update(user) => FirstIsTheOne(us', ByLogin(login), i);
    case SetPassword(userID, hash) => FirstIsTheOne(us', ByLogin(login), i);
    case RemoveLogin(l) => RemovalKeepsUsers(us, First(us, ByLogin(l)), j, i);
    case RemoveID(id) => RemovalKeepsUsers(us, First(us, ByID(id)), j, i);
    case Clear =>
  }

  lemma RemovalKeepsUsers(us: seq<User>, k: nat, j: nat, i: nat)
    requires Distinct(us) && j < |RemoveAt(us, k)| && i < |us|
    requires RemoveAt(us, k)[j].login == us[i].login
    ensures RemoveAt(us, k)[j] == us[i]
  {
    assert RemoveAt(us, k)[j] == us[if k < |us| && j >= k then j + 1 else j];
  }

  /** Somewhere in the run the login's password is set, or the login is absent. */
  ghost predicate Interferes(us: seq<User>, ops: seq<UserOp>, login: string)
    decreases |ops|
  {
    !Has(us, ByLogin(login))
    || (ops != [] && (SetsPasswordOf(us, ops[0], login) || Interferes(Apply(us, ops[0]), ops[1..], login)))
  }

  /** Over every run a stored hash changes only by UpdatePassword or by removal of the user. */
  lemma {:induction false} HashOverRuns(us: seq<User>, ops: seq<UserOp>, login: string)
    requires Distinct(us) && AllAdmissible(us, ops) && !Interferes(us, ops, login)
    ensures HashOf(ApplyAll(us, ops), login) == HashOf(us, login)
    decreases |ops|
  {
    if ops != [] {
      OperationKeepsDistinct(us, ops[0]);
      HashChangesOnlyBySetPassword(us, ops[0], login);
      HashOverRuns(Apply(us, ops[0]), ops[1..], login);
    }
  }
}
