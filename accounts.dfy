/** The local account store (App.tsx:40-46, 106-231): accounts with
    plaintext credentials and a per-account active-session marker, sign-in,
    sign-out, the supersession check, and the administrator's edits with
    their at-least-one-administrator guards. */
module Accounts {
  import opened Wrappers
  import Seqs

  datatype Role = Admin | User

  datatype Account = Account(
    id: string,
    username: string,
    password: string,
    role: Role,
    activeSessionId: Option<string>)

  /** The built-in first account. */
  const DefaultAdmin: Account := Account("admin-0", "abd999", "732234", Admin, None)

  /** The account list a page starts from: the stored list when there is
      one, otherwise the built-in administrator alone. */
  function InitialUsers(saved: Option<seq<Account>>): (r: seq<Account>)
    ensures saved.Some? ==> r == saved.value
    ensures saved.None? ==> r == [DefaultAdmin] && AdminCount(r) == 1 && UniqueIds(r)
  {
    match saved
    case Some(users) => users
    case None => [DefaultAdmin]
  }

  datatype AuthError = BadCredentials | SessionSuperseded

  /** The signed-in state of one browser context. An empty `currentUserId`
      is JavaScript's falsy "no one". */
  datatype AuthState = AuthState(
    users: seq<Account>,
    isLoggedIn: bool,
    currentUserId: string,
    loginError: Option<AuthError>)

  /** Account ids are unique; ids come from the clock, so nothing enforces it. */
  ghost predicate UniqueIds(users: seq<Account>) {
    forall i, j :: 0 <= i < j < |users| ==> users[i].id != users[j].id
  }

  /** `users.filter(u => u.role === 'admin').length`. */
  function AdminCount(users: seq<Account>): (n: nat)
    ensures n <= |users|
    ensures n == 0 <==> forall i :: 0 <= i < |users| ==> users[i].role != Admin
    ensures n == |users| <==> forall i :: 0 <= i < |users| ==> users[i].role == Admin
  {
    if users == [] then 0
    else (if users[0].role == Admin then 1 else 0) + AdminCount(users[1..])
  }

  /** `find(u => u.id === id)`: the callback as a named function. */
  function HasId(id: string): Account -> bool {
    (a: Account) => a.id == id
  }

  /** `filter(u => u.id !== id)`: the callback as a named function. */
  function OtherThan(id: string): Account -> bool {
    (a: Account) => a.id != id
  }

  /** `findIndex(u => u.username === name && u.password === password)`. */
  function Credentials(name: string, password: string): Account -> bool {
    (a: Account) => a.username == name && a.password == password
  }

  /** `k` is where `find` by id stops: the first account with that id. */
  ghost predicate IsFirstWithId(users: seq<Account>, id: string, k: int) {
    0 <= k < |users| && users[k].id == id && forall j :: 0 <= j < k ==> users[j].id != id
  }

  /** A truthy `activeSessionId` that is not this context's own. */
  predicate HeldByOther(a: Account, mySessionId: string) {
    a.activeSessionId.Some? && a.activeSessionId.value != [] && a.activeSessionId.value != mySessionId
  }

  /** Signing in. The first account whose username and password both match
      exactly gets this context's session id, and nothing else in the list
      changes; the context is then signed in as that account. Without a
      match the list is unchanged and the credentials error is shown. */
  function Login(st: AuthState, name: string, password: string, mySessionId: string): (r: AuthState)
    ensures |r.users| == |st.users|
    ensures (exists k :: 0 <= k < |st.users| && Credentials(name, password)(st.users[k])) <==> r.loginError.None?
    ensures r.loginError.None? ==>
              exists k :: && 0 <= k < |st.users|
                          && Credentials(name, password)(st.users[k])
                          && (forall j :: 0 <= j < k ==> !Credentials(name, password)(st.users[j]))
                          && r.users == st.users[k := st.users[k].(activeSessionId := Some(mySessionId))]
                          && r.isLoggedIn && r.currentUserId == st.users[k].id
    ensures r.loginError.Some? ==> r == st.(loginError := Some(BadCredentials))
  {
    match Seqs.FindIndex(st.users, Credentials(name, password))
    case Some(k) =>
      var updated := st.users[k := st.users[k].(activeSessionId := Some(mySessionId))];
      AuthState(updated, true, updated[k].id, None)
    case None => st.(loginError := Some(BadCredentials))
  }

  /** Signing out. When someone is signed in, the records with their id lose
      their session marker and no other record changes; the context is then
      signed out. */
  function Logout(st: AuthState): (r: AuthState)
    ensures |r.users| == |st.users|
    ensures forall i :: 0 <= i < |st.users| ==>
              r.users[i] == if st.currentUserId != [] && st.users[i].id == st.currentUserId
                            then st.users[i].(activeSessionId := None) else st.users[i]
    ensures !r.isLoggedIn && r.currentUserId == [] && r.loginError == st.loginError
  {
    var users :=
      if st.currentUserId != [] then
        Seqs.ReplaceWhere(st.users, HasId(st.currentUserId), (a: Account) => a.(activeSessionId := None))
      else st.users;
    AuthState(users, false, [], st.loginError)
  }

  /** The supersession decision: the current account, as found by id in the
      freshly read list, carries a truthy session id other than this
      context's own. */
  function SupersededIn(latest: seq<Account>, currentUserId: string, mySessionId: string): (r: bool)
    ensures r <==> exists k :: IsFirstWithId(latest, currentUserId, k) && HeldByOther(latest[k], mySessionId)
  {
    match Seqs.FindIndex(latest, HasId(currentUserId))
    case None => false
    case Some(k) => assert IsFirstWithId(latest, currentUserId, k); HeldByOther(latest[k], mySessionId)
  }

  /** One run of the session check, from the poll or a storage event.
      `latest` is the account list read back from storage (None when nothing
      is stored). A superseded session is signed out with its own message;
      otherwise nothing changes. */
  function CheckSession(st: AuthState, latest: Option<seq<Account>>, mySessionId: string): (r: AuthState)
    ensures r == st || r == Logout(st).(loginError := Some(SessionSuperseded))
    ensures r != st <==> st.isLoggedIn && st.currentUserId != [] && latest.Some?
                         && SupersededIn(latest.value, st.currentUserId, mySessionId)
  {
    if !st.isLoggedIn || st.currentUserId == [] then st
    else match latest
      case None => st
      case Some(users) =>
        if SupersededIn(users, st.currentUserId, mySessionId) then
          var out := Logout(st).(loginError := Some(SessionSuperseded));
          assert !out.isLoggedIn;
          out
        else st
  }

  /** Right after signing in, this context's own check (on the list it just
      stored) keeps it signed in. */
  lemma OwnLoginIsNotSuperseded(st: AuthState, name: string, password: string, mySessionId: string)
    requires UniqueIds(st.users) && !st.isLoggedIn
    ensures var r := Login(st, name, password, mySessionId);
            CheckSession(r, Some(r.users), mySessionId) == r
  {
    var r := Login(st, name, password, mySessionId);
    if r.loginError.None? {
      var k :| && 0 <= k < |st.users|
                && r.users == st.users[k := st.users[k].(activeSessionId := Some(mySessionId))]
                && r.currentUserId == st.users[k].id;
      assert forall i :: 0 <= i < |st.users| ==> r.users[i].id == st.users[i].id;
      assert IsFirstWithId(r.users, r.currentUserId, k);
      assert !HeldByOther(r.users[k], mySessionId);
    }
  }

  /** Two contexts signing in to one account: once the second context (with
      a different, non-empty session id) has signed in on the shared list,
      the first context's next check signs it out as superseded. */
  lemma SecondLoginSupersedesFirst(st: AuthState, name: string, password: string, first: string, second: string)
    requires UniqueIds(st.users)
    requires forall i :: 0 <= i < |st.users| ==> st.users[i].id != []
    requires Login(st, name, password, first).loginError.None?
    requires second != [] && second != first
    ensures var a := Login(st, name, password, first);
            var b := Login(a, name, password, second);
            CheckSession(a, Some(b.users), first) == Logout(a).(loginError := Some(SessionSuperseded))
  {
    var creds := Credentials(name, password);
    var k := Seqs.FindIndex(st.users, creds).value;
    var a := Login(st, name, password, first);
    assert a.users == st.users[k := st.users[k].(activeSessionId := Some(first))];
    Seqs.FindIndexSameVerdicts(a.users, st.users, creds);
    var b := Login(a, name, password, second);
    assert b.users == a.users[k := a.users[k].(activeSessionId := Some(second))];
    assert forall i :: 0 <= i < |st.users| ==> b.users[i].id == st.users[i].id;
    assert IsFirstWithId(b.users, a.currentUserId, k);
    assert HeldByOther(b.users[k], first);
  }

  /** The fields of the add-user form. */
  datatype NewAccount = NewAccount(username: string, password: string, role: Role)

  /** Adding an account: refused when the username or the password is empty,
      otherwise appended with id `user-<stamp>` and no session. There is no
      check for a repeated username. */
  function AddUser(users: seq<Account>, form: NewAccount, stamp: string): (r: seq<Account>)
    ensures form.username == [] || form.password == [] ==> r == users
    ensures form.username != [] && form.password != [] ==>
              r == users + [Account("user-" + stamp, form.username, form.password, form.role, None)]
  {
    if form.username == [] || form.password == [] then users
    else users + [Account("user-" + stamp, form.username, form.password, form.role, None)]
  }

  /** Adding raises the administrator count by one exactly when an
      administrator account is actually created, and never lowers it. */
  lemma AddUserAdminCount(users: seq<Account>, form: NewAccount, stamp: string)
    ensures AdminCount(AddUser(users, form, stamp)) ==
            AdminCount(users) + (if form.username != [] && form.password != [] && form.role == Admin then 1 else 0)
  {
    if form.username != [] && form.password != [] {
      AdminCountAppend(users, Account("user-" + stamp, form.username, form.password, form.role, None));
    }
  }

  /** Adding keeps ids unique when the stamp gives an id not yet in use. */
  lemma AddUserKeepsIdsUnique(users: seq<Account>, form: NewAccount, stamp: string)
    requires UniqueIds(users)
    requires forall i :: 0 <= i < |users| ==> users[i].id != "user-" + stamp
    ensures UniqueIds(AddUser(users, form, stamp))
  {
  }

  lemma {:induction false} AdminCountAppend(users: seq<Account>, a: Account)
    ensures AdminCount(users + [a]) == AdminCount(users) + (if a.role == Admin then 1 else 0)
  {
    if users != [] {
      assert (users + [a])[1..] == users[1..] + [a];
      AdminCountAppend(users[1..], a);
    }
  }

  datatype Change<O> = Change(users: seq<Account>, outcome: O)

  datatype Deletion = Deleted | SelfDeleteRefused | LastAdminRefused | NotConfirmed

  /** The account `find` returns for `userId` is an administrator. */
  predicate TargetIsAdmin(users: seq<Account>, userId: string)
    ensures TargetIsAdmin(users, userId) <==>
              exists k :: IsFirstWithId(users, userId, k) && users[k].role == Admin
  {
    match Seqs.FindIndex(users, HasId(userId))
    case None => false
    case Some(k) => users[k].role == Admin
  }

  /** Deleting an account. The signed-in account cannot delete itself; an
      administrator cannot be deleted while there is at most one; otherwise,
      when the user confirms, every record with that id is removed and the
      rest keep their order. */
  function DeleteUser(users: seq<Account>, currentUserId: string, userId: string, confirmed: bool): (r: Change<Deletion>)
    ensures r.outcome == SelfDeleteRefused <==> userId == currentUserId
    ensures r.outcome == LastAdminRefused <==>
              userId != currentUserId && TargetIsAdmin(users, userId) && AdminCount(users) <= 1
    ensures r.outcome == Deleted <==>
              userId != currentUserId && !(TargetIsAdmin(users, userId) && AdminCount(users) <= 1) && confirmed
    ensures r.outcome == Deleted ==> r.users == Seqs.Filter(users, OtherThan(userId))
    ensures r.outcome != Deleted ==> r.users == users
    ensures forall i :: 0 <= i < |r.users| ==> r.users[i] in users
  {
    if userId == currentUserId then Change(users, SelfDeleteRefused)
    else if TargetIsAdmin(users, userId) && AdminCount(users) <= 1 then Change(users, LastAdminRefused)
    else if confirmed then Change(Seqs.Filter(users, OtherThan(userId)), Deleted)
    else Change(users, NotConfirmed)
  }

  /** With unique ids, removing an id removes one administrator exactly when
      the account with that id is one. */
  lemma {:induction false} AdminCountAfterRemoval(users: seq<Account>, id: string)
    requires UniqueIds(users)
    ensures AdminCount(Seqs.Filter(users, OtherThan(id))) ==
            AdminCount(users) - (if TargetIsAdmin(users, id) then 1 else 0)
  {
    if users != [] {
      var rest := users[1..];
      assert UniqueIds(rest) by {
        forall i, j | 0 <= i < j < |rest| ensures rest[i].id != rest[j].id {
          assert rest[i] == users[i + 1] && rest[j] == users[j + 1];
        }
      }
      var kept := Seqs.Filter(users, OtherThan(id));
      if users[0].id == id {
        assert forall i :: 0 <= i < |rest| ==> rest[i] == users[i + 1] && rest[i].id != id;
        assert forall i :: 0 <= i < |rest| ==> OtherThan(id)(rest[i]);
        assert kept == Seqs.Filter(rest, OtherThan(id)) == rest;
        assert Seqs.FindIndex(users, HasId(id)) == Some(0);
        assert TargetIsAdmin(users, id) == (users[0].role == Admin);
        assert AdminCount(users) == (if users[0].role == Admin then 1 else 0) + AdminCount(rest);
      } else {
        AdminCountAfterRemoval(rest, id);
        var keptRest := Seqs.Filter(rest, OtherThan(id));
        assert kept == [users[0]] + keptRest;
        assert kept[0] == users[0] && kept[1..] == keptRest;
        assert AdminCount(kept) == (if users[0].role == Admin then 1 else 0) + AdminCount(keptRest);
        FindSkipsHead(users, id);
      }
    }
  }

  /** `find` by id past a first record with another id. */
  lemma FindSkipsHead(users: seq<Account>, id: string)
    requires users != [] && users[0].id != id
    ensures TargetIsAdmin(users, id) == TargetIsAdmin(users[1..], id)
  {
  }

  /** With unique ids, a deletion never takes away the last administrator. */
  lemma DeleteUserKeepsAnAdmin(users: seq<Account>, currentUserId: string, userId: string, confirmed: bool)
    requires UniqueIds(users) && AdminCount(users) >= 1
    ensures AdminCount(DeleteUser(users, currentUserId, userId, confirmed).users) >= 1
  {
    AdminCountAfterRemoval(users, userId);
  }

  /** The guard relies on unique ids: when two administrators share an id,
      deleting that id removes both. */
  lemma SharedIdDefeatsLastAdminGuard()
    ensures var a := Account("x", "a", "p", Admin, None);
            var users := [a, a.(username := "b")];
            && AdminCount(users) == 2
            && DeleteUser(users, "me", "x", true).outcome == Deleted
            && AdminCount(DeleteUser(users, "me", "x", true).users) == 0
  {
    var a := Account("x", "a", "p", Admin, None);
    var users := [a, a.(username := "b")];
    assert users[1..] == [users[1]] && users[1..][1..] == [];
    assert AdminCount(users[1..]) == 1;
    assert Seqs.Filter(users[1..], OtherThan("x")) == [];
    assert Seqs.Filter(users, OtherThan("x")) == [];
  }

  datatype Edit = NothingToSave | SelfDemotionRefused | Saved

  /** Saving an account edit. Demoting oneself to `user` is refused while
      there is at most one administrator; otherwise the records with the
      edited id are replaced by the edit and every other record is kept. */
  function SaveUserEdit(users: seq<Account>, currentUserId: string, edited: Option<Account>): (r: Change<Edit>)
    ensures r.outcome == NothingToSave <==> edited.None?
    ensures r.outcome == SelfDemotionRefused <==>
              edited.Some? && edited.value.id == currentUserId && edited.value.role == User && AdminCount(users) <= 1
    ensures r.outcome != Saved ==> r.users == users
    ensures r.outcome == Saved ==>
              && |r.users| == |users|
              && (forall i :: 0 <= i < |users| && users[i].id == edited.value.id ==> r.users[i] == edited.value)
              && (forall i :: 0 <= i < |users| && users[i].id != edited.value.id ==> r.users[i] == users[i])
  {
    match edited
    case None => Change(users, NothingToSave)
    case Some(e) =>
      if e.id == currentUserId && e.role == User && AdminCount(users) <= 1 then Change(users, SelfDemotionRefused)
      else Change(Seqs.ReplaceWhere(users, HasId(e.id), (a: Account) => e), Saved)
  }

  /** With unique ids, replacing one record loses at most one administrator. */
  lemma {:induction false} AdminCountAfterReplace(users: seq<Account>, replaced: seq<Account>, id: string, e: Account)
    requires UniqueIds(users) && |replaced| == |users|
    requires forall i :: 0 <= i < |users| ==> replaced[i] == if users[i].id == id then e else users[i]
    ensures AdminCount(replaced) + 1 >= AdminCount(users)
  {
    if users != [] {
      AdminCountAfterReplace(users[1..], replaced[1..], id, e);
      if users[0].id == id {
        assert replaced[1..] == users[1..];
      }
    }
  }

  /** An administrator present means a positive count. */
  lemma {:induction false} AdminPresent(users: seq<Account>, k: nat)
    requires k < |users| && users[k].role == Admin
    ensures AdminCount(users) >= 1
  {
    if k > 0 {
      AdminPresent(users[1..], k - 1);
    }
  }

  /** Edits are made from the administration panel, which only an
      administrator sees; with unique ids, no saved edit leaves the store
      without an administrator. */
  lemma SaveUserEditKeepsAnAdmin(users: seq<Account>, currentUserId: string, edited: Option<Account>, me: nat)
    requires UniqueIds(users)
    requires me < |users| && users[me].id == currentUserId && users[me].role == Admin
    ensures AdminCount(SaveUserEdit(users, currentUserId, edited).users) >= 1
  {
    var r := SaveUserEdit(users, currentUserId, edited);
    if r.outcome == Saved {
      var e := edited.value;
      if e.id == currentUserId && e.role == User {
        AdminCountAfterReplace(users, r.users, e.id, e);
      } else {
        AdminPresent(r.users, me);
      }
    } else {
      AdminPresent(users, me);
    }
  }

  /** Signing in and out change session markers only, never roles. */
  lemma {:induction false} SameRolesSameAdminCount(a: seq<Account>, b: seq<Account>)
    requires |a| == |b| && forall i :: 0 <= i < |a| ==> a[i].role == b[i].role
    ensures AdminCount(a) == AdminCount(b)
  {
    if a != [] {
      SameRolesSameAdminCount(a[1..], b[1..]);
    }
  }

  /** Neither signing in nor signing out changes the number of administrators. */
  lemma SessionsKeepAdminCount(st: AuthState, name: string, password: string, mySessionId: string)
    ensures AdminCount(Login(st, name, password, mySessionId).users) == AdminCount(st.users)
    ensures AdminCount(Logout(st).users) == AdminCount(st.users)
  {
    var r := Login(st, name, password, mySessionId);
    if r.loginError.None? {
      var k :| 0 <= k < |st.users| && r.users == st.users[k := st.users[k].(activeSessionId := Some(mySessionId))];
    }
    SameRolesSameAdminCount(r.users, st.users);
    SameRolesSameAdminCount(Logout(st).users, st.users);
  }
}
