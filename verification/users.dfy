/** The in-memory user store and the session built on it
    (src/contexts/UserContext.tsx). */
module Users {
  import opened JsValues
  import Seqs

  datatype Role = Admin | Manager | Employee

  datatype User = User(id: string, name: string, email: string, role: Role, avatar: Option<string>, createdAt: Stamp)

  /** The signed-in user as the session keeps it. */
  datatype AuthUser = AuthUser(id: string, name: string, email: string, role: Role, avatar: Option<string>)

  /** What `addUser` is given: a user without id and creation time. */
  datatype NewUser = NewUser(name: string, email: string, role: Role, avatar: Option<string>)

  /** One entry of an `updates` object. */
  datatype UserChange =
    | SetName(name: string)
    | SetEmail(email: string)
    | SetRole(role: Role)
    | SetAvatar(avatar: Option<string>)

  /** The fields `login` copies from a user into the session. */
  function ToAuth(u: User): AuthUser {
    AuthUser(u.id, u.name, u.email, u.role, u.avatar)
  }

  /** `{ ...user, ...updates }`. */
  function ApplyToUser(u: User, changes: seq<UserChange>): User
    decreases changes
  {
    if changes == [] then u
    else
      var u' := match changes[0]
        case SetName(n) => u.(name := n)
        case SetEmail(e) => u.(email := e)
        case SetRole(r) => u.(role := r)
        case SetAvatar(a) => u.(avatar := a);
      ApplyToUser(u', changes[1..])
  }

  /** `{ ...currentUser, ...updates }`. */
  function ApplyToAuth(a: AuthUser, changes: seq<UserChange>): AuthUser
    decreases changes
  {
    if changes == [] then a
    else
      var a' := match changes[0]
        case SetName(n) => a.(name := n)
        case SetEmail(e) => a.(email := e)
        case SetRole(r) => a.(role := r)
        case SetAvatar(v) => a.(avatar := v);
      ApplyToAuth(a', changes[1..])
  }

  /** The value a change sets for a name, email, role or avatar, if it is
      a change of that field. */
  function NameSet(c: UserChange): Option<string> {
    match c
    case SetName(n) => Some(n)
    case _ => None
  }

  function EmailSet(c: UserChange): Option<string> {
    match c
    case SetEmail(e) => Some(e)
    case _ => None
  }

  function RoleSet(c: UserChange): Option<Role> {
    match c
    case SetRole(r) => Some(r)
    case _ => None
  }

  function AvatarSet(c: UserChange): Option<Option<string>> {
    match c
    case SetAvatar(a) => Some(a)
    case _ => None
  }

  /** The value the last change that `pick` recognises sets, if any. */
  function LastChange<V>(changes: seq<UserChange>, pick: UserChange -> Option<V>): Option<V> {
    if changes == [] then None
    else
      match LastChange(changes[1..], pick)
      case Some(v) => Some(v)
      case None => pick(changes[0])
  }

  /** `current` unless some change sets the field, then the last value set. */
  function Latest<V>(changes: seq<UserChange>, pick: UserChange -> Option<V>, current: V): V {
    match LastChange(changes, pick)
    case Some(v) => v
    case None => current
  }

  /** Merging the updates into a stored user sets each of name, email, role
      and avatar to the last value the updates give it, keeps it when none
      does, and keeps the id and creation time. */
  lemma {:induction false} ApplyToUserFields(u: User, changes: seq<UserChange>)
    ensures var r := ApplyToUser(u, changes);
      && r.name == Latest(changes, NameSet, u.name)
      && r.email == Latest(changes, EmailSet, u.email)
      && r.role == Latest(changes, RoleSet, u.role)
      && r.avatar == Latest(changes, AvatarSet, u.avatar)
      && r.id == u.id && r.createdAt == u.createdAt
    decreases changes
  {
    if changes != [] {
      var u' := match changes[0]
        case SetName(n) => u.(name := n)
        case SetEmail(e) => u.(email := e)
        case SetRole(r) => u.(role := r)
        case SetAvatar(a) => u.(avatar := a);
      ApplyToUserFields(u', changes[1..]);
    }
  }

  /** The same for the session user: each session field takes the last
      value set for it, and the id is kept. */
  lemma ApplyToAuthFields(a: AuthUser, changes: seq<UserChange>)
    ensures var r := ApplyToAuth(a, changes);
      && r.name == Latest(changes, NameSet, a.name)
      && r.email == Latest(changes, EmailSet, a.email)
      && r.role == Latest(changes, RoleSet, a.role)
      && r.avatar == Latest(changes, AvatarSet, a.avatar)
      && r.id == a.id
  {
    var u := User(a.id, a.name, a.email, a.role, a.avatar, 0);
    assert ToAuth(u) == a;
    MergeCommutesWithSession(u, changes);
    ApplyToUserFields(u, changes);
  }

  /** Merging the updates into the session user gives the session copy of
      the merged stored user: the two stay in step. */
  lemma {:induction false} MergeCommutesWithSession(u: User, changes: seq<UserChange>)
    ensures ApplyToAuth(ToAuth(u), changes) == ToAuth(ApplyToUser(u, changes))
    ensures ApplyToUser(u, changes).id == u.id && ApplyToUser(u, changes).createdAt == u.createdAt
    decreases changes
  {
    if changes != [] {
      var u' := match changes[0]
        case SetName(n) => u.(name := n)
        case SetEmail(e) => u.(email := e)
        case SetRole(r) => u.(role := r)
        case SetAvatar(a) => u.(avatar := a);
      MergeCommutesWithSession(u', changes[1..]);
    }
  }

  predicate EmailMatches(h: Host, u: User, email: string) {
    h.toLower(u.email) == h.toLower(email)
  }

  /** `k` is the first index of a user with the email. */
  predicate FirstWithEmail(h: Host, users: seq<User>, email: string, k: int) {
    0 <= k < |users| && EmailMatches(h, users[k], email) &&
    forall i :: 0 <= i < k ==> !EmailMatches(h, users[i], email)
  }

  /** `users.find(u => u.email.toLowerCase() === email.toLowerCase())`. */
  function FindByEmail(h: Host, users: seq<User>, email: string): (r: Option<User>)
    ensures r.None? <==> forall i :: 0 <= i < |users| ==> !EmailMatches(h, users[i], email)
    ensures r.Some? ==> exists k :: FirstWithEmail(h, users, email, k) && users[k] == r.value
  {
    if users == [] then None
    else if EmailMatches(h, users[0], email) then
      assert FirstWithEmail(h, users, email, 0);
      Some(users[0])
    else
      var r := FindByEmail(h, users[1..], email);
      assert forall i :: 1 <= i < |users| ==> users[1..][i - 1] == users[i];
      assert forall k :: FirstWithEmail(h, users[1..], email, k) ==> FirstWithEmail(h, users, email, k + 1);
      r
  }

  /** `k` is the first index of a user with the id. */
  predicate FirstWithId(users: seq<User>, id: string, k: int) {
    0 <= k < |users| && users[k].id == id && forall i :: 0 <= i < k ==> users[i].id != id
  }

  /** `users.find(user => user.id === id)`. */
  function FindById(users: seq<User>, id: string): (r: Option<User>)
    ensures r.None? <==> forall i :: 0 <= i < |users| ==> users[i].id != id
    ensures r.Some? ==> exists k :: FirstWithId(users, id, k) && users[k] == r.value
  {
    if users == [] then None
    else if users[0].id == id then
      assert FirstWithId(users, id, 0);
      Some(users[0])
    else
      var r := FindById(users[1..], id);
      assert forall i :: 1 <= i < |users| ==> users[1..][i - 1] == users[i];
      assert forall k :: FirstWithId(users[1..], id, k) ==> FirstWithId(users, id, k + 1);
      r
  }

  /** The user list after `updateUser(id, updates)`. */
  function UpdateMatching(users: seq<User>, id: string, changes: seq<UserChange>): (r: seq<User>)
    ensures |r| == |users|
    ensures forall i :: 0 <= i < |r| ==>
      r[i] == if users[i].id == id then ApplyToUser(users[i], changes) else users[i]
  {
    seq(|users|, i requires 0 <= i < |users| =>
      if users[i].id == id then ApplyToUser(users[i], changes) else users[i])
  }

  class UserStore {
    const h: Host
    var users: seq<User>
    var currentUser: Option<AuthUser>
    var isAuthenticated: bool
    /** The `currentUser` entry of local storage (JSON round trips are exact). */
    var saved: Option<AuthUser>

    /** The session flag agrees with the session user. */
    ghost predicate Valid()
      reads this
    {
      isAuthenticated <==> currentUser.Some?
    }

    /** The provider after its mount effect: the initial users are loaded and
        a saved session, if any, is restored. */
    constructor (h: Host, initial: seq<User>, saved: Option<AuthUser>)
      ensures Valid()
      ensures this.h == h && users == initial && this.saved == saved && currentUser == saved
    {
      this.h := h;
      users := initial;
      this.saved := saved;
      currentUser := saved;
      isAuthenticated := saved.Some?;
    }

    /** `login(email, password)`: succeeds exactly when some user has the
        email, compared case-insensitively; the password is not examined.
        The first such user becomes the session user. */
    method Login(email: string, password: string) returns (ok: bool)
      requires Valid()
      modifies this
      ensures Valid()
      ensures ok <==> exists i :: 0 <= i < |users| && EmailMatches(h, users[i], email)
      ensures ok ==> currentUser == Some(ToAuth(FindByEmail(h, users, email).value)) && saved == currentUser
      ensures !ok ==> currentUser == old(currentUser) && isAuthenticated == old(isAuthenticated) && saved == old(saved)
      ensures users == old(users)
    {
      var user := FindByEmail(h, users, email);
      if user.Some? {
        currentUser := Some(ToAuth(user.value));
        isAuthenticated := true;
        saved := currentUser;
        return true;
      }
      return false;
    }

    /** `logout()`. */
    method Logout()
      modifies this
      ensures Valid()
      ensures currentUser == None && !isAuthenticated && saved == None
      ensures users == old(users)
    {
      currentUser := None;
      isAuthenticated := false;
      saved := None;
    }

    /** `addUser(user)`: appends one user with the given (fresh) id. */
    method AddUser(u: NewUser, id: string, now: Stamp)
      modifies this
      ensures users == old(users) + [User(id, u.name, u.email, u.role, u.avatar, now)]
      ensures currentUser == old(currentUser) && isAuthenticated == old(isAuthenticated) && saved == old(saved)
    {
      users := users + [User(id, u.name, u.email, u.role, u.avatar, now)];
    }

    /** `updateUser(id, updates)`: merges the updates into the users with the
        id; the session user is merged too when it has that id. */
    method UpdateUser(id: string, changes: seq<UserChange>)
      requires Valid()
      modifies this
      ensures Valid()
      ensures users == UpdateMatching(old(users), id, changes)
      ensures old(currentUser).Some? && old(currentUser).value.id == id ==>
        currentUser == Some(ApplyToAuth(old(currentUser).value, changes)) && saved == currentUser
      ensures !(old(currentUser).Some? && old(currentUser).value.id == id) ==>
        currentUser == old(currentUser) && saved == old(saved)
      ensures isAuthenticated == old(isAuthenticated)
    {
      users := UpdateMatching(users, id, changes);
      if currentUser.Some? && currentUser.value.id == id {
        currentUser := Some(ApplyToAuth(currentUser.value, changes));
        saved := currentUser;
      }
    }

    /** `deleteUser(id)`: removes the users with the id, keeping the order of
        the rest, and signs out when the session user had that id. */
    method DeleteUser(id: string)
      requires Valid()
      modifies this
      ensures Valid()
      ensures users == Seqs.Filter((u: User) => u.id != id, old(users))
      ensures forall u :: u in users <==> u in old(users) && u.id != id
      ensures old(currentUser).Some? && old(currentUser).value.id == id ==>
        currentUser == None && !isAuthenticated && saved == None
      ensures !(old(currentUser).Some? && old(currentUser).value.id == id) ==>
        currentUser == old(currentUser) && isAuthenticated == old(isAuthenticated) && saved == old(saved)
    {
      users := Seqs.Filter((u: User) => u.id != id, users);
      if currentUser.Some? && currentUser.value.id == id {
        Logout();
      }
    }

    /** `getUser(id)`: the first user with the id. */
    function GetUser(id: string): (r: Option<User>)
      reads this
      ensures r.Some? ==> r.value in users && r.value.id == id
      ensures r.Some? ==> exists k :: FirstWithId(users, id, k) && users[k] == r.value
      ensures r.None? <==> forall u :: u in users ==> u.id != id
    {
      FindById(users, id)
    }
  }

  /** If the session user is the session copy of the stored user with its id,
      it stays so after that user is updated. */
  lemma SessionFollowsUpdate(users: seq<User>, k: nat, changes: seq<UserChange>)
    requires k < |users|
    ensures ApplyToAuth(ToAuth(users[k]), changes) == ToAuth(UpdateMatching(users, users[k].id, changes)[k])
  {
    MergeCommutesWithSession(users[k], changes);
  }
}
