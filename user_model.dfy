/** The User document of backend/models/User.js: its project association
    lists, the pre-save hook, and the collection the routes look users up in.
    `Date.now()` is the parameter `now`; `bcrypt.hash(password, 10)` is the
    parameter `hashOf`. */
module UserModel {
  import opened Base

  /** The schema default of `role`. */
  const DefaultRole := "admin"

  class User {
    const id: Id
    var username: Option<string>
    var email: string
    var password: string
    var role: string
    var projectsOwned: seq<Id>
    var projectsJoined: seq<Id>
    /** Set once, from the schema default `Date.now`, when the document is made. */
    const createdAt: int
    var updatedAt: int
    /** mongoose's `isModified('password')`: the password path was assigned
        since the document was last saved. */
    var passwordModified: bool

    /** `new User({...})`: an unsaved document. A missing role takes the
        schema default, which is 'admin'. */
    constructor (id: Id, username: Option<string>, email: string, password: string,
                 role: Option<string>, now: int)
      ensures this.id == id && this.username == username && this.email == email
      ensures this.password == password && passwordModified
      ensures this.role == (if role.Some? then role.value else DefaultRole)
      ensures projectsOwned == [] && projectsJoined == [] && createdAt == now && updatedAt == now
    {
      this.id := id;
      this.username := username;
      this.email := email;
      this.password := password;
      this.role := if role.Some? then role.value else DefaultRole;
      projectsOwned := [];
      projectsJoined := [];
      createdAt := now;
      updatedAt := now;
      passwordModified := true;
    }

    /** `user.save()` with its pre-save hook: the password is hashed only
        when it was modified, and `updatedAt` is refreshed on every save. */
    method Save(now: int, hashOf: string -> string)
      modifies this`password, this`updatedAt, this`passwordModified
      ensures password == (if old(passwordModified) then hashOf(old(password)) else old(password))
      ensures updatedAt == now && !passwordModified
    {
      if passwordModified {
        password := hashOf(password);
      }
      updatedAt := now;
      passwordModified := false;
    }

    /** `updateProjectAssociations(projectId, isOwned)`: adds the project to
        `projectsOwned` (owned) or to `projectsJoined` (otherwise), only when it
        is not there yet, then saves. The other list is untouched. */
    method UpdateProjectAssociations(projectId: Id, isOwned: bool, now: int, hashOf: string -> string)
      modifies this`projectsOwned, this`projectsJoined, this`password, this`updatedAt,
               this`passwordModified
      ensures projectsOwned == (if isOwned then AddIfAbsent(old(projectsOwned), projectId)
                                else old(projectsOwned))
      ensures projectsJoined == (if isOwned then old(projectsJoined)
                                 else AddIfAbsent(old(projectsJoined), projectId))
      ensures password == (if old(passwordModified) then hashOf(old(password)) else old(password))
      ensures updatedAt == now && !passwordModified
    {
      updatedAt := now;
      if isOwned {
        if projectId !in projectsOwned {
          projectsOwned := projectsOwned + [projectId];
        }
      } else {
        if projectId !in projectsJoined {
          projectsJoined := projectsJoined + [projectId];
        }
      }
      Save(now, hashOf);
    }

    /** `removeJoinedProject(projectId)`: every occurrence of the project
        leaves `projectsJoined`, the rest keep their order; `projectsOwned` is
        untouched. */
    method RemoveJoinedProject(projectId: Id, now: int, hashOf: string -> string)
      modifies this`projectsJoined, this`password, this`updatedAt, this`passwordModified
      ensures projectsJoined == RemoveAll(old(projectsJoined), projectId)
      ensures projectId !in projectsJoined
      ensures password == (if old(passwordModified) then hashOf(old(password)) else old(password))
      ensures updatedAt == now && !passwordModified
    {
      updatedAt := now;
      projectsJoined := RemoveAll(projectsJoined, projectId);
      Save(now, hashOf);
    }
  }

  /** The looked-up user as a set: empty when the lookup found nothing. A
      handler's frame names the fields of this set. */
  function UserSet(u: User?): set<User>
  {
    if u == null then {} else {u}
  }

  /** `u` went through `save()` at `now` and nothing else changed its
      password: the pre-save hook hashed a modified password, kept an
      unmodified one, and the timestamp is `now`. */
  twostate predicate SavedAt(u: User, now: int, hashOf: string -> string)
    reads u
  {
    && u.password == (if old(u.passwordModified) then hashOf(old(u.password)) else old(u.password))
    && u.updatedAt == now && !u.passwordModified
  }

  /** The first user of `us` with the given id (`User.findById`). */
  function FindUserById(us: seq<User>, id: Id): (u: User?)
    ensures u != null ==> u in us && u.id == id
    ensures u == null ==> forall v :: v in us ==> v.id != id
  {
    if us == [] then null
    else if us[0].id == id then us[0]
    else FindUserById(us[1..], id)
  }

  /** The first user of `us` with the given email (`User.findOne({ email })`). */
  function FindUserByEmail(us: seq<User>, email: string): (u: User?)
    reads us
    ensures u != null ==> u in us && u.email == email
    ensures u == null ==> forall v :: v in us ==> v.email != email
  {
    if us == [] then null
    else if us[0].email == email then us[0]
    else FindUserByEmail(us[1..], email)
  }

  /** The `required: true` validators of username, email and password,
      which also reject the empty string; mongoose runs them before the
      pre-save hook. */
  predicate SchemaValid(username: Option<string>, email: string, password: string)
  {
    username.Some? && Truthy(username.value) && Truthy(email) && Truthy(password)
  }

  /** Ids and emails are unique indexes of the schema. */
  ghost predicate UniqueUsers(us: seq<User>)
    reads us
  {
    forall i, j :: 0 <= i < j < |us| ==> us[i].id != us[j].id && us[i].email != us[j].email
  }

  /** The collection after `findByIdAndDelete(id)`. */
  function WithoutId(us: seq<User>, id: Id): (r: seq<User>)
    ensures forall i :: 0 <= i < |r| ==> r[i] in us && r[i].id != id
    ensures forall i :: 0 <= i < |us| && us[i].id != id ==> us[i] in r
    ensures FindUserById(r, id) == null
    ensures |r| <= |us|
  {
    if us == [] then []
    else if us[0].id == id then WithoutId(us[1..], id)
    else [us[0]] + WithoutId(us[1..], id)
  }

  /** No user of `vs` shares the id or the email of `u`. */
  ghost predicate DistinctFrom(u: User, vs: seq<User>)
    reads u, vs
  {
    forall i :: 0 <= i < |vs| ==> vs[i].id != u.id && vs[i].email != u.email
  }

  /** A user distinct from unique users can be put in front of them. */
  lemma ConsKeepsUnique(u: User, vs: seq<User>)
    requires DistinctFrom(u, vs) && UniqueUsers(vs)
    ensures UniqueUsers([u] + vs)
  {
    var r := [u] + vs;
    forall i, j | 0 <= i < j < |r|
      ensures r[i].id != r[j].id && r[i].email != r[j].email
    {
      assert r[j] == vs[j - 1];
      if 0 < i {
        assert r[i] == vs[i - 1];
      }
    }
  }

  /** Deleting users keeps the others distinct from `u`. */
  lemma WithoutIdKeepsDistinct(u: User, vs: seq<User>, id: Id)
    requires DistinctFrom(u, vs)
    ensures DistinctFrom(u, WithoutId(vs, id))
  {
    var r := WithoutId(vs, id);
    forall i | 0 <= i < |r|
      ensures r[i].id != u.id && r[i].email != u.email
    {
      assert r[i] in vs;
      var k :| 0 <= k < |vs| && vs[k] == r[i];
    }
  }

  /** Deleting a user keeps the ids and emails of the others unique. */
  lemma {:induction false} WithoutIdKeepsUnique(us: seq<User>, id: Id)
    requires UniqueUsers(us)
    ensures UniqueUsers(WithoutId(us, id))
  {
    if us != [] {
      assert UniqueUsers(us[1..]) by {
        forall i, j | 0 <= i < j < |us[1..]|
          ensures us[1..][i].id != us[1..][j].id && us[1..][i].email != us[1..][j].email
        {
          assert us[1..][i] == us[i + 1] && us[1..][j] == us[j + 1];
        }
      }
      WithoutIdKeepsUnique(us[1..], id);
      if us[0].id != id {
        assert DistinctFrom(us[0], us[1..]) by {
          forall k | 0 <= k < |us[1..]|
            ensures us[1..][k].id != us[0].id && us[1..][k].email != us[0].email
          {
            assert us[1..][k] == us[k + 1];
          }
        }
        WithoutIdKeepsDistinct(us[0], us[1..], id);
        ConsKeepsUnique(us[0], WithoutId(us[1..], id));
      }
    }
  }

  /** The users collection. */
  class UserCollection {
    var users: seq<User>

    ghost predicate Valid()
      reads this, users
    {
      UniqueUsers(users)
    }

    constructor ()
      ensures users == [] && Valid()
    {
      users := [];
    }

    function FindById(id: Id): (u: User?)
      reads this
      ensures u != null ==> u in users && u.id == id
      ensures u == null ==> forall v :: v in users ==> v.id != id
    {
      FindUserById(users, id)
    }

    function FindByEmail(email: string): (u: User?)
      reads this, users
      ensures u != null ==> u in users && u.email == email
      ensures u == null ==> forall v :: v in users ==> v.email != email
    {
      FindUserByEmail(users, email)
    }
  }
}
