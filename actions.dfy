/** The server's request handlers (`Actions`): registration, login and the
    profile over the user collection, and the project aggregate service over
    the project collection. Each handler loads one document, checks what it
    checks in the source's order, edits the loaded copy and saves it whole. */
module Api {
  import opened Common
  import opened KeyedSeq
  import opened ProjectSchema
  import opened ProjectTree
  import opened Session

  /** A stored project is filed under its own id, its ids (and the project's)
      are below the id generator and unique within their parent, it passes its
      schema, and its creator is one of its members. */
  predicate StoredProjectOk(p: Project, pid: Id, n: nat) {
    p.id == pid && pid < n && IdsOk(p, n) && ProjectValid(p) && p.createdBy in p.members
  }

  lemma StoredMono(ps: map<Id, Project>, n: nat, m: nat)
    requires forall pid :: pid in ps ==> StoredProjectOk(ps[pid], pid, n)
    requires n <= m
    ensures forall pid :: pid in ps ==> StoredProjectOk(ps[pid], pid, m)
  {
    forall pid | pid in ps ensures StoredProjectOk(ps[pid], pid, m) {
      IdsOkMono(ps[pid], n, m);
    }
  }

  /** Saving a project that satisfies the invariant, with the id generator at `m`. */
  lemma StoreProject(ps: map<Id, Project>, pid: Id, q: Project, n: nat, m: nat, ps': map<Id, Project>)
    requires forall k :: k in ps ==> StoredProjectOk(ps[k], k, n)
    requires n <= m && StoredProjectOk(q, pid, m) && ps' == ps[pid := q]
    ensures forall k :: k in ps' ==> StoredProjectOk(ps'[k], k, m)
  {
    StoredMono(ps, n, m);
  }

  /** `User.findOne({ login })` finds a user. */
  predicate LoginTaken(users: map<Id, User>, login: string) {
    exists uid :: uid in users && users[uid].login == login
  }

  /** The `getUserProjects` query: created by the caller, or listing the caller as a member. */
  predicate Visible(p: Project, caller: Id) {
    p.createdBy == caller || caller in p.members
  }

  /** `populate('members', …)`: member ids without a user document are dropped. */
  function Populated(members: seq<Id>, users: map<Id, User>): (r: seq<Id>)
    ensures |r| <= |members|
    ensures forall m :: m in r <==> m in members && m in users
  {
    if |members| == 0 then []
    else if members[0] in users then [members[0]] + Populated(members[1..], users)
    else Populated(members[1..], users)
  }

  /** `$set` of the four profile fields, where an absent field is left as it was. */
  function Edited(u: User, firstName: Option<string>, lastName: Option<string>,
                  email: Option<string>, bio: Option<string>): (v: User)
    ensures v.id == u.id && v.login == u.login && v.password == u.password && v.sex == u.sex
    ensures firstName.Some? ==> v.firstName == firstName
    ensures firstName.None? ==> v.firstName == u.firstName
    ensures lastName.Some? ==> v.lastName == lastName
    ensures lastName.None? ==> v.lastName == u.lastName
    ensures email.Some? ==> v.email == email
    ensures email.None? ==> v.email == u.email
    ensures bio.Some? ==> v.bio == bio
    ensures bio.None? ==> v.bio == u.bio
  {
    u.(firstName := if firstName.Some? then firstName else u.firstName,
       lastName := if lastName.Some? then lastName else u.lastName,
       email := if email.Some? then email else u.email,
       bio := if bio.Some? then bio else u.bio)
  }

  /** With the creator always a member, the projects a registered user sees in
      the list are exactly those `getProject` opens for them. */
  lemma ListedIffOpenable(p: Project, pid: Id, n: nat, users: map<Id, User>, caller: Id)
    requires StoredProjectOk(p, pid, n) && caller in users
    ensures Visible(p, caller) <==> caller in Populated(p.members, users)
  {
  }

  class Actions {
    var users: map<Id, User>
    var projects: map<Id, Project>
    /** The next ObjectId to hand out; ids are never reused. */
    var nextId: nat

    ghost predicate Valid()
      reads this
    {
      && (forall pid :: pid in projects ==> StoredProjectOk(projects[pid], pid, nextId))
      && (forall uid :: uid in users ==> users[uid].id == uid && uid < nextId)
      && (forall u, v :: u in users && v in users && users[u].login == users[v].login ==> u == v)
    }

    constructor ()
      ensures Valid() && users == map[] && projects == map[]
    {
      users, projects, nextId := map[], map[], 0;
    }

    /** `project.save()` of an edited project that passes its schema, after
        its one new sub-document has taken the next id. */
    method SaveWithNewId(pid: Id, project: Project)
      requires Valid() && StoredProjectOk(project, pid, nextId + 1)
      modifies this
      ensures Valid() && users == old(users) && nextId == old(nextId) + 1
      ensures projects == old(projects)[pid := project]
    {
      StoreProject(projects, pid, project, nextId, nextId + 1, projects[pid := project]);
      projects := projects[pid := project];
      nextId := nextId + 1;
    }

    // ------------------------------------------------------------ users and sessions

    /** `registration`: every field is required, a login is taken once, and the
        password is stored hashed (`hash` stands for `bcrypt.hash(·, 10)`). */
    method Registration(login: string, password: string, sex: string, hash: string -> string)
      returns (r: Result<User>)
      requires Valid()
      modifies this
      ensures Valid() && projects == old(projects)
      ensures login == "" || password == "" || sex == "" ==> r == Err(MissingField)
      ensures login != "" && password != "" && sex != "" && LoginTaken(old(users), login) ==> r == Err(UserExists)
      ensures login != "" && password != "" && sex != "" && !LoginTaken(old(users), login) ==> r.Ok?
      ensures r.Err? ==> users == old(users) && nextId == old(nextId)
      ensures r.Ok? ==> login != "" && password != "" && sex != "" && !LoginTaken(old(users), login)
      ensures r.Ok? ==> r.value == User(old(nextId), login, hash(password), sex, None, None, None, None)
      ensures r.Ok? ==> old(nextId) !in old(users) && users == old(users)[old(nextId) := r.value]
      ensures r.Ok? ==> nextId == old(nextId) + 1
    {
      if login == "" || password == "" || sex == "" {
        return Err(MissingField);
      }
      if LoginTaken(users, login) {
        return Err(UserExists);
      }
      var user := User(nextId, login, hash(password), sex, None, None, None, None);
      StoredMono(projects, nextId, nextId + 1);
      users := users[nextId := user];
      nextId := nextId + 1;
      r := Ok(user);
    }

    /** `login`: an unknown login and a wrong password give the same answer;
        success is a token for the user's id and login, valid for 15 minutes
        (`compare` stands for `bcrypt.compare`, `sign` for `jwt.sign`). */
    method Login(login: string, password: string, compare: (string, string) -> bool,
                 sign: Claims -> string, now: Time) returns (r: Result<string>)
      requires Valid()
      ensures login == "" || password == "" ==> r == Err(MissingField)
      ensures login != "" && password != "" ==>
                (r.Ok? <==> exists uid :: uid in users && users[uid].login == login && compare(password, users[uid].password))
      ensures r.Err? && login != "" && password != "" ==> r == Err(BadCredentials)
      ensures r.Ok? ==> exists uid :: uid in users && users[uid].login == login &&
                          r.value == sign(IssueClaims(uid, login, now))
    {
      if login == "" || password == "" {
        return Err(MissingField);
      }
      if !LoginTaken(users, login) {
        return Err(BadCredentials);
      }
      var uid :| uid in users && users[uid].login == login;
      var user := users[uid];
      if !compare(password, user.password) {
        return Err(BadCredentials);
      }
      r := Ok(sign(IssueClaims(user.id, user.login, now)));
    }

    /** `getProfile`: the caller's user document without its password hash. */
    method GetProfile(caller: Id) returns (r: Result<Profile>)
      requires Valid()
      ensures caller !in users ==> r == Err(UserNotFound)
      ensures caller in users ==> r == Ok(ProfileOf(users[caller]))
    {
      if caller !in users {
        return Err(UserNotFound);
      }
      r := Ok(ProfileOf(users[caller]));
    }

    /** `editProfile`: the caller's (not the path's) user gets the given profile fields. */
    method EditProfile(caller: Id, firstName: Option<string>, lastName: Option<string>,
                       email: Option<string>, bio: Option<string>) returns (r: Result<User>)
      requires Valid()
      modifies this
      ensures Valid() && projects == old(projects) && nextId == old(nextId)
      ensures caller !in old(users) ==> r == Err(UserNotFound) && users == old(users)
      ensures caller in old(users) ==>
                && r == Ok(Edited(old(users)[caller], firstName, lastName, email, bio))
                && users == old(users)[caller := r.value]
    {
      if caller !in users {
        return Err(UserNotFound);
      }
      var user := Edited(users[caller], firstName, lastName, email, bio);
      users := users[caller := user];
      r := Ok(user);
    }

    // ------------------------------------------------------------ projects

    /** `createProject`: a name is required; the caller becomes creator and sole member. */
    method CreateProject(caller: Id, name: string, description: Option<string>, now: Time)
      returns (r: Result<Project>)
      requires Valid()
      modifies this
      ensures Valid() && users == old(users)
      ensures name == "" ==> r == Err(MissingField) && projects == old(projects) && nextId == old(nextId)
      ensures name != "" ==>
                && r == Ok(NewProject(old(nextId), name, description, caller, now))
                && old(nextId) !in old(projects)
                && projects == old(projects)[old(nextId) := r.value]
                && nextId == old(nextId) + 1
    {
      if name == "" {
        return Err(MissingField);
      }
      var project := NewProject(nextId, name, description, caller, now);
      IdsOkMono(project, nextId, nextId + 1);
      StoredMono(projects, nextId, nextId + 1);
      projects := projects[nextId := project];
      nextId := nextId + 1;
      r := Ok(project);
    }

    /** `getUserProjects`: every project the caller created or is a member of. */
    method GetUserProjects(caller: Id) returns (found: map<Id, Project>)
      requires Valid()
      ensures forall pid :: pid in found <==> pid in projects && Visible(projects[pid], caller)
      ensures forall pid :: pid in found ==> found[pid] == projects[pid]
    {
      found := map pid | pid in projects && Visible(projects[pid], caller) :: projects[pid];
    }

    /** `getProject`: 404 for an unknown id, 403 unless the caller is a member
        with a user document; the creator gets no other way in. */
    method GetProject(caller: Id, pid: Id) returns (r: Result<Project>)
      requires Valid()
      ensures pid !in projects ==> r == Err(ProjectNotFound)
      ensures pid in projects && !(caller in projects[pid].members && caller in users) ==> r == Err(NotMember)
      ensures pid in projects && caller in projects[pid].members && caller in users ==> r == Ok(projects[pid])
    {
      if pid !in projects {
        return Err(ProjectNotFound);
      }
      var project := projects[pid];
      if caller !in Populated(project.members, users) {
        return Err(NotMember);
      }
      r := Ok(project);
    }

    // ------------------------------------------------------------ groups, columns, tasks

    /** `createGroup`: the name is checked before the project is looked up, and
        membership is not checked at all. */
    method CreateGroup(caller: Id, pid: Id, name: string, now: Time) returns (r: Result<Group>)
      requires Valid()
      modifies this
      ensures Valid() && users == old(users)
      ensures name == "" ==> r == Err(MissingField)
      ensures name != "" && pid !in old(projects) ==> r == Err(ProjectNotFound)
      ensures name != "" && pid in old(projects) ==> r.Ok?
      ensures r.Err? ==> projects == old(projects) && nextId == old(nextId)
      ensures r.Ok? ==>
                && name != "" && pid in old(projects)
                && r.value == NewGroup(old(nextId), name, caller, now)
                && projects == old(projects)[pid := AddGroup(old(projects)[pid], r.value, now)]
                && nextId == old(nextId) + 1
    {
      if name == "" {
        return Err(MissingField);
      }
      if pid !in projects {
        return Err(ProjectNotFound);
      }
      var project := projects[pid];
      var group := NewGroup(nextId, name, caller, now);
      AddGroupKeeps(project, nextId, name, caller, now);
      project := project.(groups := project.groups + [group]);
      project := project.(updatedAt := now);
      SaveWithNewId(pid, project);
      r := Ok(group);
    }

    /** `createColumn`: 404 at the first missing ancestor; the column is pushed,
        both stamps are set, and a save of a nameless column fails (500). */
    method CreateColumn(pid: Id, gid: Id, name: string, now: Time) returns (r: Result<Column>)
      requires Valid()
      modifies this
      ensures Valid() && users == old(users)
      ensures pid !in old(projects) ==> r == Err(ProjectNotFound)
      ensures pid in old(projects) && IndexOf(old(projects)[pid].groups, GroupKey, gid).None? ==>
                r == Err(GroupNotFound)
      ensures pid in old(projects) && IndexOf(old(projects)[pid].groups, GroupKey, gid).Some? && name == "" ==>
                r == Err(SaveFailed)
      ensures pid in old(projects) && IndexOf(old(projects)[pid].groups, GroupKey, gid).Some? && name != "" ==>
                r.Ok?
      ensures r.Err? ==> projects == old(projects) && nextId == old(nextId)
      ensures r.Ok? ==> pid in old(projects) && name != "" && nextId == old(nextId) + 1
      ensures r.Ok? ==> r.value == NewColumn(old(nextId), name)
      ensures r.Ok? ==>
                && var gi := IndexOf(old(projects)[pid].groups, GroupKey, gid);
                && gi.Some?
                && projects == old(projects)[pid := AddColumn(old(projects)[pid], gi.value, r.value, now)]
    {
      if pid !in projects {
        return Err(ProjectNotFound);
      }
      var project := projects[pid];
      var gi := IndexOf(project.groups, GroupKey, gid);
      if gi.None? {
        return Err(GroupNotFound);
      }
      var column := NewColumn(nextId, name);
      AddColumnKeeps(project, gi.value, nextId, name, now);
      ghost var edited := AddColumn(project, gi.value, column, now);
      var group := project.groups[gi.value];
      group := group.(columns := group.columns + [column]);
      group := group.(updatedAt := now);
      project := project.(groups := project.groups[gi.value := group], updatedAt := now);
      assert project == edited;
      if !ProjectValid(project) {
        return Err(SaveFailed);
      }
      SaveWithNewId(pid, project);
      r := Ok(column);
    }

    /** `createTask`: 404 at the first missing ancestor; the task is pushed with
        `createdAt = now`, both stamps are set, and a save of an untitled task
        fails (500). */
    method CreateTask(pid: Id, gid: Id, cid: Id, title: string, description: Option<string>,
                      assignedTo: Option<Id>, now: Time) returns (r: Result<Task>)
      requires Valid()
      modifies this
      ensures Valid() && users == old(users)
      ensures pid !in old(projects) ==> r == Err(ProjectNotFound)
      ensures pid in old(projects) && IndexOf(old(projects)[pid].groups, GroupKey, gid).None? ==>
                r == Err(GroupNotFound)
      ensures pid in old(projects) && IndexOf(old(projects)[pid].groups, GroupKey, gid).Some? &&
              IndexOf(old(projects)[pid].groups[IndexOf(old(projects)[pid].groups, GroupKey, gid).value].columns,
                      ColumnKey, cid).None? ==>
                r == Err(ColumnNotFound)
      ensures pid in old(projects) && IndexOf(old(projects)[pid].groups, GroupKey, gid).Some? &&
              IndexOf(old(projects)[pid].groups[IndexOf(old(projects)[pid].groups, GroupKey, gid).value].columns,
                      ColumnKey, cid).Some? && title == "" ==>
                r == Err(SaveFailed)
      ensures pid in old(projects) && IndexOf(old(projects)[pid].groups, GroupKey, gid).Some? &&
              IndexOf(old(projects)[pid].groups[IndexOf(old(projects)[pid].groups, GroupKey, gid).value].columns,
                      ColumnKey, cid).Some? && title != "" ==>
                r.Ok?
      ensures r.Err? ==> projects == old(projects) && nextId == old(nextId)
      ensures r.Ok? ==> pid in old(projects) && title != "" && nextId == old(nextId) + 1
      ensures r.Ok? ==> r.value == NewTask(old(nextId), title, description, assignedTo, Some(now), now)
      ensures r.Ok? ==>
                && var gi := IndexOf(old(projects)[pid].groups, GroupKey, gid);
                && gi.Some?
                && var ci := IndexOf(old(projects)[pid].groups[gi.value].columns, ColumnKey, cid);
                && ci.Some?
                && projects == old(projects)[pid := AddTask(old(projects)[pid], gi.value, ci.value, r.value, now)]
    {
      if pid !in projects {
        return Err(ProjectNotFound);
      }
      var project := projects[pid];
      var gi := IndexOf(project.groups, GroupKey, gid);
      if gi.None? {
        return Err(GroupNotFound);
      }
      var group := project.groups[gi.value];
      var ci := IndexOf(group.columns, ColumnKey, cid);
      if ci.None? {
        return Err(ColumnNotFound);
      }
      var task := NewTask(nextId, title, description, assignedTo, Some(now), now);
      AddTaskKeeps(project, gi.value, ci.value, nextId, title, description, assignedTo, now);
      ghost var edited := AddTask(project, gi.value, ci.value, task, now);
      var column := group.columns[ci.value];
      column := column.(tasks := column.tasks + [task]);
      group := group.(columns := group.columns[ci.value := column], updatedAt := now);
      project := project.(groups := project.groups[gi.value := group], updatedAt := now);
      assert project == edited;
      if !ProjectValid(project) {
        return Err(SaveFailed);
      }
      SaveWithNewId(pid, project);
      r := Ok(task);
    }

    /** `deleteGroup`: only the project is looked up; every group with the id
        goes, and the answer is the requested id whether or not one existed. */
    method DeleteGroup(pid: Id, gid: Id, now: Time) returns (r: Result<Id>)
      requires Valid()
      modifies this
      ensures Valid() && users == old(users) && nextId == old(nextId)
      ensures pid !in old(projects) ==> r == Err(ProjectNotFound) && projects == old(projects)
      ensures pid in old(projects) ==>
                r == Ok(gid) && projects == old(projects)[pid := RemoveGroup(old(projects)[pid], gid, now)]
    {
      if pid !in projects {
        return Err(ProjectNotFound);
      }
      var project := projects[pid];
      RemoveGroupKeeps(project, gid, nextId, now);
      project := project.(groups := RemoveAll(project.groups, GroupKey, gid));
      project := project.(updatedAt := now);
      projects := projects[pid := project];
      r := Ok(gid);
    }

    /** `deleteColumn`: project and group are looked up; every column of the
        group with the id goes, and the answer is the requested id. */
    method DeleteColumn(pid: Id, gid: Id, cid: Id, now: Time) returns (r: Result<Id>)
      requires Valid()
      modifies this
      ensures Valid() && users == old(users) && nextId == old(nextId)
      ensures pid !in old(projects) ==> r == Err(ProjectNotFound)
      ensures pid in old(projects) && IndexOf(old(projects)[pid].groups, GroupKey, gid).None? ==>
                r == Err(GroupNotFound)
      ensures pid in old(projects) && IndexOf(old(projects)[pid].groups, GroupKey, gid).Some? ==> r == Ok(cid)
      ensures r.Err? ==> projects == old(projects)
      ensures r.Ok? ==>
                && r == Ok(cid) && pid in old(projects)
                && var gi := IndexOf(old(projects)[pid].groups, GroupKey, gid);
                && gi.Some?
                && projects == old(projects)[pid := RemoveColumn(old(projects)[pid], gi.value, cid, now)]
    {
      if pid !in projects {
        return Err(ProjectNotFound);
      }
      var project := projects[pid];
      var gi := IndexOf(project.groups, GroupKey, gid);
      if gi.None? {
        return Err(GroupNotFound);
      }
      RemoveColumnKeeps(project, gi.value, cid, nextId, now);
      var group := project.groups[gi.value];
      group := group.(columns := RemoveAll(group.columns, ColumnKey, cid));
      group := group.(updatedAt := now);
      project := project.(groups := project.groups[gi.value := group], updatedAt := now);
      projects := projects[pid := project];
      r := Ok(cid);
    }

    /** `deleteTask`: project, group and column are looked up; every task of the
        column with the id goes, and the answer is the requested id. */
    method DeleteTask(pid: Id, gid: Id, cid: Id, tid: Id, now: Time) returns (r: Result<Id>)
      requires Valid()
      modifies this
      ensures Valid() && users == old(users) && nextId == old(nextId)
      ensures pid !in old(projects) ==> r == Err(ProjectNotFound)
      ensures pid in old(projects) && IndexOf(old(projects)[pid].groups, GroupKey, gid).None? ==>
                r == Err(GroupNotFound)
      ensures pid in old(projects) && IndexOf(old(projects)[pid].groups, GroupKey, gid).Some? &&
              IndexOf(old(projects)[pid].groups[IndexOf(old(projects)[pid].groups, GroupKey, gid).value].columns,
                      ColumnKey, cid).None? ==>
                r == Err(ColumnNotFound)
      ensures pid in old(projects) && IndexOf(old(projects)[pid].groups, GroupKey, gid).Some? &&
              IndexOf(old(projects)[pid].groups[IndexOf(old(projects)[pid].groups, GroupKey, gid).value].columns,
                      ColumnKey, cid).Some? ==>
                r == Ok(tid)
      ensures r.Err? ==> projects == old(projects)
      ensures r.Ok? ==>
                && r == Ok(tid) && pid in old(projects)
                && var gi := IndexOf(old(projects)[pid].groups, GroupKey, gid);
                && gi.Some?
                && var ci := IndexOf(old(projects)[pid].groups[gi.value].columns, ColumnKey, cid);
                && ci.Some?
                && projects == old(projects)[pid := RemoveTask(old(projects)[pid], gi.value, ci.value, tid, now)]
    {
      if pid !in projects {
        return Err(ProjectNotFound);
      }
      var project := projects[pid];
      var gi := IndexOf(project.groups, GroupKey, gid);
      if gi.None? {
        return Err(GroupNotFound);
      }
      var group := project.groups[gi.value];
      var ci := IndexOf(group.columns, ColumnKey, cid);
      if ci.None? {
        return Err(ColumnNotFound);
      }
      RemoveTaskKeeps(project, gi.value, ci.value, tid, nextId, now);
      var column := group.columns[ci.value];
      column := column.(tasks := RemoveAll(column.tasks, TaskKey, tid));
      group := group.(columns := group.columns[ci.value := column], updatedAt := now);
      project := project.(groups := project.groups[gi.value := group], updatedAt := now);
      projects := projects[pid := project];
      r := Ok(tid);
    }
  }
}
