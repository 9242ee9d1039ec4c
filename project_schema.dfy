/** The stored documents: users, and projects with their embedded groups,
    columns and tasks, with the field rules their schemas impose on save. */
module ProjectSchema {
  import opened Common

  /** A user document. `password` holds the bcrypt hash, never the password. */
  datatype User = User(
    id: Id,
    login: string,
    password: string,
    sex: string,
    firstName: Option<string>,
    lastName: Option<string>,
    email: Option<string>,
    bio: Option<string>)

  /** A user as `getProfile` shows it: every field but the password hash. */
  datatype Profile = Profile(
    id: Id,
    login: string,
    sex: string,
    firstName: Option<string>,
    lastName: Option<string>,
    email: Option<string>,
    bio: Option<string>)

  datatype Task = Task(
    id: Id,
    title: string,
    description: Option<string>,
    assignedTo: Option<Id>,
    createdAt: Time)

  datatype Column = Column(id: Id, name: string, tasks: seq<Task>)

  /** One entry of a group's action log (`actor` is the `by` field). */
  datatype LogEntry = LogEntry(action: string, actor: Id, date: Time)

  /** A group: the layer between a project and its columns. `settings` is
      opaque to the server. */
  datatype Group = Group(
    id: Id,
    name: string,
    createdBy: Id,
    createdAt: Time,
    updatedAt: Time,
    columns: seq<Column>,
    settings: seq<string>,
    logs: seq<LogEntry>)

  datatype Project = Project(
    id: Id,
    name: string,
    description: Option<string>,
    createdAt: Time,
    updatedAt: Time,
    members: seq<Id>,
    createdBy: Id,
    groups: seq<Group>)

  function TaskKey(t: Task): Id { t.id }
  function ColumnKey(c: Column): Id { c.id }
  function GroupKey(g: Group): Id { g.id }

  /** `TaskSchema`: the title is required. */
  predicate TaskValid(t: Task) {
    t.title != ""
  }

  /** `ColumnSchema`: the name is required and every task must be valid. */
  predicate ColumnValid(c: Column) {
    c.name != "" && forall k :: 0 <= k < |c.tasks| ==> TaskValid(c.tasks[k])
  }

  /** A group has no schema of its own; the columns it holds follow `ColumnSchema`. */
  predicate GroupValid(g: Group) {
    forall j :: 0 <= j < |g.columns| ==> ColumnValid(g.columns[j])
  }

  /** `ProjectSchema`: the name is required, and every embedded column and task
      must pass its own schema, since saving validates the whole document. */
  predicate ProjectValid(p: Project) {
    p.name != "" && forall i :: 0 <= i < |p.groups| ==> GroupValid(p.groups[i])
  }

  /** A task as `TaskSchema` builds it: `createdAt` defaults to the instant of
      creation when the caller gives none. */
  function NewTask(id: Id, title: string, description: Option<string>, assignedTo: Option<Id>,
                   createdAt: Option<Time>, now: Time): (t: Task)
    ensures t.id == id && t.title == title && t.description == description
    ensures t.assignedTo == assignedTo
    ensures createdAt.None? ==> t.createdAt == now
    ensures createdAt.Some? ==> t.createdAt == createdAt.value
    ensures TaskValid(t) <==> title != ""
  {
    Task(id, title, description, assignedTo, createdAt.GetOr(now))
  }

  /** A new column as `ColumnSchema` holds it: a name and an empty, ordered task list. */
  function NewColumn(id: Id, name: string): (c: Column)
    ensures c.id == id && c.name == name && c.tasks == []
    ensures ColumnValid(c) <==> name != ""
  {
    Column(id, name, [])
  }

  /** The profile view drops the password hash and keeps the rest. */
  function ProfileOf(u: User): (v: Profile)
    ensures v.id == u.id && v.login == u.login && v.sex == u.sex
    ensures v.firstName == u.firstName && v.lastName == u.lastName
    ensures v.email == u.email && v.bio == u.bio
  {
    Profile(u.id, u.login, u.sex, u.firstName, u.lastName, u.email, u.bio)
  }
}
