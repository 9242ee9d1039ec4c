/** The project page (`ProjectDetails`): its local copy of the project and the
    group and column selections, and the handlers that patch that copy after
    the server has answered, instead of fetching the project again. */
module ProjectDetails {
  import opened Common
  import opened KeyedSeq
  import opened ProjectSchema
  import opened ProjectTree

  /** A populated user reference: id and login (the display names are left out). */
  datatype UserShort = UserShort(id: Id, login: string)

  function UserKey(u: UserShort): Id { u.id }

  /** The project as `getProject` sends it, with `createdBy` and `members`
      populated; absent `members` are the empty list. */
  datatype ClientProject = ClientProject(
    id: Id,
    name: string,
    description: Option<string>,
    createdBy: UserShort,
    members: seq<UserShort>,
    groups: seq<Group>)

  /** The page state the handlers read and replace: the loaded project
      (`null` until it arrives) and the selected group and column (`""` and
      `null`, no selection, are `None`). */
  datatype Page = Page(project: Option<ClientProject>, selectedGroup: Option<Id>, selectedColumn: Option<Id>)

  /** The groups on display; none while no project is loaded. */
  function Groups(page: Page): seq<Group> {
    if page.project.Some? then page.project.value.groups else []
  }

  /** `r` is `page` with at most the project's groups replaced: with no
      project loaded, nothing at all changes. */
  predicate OnlyGroupsChange(page: Page, r: Page) {
    && (page.project.None? ==> r == page)
    && (page.project.Some? ==> r.project.Some? && r == page.(project := Some(page.project.value.(groups := Groups(r)))))
  }

  /** The element whose id is the selection. An id is never `""` or `null`, so
      with no selection nothing matches. */
  predicate IsSelected(sel: Option<Id>, id: Id) {
    sel == Some(id)
  }

  /** `s.map(x => x._id === sel ? f(x) : x)`, with the selection possibly empty. */
  function MapSelected<T>(s: seq<T>, key: T -> Id, sel: Option<Id>, f: T -> T): (r: seq<T>)
    ensures |r| == |s|
    ensures forall i :: 0 <= i < |s| && !IsSelected(sel, key(s[i])) ==> r[i] == s[i]
    ensures forall i :: 0 <= i < |s| && IsSelected(sel, key(s[i])) ==> r[i] == f(s[i])
  {
    if sel.None? then s else MapWhere(s, key, sel.value, f)
  }

  // ---------------------------------------------------------------- after a create

  /** `handleColumnAdded`: the new column, with no tasks, is appended to the
      selected group only. */
  function HandleColumnAdded(page: Page, id: Id, name: string): (r: Page)
    ensures OnlyGroupsChange(page, r)
    ensures |Groups(r)| == |Groups(page)|
    ensures forall i :: 0 <= i < |Groups(page)| && !IsSelected(page.selectedGroup, Groups(page)[i].id) ==>
              Groups(r)[i] == Groups(page)[i]
    ensures forall i :: 0 <= i < |Groups(page)| && IsSelected(page.selectedGroup, Groups(page)[i].id) ==>
              && Groups(r)[i].columns == Groups(page)[i].columns + [NewColumn(id, name)]
              && Groups(r)[i] == Groups(page)[i].(columns := Groups(r)[i].columns)
  {
    match page.project
    case None => page
    case Some(p) =>
      var groups := MapSelected(p.groups, GroupKey, page.selectedGroup,
                                (g: Group) => g.(columns := g.columns + [NewColumn(id, name)]));
      page.(project := Some(p.(groups := groups)))
  }

  /** The task `handleTaskAdded` builds from the server's answer: it carries no
      assignee, and a missing `createdAt` becomes the client's clock. */
  function ClientTask(id: Id, title: string, description: Option<string>, createdAt: Option<Time>, now: Time): (t: Task)
    ensures t == NewTask(id, title, description, None, createdAt, now)
  {
    Task(id, title, description, None, createdAt.GetOr(now))
  }

  /** `handleTaskAdded`: the task is appended to the selected column of the
      selected group only. */
  function HandleTaskAdded(page: Page, id: Id, title: string, description: Option<string>,
                           createdAt: Option<Time>, now: Time): (r: Page)
    ensures OnlyGroupsChange(page, r)
    ensures |Groups(r)| == |Groups(page)|
    ensures forall i :: 0 <= i < |Groups(page)| && !IsSelected(page.selectedGroup, Groups(page)[i].id) ==>
              Groups(r)[i] == Groups(page)[i]
    ensures forall i :: 0 <= i < |Groups(page)| && IsSelected(page.selectedGroup, Groups(page)[i].id) ==>
              var g, g' := Groups(page)[i], Groups(r)[i];
              && g' == g.(columns := g'.columns)
              && |g'.columns| == |g.columns|
              && (forall j :: 0 <= j < |g.columns| && !IsSelected(page.selectedColumn, g.columns[j].id) ==>
                    g'.columns[j] == g.columns[j])
              && (forall j :: 0 <= j < |g.columns| && IsSelected(page.selectedColumn, g.columns[j].id) ==>
                    g'.columns[j] == g.columns[j].(tasks := g.columns[j].tasks + [ClientTask(id, title, description, createdAt, now)]))
  {
    match page.project
    case None => page
    case Some(p) =>
      var t := ClientTask(id, title, description, createdAt, now);
      var groups := MapSelected(p.groups, GroupKey, page.selectedGroup,
                                (g: Group) => g.(columns := MapSelected(g.columns, ColumnKey, page.selectedColumn,
                                                               (c: Column) => c.(tasks := c.tasks + [t]))));
      page.(project := Some(p.(groups := groups)))
  }

  // ---------------------------------------------------------------- after a delete

  /** `onDeleteGroup`: only after an ok answer, every group with the id goes,
      and a selection of that group is cleared. */
  function OnDeleteGroup(page: Page, gid: Id, ok: bool): (r: Page)
    ensures !ok || page.project.None? ==> r == page
    ensures ok && page.project.Some? ==>
              && r.project == Some(page.project.value.(groups := RemoveAll(Groups(page), GroupKey, gid)))
              && r.selectedColumn == page.selectedColumn
              && (page.selectedGroup == Some(gid) ==> r.selectedGroup.None?)
              && (page.selectedGroup != Some(gid) ==> r.selectedGroup == page.selectedGroup)
    ensures IndexOf(Groups(r), GroupKey, gid).None? || !ok || page.project.None?
  {
    if ok && page.project.Some? then
      var p := page.project.value;
      RemoveAllLeavesNone(p.groups, GroupKey, gid);
      var sel := if page.selectedGroup == Some(gid) then None else page.selectedGroup;
      page.(project := Some(p.(groups := RemoveAll(p.groups, GroupKey, gid))), selectedGroup := sel)
    else page
  }

  /** `onDeleteColumn`: only after an ok answer, every column with the id goes
      from the selected group; other groups are untouched. */
  function OnDeleteColumn(page: Page, cid: Id, ok: bool): (r: Page)
    ensures !ok ==> r == page
    ensures OnlyGroupsChange(page, r)
    ensures |Groups(r)| == |Groups(page)|
    ensures forall i :: 0 <= i < |Groups(page)| && !(ok && IsSelected(page.selectedGroup, Groups(page)[i].id)) ==>
              Groups(r)[i] == Groups(page)[i]
    ensures forall i :: 0 <= i < |Groups(page)| && ok && IsSelected(page.selectedGroup, Groups(page)[i].id) ==>
              Groups(r)[i] == Groups(page)[i].(columns := RemoveAll(Groups(page)[i].columns, ColumnKey, cid))
  {
    match page.project
    case None => page
    case Some(p) =>
      if !ok then page
      else
        var groups := MapSelected(p.groups, GroupKey, page.selectedGroup,
                                  (g: Group) => g.(columns := RemoveAll(g.columns, ColumnKey, cid)));
        page.(project := Some(p.(groups := groups)))
  }

  /** `onDeleteTask`: only after an ok answer, every task with the id goes from
      the given column of the selected group; nothing else is touched. */
  function OnDeleteTask(page: Page, cid: Id, tid: Id, ok: bool): (r: Page)
    ensures !ok ==> r == page
    ensures OnlyGroupsChange(page, r)
    ensures |Groups(r)| == |Groups(page)|
    ensures forall i :: 0 <= i < |Groups(page)| && !(ok && IsSelected(page.selectedGroup, Groups(page)[i].id)) ==>
              Groups(r)[i] == Groups(page)[i]
    ensures forall i :: 0 <= i < |Groups(page)| && ok && IsSelected(page.selectedGroup, Groups(page)[i].id) ==>
              var g, g' := Groups(page)[i], Groups(r)[i];
              && g' == g.(columns := g'.columns)
              && |g'.columns| == |g.columns|
              && (forall j :: 0 <= j < |g.columns| && g.columns[j].id != cid ==> g'.columns[j] == g.columns[j])
              && (forall j :: 0 <= j < |g.columns| && g.columns[j].id == cid ==>
                    g'.columns[j] == g.columns[j].(tasks := RemoveAll(g.columns[j].tasks, TaskKey, tid)))
  {
    match page.project
    case None => page
    case Some(p) =>
      if !ok then page
      else
        var groups := MapSelected(p.groups, GroupKey, page.selectedGroup,
                                  (g: Group) => g.(columns := MapWhere(g.columns, ColumnKey, cid,
                                                              (c: Column) => c.(tasks := RemoveAll(c.tasks, TaskKey, tid)))));
        page.(project := Some(p.(groups := groups)))
  }

  // ---------------------------------------------------------------- after an edit

  /** `onGroupUpdated`: every group with the edited group's id is replaced by it. */
  function OnGroupUpdated(page: Page, updated: Group): (r: Page)
    ensures OnlyGroupsChange(page, r)
    ensures Groups(r) == Replace(Groups(page), GroupKey, updated)
  {
    match page.project
    case None => page
    case Some(p) => page.(project := Some(p.(groups := Replace(p.groups, GroupKey, updated))))
  }

  /** `onColumnUpdated`: inside the selected group, every column with the
      edited column's id is replaced by it. */
  function OnColumnUpdated(page: Page, updated: Column): (r: Page)
    ensures OnlyGroupsChange(page, r)
    ensures |Groups(r)| == |Groups(page)|
    ensures forall i :: 0 <= i < |Groups(page)| && !IsSelected(page.selectedGroup, Groups(page)[i].id) ==>
              Groups(r)[i] == Groups(page)[i]
    ensures forall i :: 0 <= i < |Groups(page)| && IsSelected(page.selectedGroup, Groups(page)[i].id) ==>
              Groups(r)[i] == Groups(page)[i].(columns := Replace(Groups(page)[i].columns, ColumnKey, updated))
  {
    match page.project
    case None => page
    case Some(p) =>
      var groups := MapSelected(p.groups, GroupKey, page.selectedGroup,
                                (g: Group) => g.(columns := Replace(g.columns, ColumnKey, updated)));
      page.(project := Some(p.(groups := groups)))
  }

  /** `onTaskUpdated`: inside the selected column of the selected group, every
      task with the edited task's id is replaced by it. */
  function OnTaskUpdated(page: Page, updated: Task): (r: Page)
    ensures OnlyGroupsChange(page, r)
    ensures |Groups(r)| == |Groups(page)|
    ensures forall i :: 0 <= i < |Groups(page)| && !IsSelected(page.selectedGroup, Groups(page)[i].id) ==>
              Groups(r)[i] == Groups(page)[i]
    ensures forall i :: 0 <= i < |Groups(page)| && IsSelected(page.selectedGroup, Groups(page)[i].id) ==>
              var g, g' := Groups(page)[i], Groups(r)[i];
              && g' == g.(columns := g'.columns)
              && |g'.columns| == |g.columns|
              && (forall j :: 0 <= j < |g.columns| && !IsSelected(page.selectedColumn, g.columns[j].id) ==>
                    g'.columns[j] == g.columns[j])
              && (forall j :: 0 <= j < |g.columns| && IsSelected(page.selectedColumn, g.columns[j].id) ==>
                    g'.columns[j] == g.columns[j].(tasks := Replace(g.columns[j].tasks, TaskKey, updated)))
  {
    match page.project
    case None => page
    case Some(p) =>
      var groups := MapSelected(p.groups, GroupKey, page.selectedGroup,
                                (g: Group) => g.(columns := MapSelected(g.columns, ColumnKey, page.selectedColumn,
                                                               (c: Column) => c.(tasks := Replace(c.tasks, TaskKey, updated)))));
      page.(project := Some(p.(groups := groups)))
  }

  // ---------------------------------------------------------------- the copy follows the server

  /** The server's project with the stamp of group `gi` put back: the page
      never updates the group's `updatedAt`, so this is what its copy can match. */
  function ServerGroups(q: Project, gi: nat, stamp: Time): seq<Group>
    requires gi < |q.groups|
  {
    q.groups[gi := q.groups[gi].(updatedAt := stamp)]
  }

  /** With group ids unique, appending the column the server answered with
      gives the server's groups, up to the group's `updatedAt`. */
  lemma ColumnAddedMirrorsServer(page: Page, sp: Project, gi: nat, n: Id, name: string, now: Time)
    requires page.project.Some? && Groups(page) == sp.groups && Distinct(sp.groups, GroupKey)
    requires gi < |sp.groups| && page.selectedGroup == Some(sp.groups[gi].id)
    ensures Groups(HandleColumnAdded(page, n, name)) ==
              ServerGroups(AddColumn(sp, gi, NewColumn(n, name), now), gi, sp.groups[gi].updatedAt)
  {
    var r := Groups(HandleColumnAdded(page, n, name));
    var q := ServerGroups(AddColumn(sp, gi, NewColumn(n, name), now), gi, sp.groups[gi].updatedAt);
    forall i | 0 <= i < |r| ensures r[i] == q[i] {
      if i != gi {
        if i < gi { assert GroupKey(sp.groups[i]) != GroupKey(sp.groups[gi]); }
        else { assert GroupKey(sp.groups[gi]) != GroupKey(sp.groups[i]); }
      }
    }
  }

  /** With group ids and the group's column ids unique, appending an unassigned
      task as the server answered it gives the server's groups, up to the
      group's `updatedAt`. */
  lemma TaskAddedMirrorsServer(page: Page, sp: Project, gi: nat, ci: nat, n: Id, title: string,
                               description: Option<string>, now: Time, clientNow: Time)
    requires page.project.Some? && Groups(page) == sp.groups && Distinct(sp.groups, GroupKey)
    requires gi < |sp.groups| && page.selectedGroup == Some(sp.groups[gi].id)
    requires ci < |sp.groups[gi].columns| && Distinct(sp.groups[gi].columns, ColumnKey)
    requires page.selectedColumn == Some(sp.groups[gi].columns[ci].id)
    ensures Groups(HandleTaskAdded(page, n, title, description, Some(now), clientNow)) ==
              ServerGroups(AddTask(sp, gi, ci, NewTask(n, title, description, None, Some(now), now), now),
                           gi, sp.groups[gi].updatedAt)
  {
    var r := Groups(HandleTaskAdded(page, n, title, description, Some(now), clientNow));
    var q := ServerGroups(AddTask(sp, gi, ci, NewTask(n, title, description, None, Some(now), now), now),
                          gi, sp.groups[gi].updatedAt);
    var g := sp.groups[gi];
    forall i | 0 <= i < |r| ensures r[i] == q[i] {
      if i != gi {
        if i < gi { assert GroupKey(sp.groups[i]) != GroupKey(g); }
        else { assert GroupKey(g) != GroupKey(sp.groups[i]); }
      } else {
        forall j | 0 <= j < |g.columns| ensures r[i].columns[j] == q[i].columns[j] {
          if j != ci {
            if j < ci { assert ColumnKey(g.columns[j]) != ColumnKey(g.columns[ci]); }
            else { assert ColumnKey(g.columns[ci]) != ColumnKey(g.columns[j]); }
          }
        }
      }
    }
  }

  /** Filtering the deleted group out gives exactly the server's groups. */
  lemma GroupDeletedMirrorsServer(page: Page, sp: Project, gid: Id, now: Time)
    requires page.project.Some? && Groups(page) == sp.groups
    ensures Groups(OnDeleteGroup(page, gid, true)) == RemoveGroup(sp, gid, now).groups
  {
  }

  /** With group ids unique, filtering the deleted column out of the selected
      group gives the server's groups, up to the group's `updatedAt`. */
  lemma ColumnDeletedMirrorsServer(page: Page, sp: Project, gi: nat, cid: Id, now: Time)
    requires page.project.Some? && Groups(page) == sp.groups && Distinct(sp.groups, GroupKey)
    requires gi < |sp.groups| && page.selectedGroup == Some(sp.groups[gi].id)
    ensures Groups(OnDeleteColumn(page, cid, true)) ==
              ServerGroups(RemoveColumn(sp, gi, cid, now), gi, sp.groups[gi].updatedAt)
  {
    var r := Groups(OnDeleteColumn(page, cid, true));
    var q := ServerGroups(RemoveColumn(sp, gi, cid, now), gi, sp.groups[gi].updatedAt);
    forall i | 0 <= i < |r| ensures r[i] == q[i] {
      if i != gi {
        if i < gi { assert GroupKey(sp.groups[i]) != GroupKey(sp.groups[gi]); }
        else { assert GroupKey(sp.groups[gi]) != GroupKey(sp.groups[i]); }
      }
    }
  }

  /** With group ids and the group's column ids unique, filtering the deleted
      task out of the given column gives the server's groups, up to the
      group's `updatedAt`. */
  lemma TaskDeletedMirrorsServer(page: Page, sp: Project, gi: nat, ci: nat, tid: Id, now: Time)
    requires page.project.Some? && Groups(page) == sp.groups && Distinct(sp.groups, GroupKey)
    requires gi < |sp.groups| && page.selectedGroup == Some(sp.groups[gi].id)
    requires ci < |sp.groups[gi].columns| && Distinct(sp.groups[gi].columns, ColumnKey)
    ensures Groups(OnDeleteTask(page, sp.groups[gi].columns[ci].id, tid, true)) ==
              ServerGroups(RemoveTask(sp, gi, ci, tid, now), gi, sp.groups[gi].updatedAt)
  {
    var g := sp.groups[gi];
    var r := Groups(OnDeleteTask(page, g.columns[ci].id, tid, true));
    var q := ServerGroups(RemoveTask(sp, gi, ci, tid, now), gi, g.updatedAt);
    forall i | 0 <= i < |r| ensures r[i] == q[i] {
      if i != gi {
        if i < gi { assert GroupKey(sp.groups[i]) != GroupKey(g); }
        else { assert GroupKey(g) != GroupKey(sp.groups[i]); }
      } else {
        forall j | 0 <= j < |g.columns| ensures r[i].columns[j] == q[i].columns[j] {
          if j != ci {
            if j < ci { assert ColumnKey(g.columns[j]) != ColumnKey(g.columns[ci]); }
            else { assert ColumnKey(g.columns[ci]) != ColumnKey(g.columns[j]); }
          }
        }
      }
    }
  }

  /** With group ids unique, an edited group takes the place of the one it
      edits, and no other group moves or changes. */
  lemma GroupUpdatedInPlace(page: Page, i: nat, updated: Group)
    requires page.project.Some? && Distinct(Groups(page), GroupKey)
    requires i < |Groups(page)| && Groups(page)[i].id == updated.id
    ensures Groups(OnGroupUpdated(page, updated)) == Groups(page)[i := updated]
  {
    ReplaceIsUpdate(Groups(page), GroupKey, i, updated);
  }

  /** An edit whose id the page does not hold leaves the page as it was. */
  lemma UnknownGroupUpdateIsNoOp(page: Page, updated: Group)
    requires IndexOf(Groups(page), GroupKey, updated.id).None?
    ensures OnGroupUpdated(page, updated) == page
  {
    var s := Groups(page);
    assert Replace(s, GroupKey, updated) == s;
  }

  /** With group and column ids unique, an edited column takes the place of
      the one it edits, inside the selected group only. */
  lemma ColumnUpdatedInPlace(page: Page, gi: nat, j: nat, updated: Column)
    requires page.project.Some? && Distinct(Groups(page), GroupKey)
    requires gi < |Groups(page)| && page.selectedGroup == Some(Groups(page)[gi].id)
    requires Distinct(Groups(page)[gi].columns, ColumnKey)
    requires j < |Groups(page)[gi].columns| && Groups(page)[gi].columns[j].id == updated.id
    ensures Groups(OnColumnUpdated(page, updated)) ==
              Groups(page)[gi := Groups(page)[gi].(columns := Groups(page)[gi].columns[j := updated])]
  {
    var s := Groups(page);
    var r := Groups(OnColumnUpdated(page, updated));
    ReplaceIsUpdate(s[gi].columns, ColumnKey, j, updated);
    forall i | 0 <= i < |r| ensures r[i] == s[gi := s[gi].(columns := s[gi].columns[j := updated])][i] {
      if i != gi {
        if i < gi { assert GroupKey(s[i]) != GroupKey(s[gi]); }
        else { assert GroupKey(s[gi]) != GroupKey(s[i]); }
      }
    }
  }

  // ---------------------------------------------------------------- display of a user id

  /** What `findLogin` shows for a user id: a login, or the id itself. */
  datatype Shown = ShownLogin(login: string) | ShownId(id: Id)

  /** `findLogin`: the first member with the id gives the login; failing that,
      the creator's login if the id is the creator's; failing that, the id. */
  function FindLogin(project: Option<ClientProject>, userId: Id): (r: Shown)
    ensures project.None? ==> r == ShownId(userId)
    ensures project.Some? && IndexOf(project.value.members, UserKey, userId).Some? ==>
              r == ShownLogin(project.value.members[IndexOf(project.value.members, UserKey, userId).value].login)
    ensures project.Some? && IndexOf(project.value.members, UserKey, userId).None? ==>
              r == if project.value.createdBy.id == userId then ShownLogin(project.value.createdBy.login) else ShownId(userId)
  {
    match project
    case None => ShownId(userId)
    case Some(p) =>
      match IndexOf(p.members, UserKey, userId)
      case Some(k) => ShownLogin(p.members[k].login)
      case None => if p.createdBy.id == userId then ShownLogin(p.createdBy.login) else ShownId(userId)
  }

  /** A login is shown exactly when the project knows a user with that id,
      as a member or as the creator, and it is then that user's login; an id
      is shown only as itself. */
  lemma FindLoginShowsKnownUser(project: Option<ClientProject>, userId: Id)
    ensures FindLogin(project, userId).ShownLogin? <==>
              project.Some? && (project.value.createdBy.id == userId ||
                                exists k :: 0 <= k < |project.value.members| && project.value.members[k].id == userId)
    ensures FindLogin(project, userId).ShownLogin? ==>
              (project.value.createdBy == UserShort(userId, FindLogin(project, userId).login) ||
               UserShort(userId, FindLogin(project, userId).login) in project.value.members)
    ensures FindLogin(project, userId).ShownId? ==> FindLogin(project, userId).id == userId
  {
    if project.Some? {
      var p := project.value;
      match IndexOf(p.members, UserKey, userId)
      case Some(k) =>
        assert p.members[k] == UserShort(userId, p.members[k].login);
      case None =>
    }
  }
}
