/** The project aggregate as the server changes it: new documents, the
    in-memory edits of a loaded project (a `push` or a `filter` at one level
    of the tree plus the `updatedAt` stamps), and what those edits keep. */
module ProjectTree {
  import opened Common
  import opened KeyedSeq
  import opened ProjectSchema

  /** The action label of the log entry a new group starts with ("group created"). */
  const GroupCreatedAction: string := "Utworzenie grupy"

  /** Sub-document ids below the id generator's next value and unique within
      their parent list, at every level of a column, a group, a project. */
  predicate ColumnIdsOk(c: Column, n: nat) {
    KeysBelow(c.tasks, TaskKey, n) && Distinct(c.tasks, TaskKey)
  }

  predicate GroupIdsOk(g: Group, n: nat) {
    && KeysBelow(g.columns, ColumnKey, n)
    && Distinct(g.columns, ColumnKey)
    && forall j :: 0 <= j < |g.columns| ==> ColumnIdsOk(g.columns[j], n)
  }

  predicate IdsOk(p: Project, n: nat) {
    && KeysBelow(p.groups, GroupKey, n)
    && Distinct(p.groups, GroupKey)
    && forall i :: 0 <= i < |p.groups| ==> GroupIdsOk(p.groups[i], n)
  }

  lemma IdsOkMono(p: Project, n: nat, m: nat)
    requires IdsOk(p, n) && n <= m
    ensures IdsOk(p, m)
  {
    KeysBelowMono(p.groups, GroupKey, n, m);
    forall i | 0 <= i < |p.groups| ensures GroupIdsOk(p.groups[i], m) {
      var g := p.groups[i];
      assert GroupIdsOk(g, n);
      KeysBelowMono(g.columns, ColumnKey, n, m);
      forall j | 0 <= j < |g.columns| ensures ColumnIdsOk(g.columns[j], m) {
        assert ColumnIdsOk(g.columns[j], n);
        KeysBelowMono(g.columns[j].tasks, TaskKey, n, m);
      }
    }
  }

  // ---------------------------------------------------------------- new documents

  /** The project `createProject` builds: the caller is creator and only member,
      there are no groups, and it is stamped with the day and the instant. */
  function NewProject(id: Id, name: string, description: Option<string>, caller: Id, now: Time): (p: Project)
    ensures p.id == id && p.name == name && p.description == description
    ensures p.members == [caller] && p.createdBy == caller && p.createdBy in p.members
    ensures p.groups == []
    ensures p.createdAt == StartOfDay(now) <= p.updatedAt == now
    ensures IdsOk(p, id) && (ProjectValid(p) <==> name != "")
  {
    Project(id, name, description, StartOfDay(now), now, [caller], caller, [])
  }

  /** The group `createGroup` builds: no columns, no settings, and one log
      entry saying that the caller created it now. */
  function NewGroup(id: Id, name: string, caller: Id, now: Time): (g: Group)
    ensures g.id == id && g.name == name && g.createdBy == caller
    ensures g.columns == [] && g.settings == []
    ensures g.logs == [LogEntry(GroupCreatedAction, caller, now)]
    ensures g.createdAt == StartOfDay(now) <= g.updatedAt == now
  {
    Group(id, name, caller, StartOfDay(now), now, [], [], [LogEntry(GroupCreatedAction, caller, now)])
  }

  // ---------------------------------------------------------------- edits of a loaded project

  /** `project.groups.push(g); project.updatedAt = now`. */
  function AddGroup(p: Project, g: Group, now: Time): (q: Project)
    ensures |q.groups| == |p.groups| + 1 && q.groups[|p.groups|] == g
    ensures forall i :: 0 <= i < |p.groups| ==> q.groups[i] == p.groups[i]
    ensures q == p.(groups := q.groups, updatedAt := now)
  {
    p.(groups := p.groups + [g], updatedAt := now)
  }

  /** `group.columns.push(c)` on the group at index `gi`, then both stamps. */
  function AddColumn(p: Project, gi: nat, c: Column, now: Time): (q: Project)
    requires gi < |p.groups|
    ensures |q.groups| == |p.groups|
    ensures forall i :: 0 <= i < |p.groups| && i != gi ==> q.groups[i] == p.groups[i]
    ensures q.groups[gi].columns == p.groups[gi].columns + [c]
    ensures q.groups[gi] == p.groups[gi].(columns := q.groups[gi].columns, updatedAt := now)
    ensures q == p.(groups := q.groups, updatedAt := now)
  {
    var g := p.groups[gi];
    p.(groups := p.groups[gi := g.(columns := g.columns + [c], updatedAt := now)], updatedAt := now)
  }

  /** `column.tasks.push(t)` on column `ci` of group `gi`, then the group's and
      the project's stamps. */
  function AddTask(p: Project, gi: nat, ci: nat, t: Task, now: Time): (q: Project)
    requires gi < |p.groups| && ci < |p.groups[gi].columns|
    ensures |q.groups| == |p.groups|
    ensures forall i :: 0 <= i < |p.groups| && i != gi ==> q.groups[i] == p.groups[i]
    ensures |q.groups[gi].columns| == |p.groups[gi].columns|
    ensures forall j :: 0 <= j < |p.groups[gi].columns| && j != ci ==>
              q.groups[gi].columns[j] == p.groups[gi].columns[j]
    ensures q.groups[gi].columns[ci].tasks == p.groups[gi].columns[ci].tasks + [t]
    ensures q.groups[gi].columns[ci] == p.groups[gi].columns[ci].(tasks := q.groups[gi].columns[ci].tasks)
    ensures q.groups[gi] == p.groups[gi].(columns := q.groups[gi].columns, updatedAt := now)
    ensures q == p.(groups := q.groups, updatedAt := now)
  {
    var g := p.groups[gi];
    var c := g.columns[ci];
    var g' := g.(columns := g.columns[ci := c.(tasks := c.tasks + [t])], updatedAt := now);
    p.(groups := p.groups[gi := g'], updatedAt := now)
  }

  /** `project.groups = project.groups.filter(g => g._id !== gid)`; only the
      project is stamped. */
  function RemoveGroup(p: Project, gid: Id, now: Time): (q: Project)
    ensures IndexOf(q.groups, GroupKey, gid).None?
    ensures q == p.(groups := RemoveAll(p.groups, GroupKey, gid), updatedAt := now)
  {
    RemoveAllLeavesNone(p.groups, GroupKey, gid);
    p.(groups := RemoveAll(p.groups, GroupKey, gid), updatedAt := now)
  }

  /** The columns of group `gi` filtered by id, then both stamps. */
  function RemoveColumn(p: Project, gi: nat, cid: Id, now: Time): (q: Project)
    requires gi < |p.groups|
    ensures |q.groups| == |p.groups|
    ensures forall i :: 0 <= i < |p.groups| && i != gi ==> q.groups[i] == p.groups[i]
    ensures IndexOf(q.groups[gi].columns, ColumnKey, cid).None?
    ensures q.groups[gi] == p.groups[gi].(columns := RemoveAll(p.groups[gi].columns, ColumnKey, cid), updatedAt := now)
    ensures q == p.(groups := q.groups, updatedAt := now)
  {
    var g := p.groups[gi];
    RemoveAllLeavesNone(g.columns, ColumnKey, cid);
    p.(groups := p.groups[gi := g.(columns := RemoveAll(g.columns, ColumnKey, cid), updatedAt := now)], updatedAt := now)
  }

  /** The tasks of column `ci` of group `gi` filtered by id, then the group's and
      the project's stamps. */
  function RemoveTask(p: Project, gi: nat, ci: nat, tid: Id, now: Time): (q: Project)
    requires gi < |p.groups| && ci < |p.groups[gi].columns|
    ensures |q.groups| == |p.groups|
    ensures forall i :: 0 <= i < |p.groups| && i != gi ==> q.groups[i] == p.groups[i]
    ensures |q.groups[gi].columns| == |p.groups[gi].columns|
    ensures forall j :: 0 <= j < |p.groups[gi].columns| && j != ci ==>
              q.groups[gi].columns[j] == p.groups[gi].columns[j]
    ensures IndexOf(q.groups[gi].columns[ci].tasks, TaskKey, tid).None?
    ensures q.groups[gi].columns[ci] ==
              p.groups[gi].columns[ci].(tasks := RemoveAll(p.groups[gi].columns[ci].tasks, TaskKey, tid))
    ensures q.groups[gi] == p.groups[gi].(columns := q.groups[gi].columns, updatedAt := now)
    ensures q == p.(groups := q.groups, updatedAt := now)
  {
    var g := p.groups[gi];
    var c := g.columns[ci];
    RemoveAllLeavesNone(c.tasks, TaskKey, tid);
    var g' := g.(columns := g.columns[ci := c.(tasks := RemoveAll(c.tasks, TaskKey, tid))], updatedAt := now);
    p.(groups := p.groups[gi := g'], updatedAt := now)
  }

  // ---------------------------------------------------------------- what the edits keep

  /** Adding a fresh group keeps ids fresh and unique and the document valid,
      and a lookup of the new id finds it in last place. */
  lemma AddGroupKeeps(p: Project, n: nat, name: string, caller: Id, now: Time)
    requires IdsOk(p, n)
    ensures IdsOk(AddGroup(p, NewGroup(n, name, caller, now), now), n + 1)
    ensures ProjectValid(p) ==> ProjectValid(AddGroup(p, NewGroup(n, name, caller, now), now))
    ensures IndexOf(AddGroup(p, NewGroup(n, name, caller, now), now).groups, GroupKey, n) == Some(|p.groups|)
  {
    var g := NewGroup(n, name, caller, now);
    var q := AddGroup(p, g, now);
    AppendFresh(p.groups, GroupKey, g, n);
    IdsOkMono(p, n, n + 1);
    forall i | 0 <= i < |q.groups| ensures GroupIdsOk(q.groups[i], n + 1) {
      if i < |p.groups| { assert q.groups[i] == p.groups[i]; }
    }
    if ProjectValid(p) {
      forall i | 0 <= i < |q.groups| ensures GroupValid(q.groups[i]) {
        if i < |p.groups| { assert q.groups[i] == p.groups[i]; }
      }
    }
  }

  /** Adding a fresh column keeps ids fresh and unique; the saved document is
      valid exactly when the new column has a name. */
  lemma AddColumnKeeps(p: Project, gi: nat, n: nat, name: string, now: Time)
    requires IdsOk(p, n) && gi < |p.groups|
    ensures IdsOk(AddColumn(p, gi, NewColumn(n, name), now), n + 1)
    ensures ProjectValid(p) ==> (ProjectValid(AddColumn(p, gi, NewColumn(n, name), now)) <==> name != "")
  {
    var c := NewColumn(n, name);
    var q := AddColumn(p, gi, c, now);
    IdsOkMono(p, n, n + 1);
    var g, g' := p.groups[gi], q.groups[gi];
    assert GroupIdsOk(g, n);
    AppendFresh(g.columns, ColumnKey, c, n);
    forall j | 0 <= j < |g'.columns| ensures ColumnIdsOk(g'.columns[j], n + 1) {
      if j < |g.columns| { assert g'.columns[j] == g.columns[j]; }
    }
    assert GroupIdsOk(g', n + 1);
    forall i | 0 <= i < |q.groups| ensures GroupIdsOk(q.groups[i], n + 1) {
      if i != gi { assert q.groups[i] == p.groups[i]; }
    }
    assert KeysBelow(q.groups, GroupKey, n + 1) && Distinct(q.groups, GroupKey) by {
      assert forall i :: 0 <= i < |q.groups| ==> GroupKey(q.groups[i]) == GroupKey(p.groups[i]);
    }
    if ProjectValid(p) {
      assert GroupValid(g);
      assert GroupValid(g') <==> name != "" by {
        assert g'.columns[|g.columns|] == c;
        forall j | 0 <= j < |g.columns| ensures g'.columns[j] == g.columns[j] { }
      }
      forall i | 0 <= i < |q.groups| && i != gi ensures GroupValid(q.groups[i]) {
        assert q.groups[i] == p.groups[i];
      }
    }
  }

  /** Adding a fresh task keeps ids fresh and unique; the saved document is
      valid exactly when the new task has a title. */
  lemma AddTaskKeeps(p: Project, gi: nat, ci: nat, n: nat, title: string, description: Option<string>,
                     assignedTo: Option<Id>, now: Time)
    requires IdsOk(p, n) && gi < |p.groups| && ci < |p.groups[gi].columns|
    ensures IdsOk(AddTask(p, gi, ci, NewTask(n, title, description, assignedTo, Some(now), now), now), n + 1)
    ensures ProjectValid(p) ==>
              (ProjectValid(AddTask(p, gi, ci, NewTask(n, title, description, assignedTo, Some(now), now), now))
               <==> title != "")
  {
    var t := NewTask(n, title, description, assignedTo, Some(now), now);
    var q := AddTask(p, gi, ci, t, now);
    IdsOkMono(p, n, n + 1);
    var g, g' := p.groups[gi], q.groups[gi];
    var c, c' := g.columns[ci], g'.columns[ci];
    assert GroupIdsOk(g, n + 1);
    assert ColumnIdsOk(c, n);
    AppendFresh(c.tasks, TaskKey, t, n);
    assert ColumnIdsOk(c', n + 1);
    forall j | 0 <= j < |g'.columns| ensures ColumnIdsOk(g'.columns[j], n + 1) {
      if j != ci { assert g'.columns[j] == g.columns[j]; }
    }
    assert KeysBelow(g'.columns, ColumnKey, n + 1) && Distinct(g'.columns, ColumnKey) by {
      assert forall j :: 0 <= j < |g'.columns| ==> ColumnKey(g'.columns[j]) == ColumnKey(g.columns[j]);
    }
    forall i | 0 <= i < |q.groups| ensures GroupIdsOk(q.groups[i], n + 1) {
      if i != gi { assert q.groups[i] == p.groups[i]; }
    }
    assert KeysBelow(q.groups, GroupKey, n + 1) && Distinct(q.groups, GroupKey) by {
      assert forall i :: 0 <= i < |q.groups| ==> GroupKey(q.groups[i]) == GroupKey(p.groups[i]);
    }
    if ProjectValid(p) {
      assert GroupValid(g) && ColumnValid(c);
      assert ColumnValid(c') <==> title != "" by {
        assert c'.tasks[|c.tasks|] == t;
        forall k | 0 <= k < |c.tasks| ensures c'.tasks[k] == c.tasks[k] { }
      }
      assert GroupValid(g') <==> title != "" by {
        forall j | 0 <= j < |g.columns| && j != ci ensures g'.columns[j] == g.columns[j] { }
      }
      forall i | 0 <= i < |q.groups| && i != gi ensures GroupValid(q.groups[i]) {
        assert q.groups[i] == p.groups[i];
      }
    }
  }

  /** The round trip of a column push: in the edited project the group's id
      still leads to the same group, and the new column's id leads to the new
      column, in last place. */
  lemma AddedColumnIsFound(p: Project, gi: nat, n: nat, name: string, now: Time)
    requires IdsOk(p, n) && gi < |p.groups|
    ensures var q := AddColumn(p, gi, NewColumn(n, name), now);
            && IndexOf(q.groups, GroupKey, p.groups[gi].id) == Some(gi)
            && IndexOf(q.groups[gi].columns, ColumnKey, n) == Some(|p.groups[gi].columns|)
            && q.groups[gi].columns[|p.groups[gi].columns|] == NewColumn(n, name)
  {
    var q := AddColumn(p, gi, NewColumn(n, name), now);
    assert GroupIdsOk(p.groups[gi], n);
    AppendFresh(p.groups[gi].columns, ColumnKey, NewColumn(n, name), n);
    assert q.groups == p.groups[gi := q.groups[gi]];
    IndexOfDistinct(p.groups, GroupKey, gi);
    IndexOfUpdate(p.groups, GroupKey, gi, q.groups[gi], p.groups[gi].id);
  }

  /** The round trip of a task push: the group's and the column's ids still
      lead to them, and the new task's id leads to the new task, in last place. */
  lemma AddedTaskIsFound(p: Project, gi: nat, ci: nat, n: nat, t: Task, now: Time)
    requires IdsOk(p, n) && gi < |p.groups| && ci < |p.groups[gi].columns| && t.id == n
    ensures var q := AddTask(p, gi, ci, t, now);
            && IndexOf(q.groups, GroupKey, p.groups[gi].id) == Some(gi)
            && IndexOf(q.groups[gi].columns, ColumnKey, p.groups[gi].columns[ci].id) == Some(ci)
            && IndexOf(q.groups[gi].columns[ci].tasks, TaskKey, n) == Some(|p.groups[gi].columns[ci].tasks|)
            && q.groups[gi].columns[ci].tasks[|p.groups[gi].columns[ci].tasks|] == t
  {
    var q := AddTask(p, gi, ci, t, now);
    var g, g' := p.groups[gi], q.groups[gi];
    assert GroupIdsOk(g, n);
    assert ColumnIdsOk(g.columns[ci], n);
    AppendFresh(g.columns[ci].tasks, TaskKey, t, n);
    assert g'.columns == g.columns[ci := g'.columns[ci]];
    IndexOfDistinct(g.columns, ColumnKey, ci);
    IndexOfUpdate(g.columns, ColumnKey, ci, g'.columns[ci], g.columns[ci].id);
    assert q.groups == p.groups[gi := g'];
    IndexOfDistinct(p.groups, GroupKey, gi);
    IndexOfUpdate(p.groups, GroupKey, gi, g', g.id);
  }

  /** Removing groups keeps ids fresh and unique and the document valid; when
      no group has the id, only the stamp changes. */
  lemma RemoveGroupKeeps(p: Project, gid: Id, n: nat, now: Time)
    requires IdsOk(p, n)
    ensures IdsOk(RemoveGroup(p, gid, now), n)
    ensures ProjectValid(p) ==> ProjectValid(RemoveGroup(p, gid, now))
    ensures IndexOf(p.groups, GroupKey, gid).None? ==> RemoveGroup(p, gid, now) == p.(updatedAt := now)
  {
    var q := RemoveGroup(p, gid, now);
    RemoveAllKeepsKeys(p.groups, GroupKey, gid, n);
    forall i | 0 <= i < |q.groups| ensures GroupIdsOk(q.groups[i], n) && (ProjectValid(p) ==> GroupValid(q.groups[i])) {
      assert q.groups[i] in p.groups;
    }
    if IndexOf(p.groups, GroupKey, gid).None? {
      RemoveAllAbsent(p.groups, GroupKey, gid);
    }
  }

  /** Removing columns keeps ids fresh and unique and the document valid; when
      no column of the group has the id, only the stamps change. */
  lemma RemoveColumnKeeps(p: Project, gi: nat, cid: Id, n: nat, now: Time)
    requires IdsOk(p, n) && gi < |p.groups|
    ensures IdsOk(RemoveColumn(p, gi, cid, now), n)
    ensures ProjectValid(p) ==> ProjectValid(RemoveColumn(p, gi, cid, now))
    ensures IndexOf(p.groups[gi].columns, ColumnKey, cid).None? ==>
              RemoveColumn(p, gi, cid, now) == p.(groups := p.groups[gi := p.groups[gi].(updatedAt := now)], updatedAt := now)
  {
    var q := RemoveColumn(p, gi, cid, now);
    var g, g' := p.groups[gi], q.groups[gi];
    assert GroupIdsOk(g, n);
    RemoveAllKeepsKeys(g.columns, ColumnKey, cid, n);
    forall j | 0 <= j < |g'.columns| ensures ColumnIdsOk(g'.columns[j], n) && (GroupValid(g) ==> ColumnValid(g'.columns[j])) {
      assert g'.columns[j] in g.columns;
    }
    forall i | 0 <= i < |q.groups| ensures GroupIdsOk(q.groups[i], n) && (ProjectValid(p) ==> GroupValid(q.groups[i])) {
      if i != gi { assert q.groups[i] == p.groups[i]; }
    }
    assert KeysBelow(q.groups, GroupKey, n) && Distinct(q.groups, GroupKey) by {
      assert forall i :: 0 <= i < |q.groups| ==> GroupKey(q.groups[i]) == GroupKey(p.groups[i]);
    }
    if IndexOf(g.columns, ColumnKey, cid).None? {
      RemoveAllAbsent(g.columns, ColumnKey, cid);
    }
  }

  /** Removing tasks keeps ids fresh and unique and the document valid; when
      no task of the column has the id, only the stamps change. */
  lemma RemoveTaskKeeps(p: Project, gi: nat, ci: nat, tid: Id, n: nat, now: Time)
    requires IdsOk(p, n) && gi < |p.groups| && ci < |p.groups[gi].columns|
    ensures IdsOk(RemoveTask(p, gi, ci, tid, now), n)
    ensures ProjectValid(p) ==> ProjectValid(RemoveTask(p, gi, ci, tid, now))
    ensures IndexOf(p.groups[gi].columns[ci].tasks, TaskKey, tid).None? ==>
              RemoveTask(p, gi, ci, tid, now) == p.(groups := p.groups[gi := p.groups[gi].(updatedAt := now)], updatedAt := now)
  {
    var q := RemoveTask(p, gi, ci, tid, now);
    var g, g' := p.groups[gi], q.groups[gi];
    var c, c' := g.columns[ci], g'.columns[ci];
    assert GroupIdsOk(g, n);
    assert ColumnIdsOk(c, n);
    RemoveAllKeepsKeys(c.tasks, TaskKey, tid, n);
    assert ColumnValid(c) ==> ColumnValid(c') by {
      forall k | 0 <= k < |c'.tasks| ensures c'.tasks[k] in c.tasks { }
    }
    forall j | 0 <= j < |g'.columns| ensures ColumnIdsOk(g'.columns[j], n) && (GroupValid(g) ==> ColumnValid(g'.columns[j])) {
      if j != ci { assert g'.columns[j] == g.columns[j]; }
    }
    assert KeysBelow(g'.columns, ColumnKey, n) && Distinct(g'.columns, ColumnKey) by {
      assert forall j :: 0 <= j < |g'.columns| ==> ColumnKey(g'.columns[j]) == ColumnKey(g.columns[j]);
    }
    forall i | 0 <= i < |q.groups| ensures GroupIdsOk(q.groups[i], n) && (ProjectValid(p) ==> GroupValid(q.groups[i])) {
      if i != gi { assert q.groups[i] == p.groups[i]; }
    }
    assert KeysBelow(q.groups, GroupKey, n) && Distinct(q.groups, GroupKey) by {
      assert forall i :: 0 <= i < |q.groups| ==> GroupKey(q.groups[i]) == GroupKey(p.groups[i]);
    }
    if IndexOf(c.tasks, TaskKey, tid).None? {
      RemoveAllAbsent(c.tasks, TaskKey, tid);
      assert c' == c;
      assert g'.columns == g.columns;
    }
  }
}
