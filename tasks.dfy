/**
 * The task service: create, read, update and delete over one task table,
 * scoped by organization. Every operation first checks the caller's
 * membership role; reads need VIEWER, create and update MEMBER, delete
 * ADMIN. The outcome of each operation is given by a pure function of the
 * membership table, the task rows and the request; the service methods
 * perform the same steps on the stored table and are tied to those
 * functions.
 */
module Tasks {
  import opened Wrappers
  import opened Roles
  import opened Entities
  import opened Users
  import opened Audit

  /** The body of a create request; absent optional fields are `None`. */
  datatype CreateTaskDto = CreateTaskDto(
    title: string,
    description: Option<string>,
    dueDate: Option<string>,
    assignedToUserId: Option<Id>)

  /** A nullable field of a partial update: absent, explicitly null, or a value. */
  datatype Patch<+T> = Keep | Clear | Set(value: T)

  /** The body of an update request; `None` (or `Keep`) leaves the field as it is. */
  datatype UpdateTaskDto = UpdateTaskDto(
    title: Option<string>,
    description: Option<string>,
    status: Option<TaskStatus>,
    dueDate: Option<string>,
    assignedToUserId: Patch<Id>)

  /** The platform's date parser: `None` stands for an invalid date. */
  type DateParser = string -> Option<Date>

  /** An absent or empty due date means "no due date"; any other text must parse. */
  function ParseDueDate(parse: DateParser, dueDate: Option<string>): (r: Result<Option<Date>>)
    ensures r.Err? <==> NonEmpty(dueDate) && parse(dueDate.value).None?
    ensures r.Err? ==> r.error == BadRequest
    ensures r == Ok(None) <==> !NonEmpty(dueDate)
    ensures r.Ok? && r.value.Some? ==> NonEmpty(dueDate) && parse(dueDate.value) == r.value
  {
    if !NonEmpty(dueDate) then Ok(None)
    else
      var d := parse(dueDate.value);
      if d.None? then Err(BadRequest) else Ok(d)
  }

  // ---------- the task table ----------

  ghost predicate TaskIdsUnique(rows: seq<Task>) {
    forall i, j :: 0 <= i < j < |rows| ==> rows[i].id != rows[j].id
  }

  /** Ids are unique, and every id was handed out before `nextId`. */
  ghost predicate TableValid(rows: seq<Task>, nextId: nat) {
    && TaskIdsUnique(rows)
    && (forall i :: 0 <= i < |rows| ==> |rows[i].id| <= nextId)
  }

  /** The lookup condition shared by get, update and delete. */
  function Matches(t: Task, taskId: Id, orgId: Id): (r: bool)
    ensures t.orgId != orgId ==> !r
    ensures t.id != taskId ==> !r
  {
    t.id == taskId && t.orgId == orgId
  }

  ghost predicate NoMatch(rows: seq<Task>, taskId: Id, orgId: Id) {
    forall i :: 0 <= i < |rows| ==> !Matches(rows[i], taskId, orgId)
  }

  /** The position of the row found by (taskId, orgId), if any. */
  function FindTaskIndex(rows: seq<Task>, taskId: Id, orgId: Id): (r: Option<nat>)
    ensures r.None? <==> NoMatch(rows, taskId, orgId)
    ensures r.Some? ==> r.value < |rows| && Matches(rows[r.value], taskId, orgId)
    ensures r.Some? ==> forall i :: 0 <= i < r.value ==> !Matches(rows[i], taskId, orgId)
  {
    if |rows| == 0 then None
    else if Matches(rows[0], taskId, orgId) then Some(0)
    else
      var rest := FindTaskIndex(rows[1..], taskId, orgId);
      if rest.None? then None else Some(rest.value + 1)
  }

  /** With unique ids, the row with a given id is the only candidate for the lookup. */
  lemma {:induction false} FindTaskIndexUnique(rows: seq<Task>, k: nat, orgId: Id)
    requires TaskIdsUnique(rows) && k < |rows|
    ensures FindTaskIndex(rows, rows[k].id, orgId) == if rows[k].orgId == orgId then Some(k) else None
  {
    var r := FindTaskIndex(rows, rows[k].id, orgId);
    if r.Some? {
      assert rows[r.value].id == rows[k].id;
      assert r.value == k;
    } else {
      assert !Matches(rows[k], rows[k].id, orgId);
    }
  }

  // ---------- listing ----------

  ghost predicate SortedByCreatedDesc(s: seq<Task>) {
    forall i, j :: 0 <= i < j < |s| ==> s[i].createdAt >= s[j].createdAt
  }

  /** The rows of one organization, in table order. */
  function TasksOfOrg(rows: seq<Task>, orgId: Id): (r: seq<Task>)
    ensures forall t :: multiset(r)[t] == if t.orgId == orgId then multiset(rows)[t] else 0
  {
    if rows == [] then []
    else
      var rest := TasksOfOrg(rows[1..], orgId);
      assert rows == [rows[0]] + rows[1..];
      if rows[0].orgId == orgId then [rows[0]] + rest else rest
  }

  /** In a list sorted newest first, no row is newer than the head. */
  lemma HeadIsNewest(s: seq<Task>, x: Task)
    requires SortedByCreatedDesc(s) && x in s
    ensures x.createdAt <= s[0].createdAt
  {
    var j :| 0 <= j < |s| && s[j] == x;
    assert j == 0 || s[0].createdAt >= s[j].createdAt;
  }

  /** Inserting an older row into the tail keeps every row no newer than the head. */
  lemma InsertedBelowHead(t: Task, s: seq<Task>, rest: seq<Task>)
    requires SortedByCreatedDesc(s) && s != [] && t.createdAt < s[0].createdAt
    requires multiset(rest) == multiset(s[1..]) + multiset{t}
    ensures forall i :: 0 <= i < |rest| ==> rest[i].createdAt <= s[0].createdAt
  {
    assert s == [s[0]] + s[1..];
    forall i | 0 <= i < |rest| ensures rest[i].createdAt <= s[0].createdAt {
      assert rest[i] in multiset(rest);
      if rest[i] != t {
        assert rest[i] in multiset(s);
        HeadIsNewest(s, rest[i]);
      }
    }
  }

  function InsertByCreatedDesc(t: Task, s: seq<Task>): (r: seq<Task>)
    requires SortedByCreatedDesc(s)
    ensures SortedByCreatedDesc(r)
    ensures multiset(r) == multiset(s) + multiset{t}
  {
    if s == [] || t.createdAt >= s[0].createdAt then [t] + s
    else
      var rest := InsertByCreatedDesc(t, s[1..]);
      InsertedBelowHead(t, s, rest);
      assert s == [s[0]] + s[1..];
      [s[0]] + rest
  }

  /** Orders rows by creation time, newest first (a stable insertion sort). */
  function SortByCreatedDesc(s: seq<Task>): (r: seq<Task>)
    ensures SortedByCreatedDesc(r)
    ensures multiset(r) == multiset(s)
  {
    if s == [] then []
    else
      assert s == [s[0]] + s[1..];
      InsertByCreatedDesc(s[0], SortByCreatedDesc(s[1..]))
  }

  // ---------- authorization and lookup ----------

  /**
   * The role check followed by the lookup of (taskId, orgId): no membership
   * or too low a role is Forbidden; a task of another organization is not
   * found, exactly like an unknown id.
   */
  function AuthorizedTaskIndex(ms: MembershipTable, rows: seq<Task>, userId: Id, orgId: Id, taskId: Id, minRole: Role)
    : (r: Result<nat>)
    requires KeyedByPair(ms)
    ensures r.Err? <==> !HoldsRole(ms, userId, orgId, minRole) || NoMatch(rows, taskId, orgId)
    ensures r.Err? ==> r.error == if HoldsRole(ms, userId, orgId, minRole) then NotFound else Forbidden
    ensures r.Ok? ==> r.value < |rows| && Matches(rows[r.value], taskId, orgId)
    ensures r.Ok? ==> FindTaskIndex(rows, taskId, orgId) == Some(r.value)
  {
    var membership := RequireMembershipWithRole(ms, userId, orgId, minRole);
    if membership.Err? then Err(membership.error)
    else
      var i := FindTaskIndex(rows, taskId, orgId);
      if i.None? then Err(NotFound) else Ok(i.value)
  }

  /** Only the creator, the current assignee, or a MANAGER or above may update a task. */
  function MayUpdate(m: Membership, t: Task): (r: bool)
    ensures m.role in {Owner, Admin, Manager} ==> r
    ensures m.userId == t.createdBy || t.assignedTo == Some(m.userId) ==> r
    ensures m.role in {Member, Viewer} && m.userId != t.createdBy && t.assignedTo != Some(m.userId) ==> !r
  {
    HasAtLeastRole(m.role, Manager) || m.userId == t.createdBy || t.assignedTo == Some(m.userId)
  }

  // ---------- the outcome of each write ----------

  /**
   * The task a create request saves, with `id` the key the store assigns
   * and `now` the creation time. The checks run in order: role, due date,
   * assignee membership.
   */
  function CreateOutcome(ms: MembershipTable, parse: DateParser, userId: Id, orgId: Id, dto: CreateTaskDto, id: Id, now: nat)
    : (r: Result<Task>)
    requires KeyedByPair(ms)
    ensures !HoldsRole(ms, userId, orgId, Member) ==> r == Err(Forbidden)
    ensures HoldsRole(ms, userId, orgId, Member) ==>
              (r.Err? <==> ParseDueDate(parse, dto.dueDate).Err?
                           || (NonEmpty(dto.assignedToUserId) && (dto.assignedToUserId.value, orgId) !in ms))
    ensures HoldsRole(ms, userId, orgId, Member) && r.Err? ==> r.error == BadRequest
    ensures r.Ok? ==> r.value.id == id && r.value.createdAt == now
    ensures r.Ok? ==> r.value.orgId == orgId && r.value.createdBy == userId && r.value.status == Todo
    ensures r.Ok? ==> r.value.title == dto.title && r.value.description == dto.description
    ensures r.Ok? ==> r.value.dueDate == ParseDueDate(parse, dto.dueDate).value
    ensures r.Ok? ==> r.value.assignedTo == if NonEmpty(dto.assignedToUserId) then dto.assignedToUserId else None
    ensures r.Ok? && r.value.assignedTo.Some? ==> (r.value.assignedTo.value, orgId) in ms
  {
    var membership := RequireMembershipWithRole(ms, userId, orgId, Member);
    if membership.Err? then Err(membership.error)
    else
      var dueDate := ParseDueDate(parse, dto.dueDate);
      if dueDate.Err? then Err(dueDate.error)
      else
        var task := Task(id, dto.title, dto.description, Todo, dueDate.value,
                         membership.value.orgId, membership.value.userId, None, now);
        if !NonEmpty(dto.assignedToUserId) then Ok(task)
        else
          var assignee := GetMembershipForUserInOrg(ms, dto.assignedToUserId.value, orgId);
          if assignee.None? then Err(BadRequest)
          else Ok(task.(assignedTo := Some(assignee.value.userId)))
  }

  /** The assignee after a patch: absent keeps it, null clears it, a value sets it. */
  function PatchedAssignee(current: Option<Id>, patch: Patch<Id>): (a: Option<Id>)
    ensures patch.Keep? ==> a == current
    ensures patch.Clear? ==> a == None
    ensures patch.Set? ==> a == Some(patch.value)
  {
    match patch
    case Keep => current
    case Clear => None
    case Set(u) => Some(u)
  }

  /**
   * The field-by-field overwrite of an update whose checks so far have
   * passed. Fields the request leaves absent keep their value; the id,
   * organization, creator and creation time never change. A due date that
   * does not parse, or an assignee who is not a member of `orgId`, is a bad
   * request.
   */
  function PatchTask(ms: MembershipTable, parse: DateParser, t: Task, orgId: Id, dto: UpdateTaskDto): (r: Result<Task>)
    requires KeyedByPair(ms)
    ensures r.Err? <==> (dto.dueDate.Some? && ParseDueDate(parse, dto.dueDate).Err?)
                        || (dto.assignedToUserId.Set? && (dto.assignedToUserId.value, orgId) !in ms)
    ensures r.Err? ==> r.error == BadRequest
    ensures r.Ok? ==>
              && r.value.id == t.id && r.value.orgId == t.orgId
              && r.value.createdBy == t.createdBy && r.value.createdAt == t.createdAt
              && r.value.title == (if dto.title.Some? then dto.title.value else t.title)
              && r.value.description == (if dto.description.Some? then dto.description else t.description)
              && r.value.status == (if dto.status.Some? then dto.status.value else t.status)
              && r.value.dueDate == (if dto.dueDate.Some? then ParseDueDate(parse, dto.dueDate).value else t.dueDate)
              && r.value.assignedTo == PatchedAssignee(t.assignedTo, dto.assignedToUserId)
    ensures r.Ok? && dto.assignedToUserId.Set? ==> (dto.assignedToUserId.value, orgId) in ms
  {
    var dueDate := if dto.dueDate.Some? then ParseDueDate(parse, dto.dueDate) else Ok(t.dueDate);
    if dueDate.Err? then Err(BadRequest)
    else
      var assignee :=
        if dto.assignedToUserId.Set? then GetMembershipForUserInOrg(ms, dto.assignedToUserId.value, orgId) else None;
      if dto.assignedToUserId.Set? && assignee.None? then Err(BadRequest)
      else
        Ok(t.(title := dto.title.GetOr(t.title),
              description := if dto.description.Some? then dto.description else t.description,
              status := dto.status.GetOr(t.status),
              dueDate := dueDate.value,
              assignedTo := if assignee.Some? then Some(assignee.value.userId) else PatchedAssignee(t.assignedTo, dto.assignedToUserId)))
  }

  /**
   * The row an update request saves in place of the found task. The checks
   * run in order: role, lookup, update permission, then those of the
   * overwrite itself.
   */
  function UpdateOutcome(ms: MembershipTable, parse: DateParser, rows: seq<Task>, userId: Id, orgId: Id, taskId: Id,
                         dto: UpdateTaskDto)
    : (r: Result<Task>)
    requires KeyedByPair(ms)
    ensures !HoldsRole(ms, userId, orgId, Member) ==> r == Err(Forbidden)
    ensures HoldsRole(ms, userId, orgId, Member) && NoMatch(rows, taskId, orgId) ==> r == Err(NotFound)
    ensures HoldsRole(ms, userId, orgId, Member) && FindTaskIndex(rows, taskId, orgId).Some? ==>
              var t := rows[FindTaskIndex(rows, taskId, orgId).value];
              r == if MayUpdate(ms[(userId, orgId)], t) then PatchTask(ms, parse, t, orgId, dto) else Err(Forbidden)
    ensures r.Ok? ==> FindTaskIndex(rows, taskId, orgId).Some?
  {
    var found := AuthorizedTaskIndex(ms, rows, userId, orgId, taskId, Member);
    if found.Err? then Err(found.error)
    else
      var t := rows[found.value];
      if !MayUpdate(ms[(userId, orgId)], t) then Err(Forbidden)
      else PatchTask(ms, parse, t, orgId, dto)
  }

  /** Removing the row at `i` keeps every other row, in order, and drops only that id. */
  lemma {:induction false} RemoveAtExactly(rows: seq<Task>, i: nat)
    requires TaskIdsUnique(rows) && i < |rows|
    ensures |rows[..i] + rows[i + 1..]| == |rows| - 1
    ensures forall t :: t in rows[..i] + rows[i + 1..] <==> t in rows && t.id != rows[i].id
  {
    var after := rows[..i] + rows[i + 1..];
    forall t | t in after ensures t in rows && t.id != rows[i].id {
      var k :| 0 <= k < |after| && after[k] == t;
      var j := if k < i then k else k + 1;
      assert rows[j] == t;
    }
    forall t | t in rows && t.id != rows[i].id ensures t in after {
      var j :| 0 <= j < |rows| && rows[j] == t;
      assert j != i;
      if j < i {
        assert after[j] == t;
      } else {
        assert after[j - 1] == t;
      }
    }
  }

  /** A fresh id keeps the table valid. */
  lemma AppendValid(rows: seq<Task>, nextId: nat, t: Task)
    requires TableValid(rows, nextId) && t.id == FreshId(nextId)
    ensures TableValid(rows + [t], nextId + 1)
  {
    forall i | 0 <= i < |rows| ensures rows[i].id != t.id {
      assert |rows[i].id| <= nextId;
    }
  }

  lemma ReplaceValid(rows: seq<Task>, nextId: nat, i: nat, t: Task)
    requires TableValid(rows, nextId) && i < |rows| && t.id == rows[i].id
    ensures TableValid(rows[i := t], nextId)
  {
  }

  lemma RemoveValid(rows: seq<Task>, nextId: nat, i: nat)
    requires TableValid(rows, nextId) && i < |rows|
    ensures TableValid(rows[..i] + rows[i + 1..], nextId)
  {
    var after := rows[..i] + rows[i + 1..];
    forall a, b | 0 <= a < b < |after| ensures after[a].id != after[b].id {
      var a' := if a < i then a else a + 1;
      var b' := if b < i then b else b + 1;
      assert after[a] == rows[a'] && after[b] == rows[b'];
    }
    forall a | 0 <= a < |after| ensures |after[a].id| <= nextId {
      assert after[a] == rows[if a < i then a else a + 1];
    }
  }

  class TasksService {
    /** The membership store consulted by every check. */
    const users: UsersService
    const audit: AuditSink
    const parseDate: DateParser
    var tasks: seq<Task>
    /** The counter behind the task table's key generator. */
    var nextId: nat

    ghost predicate Valid()
      reads this
    {
      TableValid(tasks, nextId)
    }

    constructor (users: UsersService, audit: AuditSink, parseDate: DateParser)
      ensures Valid() && tasks == []
      ensures this.users == users && this.audit == audit && this.parseDate == parseDate
    {
      this.users, this.audit, this.parseDate := users, audit, parseDate;
      tasks, nextId := [], 0;
    }

    /** Every task of `orgId`, newest first; any member (VIEWER and up) may list. */
    function ListTasksForOrg(userId: Id, orgId: Id): (r: Result<seq<Task>>)
      reads this, users
      requires users.Valid()
      ensures r.Err? <==> (userId, orgId) !in users.memberships
      ensures r.Err? ==> r.error == Forbidden
      ensures r.Ok? ==> SortedByCreatedDesc(r.value)
      ensures r.Ok? ==> forall t :: multiset(r.value)[t] == if t.orgId == orgId then multiset(tasks)[t] else 0
      ensures r.Ok? ==> forall t :: t in r.value <==> t in tasks && t.orgId == orgId
    {
      var membership := RequireMembershipWithRole(users.memberships, userId, orgId, Viewer);
      if membership.Err? then Err(membership.error)
      else
        var listed := SortByCreatedDesc(TasksOfOrg(tasks, orgId));
        assert forall t :: t in listed <==> multiset(listed)[t] > 0;
        Ok(listed)
    }

    /** The task `taskId` of `orgId`; a task of another organization is not found. */
    function GetTaskForOrg(userId: Id, orgId: Id, taskId: Id): (r: Result<Task>)
      reads this, users
      requires users.Valid()
      ensures r.Err? <==> (userId, orgId) !in users.memberships || NoMatch(tasks, taskId, orgId)
      ensures r.Err? ==> r.error == if (userId, orgId) in users.memberships then NotFound else Forbidden
      ensures r.Ok? ==> r.value in tasks && Matches(r.value, taskId, orgId)
    {
      var found := AuthorizedTaskIndex(users.memberships, tasks, userId, orgId, taskId, Viewer);
      if found.Err? then Err(found.error) else Ok(tasks[found.value])
    }

    /** Saves the task of a create request; on success one audit entry is written. */
    method CreateTaskForOrg(userId: Id, orgId: Id, dto: CreateTaskDto, now: nat) returns (r: Result<Task>)
      requires Valid() && users.Valid()
      modifies this, audit
      ensures Valid()
      ensures r == CreateOutcome(users.memberships, parseDate, userId, orgId, dto, FreshId(old(nextId)), now)
      ensures r.Err? ==> unchanged(this) && audit.entries == old(audit.entries)
      ensures r.Ok? ==> tasks == old(tasks) + [r.value] && r.value.id !in set t | t in old(tasks) :: t.id
      ensures r.Ok? ==>
                audit.entries == old(audit.entries) + [Entry(TaskCreated, userId, orgId, "Task", r.value.id, TaskTitle(r.value.title))]
    {
      var membership := RequireMembershipWithRole(users.memberships, userId, orgId, Member);
      if membership.Err? {
        return Err(membership.error);
      }
      var org, creator := membership.value.orgId, membership.value.userId;
      var dueDate := ParseDueDate(parseDate, dto.dueDate);
      if dueDate.Err? {
        return Err(dueDate.error);
      }
      var task := Task(FreshId(nextId), dto.title, dto.description, Todo, dueDate.value, org, creator, None, now);
      if NonEmpty(dto.assignedToUserId) {
        var assignee := GetMembershipForUserInOrg(users.memberships, dto.assignedToUserId.value, orgId);
        if assignee.None? {
          return Err(BadRequest);
        }
        task := task.(assignedTo := Some(assignee.value.userId));
      }
      AppendValid(tasks, nextId, task);
      assert forall t | t in tasks :: |t.id| <= nextId;
      tasks := tasks + [task];
      nextId := nextId + 1;
      audit.Log(Entry(TaskCreated, userId, orgId, "Task", task.id, TaskTitle(task.title)));
      r := Ok(task);
    }

    /** Overwrites `task` field by field as the request says; nothing is saved. */
    method ApplyUpdate(task: Task, orgId: Id, dto: UpdateTaskDto) returns (r: Result<Task>)
      requires users.Valid()
      ensures r == PatchTask(users.memberships, parseDate, task, orgId, dto)
    {
      var t := task;
      if dto.title.Some? {
        t := t.(title := dto.title.value);
      }
      if dto.description.Some? {
        t := t.(description := dto.description);
      }
      if dto.status.Some? {
        t := t.(status := dto.status.value);
      }
      if dto.dueDate.Some? {
        var dueDate := ParseDueDate(parseDate, dto.dueDate);
        if dueDate.Err? {
          return Err(BadRequest);
        }
        t := t.(dueDate := dueDate.value);
      }
      match dto.assignedToUserId {
        case Keep =>
        case Clear =>
          t := t.(assignedTo := None);
        case Set(assigneeId) =>
          var assignee := GetMembershipForUserInOrg(users.memberships, assigneeId, orgId);
          if assignee.None? {
            return Err(BadRequest);
          }
          t := t.(assignedTo := Some(assignee.value.userId));
      }
      r := Ok(t);
    }

    /** Overwrites the found task field by field; on success one audit entry is written. */
    method UpdateTaskForOrg(userId: Id, orgId: Id, taskId: Id, dto: UpdateTaskDto) returns (r: Result<Task>)
      requires Valid() && users.Valid()
      modifies this, audit
      ensures Valid()
      ensures r == UpdateOutcome(users.memberships, parseDate, old(tasks), userId, orgId, taskId, dto)
      ensures r.Err? ==> unchanged(this) && audit.entries == old(audit.entries)
      ensures r.Ok? ==> tasks == old(tasks)[FindTaskIndex(old(tasks), taskId, orgId).value := r.value]
      ensures nextId == old(nextId)
      ensures r.Ok? ==>
                audit.entries == old(audit.entries) + [Entry(TaskUpdated, userId, orgId, "Task", r.value.id, TaskTitle(r.value.title))]
    {
      var found := AuthorizedTaskIndex(users.memberships, tasks, userId, orgId, taskId, Member);
      if found.Err? {
        return Err(found.error);
      }
      var i := found.value;
      var task := tasks[i];
      if !MayUpdate(users.memberships[(userId, orgId)], task) {
        return Err(Forbidden);
      }
      var patched := ApplyUpdate(task, orgId, dto);
      if patched.Err? {
        return Err(patched.error);
      }
      task := patched.value;
      ReplaceValid(tasks, nextId, i, task);
      tasks := tasks[i := task];
      audit.Log(Entry(TaskUpdated, userId, orgId, "Task", task.id, TaskTitle(task.title)));
      r := Ok(task);
    }

    /** Removes the found task (ADMIN and up); on success one audit entry is written. */
    method DeleteTaskForOrg(userId: Id, orgId: Id, taskId: Id) returns (r: Result<()>)
      requires Valid() && users.Valid()
      modifies this, audit
      ensures Valid()
      ensures var found := AuthorizedTaskIndex(users.memberships, old(tasks), userId, orgId, taskId, Admin);
              && (r.Err? <==> found.Err?)
              && (r.Err? ==> r.error == found.error && unchanged(this) && audit.entries == old(audit.entries))
              && (r.Ok? ==>
                    var i := found.value;
                    && tasks == old(tasks)[..i] + old(tasks)[i + 1..]
                    && (forall t :: t in tasks <==> t in old(tasks) && t.id != taskId)
                    && audit.entries == old(audit.entries) +
                         [Entry(TaskDeleted, userId, orgId, "Task", taskId, TaskTitle(old(tasks)[i].title))])
      ensures nextId == old(nextId)
    {
      var found := AuthorizedTaskIndex(users.memberships, tasks, userId, orgId, taskId, Admin);
      if found.Err? {
        return Err(found.error);
      }
      var i := found.value;
      var task := tasks[i];
      RemoveAtExactly(tasks, i);
      RemoveValid(tasks, nextId, i);
      tasks := tasks[..i] + tasks[i + 1..];
      audit.Log(Entry(TaskDeleted, userId, orgId, "Task", task.id, TaskTitle(task.title)));
      r := Ok(());
    }
  }

  /** With unique ids, a task filed under another organization is not found, whatever the caller's role. */
  lemma OtherOrgTaskNotFound(ms: MembershipTable, rows: seq<Task>, userId: Id, orgId: Id, k: nat, minRole: Role)
    requires KeyedByPair(ms) && TaskIdsUnique(rows)
    requires k < |rows| && rows[k].orgId != orgId && HoldsRole(ms, userId, orgId, minRole)
    ensures AuthorizedTaskIndex(ms, rows, userId, orgId, rows[k].id, minRole) == Err(NotFound)
  {
    FindTaskIndexUnique(rows, k, orgId);
  }
}
