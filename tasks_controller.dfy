/**
 * The task routes: each reads the caller from the authenticated request and
 * the organization from the `x-org-id` header, then delegates to the task
 * service with those values unchanged. Service errors pass through as they
 * are; nothing is caught.
 */
module TaskRoutes {
  import opened Wrappers
  import opened Roles
  import opened Entities
  import opened Users
  import opened Requests
  import opened Tasks

  /** The body of a successful delete. */
  datatype DeleteResponse = DeleteResponse(success: bool)

  class TasksController {
    const service: TasksService

    constructor (service: TasksService)
      ensures this.service == service
    {
      this.service := service;
    }

    /** GET /tasks */
    function ListTasks(userId: Id, header: Option<string>): (r: Result<seq<Task>>)
      reads service, service.users
      requires service.users.Valid()
      ensures !NonEmpty(header) ==> r == Err(BadRequest)
      ensures NonEmpty(header) ==> r == service.ListTasksForOrg(userId, header.value)
    {
      var orgId := GetOrgIdFromRequest(header);
      if orgId.Err? then Err(orgId.error) else service.ListTasksForOrg(userId, orgId.value)
    }

    /** GET /tasks/:id */
    function GetTask(userId: Id, header: Option<string>, id: Id): (r: Result<Task>)
      reads service, service.users
      requires service.users.Valid()
      ensures !NonEmpty(header) ==> r == Err(BadRequest)
      ensures NonEmpty(header) ==> r == service.GetTaskForOrg(userId, header.value, id)
    {
      var orgId := GetOrgIdFromRequest(header);
      if orgId.Err? then Err(orgId.error) else service.GetTaskForOrg(userId, orgId.value, id)
    }

    /** POST /tasks; `now` is the time the store stamps on the new row. */
    method CreateTask(userId: Id, header: Option<string>, dto: CreateTaskDto, now: nat) returns (r: Result<Task>)
      requires service.Valid() && service.users.Valid()
      modifies service, service.audit
      ensures service.Valid()
      ensures !NonEmpty(header) ==>
                r == Err(BadRequest) && unchanged(service) && service.audit.entries == old(service.audit.entries)
      ensures NonEmpty(header) ==>
                r == CreateOutcome(service.users.memberships, service.parseDate, userId, header.value, dto,
                                   FreshId(old(service.nextId)), now)
      ensures r.Err? ==> unchanged(service) && service.audit.entries == old(service.audit.entries)
      ensures r.Ok? ==> service.tasks == old(service.tasks) + [r.value]
    {
      var orgId := GetOrgIdFromRequest(header);
      if orgId.Err? {
        return Err(orgId.error);
      }
      r := service.CreateTaskForOrg(userId, orgId.value, dto, now);
    }

    /** PATCH /tasks/:id */
    method UpdateTask(userId: Id, header: Option<string>, id: Id, dto: UpdateTaskDto) returns (r: Result<Task>)
      requires service.Valid() && service.users.Valid()
      modifies service, service.audit
      ensures service.Valid()
      ensures !NonEmpty(header) ==>
                r == Err(BadRequest) && unchanged(service) && service.audit.entries == old(service.audit.entries)
      ensures NonEmpty(header) ==>
                r == UpdateOutcome(service.users.memberships, service.parseDate, old(service.tasks), userId, header.value, id, dto)
      ensures r.Err? ==> unchanged(service) && service.audit.entries == old(service.audit.entries)
      ensures r.Ok? ==>
                service.tasks == old(service.tasks)[FindTaskIndex(old(service.tasks), id, header.value).value := r.value]
    {
      var orgId := GetOrgIdFromRequest(header);
      if orgId.Err? {
        return Err(orgId.error);
      }
      r := service.UpdateTaskForOrg(userId, orgId.value, id, dto);
    }

    /** DELETE /tasks/:id: `{success: true}` only once the delete has gone through. */
    method DeleteTask(userId: Id, header: Option<string>, id: Id) returns (r: Result<DeleteResponse>)
      requires service.Valid() && service.users.Valid()
      modifies service, service.audit
      ensures service.Valid()
      ensures !NonEmpty(header) ==>
                r == Err(BadRequest) && unchanged(service) && service.audit.entries == old(service.audit.entries)
      ensures NonEmpty(header) ==>
                var found := AuthorizedTaskIndex(service.users.memberships, old(service.tasks), userId, header.value, id, Admin);
                && (r.Ok? <==> found.Ok?)
                && (r.Err? ==> r.error == found.error)
                && (r.Ok? ==> service.tasks == old(service.tasks)[..found.value] + old(service.tasks)[found.value + 1..])
      ensures r.Err? ==> unchanged(service) && service.audit.entries == old(service.audit.entries)
      ensures r.Ok? ==> r.value == DeleteResponse(true)
    {
      var orgId := GetOrgIdFromRequest(header);
      if orgId.Err? {
        return Err(orgId.error);
      }
      var deleted := service.DeleteTaskForOrg(userId, orgId.value, id);
      if deleted.Err? {
        return Err(deleted.error);
      }
      r := Ok(DeleteResponse(true));
    }
  }
}
