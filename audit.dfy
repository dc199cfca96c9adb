/**
 * The audit sink. Writing an entry is best effort in the system: a failed
 * write is caught and logged and never reaches the caller. The model keeps
 * the entries the services asked to write as ghost state, so the log can
 * never influence a result.
 */
module Audit {
  import opened Roles
  import opened Entities

  datatype Action = TaskCreated | TaskUpdated | TaskDeleted | OrgUserAddedOrUpdated

  datatype Metadata =
    | TaskTitle(title: string)
    | OrgUserChange(email: string, role: Role, isNewUser: bool, isNewMembership: bool, roleChanged: bool)

  datatype Entry = Entry(
    action: Action,
    actorUserId: Id,
    organizationId: Id,
    entityType: string,
    entityId: Id,
    metadata: Metadata)

  class AuditSink {
    ghost var entries: seq<Entry>

    constructor ()
      ensures entries == []
    {
      entries := [];
    }

    ghost method Log(e: Entry)
      modifies this
      ensures entries == old(entries) + [e]
    {
      entries := entries + [e];
    }
  }
}
