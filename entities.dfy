/** The persisted records: users, organizations, memberships and tasks. */
module Entities {
  import opened Wrappers
  import opened Roles

  /** Primary keys are generated uuid strings. */
  type Id = string

  /**
   * The store's key generator: the n-th key it hands out. Keys of different
   * n differ in length, so a counter that only grows never repeats a key.
   */
  function FreshId(n: nat): (id: Id)
    ensures |id| == n + 1
  {
    seq(n + 1, _ => '#')
  }

  /** A user; `passwordHash` is the opaque credential and is never returned by the API. */
  datatype User = User(id: Id, email: string, fullName: string, passwordHash: string)

  datatype Organization = Organization(id: Id, name: string)

  /** The role `userId` holds in `orgId`. */
  datatype Membership = Membership(id: Id, userId: Id, orgId: Id, role: Role)

  datatype TaskStatus = Todo | InProgress | Done

  /** A point in time as the store keeps it (milliseconds since the epoch). */
  type Date = int

  /**
   * A task of one organization. `createdBy` and `orgId` never change after
   * creation; `assignedTo` is nullable; `createdAt` is the creation timestamp.
   */
  datatype Task = Task(
    id: Id,
    title: string,
    description: Option<string>,
    status: TaskStatus,
    dueDate: Option<Date>,
    orgId: Id,
    createdBy: Id,
    assignedTo: Option<Id>,
    createdAt: nat)
}
