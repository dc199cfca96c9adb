/**
 * The organization-user routes: an ADMIN (or OWNER) of the organization
 * named by the `x-org-id` header may list its members and add or update
 * one. Responses carry only safe fields; a password or its hash never
 * leaves the service.
 */
module OrgUserRoutes {
  import opened Wrappers
  import opened Roles
  import opened Entities
  import opened Users
  import opened Requests
  import opened Audit

  /** One row of the member list; the shape has no place for a password or hash. */
  datatype OrgUserView = OrgUserView(membershipId: Id, userId: Id, email: string, fullName: string, role: Role)

  /** The body of an add request; `password` is an optional temporary password. */
  datatype AddOrgUserDto = AddOrgUserDto(email: string, fullName: string, role: Role, password: Option<string>)

  datatype AddOrgUserResponse = AddOrgUserResponse(
    userId: Id,
    email: string,
    fullName: string,
    role: Role,
    isNewUser: bool,
    isNewMembership: bool,
    roleChanged: bool)

  /** The safe projection of a membership and its user. */
  function View(users: UserTable, m: Membership): (v: OrgUserView)
    requires m.userId in users
    ensures v.membershipId == m.id && v.userId == m.userId && v.role == m.role
    ensures v.email == users[m.userId].email && v.fullName == users[m.userId].fullName
  {
    OrgUserView(m.id, m.userId, users[m.userId].email, users[m.userId].fullName, m.role)
  }

  /** The member list of `orgId`: one view per membership, as an unordered collection. */
  function MemberViews(users: UserTable, orgs: OrgTable, ms: MembershipTable, orgId: Id): (r: set<OrgUserView>)
    requires KeyedByPair(ms) && MembershipsLinked(users, orgs, ms) && MembershipIdsUnique(ms)
    ensures forall k :: k in ms && k.1 == orgId ==> k.0 in users && View(users, ms[k]) in r
    ensures forall v :: v in r ==> exists k :: k in ms && k.1 == orgId && k.0 in users && v == View(users, ms[k])
    ensures forall v1, v2 :: v1 in r && v2 in r && v1.membershipId == v2.membershipId ==> v1 == v2
  {
    var listed := ListMembershipsForOrg(ms, orgId);
    assert forall m :: m in listed ==> m.userId in users by {
      forall m | m in listed ensures m.userId in users {
        var k :| k in ms && ms[k] == m;
      }
    }
    set m | m in listed :: View(users, m)
  }

  class OrgUsersController {
    const users: UsersService
    const audit: AuditSink

    constructor (users: UsersService, audit: AuditSink)
      ensures this.users == users && this.audit == audit
    {
      this.users, this.audit := users, audit;
    }

    /** GET /org-users */
    function ListOrgUsers(actorUserId: Id, header: Option<string>): (r: Result<set<OrgUserView>>)
      reads users
      requires users.Valid()
      ensures !NonEmpty(header) ==> r == Err(BadRequest)
      ensures NonEmpty(header) ==>
                (r.Err? <==> !HoldsRole(users.memberships, actorUserId, header.value, Admin))
      ensures NonEmpty(header) && r.Err? ==> r.error == Forbidden
      ensures r.Ok? ==> NonEmpty(header) && r.value == MemberViews(users.users, users.orgs, users.memberships, header.value)
    {
      var orgId := GetOrgIdFromRequest(header);
      if orgId.Err? then Err(orgId.error)
      else
        var actor := RequireMembershipWithRole(users.memberships, actorUserId, orgId.value, Admin);
        if actor.Err? then Err(actor.error)
        else Ok(MemberViews(users.users, users.orgs, users.memberships, orgId.value))
    }

    /**
     * POST /org-users. An ADMIN may grant any role, OWNER included: the
     * requested role is never compared with the actor's own. The audit
     * entry records the same flags the caller receives.
     */
    method AddUserToOrg(actorUserId: Id, header: Option<string>, dto: AddOrgUserDto) returns (r: Result<AddOrgUserResponse>)
      requires users.Valid()
      modifies users, audit
      ensures users.Valid()
      ensures !NonEmpty(header) ==> r == Err(BadRequest)
      ensures NonEmpty(header) ==> (r.Ok? <==> old(HoldsRole(users.memberships, actorUserId, header.value, Admin)))
      ensures NonEmpty(header) && r.Err? ==> r.error == Forbidden
      ensures r.Err? ==> unchanged(users) && audit.entries == old(audit.entries)
      ensures r.Ok? ==>
                var orgId := header.value;
                var key := (r.value.userId, orgId);
                && r.value.email == dto.email && r.value.role == dto.role
                && r.value.isNewUser == old(FindByEmail(users.users, dto.email)).None?
                && (r.value.isNewUser ==> r.value.userId !in old(users.users))
                && (!r.value.isNewUser ==> r.value.userId == old(FindByEmail(users.users, dto.email)).value.id)
                && r.value.userId in users.users && r.value.fullName == users.users[r.value.userId].fullName
                && users.orgs == old(users.orgs)
                && users.users == old(users.users)[r.value.userId := users.users[r.value.userId]]
                && (r.value.isNewUser ==>
                      users.users[r.value.userId] == User(r.value.userId, dto.email, dto.fullName, users.hash(PasswordToUse(dto.password))))
                && (!r.value.isNewUser ==>
                      var before := old(FindByEmail(users.users, dto.email)).value;
                      users.users[r.value.userId] == before.(fullName := if dto.fullName != "" then dto.fullName else before.fullName))
                && key in users.memberships && users.memberships[key].role == dto.role
                && users.memberships == old(users.memberships)[key := users.memberships[key]]
                && r.value.isNewMembership == (key !in old(users.memberships))
                && r.value.roleChanged == (key in old(users.memberships) && old(users.memberships)[key].role != dto.role)
                && audit.entries == old(audit.entries) + [Entry(OrgUserAddedOrUpdated, actorUserId, orgId, "User", r.value.userId,
                     OrgUserChange(r.value.email, r.value.role, r.value.isNewUser, r.value.isNewMembership, r.value.roleChanged))]
    {
      var orgId := GetOrgIdFromRequest(header);
      if orgId.Err? {
        return Err(orgId.error);
      }
      var actor := RequireMembershipWithRole(users.memberships, actorUserId, orgId.value, Admin);
      if actor.Err? {
        return Err(actor.error);
      }
      // the actor's membership links the organization, so it exists and the add cannot fail
      assert orgId.value in users.orgs;
      var result := users.AddUserToOrgById(orgId.value, dto.email, dto.fullName, dto.role, dto.password);
      var outcome := result.value;
      audit.Log(Entry(OrgUserAddedOrUpdated, actorUserId, orgId.value, "User", outcome.user.id,
        OrgUserChange(outcome.user.email, outcome.membership.role, outcome.isNewUser, outcome.isNewMembership, outcome.roleChanged)));
      r := Ok(AddOrgUserResponse(outcome.user.id, outcome.user.email, outcome.user.fullName, outcome.membership.role,
                                 outcome.isNewUser, outcome.isNewMembership, outcome.roleChanged));
    }
  }
}
