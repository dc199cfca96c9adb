/**
 * The user/organization directory, the membership store and the access
 * authorizer. Lookups are pure functions over the three tables; the
 * service class owns the tables and performs the writes.
 */
module Users {
  import opened Wrappers
  import opened Roles
  import opened Entities

  /** Users by id, organizations by id, memberships by (user id, organization id). */
  type UserTable = map<Id, User>
  type OrgTable = map<Id, Organization>
  type MembershipTable = map<(Id, Id), Membership>

  /** Users are stored under their own id, and the email column has a unique index. */
  ghost predicate EmailsUnique(users: UserTable) {
    && (forall id :: id in users ==> users[id].id == id)
    && (forall a, b :: a in users && b in users && users[a].email == users[b].email ==> a == b)
  }

  /** Organizations are stored under their own id, and the name column is unique. */
  ghost predicate NamesUnique(orgs: OrgTable) {
    && (forall id :: id in orgs ==> orgs[id].id == id)
    && (forall a, b :: a in orgs && b in orgs && orgs[a].name == orgs[b].name ==> a == b)
  }

  /**
   * The unique constraint on (user, organization): the table is keyed by
   * that pair, and each row's own fields agree with its key.
   */
  ghost predicate KeyedByPair(ms: MembershipTable) {
    forall k :: k in ms ==> ms[k].userId == k.0 && ms[k].orgId == k.1
  }

  ghost predicate MembershipIdsUnique(ms: MembershipTable) {
    forall k1, k2 :: k1 in ms && k2 in ms && ms[k1].id == ms[k2].id ==> k1 == k2
  }

  /** Every membership links an existing user and an existing organization. */
  ghost predicate MembershipsLinked(users: UserTable, orgs: OrgTable, ms: MembershipTable) {
    forall k :: k in ms ==> k.0 in users && k.1 in orgs
  }

  /** Every key in use was handed out before `nextId`. */
  ghost predicate KeysIssued(users: UserTable, orgs: OrgTable, ms: MembershipTable, nextId: nat) {
    && (forall id :: id in users ==> |id| <= nextId)
    && (forall id :: id in orgs ==> |id| <= nextId)
    && (forall k :: k in ms ==> |ms[k].id| <= nextId)
  }

  ghost predicate DirectoryValid(users: UserTable, orgs: OrgTable, ms: MembershipTable, nextId: nat) {
    && KeysIssued(users, orgs, ms, nextId)
    && EmailsUnique(users)
    && NamesUnique(orgs)
    && KeyedByPair(ms)
    && MembershipIdsUnique(ms)
    && MembershipsLinked(users, orgs, ms)
  }

  /** `m2` keeps every entry of `m1` as it was. */
  ghost predicate Extends<K, V>(m1: map<K, V>, m2: map<K, V>) {
    forall k :: k in m1 ==> k in m2 && m2[k] == m1[k]
  }

  // ---------- lookups ----------

  /** The user registered under `email`, if any. */
  function FindByEmail(users: UserTable, email: string): (r: Option<User>)
    requires EmailsUnique(users)
    ensures r.Some? ==> r.value.id in users && users[r.value.id] == r.value && r.value.email == email
    ensures r.None? <==> forall id :: id in users ==> users[id].email != email
  {
    if exists id | id in users :: users[id].email == email then
      var id :| id in users && users[id].email == email;
      Some(users[id])
    else
      None
  }

  /** The organization named `name`, if any. */
  function FindOrgByName(orgs: OrgTable, name: string): (r: Option<Organization>)
    requires NamesUnique(orgs)
    ensures r.Some? ==> r.value.id in orgs && orgs[r.value.id] == r.value && r.value.name == name
    ensures r.None? <==> forall id :: id in orgs ==> orgs[id].name != name
  {
    if exists id | id in orgs :: orgs[id].name == name then
      var id :| id in orgs && orgs[id].name == name;
      Some(orgs[id])
    else
      None
  }

  /** The email index finds exactly the stored user with that email. */
  lemma FindByEmailFinds(users: UserTable, u: User)
    requires EmailsUnique(users) && u.id in users && users[u.id] == u
    ensures FindByEmail(users, u.email) == Some(u)
  {
    var r := FindByEmail(users, u.email);
    assert users[u.id].email == u.email;
    assert r.Some?;
    assert users[r.value.id].email == users[u.id].email;
  }

  lemma FindOrgByNameFinds(orgs: OrgTable, o: Organization)
    requires NamesUnique(orgs) && o.id in orgs && orgs[o.id] == o
    ensures FindOrgByName(orgs, o.name) == Some(o)
  {
    var r := FindOrgByName(orgs, o.name);
    assert orgs[o.id].name == o.name;
    assert r.Some?;
    assert orgs[r.value.id].name == orgs[o.id].name;
  }

  /** The one membership of `userId` in `orgId`, if there is one. */
  function GetMembershipForUserInOrg(ms: MembershipTable, userId: Id, orgId: Id): (r: Option<Membership>)
    requires KeyedByPair(ms)
    ensures r.Some? <==> exists k :: k in ms && ms[k].userId == userId && ms[k].orgId == orgId
    ensures r.Some? ==> r.value.userId == userId && r.value.orgId == orgId
    ensures forall k :: k in ms && ms[k].userId == userId && ms[k].orgId == orgId ==> r == Some(ms[k])
  {
    if (userId, orgId) in ms then Some(ms[(userId, orgId)]) else None
  }

  /**
   * The policy kernel: the caller's membership in `orgId`, provided its role
   * is at least `minRole`. No membership, or too low a role, is Forbidden.
   */
  function RequireMembershipWithRole(ms: MembershipTable, userId: Id, orgId: Id, minRole: Role): (r: Result<Membership>)
    requires KeyedByPair(ms)
    ensures r.Err? ==> r.error == Forbidden
    ensures r.Err? <==> (userId, orgId) !in ms || !HasAtLeastRole(ms[(userId, orgId)].role, minRole)
    ensures r.Ok? ==> r.value == ms[(userId, orgId)]
    ensures r.Ok? ==> r.value.userId == userId && r.value.orgId == orgId && HasAtLeastRole(r.value.role, minRole)
  {
    var membership := GetMembershipForUserInOrg(ms, userId, orgId);
    if membership.None? then Err(Forbidden)
    else if !HasAtLeastRole(membership.value.role, minRole) then Err(Forbidden)
    else Ok(membership.value)
  }

  /** `userId` is a member of `orgId` whose role is at least `minRole`. */
  predicate HoldsRole(ms: MembershipTable, userId: Id, orgId: Id, minRole: Role) {
    (userId, orgId) in ms && HasAtLeastRole(ms[(userId, orgId)].role, minRole)
  }

  /** The memberships of one organization, as an unordered collection. */
  function ListMembershipsForOrg(ms: MembershipTable, orgId: Id): (r: set<Membership>)
    requires KeyedByPair(ms)
    ensures forall m :: m in r <==> m in ms.Values && m.orgId == orgId
  {
    set k | k in ms && k.1 == orgId :: ms[k]
  }

  /** The memberships of one user, as an unordered collection. */
  function ListMembershipsForUser(ms: MembershipTable, userId: Id): (r: set<Membership>)
    requires KeyedByPair(ms)
    ensures forall m :: m in r <==> m in ms.Values && m.userId == userId
  {
    set k | k in ms && k.0 == userId :: ms[k]
  }

  /** The role the user with `email` holds in the organization named `orgName`. */
  ghost function RoleOf(users: UserTable, orgs: OrgTable, ms: MembershipTable, email: string, orgName: string): Option<Role>
    requires EmailsUnique(users) && NamesUnique(orgs)
  {
    var u := FindByEmail(users, email);
    var o := FindOrgByName(orgs, orgName);
    if u.Some? && o.Some? && (u.value.id, o.value.id) in ms then Some(ms[(u.value.id, o.value.id)].role) else None
  }

  /** Growing the tables without changing their entries changes no role already held. */
  lemma RoleOfStable(users: UserTable, orgs: OrgTable, ms: MembershipTable,
                     users': UserTable, orgs': OrgTable, ms': MembershipTable,
                     email: string, orgName: string)
    requires EmailsUnique(users) && NamesUnique(orgs) && EmailsUnique(users') && NamesUnique(orgs')
    requires Extends(users, users') && Extends(orgs, orgs') && Extends(ms, ms')
    requires RoleOf(users, orgs, ms, email, orgName).Some?
    ensures RoleOf(users', orgs', ms', email, orgName) == RoleOf(users, orgs, ms, email, orgName)
  {
    var u := FindByEmail(users, email).value;
    var o := FindOrgByName(orgs, orgName).value;
    var u' := FindByEmail(users', email);
    var o' := FindOrgByName(orgs', orgName);
    assert users'[u.id].email == email;
    assert orgs'[o.id].name == orgName;
    assert u'.Some? && u'.value.id == u.id;
    assert o'.Some? && o'.value.id == o.id;
  }

  // ---------- the writes keep the directory valid ----------

  lemma InsertUserValid(users: UserTable, orgs: OrgTable, ms: MembershipTable, nextId: nat, u: User)
    requires DirectoryValid(users, orgs, ms, nextId)
    requires u.id == FreshId(nextId) && FindByEmail(users, u.email).None?
    ensures u.id !in users
    ensures DirectoryValid(users[u.id := u], orgs, ms, nextId + 1)
    ensures FindByEmail(users[u.id := u], u.email) == Some(u)
  {
    var users' := users[u.id := u];
    assert EmailsUnique(users') by {
      forall a, b | a in users' && b in users' && users'[a].email == users'[b].email ensures a == b {
        if a != u.id && b != u.id {
          assert users[a].email == users[b].email;
        }
      }
    }
    FindByEmailFinds(users', u);
  }

  lemma RenameUserValid(users: UserTable, orgs: OrgTable, ms: MembershipTable, nextId: nat, u: User, name: string)
    requires DirectoryValid(users, orgs, ms, nextId)
    requires u.id in users && users[u.id] == u
    ensures DirectoryValid(users[u.id := u.(fullName := name)], orgs, ms, nextId)
    ensures FindByEmail(users[u.id := u.(fullName := name)], u.email) == Some(u.(fullName := name))
  {
    var users' := users[u.id := u.(fullName := name)];
    assert EmailsUnique(users') by {
      forall a, b | a in users' && b in users' && users'[a].email == users'[b].email ensures a == b {
        assert users[a].email == users[b].email;
      }
    }
    FindByEmailFinds(users', u.(fullName := name));
  }

  lemma InsertOrgValid(users: UserTable, orgs: OrgTable, ms: MembershipTable, nextId: nat, o: Organization)
    requires DirectoryValid(users, orgs, ms, nextId)
    requires o.id == FreshId(nextId) && FindOrgByName(orgs, o.name).None?
    ensures o.id !in orgs
    ensures DirectoryValid(users, orgs[o.id := o], ms, nextId + 1)
    ensures FindOrgByName(orgs[o.id := o], o.name) == Some(o)
  {
    var orgs' := orgs[o.id := o];
    assert NamesUnique(orgs') by {
      forall a, b | a in orgs' && b in orgs' && orgs'[a].name == orgs'[b].name ensures a == b {
        if a != o.id && b != o.id {
          assert orgs[a].name == orgs[b].name;
        }
      }
    }
    FindOrgByNameFinds(orgs', o);
  }

  lemma InsertMembershipValid(users: UserTable, orgs: OrgTable, ms: MembershipTable, nextId: nat, m: Membership)
    requires DirectoryValid(users, orgs, ms, nextId)
    requires m.id == FreshId(nextId) && m.userId in users && m.orgId in orgs
    ensures DirectoryValid(users, orgs, ms[(m.userId, m.orgId) := m], nextId + 1)
  {
    var ms' := ms[(m.userId, m.orgId) := m];
    assert MembershipIdsUnique(ms') by {
      forall k1, k2 | k1 in ms' && k2 in ms' && ms'[k1].id == ms'[k2].id ensures k1 == k2 {
        if k1 != (m.userId, m.orgId) && k2 != (m.userId, m.orgId) {
          assert ms[k1].id == ms[k2].id;
        }
      }
    }
  }

  lemma ChangeRoleValid(users: UserTable, orgs: OrgTable, ms: MembershipTable, nextId: nat, k: (Id, Id), role: Role)
    requires DirectoryValid(users, orgs, ms, nextId)
    requires k in ms
    ensures DirectoryValid(users, orgs, ms[k := ms[k].(role := role)], nextId)
  {
    var ms' := ms[k := ms[k].(role := role)];
    assert MembershipIdsUnique(ms') by {
      forall k1, k2 | k1 in ms' && k2 in ms' && ms'[k1].id == ms'[k2].id ensures k1 == k2 {
        assert ms[k1].id == ms[k2].id;
      }
    }
  }

  // ---------- provisioning one pair leaves every other pair's role alone ----------

  /** Storing `u` leaves the lookup of every other email as it was. */
  lemma FindByEmailAfterPut(users: UserTable, u: User, e: string)
    requires EmailsUnique(users) && EmailsUnique(users[u.id := u])
    requires u.id in users ==> users[u.id].email == u.email
    requires e != u.email
    ensures FindByEmail(users[u.id := u], e) == FindByEmail(users, e)
  {
    var users' := users[u.id := u];
    forall id | id in users && users[id].email == e ensures id in users' && users'[id].email == e {
      assert id != u.id;
    }
    var after := FindByEmail(users', e);
    if after.Some? {
      assert after.value.id != u.id && users[after.value.id] == after.value;
      FindByEmailFinds(users, after.value);
    }
  }

  /** Storing `o` leaves the lookup of every other name as it was. */
  lemma FindOrgByNameAfterPut(orgs: OrgTable, o: Organization, n: string)
    requires NamesUnique(orgs) && NamesUnique(orgs[o.id := o])
    requires o.id in orgs ==> orgs[o.id].name == o.name
    requires n != o.name
    ensures FindOrgByName(orgs[o.id := o], n) == FindOrgByName(orgs, n)
  {
    var orgs' := orgs[o.id := o];
    forall id | id in orgs && orgs[id].name == n ensures id in orgs' && orgs'[id].name == n {
      assert id != o.id;
    }
    var after := FindOrgByName(orgs', n);
    if after.Some? {
      assert after.value.id != o.id && orgs[after.value.id] == after.value;
      FindOrgByNameFinds(orgs, after.value);
    }
  }

  /**
   * Provisioning (`user`, `org`): the user and the organization are stored
   * (new or as they were) and the one membership of the pair is stored.
   */
  ghost predicate ProvisionStep(users: UserTable, orgs: OrgTable, ms: MembershipTable, nextId: nat,
                                user: User, org: Organization, m: Membership,
                                users': UserTable, orgs': OrgTable, ms': MembershipTable)
  {
    && DirectoryValid(users, orgs, ms, nextId)
    && EmailsUnique(users') && NamesUnique(orgs')
    && users' == users[user.id := user] && (user.id in users ==> users[user.id] == user)
    && orgs' == orgs[org.id := org] && (org.id in orgs ==> orgs[org.id] == org)
    && ms' == ms[(user.id, org.id) := m] && ((user.id, org.id) in ms ==> ms[(user.id, org.id)] == m)
  }

  /** A name the stored organization does not carry had no lookup before either. */
  lemma NewOrgNotFound(orgs: OrgTable, org: Organization)
    requires NamesUnique(orgs) && NamesUnique(orgs[org.id := org]) && org.id !in orgs
    ensures FindOrgByName(orgs, org.name).None?
  {
    var orgs' := orgs[org.id := org];
    forall id | id in orgs ensures orgs[id].name != org.name {
      assert orgs'[id] == orgs[id] && orgs'[org.id] == org;
    }
  }

  lemma NewUserNotFound(users: UserTable, user: User)
    requires EmailsUnique(users) && EmailsUnique(users[user.id := user]) && user.id !in users
    ensures FindByEmail(users, user.email).None?
  {
    var users' := users[user.id := user];
    forall id | id in users ensures users[id].email != user.email {
      assert users'[id] == users[id] && users'[user.id] == user;
    }
  }

  /** A pair with another email keeps its role across a provisioning step. */
  lemma RoleOfOtherEmail(users: UserTable, orgs: OrgTable, ms: MembershipTable, nextId: nat,
                         user: User, org: Organization, m: Membership,
                         users': UserTable, orgs': OrgTable, ms': MembershipTable, e: string, n: string)
    requires ProvisionStep(users, orgs, ms, nextId, user, org, m, users', orgs', ms')
    requires e != user.email
    ensures RoleOf(users', orgs', ms', e, n) == RoleOf(users, orgs, ms, e, n)
  {
    FindByEmailAfterPut(users, user, e);
    var u := FindByEmail(users, e);
    if u.Some? {
      assert u.value.id != user.id;
      var o, o' := FindOrgByName(orgs, n), FindOrgByName(orgs', n);
      if n != org.name {
        FindOrgByNameAfterPut(orgs, org, n);
      } else if org.id in orgs {
        FindOrgByNameFinds(orgs', org);
        FindOrgByNameFinds(orgs, org);
      } else {
        FindOrgByNameFinds(orgs', org);
        NewOrgNotFound(orgs, org);
        assert (u.value.id, org.id) !in ms;
      }
    }
  }

  /** A pair with the same email but another organization keeps its role too. */
  lemma RoleOfOtherOrg(users: UserTable, orgs: OrgTable, ms: MembershipTable, nextId: nat,
                       user: User, org: Organization, m: Membership,
                       users': UserTable, orgs': OrgTable, ms': MembershipTable, n: string)
    requires ProvisionStep(users, orgs, ms, nextId, user, org, m, users', orgs', ms')
    requires n != org.name
    ensures RoleOf(users', orgs', ms', user.email, n) == RoleOf(users, orgs, ms, user.email, n)
  {
    FindOrgByNameAfterPut(orgs, org, n);
    FindByEmailFinds(users', user);
    var o := FindOrgByName(orgs, n);
    if o.Some? {
      assert o.value.id != org.id;
      if user.id in users {
        FindByEmailFinds(users, user);
      } else {
        NewUserNotFound(users, user);
        assert (user.id, o.value.id) !in ms;
      }
    }
  }

  /** A provisioning step changes the role of its own pair at most. */
  lemma ProvisionKeepsOthers(users: UserTable, orgs: OrgTable, ms: MembershipTable, nextId: nat,
                             user: User, org: Organization, m: Membership,
                             users': UserTable, orgs': OrgTable, ms': MembershipTable)
    requires ProvisionStep(users, orgs, ms, nextId, user, org, m, users', orgs', ms')
    ensures forall e, n :: e != user.email || n != org.name ==> RoleOf(users', orgs', ms', e, n) == RoleOf(users, orgs, ms, e, n)
  {
    forall e, n | e != user.email || n != org.name
      ensures RoleOf(users', orgs', ms', e, n) == RoleOf(users, orgs, ms, e, n)
    {
      if e != user.email {
        RoleOfOtherEmail(users, orgs, ms, nextId, user, org, m, users', orgs', ms', e, n);
      } else {
        RoleOfOtherOrg(users, orgs, ms, nextId, user, org, m, users', orgs', ms', n);
      }
    }
  }

  /** Storing a new organization, which no membership names yet, changes no role. */
  lemma RoleOfNewOrg(users: UserTable, orgs: OrgTable, ms: MembershipTable, nextId: nat, org: Organization,
                     e: string, n: string)
    requires DirectoryValid(users, orgs, ms, nextId)
    requires org.id !in orgs && NamesUnique(orgs[org.id := org])
    ensures RoleOf(users, orgs[org.id := org], ms, e, n) == RoleOf(users, orgs, ms, e, n)
  {
    if n != org.name {
      FindOrgByNameAfterPut(orgs, org, n);
    } else {
      FindOrgByNameFinds(orgs[org.id := org], org);
      NewOrgNotFound(orgs, org);
      var u := FindByEmail(users, e);
      if u.Some? {
        assert (u.value.id, org.id) !in ms;
      }
    }
  }

  /** `password || "ChangeMe123!"`: an absent or empty password falls back to the temporary one. */
  const DefaultPassword: string := "ChangeMe123!"

  function PasswordToUse(password: Option<string>): (p: string)
    ensures NonEmpty(password) ==> p == password.value
    ensures !NonEmpty(password) ==> p == DefaultPassword
  {
    if NonEmpty(password) then password.value else DefaultPassword
  }

  datatype AddOutcome = AddOutcome(
    user: User,
    organization: Organization,
    membership: Membership,
    isNewUser: bool,
    isNewMembership: bool,
    roleChanged: bool)

  /** What a provisioning step found tells the role (email, orgName) held before it. */
  lemma RoleBefore(users: UserTable, orgs: OrgTable, ms: MembershipTable, nextId: nat,
                   user: User, org: Organization)
    requires DirectoryValid(users, orgs, ms, nextId)
    requires FindByEmail(users, user.email).Some? ==> FindByEmail(users, user.email) == Some(user)
    requires FindByEmail(users, user.email).None? ==> user.id !in users
    requires FindOrgByName(orgs, org.name).Some? ==> FindOrgByName(orgs, org.name) == Some(org)
    requires FindOrgByName(orgs, org.name).None? ==> org.id !in orgs
    ensures RoleOf(users, orgs, ms, user.email, org.name) ==
              if (user.id, org.id) in ms then Some(ms[(user.id, org.id)].role) else None
  {
  }

  /** The role of a stored user in a stored organization is read off their membership. */
  lemma RoleOfPair(users: UserTable, orgs: OrgTable, ms: MembershipTable, user: User, org: Organization)
    requires EmailsUnique(users) && NamesUnique(orgs)
    requires user.id in users && users[user.id] == user && org.id in orgs && orgs[org.id] == org
    ensures RoleOf(users, orgs, ms, user.email, org.name) ==
              if (user.id, org.id) in ms then Some(ms[(user.id, org.id)].role) else None
  {
    FindByEmailFinds(users, user);
    FindOrgByNameFinds(orgs, org);
  }

  class UsersService {
    var users: UserTable
    var orgs: OrgTable
    var memberships: MembershipTable
    /** The counter behind the store's key generator. */
    var nextId: nat
    /** The credential collaborator (bcrypt), left uninterpreted. */
    const hash: string -> string

    ghost predicate Valid()
      reads this
    {
      DirectoryValid(users, orgs, memberships, nextId)
    }

    /** The role of (email, orgName) in the current tables. */
    ghost function Role(email: string, orgName: string): Option<Role>
      reads this
      requires Valid()
    {
      RoleOf(users, orgs, memberships, email, orgName)
    }

    constructor (hash: string -> string)
      ensures Valid() && this.hash == hash
      ensures users == map[] && orgs == map[] && memberships == map[]
    {
      this.hash := hash;
      users, orgs, memberships := map[], map[], map[];
      nextId := 0;
    }

    /**
     * Saves a new user with the hash of `password`. The unique index on the
     * email rejects a second user with the same email.
     */
    method CreateUser(email: string, fullName: string, password: string) returns (r: Result<User>)
      requires Valid()
      modifies this
      ensures Valid()
      ensures r.Err? <==> old(FindByEmail(users, email)).Some?
      ensures r.Err? ==> r.error == Conflict && unchanged(this)
      ensures r.Ok? ==> r.value.id !in old(users) && r.value == User(r.value.id, email, fullName, hash(password))
      ensures r.Ok? ==> users == old(users)[r.value.id := r.value] && FindByEmail(users, email) == Some(r.value)
      ensures orgs == old(orgs) && memberships == old(memberships) && nextId >= old(nextId)
    {
      if FindByEmail(users, email).Some? {
        return Err(Conflict);
      }
      var user := User(FreshId(nextId), email, fullName, hash(password));
      InsertUserValid(users, orgs, memberships, nextId, user);
      users := users[user.id := user];
      nextId := nextId + 1;
      r := Ok(user);
    }

    /** Finds the organization named `name`, creating it when there is none. */
    method FindOrCreateOrg(name: string) returns (org: Organization)
      requires Valid()
      modifies this
      ensures Valid()
      ensures org.name == name && FindOrgByName(orgs, name) == Some(org)
      ensures old(FindOrgByName(orgs, name)).Some? ==> org == old(FindOrgByName(orgs, name)).value && unchanged(this)
      ensures old(FindOrgByName(orgs, name)).None? ==> org.id !in old(orgs)
      ensures orgs == old(orgs)[org.id := org]
      ensures users == old(users) && memberships == old(memberships) && nextId >= old(nextId)
      ensures forall e, n :: Role(e, n) == old(Role(e, n))
    {
      var found := FindOrgByName(orgs, name);
      if found.Some? {
        return found.value;
      }
      org := Organization(FreshId(nextId), name);
      InsertOrgValid(users, orgs, memberships, nextId, org);
      forall e, n ensures RoleOf(users, orgs[org.id := org], memberships, e, n) == RoleOf(users, orgs, memberships, e, n) {
        RoleOfNewOrg(users, orgs, memberships, nextId, org, e, n);
      }
      orgs := orgs[org.id := org];
      nextId := nextId + 1;
    }

    /** Finds the user registered under `email`, creating one when there is none. */
    method FindOrCreateUser(email: string, fullName: string, password: string) returns (user: User)
      requires Valid()
      modifies this
      ensures Valid()
      ensures user.email == email && FindByEmail(users, email) == Some(user)
      ensures old(FindByEmail(users, email)).Some? ==> user == old(FindByEmail(users, email)).value && unchanged(this)
      ensures old(FindByEmail(users, email)).None? ==>
                user.id !in old(users) && user.fullName == fullName && user.passwordHash == hash(password)
      ensures users == old(users)[user.id := user]
      ensures orgs == old(orgs) && memberships == old(memberships) && nextId >= old(nextId)
    {
      var found := FindByEmail(users, email);
      if found.Some? {
        return found.value;
      }
      var created := CreateUser(email, fullName, password);
      user := created.value;
    }

    /** Creates the membership of `user` in `org` with `role` unless one exists. */
    method EnsureMembership(user: User, org: Organization, role: Role)
      requires Valid()
      requires user.id in users && users[user.id] == user && org.id in orgs && orgs[org.id] == org
      modifies this
      ensures Valid()
      ensures (user.id, org.id) in old(memberships) ==> unchanged(this)
      ensures (user.id, org.id) !in old(memberships) ==>
                && (user.id, org.id) in memberships
                && memberships == old(memberships)[(user.id, org.id) := memberships[(user.id, org.id)]]
                && memberships[(user.id, org.id)].role == role
      ensures users == old(users) && orgs == old(orgs) && nextId >= old(nextId)
    {
      var existing := GetMembershipForUserInOrg(memberships, user.id, org.id);
      if existing.None? {
        var membership := Membership(FreshId(nextId), user.id, org.id, role);
        InsertMembershipValid(users, orgs, memberships, nextId, membership);
        memberships := memberships[(user.id, org.id) := membership];
        nextId := nextId + 1;
      }
    }

    /**
     * Provisioning used by seeding: find or create the organization by name,
     * then the user by email, then the membership. Strictly additive: an
     * existing user, organization or membership is reused as it is.
     */
    method CreateUserInOrg(email: string, fullName: string, password: string, orgName: string, role: Role)
      returns (user: User, organization: Organization)
      requires Valid()
      modifies this
      ensures Valid()
      ensures organization.name == orgName && orgs == old(orgs)[organization.id := organization]
      ensures old(FindOrgByName(orgs, orgName)).Some? ==> organization == old(FindOrgByName(orgs, orgName)).value
      ensures old(FindOrgByName(orgs, orgName)).None? ==> organization.id !in old(orgs)
      ensures user.email == email && users == old(users)[user.id := user]
      ensures old(FindByEmail(users, email)).Some? ==> user == old(FindByEmail(users, email)).value
      ensures old(FindByEmail(users, email)).None? ==>
                user.id !in old(users) && user.fullName == fullName && user.passwordHash == hash(password)
      ensures (user.id, organization.id) in old(memberships) ==> memberships == old(memberships)
      ensures (user.id, organization.id) !in old(memberships) ==>
                && (user.id, organization.id) in memberships
                && memberships == old(memberships)[(user.id, organization.id) := memberships[(user.id, organization.id)]]
                && memberships[(user.id, organization.id)].role == role
      ensures Role(email, orgName) == if old(Role(email, orgName)).Some? then old(Role(email, orgName)) else Some(role)
      ensures old(Role(email, orgName)).Some? ==> unchanged(this)
      ensures forall e, n :: e != email || n != orgName ==> Role(e, n) == old(Role(e, n))
    {
      ghost var users0, orgs0, ms0, next0 := users, orgs, memberships, nextId;
      organization := FindOrCreateOrg(orgName);
      user := FindOrCreateUser(email, fullName, password);
      RoleBefore(users0, orgs0, ms0, next0, user, organization);
      EnsureMembership(user, organization, role);
      RoleOfPair(users, orgs, memberships, user, organization);
      ghost var m := memberships[(user.id, organization.id)];
      assert ProvisionStep(users0, orgs0, ms0, next0, user, organization, m, users, orgs, memberships);
      ProvisionKeepsOthers(users0, orgs0, ms0, next0, user, organization, m, users, orgs, memberships);
    }

    /**
     * The user half of an add: an unknown email creates the user with
     * `password`; a known user's name is overwritten only by a non-empty,
     * different `fullName`.
     */
    method UpsertUser(email: string, fullName: string, password: string) returns (user: User, isNewUser: bool)
      requires Valid()
      modifies this
      ensures Valid()
      ensures isNewUser == old(FindByEmail(users, email)).None?
      ensures user.email == email && FindByEmail(users, email) == Some(user)
      ensures users == old(users)[user.id := user]
      ensures isNewUser ==> user.id !in old(users) && user == User(user.id, email, fullName, hash(password))
      ensures !isNewUser ==>
                var before := old(FindByEmail(users, email)).value;
                user == before.(fullName := if fullName != "" then fullName else before.fullName)
      ensures orgs == old(orgs) && memberships == old(memberships) && nextId >= old(nextId)
    {
      var found := FindByEmail(users, email);
      if found.None? {
        var created := CreateUser(email, fullName, password);
        return created.value, true;
      }
      user, isNewUser := found.value, false;
      if fullName != "" && user.fullName != fullName {
        RenameUserValid(users, orgs, memberships, nextId, user, fullName);
        user := user.(fullName := fullName);
        users := users[user.id := user];
      }
    }

    /** The membership half of an add: create it with `role`, or overwrite its role. */
    method UpsertMembership(user: User, org: Organization, role: Role)
      returns (membership: Membership, isNewMembership: bool, roleChanged: bool)
      requires Valid()
      requires user.id in users && users[user.id] == user && org.id in orgs && orgs[org.id] == org
      modifies this
      ensures Valid()
      ensures var key := (user.id, org.id);
                && memberships == old(memberships)[key := membership]
                && membership.role == role && membership.userId == user.id && membership.orgId == org.id
                && isNewMembership == (key !in old(memberships))
                && roleChanged == (key in old(memberships) && old(memberships)[key].role != role)
                && (key in old(memberships) ==> membership == old(memberships)[key].(role := role))
      ensures users == old(users) && orgs == old(orgs) && nextId >= old(nextId)
    {
      var key := (user.id, org.id);
      var existing := GetMembershipForUserInOrg(memberships, user.id, org.id);
      isNewMembership, roleChanged := false, false;
      if existing.None? {
        membership := Membership(FreshId(nextId), user.id, org.id, role);
        InsertMembershipValid(users, orgs, memberships, nextId, membership);
        nextId := nextId + 1;
        isNewMembership := true;
      } else {
        membership := existing.value;
        if membership.role != role {
          ChangeRoleValid(users, orgs, memberships, nextId, key, role);
          membership := membership.(role := role);
          roleChanged := true;
        }
      }
      memberships := memberships[key := membership];
    }

    /**
     * Adds a user to an existing organization, or updates the membership.
     * An unknown email creates the user with the given password (or the
     * temporary one); a known user's name is overwritten only by a
     * non-empty, different `fullName`. The membership is created with
     * `role`, or its role is overwritten.
     */
    method AddUserToOrgById(orgId: Id, email: string, fullName: string, role: Role, password: Option<string>)
      returns (r: Result<AddOutcome>)
      requires Valid()
      modifies this
      ensures Valid()
      ensures r.Err? <==> orgId !in old(orgs)
      ensures r.Err? ==> r.error == NotFound && unchanged(this)
      ensures r.Ok? ==> orgs == old(orgs) && r.value.organization == orgs[orgId]
      ensures r.Ok? ==> r.value.isNewUser == old(FindByEmail(users, email)).None?
      ensures r.Ok? ==> r.value.user.email == email && users == old(users)[r.value.user.id := r.value.user]
      ensures r.Ok? && r.value.isNewUser ==>
                r.value.user.id !in old(users) &&
                r.value.user == User(r.value.user.id, email, fullName, hash(PasswordToUse(password)))
      ensures r.Ok? && !r.value.isNewUser ==>
                var before := old(FindByEmail(users, email)).value;
                r.value.user == before.(fullName := if fullName != "" then fullName else before.fullName)
      ensures r.Ok? ==>
                var key := (r.value.user.id, orgId);
                && memberships == old(memberships)[key := r.value.membership]
                && r.value.membership.role == role
                && r.value.membership.userId == r.value.user.id && r.value.membership.orgId == orgId
                && r.value.isNewMembership == (key !in old(memberships))
                && r.value.roleChanged == (key in old(memberships) && old(memberships)[key].role != role)
                && (key in old(memberships) ==> r.value.membership == old(memberships)[key].(role := role))
    {
      if orgId !in orgs {
        return Err(NotFound);
      }
      var org := orgs[orgId];
      var user, isNewUser := UpsertUser(email, fullName, PasswordToUse(password));
      var membership, isNewMembership, roleChanged := UpsertMembership(user, org, role);
      r := Ok(AddOutcome(user, org, membership, isNewUser, isNewMembership, roleChanged));
    }
  }

  /** Storing the value a key already holds leaves the map as it was. */
  lemma RewriteSame<K, V>(m: map<K, V>, k: K, v: V)
    requires k in m && m[k] == v
    ensures m[k := v] == m
  {
  }

  /** Repeating an identical add changes nothing and reports all three flags false. */
  method AddUserToOrgByIdTwice(s: UsersService, orgId: Id, email: string, fullName: string, role: Role, password: Option<string>)
    returns (first: Result<AddOutcome>, second: Result<AddOutcome>)
    requires s.Valid()
    modifies s
    ensures s.Valid()
    ensures first.Ok? <==> second.Ok?
    ensures second.Ok? ==> !second.value.isNewUser && !second.value.isNewMembership && !second.value.roleChanged
    ensures second.Ok? ==> second.value.membership.role == role && second == first.(value := first.value.(isNewUser := false, isNewMembership := false, roleChanged := false))
    ensures first.Ok? ==> s.orgs == old(s.orgs)
    ensures first.Ok? ==> s.users == old(s.users)[first.value.user.id := first.value.user]
    ensures first.Ok? ==> s.memberships == old(s.memberships)[(first.value.user.id, orgId) := first.value.membership]
  {
    first := s.AddUserToOrgById(orgId, email, fullName, role, password);
    ghost var users1, orgs1, memberships1 := s.users, s.orgs, s.memberships;
    second := s.AddUserToOrgById(orgId, email, fullName, role, password);
    if first.Ok? {
      // the second call writes back the rows the first one stored
      RewriteSame(users1, first.value.user.id, first.value.user);
      RewriteSame(memberships1, (first.value.user.id, orgId), first.value.membership);
    }
  }
}
