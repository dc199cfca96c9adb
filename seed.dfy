/**
 * Start-up seeding: a fixed list of organizations, each with the users to
 * provision in it. Seeding is idempotent: it only finds or creates, so a
 * pair that already has a role keeps it, and a second run changes nothing.
 */
module Seed {
  import opened Wrappers
  import opened Roles
  import opened Entities
  import opened Users

  datatype SeedUser = SeedUser(email: string, fullName: string, password: string, role: Role)

  datatype OrgSeed = OrgSeed(orgName: string, users: seq<SeedUser>)

  const SeedPassword: string := "Password123!"
  /** The organization names use an en dash (U+2013). */
  const SanDiego: string := "TurboVets \U{2013} San Diego"
  const Austin: string := "TurboVets \U{2013} Austin"
  const HappyPaws: string := "Happy Paws Animal Clinic"
  const MultiUser: string := "multi.user@example.com"

  /** The groups to seed, in order. */
  function OrgsToSeed(): (r: seq<OrgSeed>)
    ensures |r| == 3 && r[0].orgName != r[1].orgName && r[0].orgName != r[2].orgName && r[1].orgName != r[2].orgName
    ensures forall a, b :: 0 <= a < |r| && 0 <= b < |r[a].users| ==> r[a].users[b].password == SeedPassword
  {
    [ OrgSeed(SanDiego, [ SeedUser("owner.sd@example.com", "San Diego Owner", SeedPassword, Owner),
                          SeedUser(MultiUser, "Multi Org User", SeedPassword, Member) ]),
      OrgSeed(Austin, [ SeedUser("owner.aus@example.com", "Austin Owner", SeedPassword, Owner) ]),
      OrgSeed(HappyPaws, [ SeedUser("owner.hp@example.com", "Happy Paws Owner", SeedPassword, Owner),
                           SeedUser(MultiUser, "Multi Org User", SeedPassword, Viewer) ]) ]
  }

  /** (a, b) names the b-th user of the a-th group. */
  predicate IsEntry(seeds: seq<OrgSeed>, a: int, b: int) {
    0 <= a < |seeds| && 0 <= b < |seeds[a].users|
  }

  /** The pair (email, organization name) an entry provisions. */
  function PairOf(seeds: seq<OrgSeed>, a: int, b: int): (string, string)
    requires IsEntry(seeds, a, b)
  {
    (seeds[a].users[b].email, seeds[a].orgName)
  }

  /** No pair (email, organization name) is listed twice. */
  ghost predicate PairsDistinct(seeds: seq<OrgSeed>) {
    forall a, b, a', b' :: IsEntry(seeds, a, b) && IsEntry(seeds, a', b') && (a, b) != (a', b') ==>
      PairOf(seeds, a, b) != PairOf(seeds, a', b')
  }

  /** Every group lists at least one user. */
  predicate GroupsNonEmpty(seeds: seq<OrgSeed>) {
    forall a :: 0 <= a < |seeds| ==> |seeds[a].users| > 0
  }

  lemma SeedPairsDistinct()
    ensures PairsDistinct(OrgsToSeed())
  {
    assert SanDiego[12] != Austin[12] && SanDiego[0] != HappyPaws[0] && Austin[0] != HappyPaws[0];
    assert "owner.sd@example.com"[6] != MultiUser[6] && "owner.hp@example.com"[6] != MultiUser[6];
  }

  lemma SeedGroupsNonEmpty()
    ensures GroupsNonEmpty(OrgsToSeed())
  {
  }

  /** The five entries, in list order. */
  lemma SeedEntries()
    ensures IsEntry(OrgsToSeed(), 0, 0) && PairOf(OrgsToSeed(), 0, 0) == ("owner.sd@example.com", SanDiego)
    ensures OrgsToSeed()[0].users[0].role == Owner
    ensures IsEntry(OrgsToSeed(), 0, 1) && PairOf(OrgsToSeed(), 0, 1) == (MultiUser, SanDiego)
    ensures OrgsToSeed()[0].users[1].role == Member
    ensures IsEntry(OrgsToSeed(), 1, 0) && PairOf(OrgsToSeed(), 1, 0) == ("owner.aus@example.com", Austin)
    ensures OrgsToSeed()[1].users[0].role == Owner
    ensures IsEntry(OrgsToSeed(), 2, 0) && PairOf(OrgsToSeed(), 2, 0) == ("owner.hp@example.com", HappyPaws)
    ensures OrgsToSeed()[2].users[0].role == Owner
    ensures IsEntry(OrgsToSeed(), 2, 1) && PairOf(OrgsToSeed(), 2, 1) == (MultiUser, HappyPaws)
    ensures OrgsToSeed()[2].users[1].role == Viewer
  {
  }

  /** The multi-organization user is not listed for Austin. */
  lemma MultiUserNotInAustin()
    ensures forall a, b :: IsEntry(OrgsToSeed(), a, b) ==> PairOf(OrgsToSeed(), a, b) != (MultiUser, Austin)
  {
    assert SanDiego[12] != Austin[12] && HappyPaws[0] != Austin[0] && "owner.aus@example.com"[0] != MultiUser[0];
  }

  /** The role a pair holds after seeding: the one it held before, or the listed one. */
  function Expected(before: Option<Role>, listed: Role): Option<Role> {
    if before.Some? then before else Some(listed)
  }

  /** Entries before (a, b) in list order are done; the rest are still to do. */
  predicate Before(a': int, b': int, a: int, b: int) {
    a' < a || (a' == a && b' < b)
  }

  /**
   * The tables after seeding every entry before (a, b), from tables whose
   * roles were those of `users0, orgs0, ms0`.
   */
  ghost predicate SeededUpTo(seeds: seq<OrgSeed>, users0: UserTable, orgs0: OrgTable, ms0: MembershipTable,
                             users: UserTable, orgs: OrgTable, ms: MembershipTable, a: int, b: int)
    requires EmailsUnique(users0) && NamesUnique(orgs0) && EmailsUnique(users) && NamesUnique(orgs)
  {
    && (forall a', b' {:trigger PairOf(seeds, a', b')} :: IsEntry(seeds, a', b') ==>
          var (e, n) := PairOf(seeds, a', b');
          RoleOf(users, orgs, ms, e, n) ==
            if Before(a', b', a, b) then Expected(RoleOf(users0, orgs0, ms0, e, n), seeds[a'].users[b'].role)
            else RoleOf(users0, orgs0, ms0, e, n))
    && (forall e, n :: (forall a', b' :: IsEntry(seeds, a', b') ==> PairOf(seeds, a', b') != (e, n)) ==>
          RoleOf(users, orgs, ms, e, n) == RoleOf(users0, orgs0, ms0, e, n))
  }

  /** Every listed pair has a role. */
  ghost predicate AllSeeded(seeds: seq<OrgSeed>, users: UserTable, orgs: OrgTable, ms: MembershipTable)
    requires EmailsUnique(users) && NamesUnique(orgs)
  {
    forall a, b {:trigger PairOf(seeds, a, b)} :: IsEntry(seeds, a, b) ==>
      RoleOf(users, orgs, ms, PairOf(seeds, a, b).0, PairOf(seeds, a, b).1).Some?
  }

  /** Finishing group a is starting group a + 1. */
  lemma NextGroup(seeds: seq<OrgSeed>, users0: UserTable, orgs0: OrgTable, ms0: MembershipTable,
                  users: UserTable, orgs: OrgTable, ms: MembershipTable, a: nat)
    requires EmailsUnique(users0) && NamesUnique(orgs0) && EmailsUnique(users) && NamesUnique(orgs)
    requires a < |seeds|
    requires SeededUpTo(seeds, users0, orgs0, ms0, users, orgs, ms, a, |seeds[a].users|)
    ensures SeededUpTo(seeds, users0, orgs0, ms0, users, orgs, ms, a + 1, 0)
  {
    forall a', b' | IsEntry(seeds, a', b')
      ensures Before(a', b', a, |seeds[a].users|) == Before(a', b', a + 1, 0)
    {
    }
  }

  /** Provisioning entry (a, b), which changes its own pair at most, moves the mark past it. */
  lemma EntrySeeded(seeds: seq<OrgSeed>, users0: UserTable, orgs0: OrgTable, ms0: MembershipTable,
                    users: UserTable, orgs: OrgTable, ms: MembershipTable,
                    users': UserTable, orgs': OrgTable, ms': MembershipTable, a: nat, b: nat,
                    email: string, orgName: string)
    requires PairsDistinct(seeds) && IsEntry(seeds, a, b) && PairOf(seeds, a, b) == (email, orgName)
    requires EmailsUnique(users0) && NamesUnique(orgs0) && EmailsUnique(users) && NamesUnique(orgs)
    requires EmailsUnique(users') && NamesUnique(orgs')
    requires SeededUpTo(seeds, users0, orgs0, ms0, users, orgs, ms, a, b)
    requires RoleOf(users', orgs', ms', email, orgName) ==
             Expected(RoleOf(users, orgs, ms, email, orgName), seeds[a].users[b].role)
    requires forall e, n :: e != email || n != orgName ==>
               RoleOf(users', orgs', ms', e, n) == RoleOf(users, orgs, ms, e, n)
    ensures SeededUpTo(seeds, users0, orgs0, ms0, users', orgs', ms', a, b + 1)
  {
    forall a', b' | IsEntry(seeds, a', b')
      ensures var (e, n) := PairOf(seeds, a', b');
              RoleOf(users', orgs', ms', e, n) ==
                if Before(a', b', a, b + 1) then Expected(RoleOf(users0, orgs0, ms0, e, n), seeds[a'].users[b'].role)
                else RoleOf(users0, orgs0, ms0, e, n)
    {
      if (a', b') != (a, b) {
        assert PairOf(seeds, a', b') != PairOf(seeds, a, b);
      }
    }
    forall e, n | (forall a', b' :: IsEntry(seeds, a', b') ==> PairOf(seeds, a', b') != (e, n))
      ensures RoleOf(users', orgs', ms', e, n) == RoleOf(users0, orgs0, ms0, e, n)
    {
      assert PairOf(seeds, a, b) != (e, n);
    }
  }

  /** A step that changes no role keeps the mark where it is. */
  lemma SameRoles(seeds: seq<OrgSeed>, users0: UserTable, orgs0: OrgTable, ms0: MembershipTable,
                  users: UserTable, orgs: OrgTable, ms: MembershipTable,
                  users': UserTable, orgs': OrgTable, ms': MembershipTable, a: nat, b: nat)
    requires EmailsUnique(users0) && NamesUnique(orgs0) && EmailsUnique(users) && NamesUnique(orgs)
    requires EmailsUnique(users') && NamesUnique(orgs')
    requires SeededUpTo(seeds, users0, orgs0, ms0, users, orgs, ms, a, b)
    requires forall e, n :: RoleOf(users', orgs', ms', e, n) == RoleOf(users, orgs, ms, e, n)
    ensures SeededUpTo(seeds, users0, orgs0, ms0, users', orgs', ms', a, b)
  {
  }

  /** With every entry done, each listed pair holds its expected role. */
  lemma AllDone(seeds: seq<OrgSeed>, users0: UserTable, orgs0: OrgTable, ms0: MembershipTable,
                users: UserTable, orgs: OrgTable, ms: MembershipTable)
    requires EmailsUnique(users0) && NamesUnique(orgs0) && EmailsUnique(users) && NamesUnique(orgs)
    requires SeededUpTo(seeds, users0, orgs0, ms0, users, orgs, ms, |seeds|, 0)
    ensures forall a, b {:trigger PairOf(seeds, a, b)} :: IsEntry(seeds, a, b) ==>
              var (e, n) := PairOf(seeds, a, b);
              RoleOf(users, orgs, ms, e, n) == Expected(RoleOf(users0, orgs0, ms0, e, n), seeds[a].users[b].role)
    ensures AllSeeded(seeds, users, orgs, ms)
  {
    forall a, b | IsEntry(seeds, a, b)
      ensures var (e, n) := PairOf(seeds, a, b);
              RoleOf(users, orgs, ms, e, n) == Expected(RoleOf(users0, orgs0, ms0, e, n), seeds[a].users[b].role)
    {
      assert Before(a, b, |seeds|, 0);
    }
  }

  class SeedService {
    const users: UsersService

    constructor (users: UsersService)
      ensures this.users == users
    {
      this.users := users;
    }

    /**
     * Provisions every listed user in its group's organization, group by
     * group: the organization is found by name or created, then each user
     * goes through the find-or-create provisioning.
     */
    method Seed()
      requires users.Valid()
      modifies users
      ensures users.Valid()
      ensures forall a, b {:trigger PairOf(OrgsToSeed(), a, b)} :: IsEntry(OrgsToSeed(), a, b) ==>
                var (e, n) := PairOf(OrgsToSeed(), a, b);
                users.Role(e, n) == Expected(old(users.Role(e, n)), OrgsToSeed()[a].users[b].role)
      ensures forall e, n :: (forall a, b :: IsEntry(OrgsToSeed(), a, b) ==> PairOf(OrgsToSeed(), a, b) != (e, n)) ==>
                users.Role(e, n) == old(users.Role(e, n))
      ensures AllSeeded(OrgsToSeed(), users.users, users.orgs, users.memberships)
      ensures old(AllSeeded(OrgsToSeed(), users.users, users.orgs, users.memberships)) ==> unchanged(users)
    {
      SeedPairsDistinct();
      SeedGroupsNonEmpty();
      SeedGroups(OrgsToSeed());
    }

    /**
     * Seeding an empty directory: every listed pair gets its listed role, so
     * the multi-organization user is a MEMBER in San Diego, a VIEWER at the
     * clinic and nothing in Austin.
     */
    method SeedEmpty()
      requires users.Valid() && users.users == map[] && users.orgs == map[] && users.memberships == map[]
      modifies users
      ensures users.Valid()
      ensures users.Role("owner.sd@example.com", SanDiego) == Some(Owner)
      ensures users.Role("owner.aus@example.com", Austin) == Some(Owner)
      ensures users.Role("owner.hp@example.com", HappyPaws) == Some(Owner)
      ensures users.Role(MultiUser, SanDiego) == Some(Member)
      ensures users.Role(MultiUser, HappyPaws) == Some(Viewer)
      ensures users.Role(MultiUser, Austin) == None
    {
      assert forall e, n :: users.Role(e, n) == None;
      Seed();
      SeedEntries();
      MultiUserNotInAustin();
    }

    /** The loop of `Seed`, over any list whose pairs are distinct and whose groups are non-empty. */
    method SeedGroups(seeds: seq<OrgSeed>)
      requires users.Valid() && PairsDistinct(seeds) && GroupsNonEmpty(seeds)
      modifies users
      ensures users.Valid()
      ensures forall a, b {:trigger PairOf(seeds, a, b)} :: IsEntry(seeds, a, b) ==>
                var (e, n) := PairOf(seeds, a, b);
                users.Role(e, n) == Expected(old(users.Role(e, n)), seeds[a].users[b].role)
      ensures forall e, n :: (forall a, b :: IsEntry(seeds, a, b) ==> PairOf(seeds, a, b) != (e, n)) ==>
                users.Role(e, n) == old(users.Role(e, n))
      ensures AllSeeded(seeds, users.users, users.orgs, users.memberships)
      ensures old(AllSeeded(seeds, users.users, users.orgs, users.memberships)) ==> unchanged(users)
    {
      ghost var users0, orgs0, ms0 := users.users, users.orgs, users.memberships;
      ghost var allSeeded0 := AllSeeded(seeds, users0, orgs0, ms0);
      var a := 0;
      while a < |seeds|
        invariant 0 <= a <= |seeds|
        invariant users.Valid()
        invariant SeededUpTo(seeds, users0, orgs0, ms0, users.users, users.orgs, users.memberships, a, 0)
        invariant allSeeded0 ==> unchanged(users)
      {
        SeedGroup(seeds, a, users0, orgs0, ms0);
        a := a + 1;
      }
      AllDone(seeds, users0, orgs0, ms0, users.users, users.orgs, users.memberships);
    }

    /** One group: its organization is found or created, then each of its users is provisioned. */
    method SeedGroup(seeds: seq<OrgSeed>, a: nat, ghost users0: UserTable, ghost orgs0: OrgTable, ghost ms0: MembershipTable)
      requires users.Valid() && PairsDistinct(seeds) && GroupsNonEmpty(seeds) && a < |seeds|
      requires EmailsUnique(users0) && NamesUnique(orgs0)
      requires SeededUpTo(seeds, users0, orgs0, ms0, users.users, users.orgs, users.memberships, a, 0)
      modifies users
      ensures users.Valid()
      ensures SeededUpTo(seeds, users0, orgs0, ms0, users.users, users.orgs, users.memberships, a + 1, 0)
      ensures old(AllSeeded(seeds, users.users, users.orgs, users.memberships)) ==> unchanged(users)
    {
      ghost var allSeeded0 := AllSeeded(seeds, users.users, users.orgs, users.memberships);
      var orgSeed := seeds[a];
      if allSeeded0 {
        assert IsEntry(seeds, a, 0);
      }
      SeedOrg(seeds, a, users0, orgs0, ms0);
      var b := 0;
      while b < |orgSeed.users|
        invariant 0 <= b <= |orgSeed.users|
        invariant users.Valid()
        invariant SeededUpTo(seeds, users0, orgs0, ms0, users.users, users.orgs, users.memberships, a, b)
        invariant allSeeded0 ==> unchanged(users)
      {
        if allSeeded0 {
          assert IsEntry(seeds, a, b);
          assert users.Role(PairOf(seeds, a, b).0, PairOf(seeds, a, b).1).Some?;
        }
        SeedEntry(seeds, a, b, users0, orgs0, ms0);
        b := b + 1;
      }
      NextGroup(seeds, users0, orgs0, ms0, users.users, users.orgs, users.memberships, a);
    }

    /** The organization of group a, found by name or created. */
    method SeedOrg(seeds: seq<OrgSeed>, a: nat, ghost users0: UserTable, ghost orgs0: OrgTable, ghost ms0: MembershipTable)
      requires users.Valid() && a < |seeds| && EmailsUnique(users0) && NamesUnique(orgs0)
      requires SeededUpTo(seeds, users0, orgs0, ms0, users.users, users.orgs, users.memberships, a, 0)
      modifies users
      ensures users.Valid()
      ensures SeededUpTo(seeds, users0, orgs0, ms0, users.users, users.orgs, users.memberships, a, 0)
      ensures IsEntry(seeds, a, 0) && old(users.Role(PairOf(seeds, a, 0).0, PairOf(seeds, a, 0).1)).Some? ==>
                unchanged(users)
      ensures FindOrgByName(users.orgs, seeds[a].orgName).Some?
      ensures users.users == old(users.users) && users.memberships == old(users.memberships)
    {
      ghost var usersA, orgsA, msA := users.users, users.orgs, users.memberships;
      var org := users.FindOrCreateOrg(seeds[a].orgName);
      forall e, n ensures RoleOf(users.users, users.orgs, users.memberships, e, n) == RoleOf(usersA, orgsA, msA, e, n) {
        assert users.Role(e, n) == old(users.Role(e, n));
      }
      SameRoles(seeds, users0, orgs0, ms0, usersA, orgsA, msA, users.users, users.orgs, users.memberships, a, 0);
    }

    /** One entry: the find-or-create provisioning of its user in its group's organization. */
    method SeedEntry(seeds: seq<OrgSeed>, a: nat, b: nat, ghost users0: UserTable, ghost orgs0: OrgTable, ghost ms0: MembershipTable)
      requires users.Valid() && PairsDistinct(seeds) && IsEntry(seeds, a, b)
      requires EmailsUnique(users0) && NamesUnique(orgs0)
      requires SeededUpTo(seeds, users0, orgs0, ms0, users.users, users.orgs, users.memberships, a, b)
      modifies users
      ensures users.Valid()
      ensures SeededUpTo(seeds, users0, orgs0, ms0, users.users, users.orgs, users.memberships, a, b + 1)
      ensures old(users.Role(PairOf(seeds, a, b).0, PairOf(seeds, a, b).1)).Some? ==> unchanged(users)
    {
      var orgSeed := seeds[a];
      var entry := orgSeed.users[b];
      ghost var usersB, orgsB, msB := users.users, users.orgs, users.memberships;
      var user, organization := users.CreateUserInOrg(entry.email, entry.fullName, entry.password, orgSeed.orgName, entry.role);
      assert RoleOf(users.users, users.orgs, users.memberships, entry.email, orgSeed.orgName) ==
             Expected(RoleOf(usersB, orgsB, msB, entry.email, orgSeed.orgName), entry.role);
      forall e, n | e != entry.email || n != orgSeed.orgName
        ensures RoleOf(users.users, users.orgs, users.memberships, e, n) == RoleOf(usersB, orgsB, msB, e, n)
      {
        assert users.Role(e, n) == old(users.Role(e, n));
      }
      EntrySeeded(seeds, users0, orgs0, ms0, usersB, orgsB, msB, users.users, users.orgs, users.memberships,
                  a, b, entry.email, orgSeed.orgName);
    }
  }
}
