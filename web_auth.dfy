/**
 * The client's session state: the signed-in user's token and email, the
 * selected organization, and the list of organizations the user belongs
 * to, with the role the user holds in each. The role helpers read only
 * this state.
 */
module WebAuth {
  import opened Wrappers
  import opened Roles

  datatype OrgSummary = OrgSummary(organizationId: string, organizationName: string, role: Role)

  datatype AuthState = AuthState(token: string, email: string, currentOrgId: Option<string>, currentOrgName: Option<string>)

  /** The first summary whose id is `orgId`. */
  function FindOrg(orgs: seq<OrgSummary>, orgId: string): (r: Option<OrgSummary>)
    ensures r.None? <==> forall i :: 0 <= i < |orgs| ==> orgs[i].organizationId != orgId
    ensures r.Some? ==> exists i :: 0 <= i < |orgs| && orgs[i] == r.value && r.value.organizationId == orgId &&
                                  forall j :: 0 <= j < i ==> orgs[j].organizationId != orgId
  {
    if orgs == [] then None
    else if orgs[0].organizationId == orgId then Some(orgs[0])
    else
      var rest := FindOrg(orgs[1..], orgId);
      assert rest.Some? ==> exists i :: 0 < i < |orgs| && orgs[i] == rest.value &&
                                      forall j :: 0 <= j < i ==> orgs[j].organizationId != orgId by {
        if rest.Some? {
          var k :| 0 <= k < |orgs[1..]| && orgs[1..][k] == rest.value &&
                   forall j :: 0 <= j < k ==> orgs[1..][j].organizationId != orgId;
          assert orgs[k + 1] == rest.value;
          assert forall j :: 0 < j < k + 1 ==> orgs[j] == orgs[1..][j - 1];
        }
      }
      rest
  }

  /** The state with `org` selected; token and email are kept. */
  function Select(state: AuthState, org: OrgSummary): (r: AuthState)
    ensures r.token == state.token && r.email == state.email
    ensures r.currentOrgId == Some(org.organizationId) && r.currentOrgName == Some(org.organizationName)
  {
    state.(currentOrgId := Some(org.organizationId), currentOrgName := Some(org.organizationName))
  }

  class AuthService {
    var authState: Option<AuthState>
    var orgs: seq<OrgSummary>

    /** `stored` is the state read back from browser storage, if any parsed. */
    constructor (stored: Option<AuthState>)
      ensures authState == stored && orgs == []
    {
      authState, orgs := stored, [];
    }

    function Token(): (r: Option<string>)
      reads this
      ensures r.Some? <==> authState.Some?
      ensures r.Some? ==> r.value == authState.value.token
    {
      if authState.Some? then Some(authState.value.token) else None
    }

    /** Signed in means a token that is present and non-empty. */
    function IsLoggedIn(): (r: bool)
      reads this
      ensures r <==> authState.Some? && authState.value.token != ""
    {
      NonEmpty(Token())
    }

    function CurrentOrgId(): (r: Option<string>)
      reads this
      ensures r.Some? ==> authState.Some? && authState.value.currentOrgId == r
      ensures r.None? ==> authState.None? || authState.value.currentOrgId.None?
    {
      if authState.Some? then authState.value.currentOrgId else None
    }

    /** The role of the first listed organization matching the selection; none without a selection. */
    function GetCurrentOrgRole(): (r: Option<Role>)
      reads this
      ensures !NonEmpty(CurrentOrgId()) ==> r.None?
      ensures NonEmpty(CurrentOrgId()) ==>
                (r.None? <==> forall i :: 0 <= i < |orgs| ==> orgs[i].organizationId != CurrentOrgId().value)
      ensures r.Some? ==>
                && NonEmpty(CurrentOrgId())
                && exists i :: 0 <= i < |orgs| && orgs[i].organizationId == CurrentOrgId().value && orgs[i].role == r.value &&
                               forall j :: 0 <= j < i ==> orgs[j].organizationId != CurrentOrgId().value
    {
      var orgId := CurrentOrgId();
      if !NonEmpty(orgId) then None
      else
        var org := FindOrg(orgs, orgId.value);
        if org.Some? then Some(org.value.role) else None
    }

    /** The helpers name the roles one by one; ADMIN or OWNER is exactly "at least ADMIN". */
    function IsAdminOrOwner(): (r: bool)
      reads this
      ensures r <==> GetCurrentOrgRole().Some? && HasAtLeastRole(GetCurrentOrgRole().value, Admin)
    {
      var role := GetCurrentOrgRole();
      role == Some(Admin) || role == Some(Owner)
    }

    /** MANAGER, ADMIN or OWNER is exactly "at least MANAGER". */
    function IsManagerOrAbove(): (r: bool)
      reads this
      ensures r <==> GetCurrentOrgRole().Some? && HasAtLeastRole(GetCurrentOrgRole().value, Manager)
    {
      var role := GetCurrentOrgRole();
      role == Some(Manager) || role == Some(Admin) || role == Some(Owner)
    }

    /** The state effect of a successful login; `token` is the one the server issued. */
    method Login(email: string, token: string)
      modifies this
      ensures authState == Some(AuthState(token, email, None, None)) && orgs == []
    {
      authState := Some(AuthState(token, email, None, None));
      orgs := [];
    }

    method Logout()
      modifies this
      ensures authState == None && orgs == []
    {
      authState := None;
      orgs := [];
    }

    /** Selects `org`; signed out, nothing happens. */
    method SetCurrentOrg(org: OrgSummary)
      modifies this
      ensures old(authState).None? ==> unchanged(this)
      ensures old(authState).Some? ==> authState == Some(Select(old(authState).value, org))
      ensures orgs == old(orgs)
    {
      if authState.None? {
        return;
      }
      authState := Some(Select(authState.value, org));
    }

    /** Selects the first listed organization with id `orgId`; an unlisted id changes nothing. */
    method SetCurrentOrgById(orgId: string)
      modifies this
      ensures FindOrg(old(orgs), orgId).None? ==> unchanged(this)
      ensures FindOrg(old(orgs), orgId).Some? && old(authState).Some? ==>
                authState == Some(Select(old(authState).value, FindOrg(old(orgs), orgId).value))
      ensures old(authState).None? ==> unchanged(this)
      ensures orgs == old(orgs)
    {
      var found := FindOrg(orgs, orgId);
      if found.Some? {
        SetCurrentOrg(found.value);
      }
    }

    /**
     * The state effect of loading the organization list `fetched`: the list
     * is replaced; with no selection the first organization is selected,
     * and a selection still listed is refreshed from the list.
     */
    method LoadOrganizations(fetched: seq<OrgSummary>)
      modifies this
      ensures orgs == fetched
      ensures old(authState).None? ==> authState == None
      ensures old(authState).Some? && !NonEmpty(old(authState).value.currentOrgId) ==>
                authState == if |fetched| > 0 then Some(Select(old(authState).value, fetched[0])) else old(authState)
      ensures old(authState).Some? && NonEmpty(old(authState).value.currentOrgId) ==>
                var found := FindOrg(fetched, old(authState).value.currentOrgId.value);
                authState == if found.Some? then Some(Select(old(authState).value, found.value)) else old(authState)
    {
      orgs := fetched;
      var current := authState;
      if current.Some? && !NonEmpty(current.value.currentOrgId) && |fetched| > 0 {
        SetCurrentOrg(fetched[0]);
      } else if current.Some? && NonEmpty(current.value.currentOrgId) {
        var found := FindOrg(fetched, current.value.currentOrgId.value);
        if found.Some? {
          SetCurrentOrg(found.value);
        }
      }
    }
  }
}
