/** What both controllers read from a request before calling a service. */
module Requests {
  import opened Wrappers
  import opened Entities

  /**
   * The `x-org-id` header selects the organization a request acts in; a
   * missing or empty header is a bad request, decided before any
   * authorization or service call.
   */
  function GetOrgIdFromRequest(header: Option<string>): (r: Result<Id>)
    ensures r.Err? <==> !NonEmpty(header)
    ensures r.Err? ==> r.error == BadRequest
    ensures r.Ok? ==> r.value == header.value && r.value != ""
  {
    if NonEmpty(header) then Ok(header.value) else Err(BadRequest)
  }
}
