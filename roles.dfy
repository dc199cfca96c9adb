/** The five organization roles and the order every authorization decision reduces to. */
module Roles {

  datatype Role = Owner | Admin | Manager | Member | Viewer

  /** The priority table: OWNER 5, ADMIN 4, MANAGER 3, MEMBER 2, VIEWER 1. */
  function Priority(r: Role): (p: int)
    ensures 1 <= p <= 5
  {
    match r
    case Owner => 5
    case Admin => 4
    case Manager => 3
    case Member => 2
    case Viewer => 1
  }

  /** The role requirement check: OWNER meets every requirement, VIEWER only its own. */
  function HasAtLeastRole(userRole: Role, requiredRole: Role): (r: bool)
    ensures userRole == requiredRole ==> r
    ensures userRole == Owner || requiredRole == Viewer ==> r
    ensures userRole == Viewer ==> (r <==> requiredRole == Viewer)
    ensures requiredRole == Owner ==> (r <==> userRole == Owner)
  {
    Priority(userRole) >= Priority(requiredRole)
  }

  /** No two roles share a priority, so the table is a ranking. */
  lemma PriorityInjective(a: Role, b: Role)
    ensures Priority(a) == Priority(b) ==> a == b
  {
  }

  lemma HasAtLeastRoleReflexive(r: Role)
    ensures HasAtLeastRole(r, r)
  {
  }

  lemma HasAtLeastRoleTotal(a: Role, b: Role)
    ensures HasAtLeastRole(a, b) || HasAtLeastRole(b, a)
  {
  }

  lemma HasAtLeastRoleAntisymmetric(a: Role, b: Role)
    requires HasAtLeastRole(a, b) && HasAtLeastRole(b, a)
    ensures a == b
  {
    PriorityInjective(a, b);
  }

  lemma HasAtLeastRoleTransitive(a: Role, b: Role, c: Role)
    requires HasAtLeastRole(a, b) && HasAtLeastRole(b, c)
    ensures HasAtLeastRole(a, c)
  {
  }

  /** VIEWER is the floor every role clears; only OWNER clears OWNER. */
  lemma RoleBounds(r: Role)
    ensures HasAtLeastRole(r, Viewer)
    ensures HasAtLeastRole(r, Owner) <==> r == Owner
  {
  }
}
