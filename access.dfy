/**
 * The access rules of app.py: the `admin_required` decorator, and the checks
 * written inline in `UserByID` and `OrderByID`.
 *
 * A request's token is modelled as the user id it carries (`Some(id)`), or
 * `None` for a request with no valid token (401 for a missing one; how a
 * malformed token is answered belongs to the JWT verification, which is not
 * modelled). Each check
 * either lets the handler run (`Pass`) or answers with a status (`Deny`).
 * `Deny(500)` stands for the `AttributeError` raised when the code reads
 * `.role` of a requester whose user row no longer exists.
 */
module Access {
  import opened Wrappers
  import opened Schema

  datatype Gate = Pass | Deny(status: nat)

  const AdminRole := "admin"

  predicate IsAdmin(users: map<nat, User>, id: nat) {
    id in users && users[id].role == AdminRole
  }

  /**
   * `admin_required`: 404 when the token's user does not exist, 403 when its
   * role is not `admin`; the wrapped handler runs only for an admin.
   */
  function AdminRequired(users: map<nat, User>, token: Option<nat>): (g: Gate)
    ensures g == Pass <==> token.Some? && IsAdmin(users, token.value)
    ensures token.None? ==> g == Deny(401)
    ensures token.Some? && token.value !in users ==> g == Deny(404)
    ensures token.Some? && token.value in users && !IsAdmin(users, token.value) ==> g == Deny(403)
  {
    if token.None? then Deny(401)
    else if token.value !in users then Deny(404)
    else if users[token.value].role != AdminRole then Deny(403)
    else Pass
  }

  /**
   * `UserByID.get` and `UserByID.patch`: the target is looked up first (404),
   * then a requester other than the target must be an admin (403). The
   * requester's own row is read only when it is not the target.
   */
  function SelfOrAdmin(users: map<nat, User>, token: Option<nat>, target: nat): (g: Gate)
    ensures g == Pass <==> token.Some? && target in users && (token.value == target || IsAdmin(users, token.value))
    ensures token.None? ==> g == Deny(401)
    ensures token.Some? && target !in users ==> g == Deny(404)
    ensures token.Some? && target in users && token.value != target ==>
              (token.value in users && !IsAdmin(users, token.value) ==> g == Deny(403))
    ensures token.Some? && target in users && token.value != target && token.value !in users ==> g == Deny(500)
  {
    if token.None? then Deny(401)
    else if target !in users then Deny(404)
    else if token.value != target && token.value !in users then Deny(500)
    else if token.value != target && users[token.value].role != AdminRole then Deny(403)
    else Pass
  }

  /**
   * `UserByID.delete`: the requester's role is checked first (403), and only
   * then is the target looked up (404), so a non-admin gets 403 even for an
   * id that does not exist.
   */
  function AdminThenTarget(users: map<nat, User>, token: Option<nat>, target: nat): (g: Gate)
    ensures g == Pass <==> token.Some? && IsAdmin(users, token.value) && target in users
    ensures token.None? ==> g == Deny(401)
    ensures token.Some? && token.value in users && !IsAdmin(users, token.value) ==> g == Deny(403)
    ensures token.Some? && IsAdmin(users, token.value) && target !in users ==> g == Deny(404)
    ensures token.Some? && token.value !in users ==> g == Deny(500)
  {
    if token.None? then Deny(401)
    else if token.value !in users then Deny(500)
    else if users[token.value].role != AdminRole then Deny(403)
    else if target !in users then Deny(404)
    else Pass
  }

  /**
   * `OrderByID.get`: 404 for an unknown order, then 403 unless the requester
   * owns it. There is no admin override: the check does not read the users.
   */
  function OwnerOnly(orders: map<nat, Order>, token: Option<nat>, orderId: nat): (g: Gate)
    ensures g == Pass <==> token.Some? && orderId in orders && orders[orderId].userId == token.value
    ensures token.None? ==> g == Deny(401)
    ensures token.Some? && orderId !in orders ==> g == Deny(404)
    ensures token.Some? && orderId in orders && orders[orderId].userId != token.value ==> g == Deny(403)
  {
    if token.None? then Deny(401)
    else if orderId !in orders then Deny(404)
    else if orders[orderId].userId != token.value then Deny(403)
    else Pass
  }

  /**
   * The two user checks order their errors differently: for a customer asking
   * about an id that does not exist, get/patch answer 404 and delete answers 403.
   */
  lemma {:induction false} UserChecksOrderDiffers(users: map<nat, User>, requester: nat, target: nat)
    requires requester in users && !IsAdmin(users, requester) && target !in users
    ensures SelfOrAdmin(users, Some(requester), target) == Deny(404)
    ensures AdminThenTarget(users, Some(requester), target) == Deny(403)
  {
  }

  /** A user may always read and patch their own row, whatever their role. */
  lemma {:induction false} SelfAlwaysPasses(users: map<nat, User>, id: nat)
    requires id in users
    ensures SelfOrAdmin(users, Some(id), id) == Pass
  {
  }

  /** An admin who does not own an order is refused it, like anyone else. */
  lemma {:induction false} AdminCannotReadOthersOrder(users: map<nat, User>, orders: map<nat, Order>, admin: nat, orderId: nat)
    requires IsAdmin(users, admin) && orderId in orders && orders[orderId].userId != admin
    ensures OwnerOnly(orders, Some(admin), orderId) == Deny(403)
  {
  }
}
