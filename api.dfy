/**
 * The request handlers of app.py over a store of tables.
 *
 * `Store` holds one map per table; a handler that writes (`db.session.add`,
 * `delete`, then `commit`) is a method that updates those maps in one step,
 * and a handler that only queries is a function that reads them. Each handler
 * takes the request's token as the user id it carries, or `None` for a
 * request with no valid token (401 for a missing one; malformed tokens belong
 * to the JWT verification, which is not modelled), and answers with an HTTP
 * status.
 * Request bodies are records whose `None` fields are keys the JSON body does
 * not have. A `KeyError` for a missing required key, and a `ValueError` from
 * a validator, end the request with 500 before anything is committed.
 */
module Api {
  import opened Wrappers
  import opened Validators
  import opened Schema
  import opened Access
  import opened UserPatch

  /** The body of `POST /users`. */
  datatype Registration = Registration(
    userName: Option<string>,
    email: Option<string>,
    password: Option<string>,
    phoneNumber: Option<string>,
    role: Option<string>)

  /** A status and, for a successful query, what the response lists. */
  datatype Reply<T> = Reply(status: nat, body: Option<T>)

  /** The answer of `POST /login`: the user's id and role with 200, or an error status. */
  datatype LoginReply = LoggedIn(id: nat, role: string) | LoginRefused(status: nat)

  const CustomerRole := "customer"

  /** Some stored user has exactly this email (`User.query.filter_by(email=email).first()` finds one). */
  predicate EmailTaken(users: map<nat, User>, email: string) {
    exists id | id in users :: users[id].email == email
  }

  /** The `unique=True` constraints on `users.email` and `users.user_name`. */
  predicate UniqueUsers(users: map<nat, User>) {
    forall i, j | i in users && j in users && i != j ::
      users[i].email != users[j].email && users[i].userName != users[j].userName
  }

  /**
   * Writing `u` at row `id` would break a unique constraint: another row
   * already has its email or its display name. The commit then raises
   * `IntegrityError`, which nothing catches.
   */
  predicate ClashesWith(users: map<nat, User>, id: nat, u: User) {
    exists j | j in users && j != id :: users[j].email == u.email || users[j].userName == u.userName
  }

  /** A write the constraints admit keeps every email and display name unique. */
  lemma UniqueAfterWrite(users: map<nat, User>, id: nat, u: User)
    requires UniqueUsers(users) && !ClashesWith(users, id, u)
    ensures UniqueUsers(users[id := u])
  {
    var after := users[id := u];
    forall i, j | i in after && j in after && i != j
      ensures after[i].email != after[j].email && after[i].userName != after[j].userName
    {
      if i == id {
        assert !(users[j].email == u.email || users[j].userName == u.userName);
      } else if j == id {
        assert !(users[i].email == u.email || users[i].userName == u.userName);
      }
    }
  }

  /** The row `filter_by(email=email).first()` returns: the matching user with the smallest id. */
  function FirstWithEmail(users: map<nat, User>, email: string): (r: Option<nat>)
    ensures r.None? <==> !EmailTaken(users, email)
    ensures r.Some? ==> r.value in users && users[r.value].email == email
    ensures r.Some? ==> forall id | id in users && users[id].email == email :: r.value <= id
  {
    var matching := set id | id in users && users[id].email == email;
    assert forall id | id in users && users[id].email == email :: id in matching;
    if matching == {} then None else Some(Least(matching))
  }

  /** `Order.query.filter_by(user_id=uid)`: the orders owned by `uid`, under their own ids. */
  function OwnedOrders(orders: map<nat, Order>, uid: nat): (r: map<nat, Order>)
    ensures forall o :: o in r <==> o in orders && orders[o].userId == uid
    ensures forall o | o in r :: r[o] == orders[o]
  {
    map o | o in orders && orders[o].userId == uid :: orders[o]
  }

  /** `order.order_products`: the lines whose order is `oid`, under their own ids. */
  function LinesOfOrder(lines: map<nat, OrderLine>, oid: nat): (r: map<nat, OrderLine>)
    ensures forall l :: l in r <==> l in lines && lines[l].orderId == oid
    ensures forall l | l in r :: r[l] == lines[l]
  {
    map l | l in lines && lines[l].orderId == oid :: lines[l]
  }

  /**
   * `Users.post` up to the commit: the new user row, or the status the
   * request ends with. The duplicate check compares the email as supplied,
   * before the validator lower-cases it.
   */
  function Register(users: map<nat, User>, body: Registration): (r: Result<User, nat>)
    ensures body.email.None? ==> r == Failure(500)
    ensures body.email.Some? && EmailTaken(users, body.email.value) ==> r == Failure(422)
    ensures r.Failure? ==> r.error == 422 || r.error == 500
    ensures r == Failure(422) <==> body.email.Some? && EmailTaken(users, body.email.value)
    ensures r.Success? <==>
              && body.email.Some? && !EmailTaken(users, body.email.value)
              && body.userName.Some? && body.phoneNumber.Some?
              && body.password.Some? && body.password.value != ""
              && EmailPattern(body.email.value)
              && ValidatePhone(body.phoneNumber).Success?
    ensures r.Success? ==>
              && r.value.email == Lower(body.email.value)
              && r.value.password == Hashed(body.password.value)
              && r.value.role == body.role.GetOr(CustomerRole)
              && r.value.userName == body.userName.value
              && r.value.phoneNumber == body.phoneNumber.value
  {
    if body.email.None? then Failure(500)
    else if EmailTaken(users, body.email.value) then Failure(422)
    else if body.userName.None? || body.phoneNumber.None? then Failure(500)
    else if body.password.None? || body.password.value == "" then Failure(500)
    else
      match (ValidateEmail(body.email.value), ValidatePhone(body.phoneNumber))
      case (Success(email), Success(_)) =>
        Success(User(body.userName.value, email, Hashed(body.password.value), body.role.GetOr(CustomerRole), body.phoneNumber.value))
      case _ => Failure(500)
  }

  /**
   * The loop of `Orders.post` over `order_products`: one line per entry, in
   * order, numbered on from `base`, each keeping the entry's catalog ids.
   */
  method BuildLines(oid: nat, base: nat, entries: seq<map<string, nat>>) returns (added: map<nat, OrderLine>)
    ensures added == NewLines(oid, base, DecodeEntries(entries))
  {
    ghost var refs := DecodeEntries(entries);
    added := map[];
    var i := 0;
    assert refs[..0] == [];
    while i < |entries|
      invariant 0 <= i <= |entries|
      invariant added == NewLines(oid, base, refs[..i])
    {
      NewLinesExtend(oid, base, refs, i);
      added := added[base + i := OrderLine(oid, LineRefs(entries[i]))];
      i := i + 1;
    }
    assert refs[..|entries|] == refs;
  }

  /**
   * `Users.post` through the commit: the new row's id and contents, or the
   * status the request ends with (500 when the commit breaks a unique
   * constraint).
   */
  function AddUser(users: map<nat, User>, body: Registration): (r: Result<(nat, User), nat>)
    ensures r.Success? ==>
              && r.value.0 == NextRowId(users.Keys) && r.value.0 !in users
              && Register(users, body) == Success(r.value.1)
              && !ClashesWith(users, r.value.0, r.value.1)
    ensures Register(users, body).Failure? ==> r == Failure(Register(users, body).error)
    ensures r.Success? <==>
              Register(users, body).Success? && !ClashesWith(users, NextRowId(users.Keys), Register(users, body).value)
    ensures Register(users, body).Success? && ClashesWith(users, NextRowId(users.Keys), Register(users, body).value) ==>
              r == Failure(500)
  {
    match Register(users, body)
    case Failure(code) => Failure(code)
    case Success(user) =>
      var id := NextRowId(users.Keys);
      if ClashesWith(users, id, user) then Failure(500) else Success((id, user))
  }

  /**
   * Registering the same body a second time never adds a row, but it gets
   * 422 only when the email was already lower-case: otherwise the duplicate
   * check misses the stored, lower-cased email and the commit fails (500).
   */
  lemma RepeatRegistrationRefused(users: map<nat, User>, body: Registration)
    requires AddUser(users, body).Success?
    ensures var after := users[AddUser(users, body).value.0 := AddUser(users, body).value.1];
            && AddUser(after, body).Failure?
            && (AddUser(after, body).error == 422 <==> Lower(body.email.value) == body.email.value)
  {
    var (id, u) := AddUser(users, body).value;
    var after := users[id := u];
    var e := body.email.value;
    assert u.email == Lower(e);
    if Lower(e) == e {
      assert after[id].email == e;
      assert EmailTaken(after, e);
    } else {
      assert !EmailTaken(after, e) by {
        forall j | j in after ensures after[j].email != e {
          if j != id { assert j in users; }
        }
      }
      var again := Register(after, body);
      assert again.Success?;
      assert again.value == u;
      var id2 := NextRowId(after.Keys);
      assert id in after && id != id2 && after[id].email == u.email;
      assert ClashesWith(after, id2, u);
    }
  }

  class Store {
    var users: map<nat, User>
    var catalog: Catalog
    var gallery: map<nat, Image>
    var orders: map<nat, Order>
    var lines: map<nat, OrderLine>

    function Snapshot(): Db
      reads this
    {
      Db(users, catalog, gallery, orders, lines)
    }

    ghost predicate Valid()
      reads this
    {
      Consistent(Snapshot()) && UniqueUsers(users)
    }

    constructor ()
      ensures Valid()
      ensures Snapshot() == Db(map[], EmptyCatalog, map[], map[], map[])
    {
      users, catalog, gallery, orders, lines := map[], EmptyCatalog, map[], map[], map[];
    }

    // ------------------------------------------------------------ login and users

    /**
     * `POST /login`: 200 with the user's id and role when the user found by
     * email passes the password check, 401 otherwise; 500 when the stored
     * password is not a bcrypt hash.
     */
    function Login(email: Option<string>, password: string): (r: LoginReply)
      reads this
      ensures r.LoggedIn? ==>
                && email.Some? && r.id in users && users[r.id].email == email.value
                && users[r.id].password == Hashed(password) && r.role == users[r.id].role
      ensures (email.None? || !EmailTaken(users, email.value)) ==> r == LoginRefused(401)
      ensures email.Some? && EmailTaken(users, email.value) ==>
                var first := FirstWithEmail(users, email.value).value;
                && (r.LoggedIn? <==> users[first].password == Hashed(password))
                && (r == LoginRefused(500) <==> users[first].password.Raw?)
      ensures r.LoginRefused? ==> r.status == 401 || r.status == 500
    {
      if email.None? then LoginRefused(401)
      else
        match FirstWithEmail(users, email.value)
        case None => LoginRefused(401)
        case Some(id) =>
          match CheckPassword(users[id].password, password)
          case None => LoginRefused(500)
          case Some(ok) => if ok then LoggedIn(id, users[id].role) else LoginRefused(401)
    }

    /** `GET /users`: every user row, in id order, with no access check. */
    function ListUsers(): (r: Reply<seq<(nat, User)>>)
      reads this
      ensures r.status == 200 && r.body.Some? && |r.body.value| == |users|
      ensures forall i | 0 <= i < |r.body.value| :: r.body.value[i].0 in users && r.body.value[i].1 == users[r.body.value[i].0]
      ensures forall id | id in users :: exists i | 0 <= i < |r.body.value| :: r.body.value[i].0 == id
      ensures forall i, j | 0 <= i < j < |r.body.value| :: r.body.value[i].0 < r.body.value[j].0
    {
      Reply(200, Some(Rows(users)))
    }

    /**
     * `POST /users`: 422 and no new row when a stored email equals the one
     * supplied; otherwise one new user (role `customer` unless the body names
     * one) and 201 with a token for the new id.
     */
    method PostUser(body: Registration) returns (status: nat, token: Option<nat>)
      requires Valid()
      modifies this
      ensures Valid()
      ensures AddUser(old(users), body).Failure? ==>
                status == AddUser(old(users), body).error && token.None? && Snapshot() == old(Snapshot())
      ensures AddUser(old(users), body).Success? ==>
                && status == 201 && token == Some(AddUser(old(users), body).value.0)
                && Snapshot() == old(Snapshot()).(users := old(users)[token.value := AddUser(old(users), body).value.1])
    {
      match AddUser(users, body)
      case Failure(code) =>
        status, token := code, None;
      case Success((id, user)) =>
        UniqueAfterWrite(users, id, user);
        users := users[id := user];
        status, token := 201, Some(id);
    }

    /** `GET /users/<id>`: the row, after the self-or-admin check. */
    function GetUser(token: Option<nat>, id: nat): (r: Reply<User>)
      reads this
      ensures SelfOrAdmin(users, token, id).Deny? ==> r == Reply(SelfOrAdmin(users, token, id).status, None)
      ensures SelfOrAdmin(users, token, id) == Pass ==> r == Reply(200, Some(users[id]))
    {
      match SelfOrAdmin(users, token, id)
      case Deny(code) => Reply(code, None)
      case Pass => Reply(200, Some(users[id]))
    }

    /**
     * `PATCH /users/<id>`: after the self-or-admin check, `setattr` for each
     * entry of the body in order; a refused value ends with 500 and changes
     * nothing, otherwise the patched row is committed.
     */
    method PatchUser(token: Option<nat>, id: nat, body: seq<(string, string)>) returns (status: nat)
      requires Valid()
      // the body is `data.items()` of a JSON object: each key occurs once
      requires forall i, j | 0 <= i < j < |body| :: body[i].0 != body[j].0
      modifies this
      ensures Valid()
      ensures SelfOrAdmin(old(users), token, id).Deny? ==>
                status == SelfOrAdmin(old(users), token, id).status && Snapshot() == old(Snapshot())
      ensures SelfOrAdmin(old(users), token, id) == Pass && ApplyPatch(old(users)[id], DecodeBody(body)).Failure? ==>
                status == 500 && Snapshot() == old(Snapshot())
      ensures SelfOrAdmin(old(users), token, id) == Pass && ApplyPatch(old(users)[id], DecodeBody(body)).Success? ==>
                var patched := ApplyPatch(old(users)[id], DecodeBody(body)).value;
                && (ClashesWith(old(users), id, patched) ==> status == 500 && Snapshot() == old(Snapshot()))
                && (!ClashesWith(old(users), id, patched) ==>
                      status == 200 && Snapshot() == old(Snapshot()).(users := old(users)[id := patched]))
    {
      var gate := SelfOrAdmin(users, token, id);
      if gate.Deny? {
        return gate.status;
      }
      ghost var patch := DecodeBody(body);
      var user := users[id];
      var i := 0;
      while i < |body|
        invariant 0 <= i <= |body|
        invariant ApplyPatch(old(users)[id], patch[..i]) == Success(user)
        invariant Snapshot() == old(Snapshot())
      {
        assert patch[..i + 1][..i] == patch[..i];
        var next := SetField(user, DecodeKey(body[i].0), body[i].1);
        if next.Failure? {
          assert Refused(patch[i]);
          PatchFailsIff(old(users)[id], patch);
          return 500;
        }
        user := next.value;
        i := i + 1;
      }
      assert patch[..|body|] == patch;
      if ClashesWith(users, id, user) {
        return 500;
      }
      UniqueAfterWrite(users, id, user);
      users := users[id := user];
      status := 200;
    }

    /**
     * `DELETE /users/<id>`: admin only, checked before the target is looked
     * up; the user goes with its orders and their lines.
     */
    method DeleteUser(token: Option<nat>, id: nat) returns (status: nat)
      requires Valid()
      modifies this
      ensures Valid()
      ensures AdminThenTarget(old(users), token, id).Deny? ==>
                status == AdminThenTarget(old(users), token, id).status && Snapshot() == old(Snapshot())
      ensures AdminThenTarget(old(users), token, id) == Pass ==>
                status == 200 && Snapshot() == DeleteUserCascade(old(Snapshot()), id)
    {
      var gate := AdminThenTarget(users, token, id);
      if gate.Deny? {
        return gate.status;
      }
      var doomed := OrdersOf(orders, id);
      lines := lines - LinesOf(lines, doomed);
      orders := orders - doomed;
      users := users - {id};
      status := 200;
    }

    // ------------------------------------------------------------ catalog and gallery

    /** `GET /<kind>s`: every item of the kind, in id order, with no access check. */
    function ListItems(kind: CatalogKind): (r: Reply<seq<(nat, Item)>>)
      reads this
      ensures r.status == 200 && r.body.Some? && |r.body.value| == |catalog.Table(kind)|
      ensures forall i | 0 <= i < |r.body.value| ::
                r.body.value[i].0 in catalog.Table(kind) && r.body.value[i].1 == catalog.Table(kind)[r.body.value[i].0]
      ensures forall id | id in catalog.Table(kind) :: exists i | 0 <= i < |r.body.value| :: r.body.value[i].0 == id
      ensures forall i, j | 0 <= i < j < |r.body.value| :: r.body.value[i].0 < r.body.value[j].0
    {
      Reply(200, Some(Rows(catalog.Table(kind))))
    }

    /**
     * `POST /<kind>s`: admin only; then `data['price']` is required (500
     * without it) and one item is added with 201.
     */
    method PostItem(kind: CatalogKind, token: Option<nat>, price: Option<Price>, imageUrl: Option<string>, description: Option<string>)
      returns (status: nat, created: Option<nat>)
      requires Valid()
      modifies this
      ensures Valid()
      ensures AdminRequired(old(users), token).Deny? ==>
                status == AdminRequired(old(users), token).status && created.None? && Snapshot() == old(Snapshot())
      ensures AdminRequired(old(users), token) == Pass && price.None? ==>
                status == 500 && created.None? && Snapshot() == old(Snapshot())
      ensures AdminRequired(old(users), token) == Pass && price.Some? ==>
                && status == 201 && created == Some(NextRowId(old(catalog).Table(kind).Keys))
                && Snapshot() == old(Snapshot()).(catalog := old(catalog).WithTable(kind,
                     old(catalog).Table(kind)[created.value := Item(price.value, imageUrl, description)]))
    {
      var gate := AdminRequired(users, token);
      if gate.Deny? {
        return gate.status, None;
      }
      if price.None? {
        return 500, None;
      }
      var table := catalog.Table(kind);
      var id := NextRowId(table.Keys);
      catalog := catalog.WithTable(kind, table[id := Item(price.value, imageUrl, description)]);
      status, created := 201, Some(id);
    }

    /**
     * `DELETE /<kind>s`: admin only; the id comes from the body under the
     * kind's key (`beamblock_id`, ...); a missing key or unknown id is 404.
     * The item's order lines stay, with their reference to it set to NULL.
     */
    method DeleteItem(kind: CatalogKind, token: Option<nat>, body: map<string, nat>) returns (status: nat)
      requires Valid()
      modifies this
      ensures Valid()
      ensures AdminRequired(old(users), token).Deny? ==>
                status == AdminRequired(old(users), token).status && Snapshot() == old(Snapshot())
      ensures AdminRequired(old(users), token) == Pass && (IdKey(kind) !in body || body[IdKey(kind)] !in old(catalog).Table(kind)) ==>
                status == 404 && Snapshot() == old(Snapshot())
      ensures AdminRequired(old(users), token) == Pass && IdKey(kind) in body && body[IdKey(kind)] in old(catalog).Table(kind) ==>
                status == 200 && Snapshot() == DeleteItemUnlink(old(Snapshot()), kind, body[IdKey(kind)])
    {
      var gate := AdminRequired(users, token);
      if gate.Deny? {
        return gate.status;
      }
      if IdKey(kind) !in body || body[IdKey(kind)] !in catalog.Table(kind) {
        return 404;
      }
      var id := body[IdKey(kind)];
      catalog := catalog.WithTable(kind, catalog.Table(kind) - {id});
      lines := map l | l in lines :: Unlink(lines[l], kind, id);
      status := 200;
    }

    /** `GET /gallery`: every image, in id order. */
    function ListImages(): (r: Reply<seq<(nat, Image)>>)
      reads this
      ensures r.status == 200 && r.body.Some? && |r.body.value| == |gallery|
      ensures forall i | 0 <= i < |r.body.value| :: r.body.value[i].0 in gallery && r.body.value[i].1 == gallery[r.body.value[i].0]
      ensures forall id | id in gallery :: exists i | 0 <= i < |r.body.value| :: r.body.value[i].0 == id
      ensures forall i, j | 0 <= i < j < |r.body.value| :: r.body.value[i].0 < r.body.value[j].0
    {
      Reply(200, Some(Rows(gallery)))
    }

    /** `POST /gallery`: admin only; one image row with the (optional) `image_url`. */
    method PostImage(token: Option<nat>, imageUrl: Option<string>) returns (status: nat, created: Option<nat>)
      requires Valid()
      modifies this
      ensures Valid()
      ensures AdminRequired(old(users), token).Deny? ==>
                status == AdminRequired(old(users), token).status && created.None? && Snapshot() == old(Snapshot())
      ensures AdminRequired(old(users), token) == Pass ==>
                && status == 201 && created == Some(NextRowId(old(gallery).Keys))
                && Snapshot() == old(Snapshot()).(gallery := old(gallery)[created.value := Image(imageUrl)])
    {
      var gate := AdminRequired(users, token);
      if gate.Deny? {
        return gate.status, None;
      }
      var id := NextRowId(gallery.Keys);
      gallery := gallery[id := Image(imageUrl)];
      status, created := 201, Some(id);
    }

    /** `DELETE /gallery`: admin only; the id comes from the body's `image_id`. */
    method DeleteImage(token: Option<nat>, body: map<string, nat>) returns (status: nat)
      requires Valid()
      modifies this
      ensures Valid()
      ensures AdminRequired(old(users), token).Deny? ==>
                status == AdminRequired(old(users), token).status && Snapshot() == old(Snapshot())
      ensures AdminRequired(old(users), token) == Pass && ("image_id" !in body || body["image_id"] !in old(gallery)) ==>
                status == 404 && Snapshot() == old(Snapshot())
      ensures AdminRequired(old(users), token) == Pass && "image_id" in body && body["image_id"] in old(gallery) ==>
                status == 200 && Snapshot() == old(Snapshot()).(gallery := old(gallery) - {body["image_id"]})
    {
      var gate := AdminRequired(users, token);
      if gate.Deny? {
        return gate.status;
      }
      if "image_id" !in body || body["image_id"] !in gallery {
        return 404;
      }
      gallery := gallery - {body["image_id"]};
      status := 200;
    }

    // ------------------------------------------------------------ orders

    /** `GET /orders`: exactly the requester's orders, in id order; admins see only their own too. */
    function ListOrders(token: Option<nat>): (r: Reply<seq<(nat, Order)>>)
      reads this
      ensures token.None? ==> r == Reply(401, None)
      ensures token.Some? ==> r.status == 200 && r.body.Some?
      ensures token.Some? ==> forall i | 0 <= i < |r.body.value| ::
                var (o, order) := r.body.value[i];
                o in orders && order == orders[o] && order.userId == token.value
      ensures token.Some? ==> forall o | o in orders && orders[o].userId == token.value ::
                exists i | 0 <= i < |r.body.value| :: r.body.value[i].0 == o
      ensures token.Some? ==> forall i, j | 0 <= i < j < |r.body.value| :: r.body.value[i].0 < r.body.value[j].0
    {
      if token.None? then Reply(401, None)
      else Reply(200, Some(Rows(OwnedOrders(orders, token.value))))
    }

    /**
     * `POST /orders`: one order owned by the requester, with the supplied
     * total, and one line per entry of `order_products`, committed together.
     * The requester's user row is not looked up.
     */
    method PostOrder(token: Option<nat>, totalPrice: Option<Price>, products: Option<seq<map<string, nat>>>)
      returns (status: nat, created: Option<nat>)
      requires Valid()
      modifies this
      ensures Valid()
      ensures token.None? ==> status == 401 && created.None? && Snapshot() == old(Snapshot())
      ensures token.Some? && (totalPrice.None? || products.None?) ==>
                status == 500 && created.None? && Snapshot() == old(Snapshot())
      ensures token.Some? && totalPrice.Some? && products.Some? ==>
                && status == 201 && created == Some(NextRowId(old(orders).Keys))
                && Snapshot() == PlaceOrder(old(Snapshot()), token.value, totalPrice.value, DecodeEntries(products.value))
    {
      if token.None? {
        return 401, None;
      }
      if totalPrice.None? || products.None? {
        return 500, None;
      }
      var entries := products.value;
      ghost var refs := DecodeEntries(entries);
      var oid := NextRowId(orders.Keys);
      var base := NextRowId(lines.Keys);
      var added := BuildLines(oid, base, entries);
      ghost var before := Snapshot();
      ghost var after := PlaceOrder(before, token.value, totalPrice.value, refs);
      PlaceOrderConsistent(before, token.value, totalPrice.value, refs);
      assert after.orders == orders[oid := Order(token.value, totalPrice.value)];
      assert after.lines == lines + added;
      orders := orders[oid := Order(token.value, totalPrice.value)];
      lines := lines + added;
      assert Snapshot() == after;
      status, created := 201, Some(oid);
    }

    /** `GET /orders/<id>`: the order and its lines, for its owner only. */
    function GetOrder(token: Option<nat>, id: nat): (r: Reply<(Order, seq<(nat, OrderLine)>)>)
      reads this
      ensures OwnerOnly(orders, token, id).Deny? ==> r == Reply(OwnerOnly(orders, token, id).status, None)
      ensures OwnerOnly(orders, token, id) == Pass ==>
                && r.status == 200 && r.body.Some? && r.body.value.0 == orders[id]
                && (forall i | 0 <= i < |r.body.value.1| ::
                      var (l, line) := r.body.value.1[i];
                      l in lines && line == lines[l] && line.orderId == id)
                && (forall l | l in lines && lines[l].orderId == id ::
                      exists i | 0 <= i < |r.body.value.1| :: r.body.value.1[i].0 == l)
                && (forall i, j | 0 <= i < j < |r.body.value.1| :: r.body.value.1[i].0 < r.body.value.1[j].0)
    {
      match OwnerOnly(orders, token, id)
      case Deny(code) => Reply(code, None)
      case Pass => Reply(200, Some((orders[id], Rows(LinesOfOrder(lines, id)))))
    }
  }
}
