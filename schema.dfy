/**
 * The tables of models.py as maps from primary key to record, the rowid rule
 * the tables get their keys by, and the cascades the relationships declare.
 *
 * The five catalog tables (beam blocks, hollow blocks, paving blocks, road
 * kerbs, services) have the same columns; `Catalog` holds one table per
 * `CatalogKind` and is read and written through `Table` and `WithTable`.
 */
module Schema {
  import opened Wrappers

  datatype CatalogKind = BeamBlock | HollowBlock | PavingBlock | RoadKerb | Service

  const AllKinds: set<CatalogKind> := {BeamBlock, HollowBlock, PavingBlock, RoadKerb, Service}

  /** The JSON key naming an item of this kind, in a DELETE body and in an order-line entry. */
  function IdKey(kind: CatalogKind): (k: string)
    ensures |k| > 3 && k[|k| - 3..] == "_id"
  {
    match kind
    case BeamBlock => "beamblock_id"
    case HollowBlock => "hollowblock_id"
    case PavingBlock => "pavingblock_id"
    case RoadKerb => "roadkerb_id"
    case Service => "service_id"
  }

  /** No two kinds share a body key, so a key names one table. */
  lemma IdKeyInjective(a: CatalogKind, b: CatalogKind)
    requires IdKey(a) == IdKey(b)
    ensures a == b
  {
  }

  /** A `Float` price or total, kept as the text of the number: nothing computes with it. */
  datatype Price = Price(literal: string)

  /**
   * A stored password: a bcrypt hash of `secret`, or text written to the column
   * directly (which is what PATCH does), which bcrypt cannot read as a hash.
   */
  datatype Password = Hashed(secret: string) | Raw(text: string)

  /** `bcrypt.check_password_hash`: `None` when the library raises on a stored value that is not a hash. */
  function CheckPassword(stored: Password, attempt: string): (r: Option<bool>)
    ensures r == Some(true) <==> stored == Hashed(attempt)
    ensures r.None? <==> stored.Raw?
  {
    match stored
    case Hashed(secret) => Some(secret == attempt)
    case Raw(_) => None
  }

  datatype User = User(userName: string, email: string, password: Password, role: string, phoneNumber: string)

  datatype Item = Item(price: Price, imageUrl: Option<string>, description: Option<string>)

  datatype Image = Image(imageUrl: Option<string>)

  /** An order; `order_date` (set from the clock) is not part of this model. */
  datatype Order = Order(userId: nat, totalPrice: Price)

  /** An order line: its order and the catalog ids it names (a kind absent from `refs` is NULL). */
  datatype OrderLine = OrderLine(orderId: nat, refs: map<CatalogKind, nat>)

  datatype Catalog = Catalog(
    beamblocks: map<nat, Item>,
    hollowblocks: map<nat, Item>,
    pavingblocks: map<nat, Item>,
    roadkerbs: map<nat, Item>,
    services: map<nat, Item>)
  {
    function Table(kind: CatalogKind): map<nat, Item> {
      match kind
      case BeamBlock => beamblocks
      case HollowBlock => hollowblocks
      case PavingBlock => pavingblocks
      case RoadKerb => roadkerbs
      case Service => services
    }

    /** Replaces the table of one kind and keeps the other four. */
    function WithTable(kind: CatalogKind, t: map<nat, Item>): (c: Catalog)
      ensures c.Table(kind) == t
      ensures forall other | other != kind :: c.Table(other) == Table(other)
    {
      match kind
      case BeamBlock => this.(beamblocks := t)
      case HollowBlock => this.(hollowblocks := t)
      case PavingBlock => this.(pavingblocks := t)
      case RoadKerb => this.(roadkerbs := t)
      case Service => this.(services := t)
    }
  }

  const EmptyCatalog := Catalog(map[], map[], map[], map[], map[])

  /** The whole database. */
  datatype Db = Db(
    users: map<nat, User>,
    catalog: Catalog,
    gallery: map<nat, Image>,
    orders: map<nat, Order>,
    lines: map<nat, OrderLine>)

  /** Every order line belongs to an order that exists (kept by the Order -> OrderProduct cascade). */
  ghost predicate Consistent(db: Db) {
    forall l | l in db.lines :: db.lines[l].orderId in db.orders
  }

  // ---------------------------------------------------------------- keys and row order

  lemma {:induction false} MinimumExists(s: set<nat>)
    requires s != {}
    ensures exists m :: m in s && forall x | x in s :: m <= x
    decreases s
  {
    var y :| y in s;
    if s == {y} {
      assert forall x | x in s :: y <= x;
    } else {
      MinimumExists(s - {y});
      var m :| m in s - {y} && forall x | x in s - {y} :: m <= x;
      var least := if y < m then y else m;
      forall x | x in s ensures least <= x {
        if x != y { assert x in s - {y}; }
      }
    }
  }

  /** The smallest key of a non-empty table. */
  function Least(s: set<nat>): (m: nat)
    requires s != {}
    ensures m in s && forall x | x in s :: m <= x
  {
    MinimumExists(s);
    var m :| m in s && forall x | x in s :: m <= x;
    m
  }

  /** The keys of a table in ascending order: the order a table scan returns rows in. */
  function SortedKeys(s: set<nat>): (r: seq<nat>)
    ensures |r| == |s|
    ensures forall x :: x in r <==> x in s
    ensures forall i, j | 0 <= i < j < |r| :: r[i] < r[j]
    decreases s
  {
    if s == {} then []
    else
      var m := Least(s);
      var rest := SortedKeys(s - {m});
      assert forall x | x in rest :: m < x;
      [m] + rest
  }

  function Pair<T>(ks: seq<nat>, m: map<nat, T>): (r: seq<(nat, T)>)
    requires forall k | k in ks :: k in m
    ensures |r| == |ks| && forall i | 0 <= i < |r| :: r[i].0 == ks[i] && r[i].1 == m[ks[i]]
  {
    seq(|ks|, i requires 0 <= i < |ks| => (ks[i], m[ks[i]]))
  }

  /** `Model.query.all()`: every row, as (id, record), in ascending id order. */
  function Rows<T>(m: map<nat, T>): (r: seq<(nat, T)>)
    ensures |r| == |m|
    ensures forall i | 0 <= i < |r| :: r[i].0 in m && r[i].1 == m[r[i].0]
    ensures forall id | id in m :: exists i | 0 <= i < |r| :: r[i].0 == id
    ensures forall i, j | 0 <= i < j < |r| :: r[i].0 < r[j].0
  {
    var ks := SortedKeys(m.Keys);
    var r := Pair(ks, m);
    forall id | id in m ensures exists i | 0 <= i < |r| :: r[i].0 == id {
      var i :| 0 <= i < |ks| && ks[i] == id;
      assert r[i].0 == id;
    }
    r
  }

  /**
   * The key SQLite gives a new row of a table whose primary key is
   * `INTEGER PRIMARY KEY` without AUTOINCREMENT: one more than the largest key
   * in use, and 1 in an empty table (so a deleted largest key is reused).
   */
  function NextRowId(keys: set<nat>): (id: nat)
    ensures id !in keys && id > 0
    ensures forall k | k in keys :: k < id
    ensures keys == {} ==> id == 1
    ensures keys != {} ==> id - 1 in keys
  {
    var ks := SortedKeys(keys);
    if ks == [] then 1
    else
      assert forall k | k in keys :: k <= ks[|ks| - 1] by {
        forall k | k in keys ensures k <= ks[|ks| - 1] {
          var i :| 0 <= i < |ks| && ks[i] == k;
        }
      }
      ks[|ks| - 1] + 1
  }

  // ---------------------------------------------------------------- cascades

  /** The orders a user owns (`User.orders`). */
  function OrdersOf(orders: map<nat, Order>, uid: nat): (r: set<nat>)
    ensures r <= orders.Keys
    ensures forall o | o in orders :: o in r <==> orders[o].userId == uid
  {
    set o | o in orders && orders[o].userId == uid
  }

  /** The lines of the given orders (`Order.order_products`). */
  function LinesOf(lines: map<nat, OrderLine>, oids: set<nat>): (r: set<nat>)
    ensures r <= lines.Keys
    ensures forall l | l in lines :: l in r <==> lines[l].orderId in oids
  {
    set l | l in lines && lines[l].orderId in oids
  }

  /**
   * Deleting a user: `cascade="all, delete-orphan"` on `User.orders` deletes
   * the user's orders, and the same cascade on `Order.order_products` deletes
   * their lines. Nothing else changes.
   */
  function DeleteUserCascade(db: Db, uid: nat): (r: Db)
    ensures uid !in r.users
    ensures forall u | u in db.users && u != uid :: u in r.users && r.users[u] == db.users[u]
    ensures forall u | u in r.users :: u in db.users
    ensures forall o :: o in r.orders <==> o in db.orders && db.orders[o].userId != uid
    ensures forall o | o in r.orders :: r.orders[o] == db.orders[o]
    ensures forall l :: l in r.lines <==> l in db.lines && db.lines[l].orderId !in OrdersOf(db.orders, uid)
    ensures forall l | l in r.lines :: r.lines[l] == db.lines[l]
    ensures r.catalog == db.catalog && r.gallery == db.gallery
    ensures Consistent(db) ==> Consistent(r)
  {
    var doomed := OrdersOf(db.orders, uid);
    db.(users := db.users - {uid},
        orders := db.orders - doomed,
        lines := db.lines - LinesOf(db.lines, doomed))
  }

  /** One line with its reference to item `id` of `kind` set to NULL. */
  function Unlink(line: OrderLine, kind: CatalogKind, id: nat): (r: OrderLine)
    ensures r.orderId == line.orderId
    ensures kind in r.refs ==> r.refs[kind] != id
    ensures r.refs - {kind} == line.refs - {kind}
    ensures kind !in line.refs || line.refs[kind] != id ==> r == line
    ensures kind in line.refs && line.refs[kind] == id ==> r.refs == line.refs - {kind}
  {
    if kind in line.refs && line.refs[kind] == id then line.(refs := line.refs - {kind}) else line
  }

  /**
   * Deleting a catalog item. The item's relationship to `OrderProduct` has no
   * delete cascade, so SQLAlchemy's default applies: the lines that named the
   * item stay and get that foreign key set to NULL.
   */
  function DeleteItemUnlink(db: Db, kind: CatalogKind, id: nat): (r: Db)
    ensures r.catalog.Table(kind) == db.catalog.Table(kind) - {id}
    ensures forall other | other != kind :: r.catalog.Table(other) == db.catalog.Table(other)
    ensures r.lines.Keys == db.lines.Keys
    ensures forall l | l in r.lines :: r.lines[l].orderId == db.lines[l].orderId
    ensures forall l | l in r.lines :: kind in r.lines[l].refs ==> r.lines[l].refs[kind] != id
    ensures forall l | l in r.lines && kind in db.lines[l].refs && db.lines[l].refs[kind] == id :: kind !in r.lines[l].refs
    ensures forall l | l in r.lines :: r.lines[l].refs - {kind} == db.lines[l].refs - {kind}
    ensures forall l | l in r.lines && (kind !in db.lines[l].refs || db.lines[l].refs[kind] != id) :: r.lines[l] == db.lines[l]
    ensures r.users == db.users && r.gallery == db.gallery && r.orders == db.orders
    ensures Consistent(db) ==> Consistent(r)
  {
    var t := db.catalog.Table(kind);
    db.(catalog := db.catalog.WithTable(kind, t - {id}),
        lines := map l | l in db.lines :: Unlink(db.lines[l], kind, id))
  }

  // ---------------------------------------------------------------- order placement

  /** The catalog ids an order-line entry names; `product.get(...)` of a missing key is NULL. */
  function LineRefs(entry: map<string, nat>): (refs: map<CatalogKind, nat>)
    ensures forall k | k in AllKinds :: (k in refs <==> IdKey(k) in entry)
    ensures forall k | k in refs :: refs[k] == entry[IdKey(k)]
  {
    map k | k in AllKinds && IdKey(k) in entry :: entry[IdKey(k)]
  }

  /** The decoded catalog ids of each entry of `order_products`, in order. */
  function DecodeEntries(entries: seq<map<string, nat>>): (refs: seq<map<CatalogKind, nat>>)
    ensures |refs| == |entries|
    ensures forall i | 0 <= i < |entries| :: refs[i] == LineRefs(entries[i])
  {
    seq(|entries|, i requires 0 <= i < |entries| => LineRefs(entries[i]))
  }

  predicate InRange(l: nat, lo: nat, n: nat) { lo <= l < lo + n }

  /**
   * The keys lo, lo + 1, ..., lo + n - 1. The bare bounds let Dafny see the
   * set is finite; `InRange` gives its quantifiers a term to trigger on.
   */
  function Range(lo: nat, n: nat): set<nat> {
    set l: nat | lo <= l < lo + n && InRange(l, lo, n)
  }

  lemma {:induction false} RangeSize(lo: nat, n: nat)
    ensures |Range(lo, n)| == n
  {
    if n > 0 {
      RangeSize(lo, n - 1);
      assert Range(lo, n) == Range(lo, n - 1) + {lo + n - 1};
    }
  }

  /**
   * The lines of a new order `oid`, one per element of `refs`, numbered from
   * `base` (bounds written twice for the same reason as in `Range`).
   */
  function NewLines(oid: nat, base: nat, refs: seq<map<CatalogKind, nat>>): (r: map<nat, OrderLine>)
    ensures forall l :: l in r <==> InRange(l, base, |refs|)
    ensures forall l | l in r :: r[l].orderId == oid
  {
    map l: nat | base <= l < base + |refs| && InRange(l, base, |refs|) :: OrderLine(oid, refs[l - base])
  }

  /** Adding the lines one entry at a time builds the same lines. */
  lemma NewLinesExtend(oid: nat, base: nat, refs: seq<map<CatalogKind, nat>>, i: nat)
    requires i < |refs|
    ensures NewLines(oid, base, refs[..i + 1]) == NewLines(oid, base, refs[..i])[base + i := OrderLine(oid, refs[i])]
  {
    var longer := NewLines(oid, base, refs[..i + 1]);
    var shorter := NewLines(oid, base, refs[..i])[base + i := OrderLine(oid, refs[i])];
    assert forall l :: l in longer <==> InRange(l, base, i + 1);
    assert forall l :: l in shorter <==> InRange(l, base, i + 1);
    forall l | l in longer ensures longer[l] == shorter[l] {
      assert refs[..i + 1][l - base] == refs[l - base];
    }
  }

  /**
   * `Orders.post`: one order owned by `requester` and one line per element of
   * `refs` (the decoded entries of `order_products`), in one commit.
   */
  function PlaceOrder(db: Db, requester: nat, total: Price, refs: seq<map<CatalogKind, nat>>): (r: Db)
    ensures r.users == db.users && r.catalog == db.catalog && r.gallery == db.gallery
    ensures db.orders.Keys <= r.orders.Keys && db.lines.Keys <= r.lines.Keys
  {
    var oid := NextRowId(db.orders.Keys);
    db.(orders := db.orders[oid := Order(requester, total)],
        lines := db.lines + NewLines(oid, NextRowId(db.lines.Keys), refs))
  }

  /**
   * Placing an order adds exactly one order, owned by the requester and
   * carrying the given total, and keeps every earlier order as it was.
   */
  lemma PlaceOrderAddsOneOrder(db: Db, requester: nat, total: Price, refs: seq<map<CatalogKind, nat>>)
    ensures var r := PlaceOrder(db, requester, total, refs);
            var oid := NextRowId(db.orders.Keys);
            && oid !in db.orders && r.orders.Keys == db.orders.Keys + {oid}
            && |r.orders| == |db.orders| + 1
            && r.orders[oid] == Order(requester, total)
            && (forall o | o in db.orders :: r.orders[o] == db.orders[o])
  {
    var oid := NextRowId(db.orders.Keys);
    var r := PlaceOrder(db, requester, total, refs);
    assert r.orders.Keys == db.orders.Keys + {oid};
    assert |r.orders| == |r.orders.Keys|;
  }

  /** The new lines have the keys base, ..., base + |refs| - 1: one per element. */
  lemma NewLinesKeys(oid: nat, base: nat, refs: seq<map<CatalogKind, nat>>)
    ensures NewLines(oid, base, refs).Keys == Range(base, |refs|)
    ensures |NewLines(oid, base, refs)| == |refs|
  {
    var added := NewLines(oid, base, refs);
    assert added.Keys == Range(base, |refs|);
    RangeSize(base, |refs|);
    assert |added| == |added.Keys|;
  }

  /**
   * Placing an order adds exactly one line per entry and keeps every earlier
   * line as it was: the new order owns exactly |refs| lines.
   */
  lemma PlaceOrderAddsLines(db: Db, requester: nat, total: Price, refs: seq<map<CatalogKind, nat>>)
    requires Consistent(db)
    ensures var r := PlaceOrder(db, requester, total, refs);
            var oid := NextRowId(db.orders.Keys);
            && |r.lines| == |db.lines| + |refs|
            && LinesOf(r.lines, {oid}) == Range(NextRowId(db.lines.Keys), |refs|)
            && |LinesOf(r.lines, {oid})| == |refs|
            && (forall l | l in db.lines :: l in r.lines && r.lines[l] == db.lines[l])
  {
    var r := PlaceOrder(db, requester, total, refs);
    var oid := NextRowId(db.orders.Keys);
    var base := NextRowId(db.lines.Keys);
    NewLinesKeys(oid, base, refs);
    var range := Range(base, |refs|);
    assert db.lines.Keys !! range;
    assert r.lines.Keys == db.lines.Keys + range;
    assert |r.lines| == |r.lines.Keys|;
    assert LinesOf(r.lines, {oid}) == range by {
      forall l | l in db.lines ensures r.lines[l] == db.lines[l] && r.lines[l].orderId != oid { }
    }
  }

  /** The i-th new line belongs to the new order and carries the i-th entry's catalog ids. */
  lemma PlaceOrderCopiesEntry(db: Db, requester: nat, total: Price, refs: seq<map<CatalogKind, nat>>, i: nat)
    requires i < |refs|
    ensures var r := PlaceOrder(db, requester, total, refs);
            var l := NextRowId(db.lines.Keys) + i;
            l in r.lines && r.lines[l] == OrderLine(NextRowId(db.orders.Keys), refs[i])
  {
    var base := NextRowId(db.lines.Keys);
    var oid := NextRowId(db.orders.Keys);
    NewLineAt(oid, base, refs, i);
    assert PlaceOrder(db, requester, total, refs).lines == db.lines + NewLines(oid, base, refs);
  }

  /** The new line numbered base + i is the one built from the i-th entry. */
  lemma NewLineAt(oid: nat, base: nat, refs: seq<map<CatalogKind, nat>>, i: nat)
    requires i < |refs|
    ensures base + i in NewLines(oid, base, refs)
    ensures NewLines(oid, base, refs)[base + i] == OrderLine(oid, refs[i])
  {
    assert InRange(base + i, base, |refs|);
  }

  /** Placing an order keeps the other tables and the store consistent. */
  lemma PlaceOrderConsistent(db: Db, requester: nat, total: Price, refs: seq<map<CatalogKind, nat>>)
    requires Consistent(db)
    ensures var r := PlaceOrder(db, requester, total, refs);
            r.users == db.users && r.catalog == db.catalog && r.gallery == db.gallery && Consistent(r)
  {
  }
}
