/**
 * Orders paid with family points: placing an order charges the owner, cancelling refunds the owner,
 * an admin moves an order forward through its statuses, and each user lists their orders a page at
 * a time. Order k is the k-th order placed and has id k.
 */
module MenuOrders {
  import opened Basics
  import MenuStore

  datatype Status = Pending | Processing | Completed | Cancelled

  /** The stored spelling of a status. */
  function StatusName(s: Status): string
  {
    match s
    case Pending => "pending"
    case Processing => "processing"
    case Completed => "completed"
    case Cancelled => "cancelled"
  }

  /** The statuses a request may name. */
  function ParseStatus(s: Option<string>): (r: Option<Status>)
    ensures r.Some? ==> s == Some(StatusName(r.value))
    ensures forall t: Status :: s == Some(StatusName(t)) ==> r == Some(t)
  {
    if s == Some("pending") then Some(Pending)
    else if s == Some("processing") then Some(Processing)
    else if s == Some("completed") then Some(Completed)
    else if s == Some("cancelled") then Some(Cancelled)
    else None
  }

  /** One ordered dish, with the unit price and quantity the request sent. */
  datatype OrderLine = OrderLine(itemId: int, name: string, quantity: int, pricePoints: int)

  datatype Order = Order(id: int, userId: int, totalPoints: int, status: Status, lines: seq<OrderLine>)

  function LineCost(line: OrderLine): int
  {
    line.pricePoints * line.quantity
  }

  /** The points an order costs: each line's unit price times its quantity. */
  function OrderTotal(lines: seq<OrderLine>): int
  {
    SumOf(lines, LineCost)
  }

  /** The total of the lines as the handler accumulates it, one line at a time. */
  method ComputeTotal(lines: seq<OrderLine>) returns (total: int)
    ensures total == OrderTotal(lines)
  {
    total := 0;
    for i := 0 to |lines|
      invariant total == OrderTotal(lines[..i])
    {
      assert lines[..i + 1] == lines[..i] + [lines[i]];
      SumOfAppend(lines[..i], lines[i], LineCost);
      total := total + lines[i].pricePoints * lines[i].quantity;
    }
    assert lines[..|lines|] == lines;
  }

  /** The order lines a cart sends: each line's dish, quantity and unit price. */
  function LinesOf(cart: seq<MenuStore.CartLine>): (lines: seq<OrderLine>)
    ensures |lines| == |cart|
  {
    seq(|cart|, i requires 0 <= i < |cart| => OrderLine(cart[i].itemId, cart[i].name, cart[i].quantity, cart[i].pricePoints))
  }

  /** An order placed from the cart costs exactly the total the cart shows. */
  lemma {:induction false} CartTotalIsOrderTotal(cart: seq<MenuStore.CartLine>)
    ensures OrderTotal(LinesOf(cart)) == MenuStore.TotalPoints(cart)
    decreases |cart|
  {
    if |cart| > 0 {
      var n := |cart| - 1;
      CartTotalIsOrderTotal(cart[..n]);
      assert LinesOf(cart)[..n] == LinesOf(cart[..n]);
      assert LineCost(LinesOf(cart)[n]) == MenuStore.LinePoints(cart[n]);
    }
  }

  /** The handler charges the prices and quantities the request names, whatever their sign. */
  lemma NegativeQuantityCredits()
    ensures OrderTotal([OrderLine(1, "dish", -2, 5)]) == -10
  {
    assert [OrderLine(1, "dish", -2, 5)][..0] == [];
  }

  // ---------------------------------------------------------------------------------------------
  // The books: every user's balance and every order.

  datatype Books = Books(points: map<int, int>, orders: seq<Order>)

  /** Order ids are positions: the k-th order placed has id k. */
  predicate IdsArePositions(orders: seq<Order>)
  {
    forall k :: 0 <= k < |orders| ==> orders[k].id == k + 1
  }

  /** The points a user has tied up in orders that are not cancelled. */
  function Held(orders: seq<Order>, user: int): int
  {
    SumOf(orders, HeldBy(user))
  }

  function HeldBy(user: int): Order -> int
  {
    (o: Order) => if o.userId == user && o.status != Cancelled then o.totalPoints else 0
  }

  /** A user's balance plus what they have tied up in orders that are not cancelled. */
  function Wealth(b: Books, user: int): int
    requires user in b.points
  {
    b.points[user] + Held(b.orders, user)
  }

  datatype CreateOutcome = CreateUnauthorized | UserNotFound | InsufficientPoints(balance: int, needed: int) | Placed(orderId: int)

  /** The checks before an order is placed, in the handler's order. */
  function CheckCreate(b: Books, caller: Option<int>, total: int): (r: CreateOutcome)
    ensures r.Placed? <==> GivenId(caller) && caller.value in b.points && b.points[caller.value] >= total
    ensures r.Placed? ==> r.orderId == |b.orders| + 1
    ensures r.InsufficientPoints? <==> GivenId(caller) && caller.value in b.points && b.points[caller.value] < total
    ensures r.InsufficientPoints? ==> r.balance == b.points[caller.value] && r.needed == total
    ensures r == CreateUnauthorized <==> !GivenId(caller)
  {
    if !GivenId(caller) then CreateUnauthorized
    else if caller.value !in b.points then UserNotFound
    else if b.points[caller.value] < total then InsufficientPoints(b.points[caller.value], total)
    else Placed(|b.orders| + 1)
  }

  /** The books after a user places an order: the total comes off their balance and a pending order is added. */
  function Place(b: Books, user: int, lines: seq<OrderLine>): Books
    requires user in b.points
  {
    var total := OrderTotal(lines);
    Books(b.points[user := b.points[user] - total], b.orders + [Order(|b.orders| + 1, user, total, Pending, lines)])
  }

  datatype CancelOutcome = CancelUnauthorized | OrderNotFound | AlreadyFinished | CancelledOk

  /** The order a caller may act on: their own, or any order for an admin. */
  predicate Reaches(orders: seq<Order>, caller: int, isAdmin: bool, orderId: Option<int>)
  {
    orderId.Some? && 1 <= orderId.value <= |orders| && (isAdmin || orders[orderId.value - 1].userId == caller)
  }

  /** The checks before a cancellation, in the handler's order. */
  function CheckCancel(orders: seq<Order>, caller: Option<int>, isAdmin: bool, orderId: Option<int>): (r: CancelOutcome)
    ensures r == CancelledOk <==> GivenId(caller) && Reaches(orders, caller.value, isAdmin, orderId)
                                  && orders[orderId.value - 1].status !in {Completed, Cancelled}
    ensures r == OrderNotFound <==> GivenId(caller) && !Reaches(orders, caller.value, isAdmin, orderId)
  {
    if !GivenId(caller) then CancelUnauthorized
    else if !Reaches(orders, caller.value, isAdmin, orderId) then OrderNotFound
    else
      var o := orders[orderId.value - 1];
      if o.status == Completed || o.status == Cancelled then AlreadyFinished else CancelledOk
  }

  /** The books after order k is cancelled: it is marked cancelled and its total goes back to its owner. */
  function Refund(b: Books, k: int): Books
    requires 0 <= k < |b.orders|
  {
    var o := b.orders[k];
    Books(if o.userId in b.points then b.points[o.userId := b.points[o.userId] + o.totalPoints] else b.points,
          b.orders[k := o.(status := Cancelled)])
  }

  /** The books after an admin sets order k's status. */
  function Restatus(b: Books, k: int, s: Status): Books
    requires 0 <= k < |b.orders|
  {
    Books(b.points, b.orders[k := b.orders[k].(status := s)])
  }

  datatype StatusOutcome = StatusUnauthorized | PermissionDenied | InvalidStatus | UseCancelEndpoint | OrderIsCancelled | StatusUpdated

  /** The checks of a status change as the handler makes them: admin only, a known status, not "cancelled". */
  function CheckStatusAsWritten(caller: Option<int>, isAdmin: bool, status: Option<string>): (r: StatusOutcome)
    ensures r == StatusUpdated <==> GivenId(caller) && isAdmin && ParseStatus(status).Some?
                                    && ParseStatus(status).value != Cancelled
  {
    if !GivenId(caller) then StatusUnauthorized
    else if !isAdmin then PermissionDenied
    else if ParseStatus(status).None? then InvalidStatus
    else if ParseStatus(status).value == Cancelled then UseCancelEndpoint
    else StatusUpdated
  }

  /**
   * The same checks, and in addition a cancelled order keeps its status: its points were refunded,
   * so moving it back would let it be refunded again.
   */
  function CheckStatus(caller: Option<int>, isAdmin: bool, status: Option<string>, current: Option<Status>): (r: StatusOutcome)
    ensures r == StatusUpdated <==> CheckStatusAsWritten(caller, isAdmin, status) == StatusUpdated && current != Some(Cancelled)
    ensures r == StatusUpdated ==> ParseStatus(status).Some? && ParseStatus(status).value != Cancelled
  {
    var r := CheckStatusAsWritten(caller, isAdmin, status);
    if r == StatusUpdated && current == Some(Cancelled) then OrderIsCancelled else r
  }

  // ---------------------------------------------------------------------------------------------
  // What the operations do to the books.

  lemma HeldAfterAppend(orders: seq<Order>, o: Order, user: int)
    ensures Held(orders + [o], user) == Held(orders, user) + HeldBy(user)(o)
  {
    SumOfAppend(orders, o, HeldBy(user));
  }

  /** Placing an order moves points from the balance into the order: no user's wealth changes. */
  lemma PlaceKeepsWealth(b: Books, user: int, lines: seq<OrderLine>, v: int)
    requires user in b.points && v in b.points
    ensures Wealth(Place(b, user, lines), v) == Wealth(b, v)
  {
    var total := OrderTotal(lines);
    HeldAfterAppend(b.orders, Order(|b.orders| + 1, user, total, Pending, lines), v);
  }

  /** Cancelling an open order moves its points back to its owner's balance: no user's wealth changes. */
  lemma RefundKeepsWealth(b: Books, k: int, v: int)
    requires 0 <= k < |b.orders| && b.orders[k].status != Cancelled
    requires v in b.points
    ensures Wealth(Refund(b, k), v) == Wealth(b, v)
  {
    var o := b.orders[k];
    SumOfUpdate(b.orders, k, o.(status := Cancelled), HeldBy(v));
  }

  /** The refund goes to the order's owner, not to whoever cancels it; no other balance moves. */
  lemma RefundGoesToOwner(b: Books, k: int, v: int)
    requires 0 <= k < |b.orders| && v in b.points
    ensures v in Refund(b, k).points
    ensures Refund(b, k).points[v] == b.points[v] + if v == b.orders[k].userId then b.orders[k].totalPoints else 0
  {
  }

  /** Moving an order between open statuses, or from open to completed, changes no user's wealth. */
  lemma RestatusKeepsWealth(b: Books, k: int, s: Status, v: int)
    requires 0 <= k < |b.orders| && b.orders[k].status != Cancelled && s != Cancelled
    requires v in b.points
    ensures Wealth(Restatus(b, k, s), v) == Wealth(b, v)
  {
    SumOfUpdate(b.orders, k, b.orders[k].(status := s), HeldBy(v));
  }

  /** Placing an order and then cancelling it gives every user back the balance they had. */
  lemma PlaceThenCancel(b: Books, user: int, lines: seq<OrderLine>)
    requires user in b.points
    ensures Refund(Place(b, user, lines), |b.orders|).points == b.points
  {
  }

  /** Every status change the corrected checks allow keeps every user's wealth. */
  lemma CheckedStatusKeepsWealth(b: Books, caller: Option<int>, status: Option<string>, k: int, v: int)
    requires 0 <= k < |b.orders| && v in b.points
    requires CheckStatus(caller, true, status, Some(b.orders[k].status)) == StatusUpdated
    ensures Wealth(Restatus(b, k, ParseStatus(status).value), v) == Wealth(b, v)
  {
    RestatusKeepsWealth(b, k, ParseStatus(status).value, v);
  }

  /**
   * With the handler's checks as written, an admin can move a cancelled order back to "pending",
   * and cancelling it again refunds it a second time: a user with 10 points orders for 10, the order
   * is cancelled, revived and cancelled again, and the user ends with 20 points.
   */
  lemma RevivedOrderRefundedTwice()
    ensures var b0 := Books(map[1 := 10], []);
            var lines := [OrderLine(7, "dish", 1, 10)];
            var b1 := Place(b0, 1, lines);
            var b2 := Refund(b1, 0);
            && CheckCancel(b1.orders, Some(1), false, Some(1)) == CancelledOk
            && CheckStatusAsWritten(Some(2), true, Some("pending")) == StatusUpdated
            && CheckCancel(Restatus(b2, 0, Pending).orders, Some(1), false, Some(1)) == CancelledOk
            && Refund(Restatus(b2, 0, Pending), 0).points[1] == 20
            && CheckStatus(Some(2), true, Some("pending"), Some(b2.orders[0].status)) == OrderIsCancelled
  {
    var lines := [OrderLine(7, "dish", 1, 10)];
    assert lines[..0] == [];
    assert OrderTotal(lines) == 10;
  }

  // ---------------------------------------------------------------------------------------------
  // Listing orders.

  /** The status tab a list request asks for. */
  datatype Tab = AllOrders | Ongoing | History | Exactly(name: string)

  /** No tab, an empty one, "all" or "undefined" list everything; "pending" and "completed" name groups. */
  function TabOf(status: Option<string>): Tab
  {
    if status.None? || status.value in {"", "all", "undefined"} then AllOrders
    else if status.value == "pending" then Ongoing
    else if status.value == "completed" then History
    else Exactly(status.value)
  }

  /** ASCII letters folded to lower case; every other character is kept. */
  function LowerAscii(s: string): (r: string)
    ensures |r| == |s|
    ensures forall i :: 0 <= i < |s| ==> r[i] == if 'A' <= s[i] <= 'Z' then s[i] - 'A' + 'a' else s[i]
  {
    seq(|s|, i requires 0 <= i < |s| => if 'A' <= s[i] <= 'Z' then s[i] - 'A' + 'a' else s[i])
  }

  /** How the database compares a stored status with a requested one: ignoring the case of ASCII letters. */
  predicate SameStatusText(stored: string, requested: string)
  {
    LowerAscii(stored) == LowerAscii(requested)
  }

  predicate InTab(s: Status, tab: Tab)
  {
    match tab
    case AllOrders => true
    case Ongoing => s == Pending || s == Processing
    case History => s == Completed || s == Cancelled
    case Exactly(name) => SameStatusText(StatusName(s), name)
  }

  /** The "pending" and "completed" tabs split the orders between them: each order is in exactly one. */
  lemma TabsSplitOrders(s: Status)
    ensures InTab(s, TabOf(Some("pending"))) != InTab(s, TabOf(Some("completed")))
  {
  }

  /**
   * A status the handler does not treat as a tab is compared by the database, which ignores case:
   * "PROCESSING" lists the processing orders, and "Pending" lists only the pending ones, not the
   * "pending" tab's processing orders as well.
   */
  lemma StatusFilterIgnoresCase()
    ensures InTab(Processing, TabOf(Some("PROCESSING")))
    ensures InTab(Pending, TabOf(Some("Pending"))) && !InTab(Processing, TabOf(Some("Pending")))
  {
    assert LowerAscii("PROCESSING") == "processing";
    assert LowerAscii("Pending") == "pending";
    assert LowerAscii("processing") == "processing";
    assert LowerAscii("pending") == "pending";
  }

  /** A page number or size as the handler reads it: a missing or zero value takes the default. */
  function OrDefault(x: Option<int>, default: int): int
  {
    if x.None? || x.value == 0 then default else x.value
  }

  /** The orders newest first. */
  function Newest(orders: seq<Order>): (r: seq<Order>)
    ensures |r| == |orders|
  {
    seq(|orders|, i requires 0 <= i < |orders| => orders[|orders| - 1 - i])
  }

  /** The part of s from offset on, at most limit long. */
  function Window<T>(s: seq<T>, offset: nat, limit: nat): (r: seq<T>)
    ensures |r| <= limit
  {
    var lo := if offset <= |s| then offset else |s|;
    var hi := if offset + limit <= |s| then offset + limit else |s|;
    s[lo..hi]
  }

  /** One condition of the order query. */
  datatype Condition = OwnedBy(userId: int) | StatusAmong(names: set<string>) | StatusIs(name: string)

  predicate Holds(o: Order, c: Condition)
  {
    match c
    case OwnedBy(u) => o.userId == u
    case StatusAmong(names) => StatusName(o.status) in names
    case StatusIs(name) => SameStatusText(StatusName(o.status), name)
  }

  predicate HoldsAll(o: Order, conditions: seq<Condition>)
  {
    forall i :: 0 <= i < |conditions| ==> Holds(o, conditions[i])
  }

  /** An order a caller sees under a tab: their own (every order for an admin) with a status in the tab. */
  predicate Listable(o: Order, caller: int, isAdmin: bool, tab: Tab)
  {
    (isAdmin || o.userId == caller) && InTab(o.status, tab)
  }

  datatype ListOutcome = ListUnauthorized | QueryFailed | Listed(list: seq<Order>)

  /** The page of orders a request asks for; a negative size or offset makes the query fail. */
  function OrdersPage(orders: seq<Order>, caller: int, isAdmin: bool, page: Option<int>, limit: Option<int>, status: Option<string>)
    : ListOutcome
  {
    var p := OrDefault(page, 1);
    var l := OrDefault(limit, 10);
    var offset := (p - 1) * l;
    if l < 0 || offset < 0 then QueryFailed
    else Listed(Window(Filter(Newest(orders), (o: Order) => Listable(o, caller, isAdmin, TabOf(status))), offset, l))
  }

  /** Every order listed is one the caller may see, with a status in the tab asked for, and no more than a page of them. */
  lemma OrdersPageSound(orders: seq<Order>, caller: int, isAdmin: bool, page: Option<int>, limit: Option<int>, status: Option<string>)
    ensures var r := OrdersPage(orders, caller, isAdmin, page, limit, status);
            r.Listed? ==> && |r.list| <= OrDefault(limit, 10)
                          && forall o :: o in r.list ==> o in orders && (isAdmin || o.userId == caller)
                                                          && InTab(o.status, TabOf(status))
  {
    var p := (o: Order) => Listable(o, caller, isAdmin, TabOf(status));
    var all := Filter(Newest(orders), p);
    FilterExact(Newest(orders), p);
    var l := OrDefault(limit, 10);
    var offset := (OrDefault(page, 1) - 1) * l;
    if l >= 0 && offset >= 0 {
      WindowWithin(all, offset, l);
    }
    forall o | o in Newest(orders)
      ensures o in orders
    {
      var i :| 0 <= i < |orders| && Newest(orders)[i] == o;
      assert orders[|orders| - 1 - i] == o;
    }
  }

  lemma WindowWithin<T>(s: seq<T>, offset: nat, limit: nat)
    ensures forall x :: x in Window(s, offset, limit) ==> x in s
  {
    var lo := if offset <= |s| then offset else |s|;
    var hi := if offset + limit <= |s| then offset + limit else |s|;
    forall x | x in Window(s, offset, limit)
      ensures x in s
    {
      var i :| 0 <= i < hi - lo && s[lo..hi][i] == x;
      assert s[lo + i] == x;
    }
  }

  /** Consecutive pages follow each other: page n and page n + 1 together are the window of twice the size. */
  lemma PagesTile<T>(s: seq<T>, offset: nat, limit: nat)
    ensures Window(s, offset, limit) + Window(s, offset + limit, limit) == Window(s, offset, 2 * limit)
  {
  }

  /** Newest first: with ids as positions, the listed ids strictly decrease. */
  lemma {:induction false} FilterNewestDecreasing(s: seq<Order>, p: Order -> bool)
    requires forall i, j :: 0 <= i < j < |s| ==> s[i].id > s[j].id
    ensures forall i, j :: 0 <= i < j < |Filter(s, p)| ==> Filter(s, p)[i].id > Filter(s, p)[j].id
    decreases |s|
  {
    if |s| > 0 {
      FilterNewestDecreasing(s[1..], p);
      FilterExact(s[1..], p);
      var rest := Filter(s[1..], p);
      forall j | 0 <= j < |rest|
        ensures s[0].id > rest[j].id
      {
        assert rest[j] in s[1..];
      }
    }
  }

  lemma OrdersPageNewestFirst(orders: seq<Order>, caller: int, isAdmin: bool, page: Option<int>, limit: Option<int>, status: Option<string>)
    requires IdsArePositions(orders)
    ensures var r := OrdersPage(orders, caller, isAdmin, page, limit, status);
            r.Listed? ==> forall i, j :: 0 <= i < j < |r.list| ==> r.list[i].id > r.list[j].id
  {
    var p := (o: Order) => Listable(o, caller, isAdmin, TabOf(status));
    FilterNewestDecreasing(Newest(orders), p);
  }

  // ---------------------------------------------------------------------------------------------
  // The handlers over the stored books.

  class Ledger {
    var points: map<int, int>
    var orders: seq<Order>

    predicate Valid()
      reads this
    {
      IdsArePositions(orders)
    }

    constructor (points0: map<int, int>)
      ensures points == points0 && orders == [] && Valid()
    {
      points, orders := points0, [];
    }

    /** Places an order for the caller when their balance covers its total. */
    method CreateOrder(caller: Option<int>, lines: seq<OrderLine>) returns (r: CreateOutcome)
      requires Valid()
      modifies this
      ensures Valid()
      ensures r == CheckCreate(old(Books(points, orders)), caller, OrderTotal(lines))
      ensures Books(points, orders) == if r.Placed? then Place(old(Books(points, orders)), caller.value, lines)
                                       else old(Books(points, orders))
      ensures r.Placed? ==> points[caller.value] >= 0
    {
      if !GivenId(caller) {
        return CreateUnauthorized;
      }
      var total := ComputeTotal(lines);
      var user := caller.value;
      if user !in points {
        return UserNotFound;
      }
      var balance := points[user];
      if balance < total {
        return InsufficientPoints(balance, total);
      }
      points := points[user := balance - total];
      r := Placed(|orders| + 1);
      orders := orders + [Order(|orders| + 1, user, total, Pending, lines)];
    }

    /** Cancels an open order the caller may act on and refunds its owner. */
    method CancelOrder(caller: Option<int>, isAdmin: bool, orderId: Option<int>) returns (r: CancelOutcome)
      requires Valid()
      modifies this
      ensures Valid()
      ensures r == CheckCancel(old(orders), caller, isAdmin, orderId)
      ensures Books(points, orders) == if r == CancelledOk then Refund(old(Books(points, orders)), orderId.value - 1)
                                       else old(Books(points, orders))
    {
      r := CheckCancel(orders, caller, isAdmin, orderId);
      if r == CancelledOk {
        var k := orderId.value - 1;
        var o := orders[k];
        orders := orders[k := o.(status := Cancelled)];
        if o.userId in points {
          points := points[o.userId := points[o.userId] + o.totalPoints];
        }
      }
    }

    /** Sets an order's status for an admin; a missing order is left as it is. */
    method UpdateOrderStatus(caller: Option<int>, isAdmin: bool, orderId: Option<int>, status: Option<string>)
      returns (r: StatusOutcome)
      requires Valid()
      modifies this
      ensures Valid()
      ensures var found := orderId.Some? && 1 <= orderId.value <= old(|orders|);
              r == CheckStatus(caller, isAdmin, status, if found then Some(old(orders)[orderId.value - 1].status) else None)
      ensures points == old(points)
      ensures orders == if r == StatusUpdated && orderId.Some? && 1 <= orderId.value <= old(|orders|)
                        then Restatus(old(Books(points, orders)), orderId.value - 1, ParseStatus(status).value).orders
                        else old(orders)
    {
      var found := orderId.Some? && 1 <= orderId.value <= |orders|;
      r := CheckStatus(caller, isAdmin, status, if found then Some(orders[orderId.value - 1].status) else None);
      if r == StatusUpdated && found {
        var k := orderId.value - 1;
        orders := orders[k := orders[k].(status := ParseStatus(status).value)];
      }
    }

    /** The caller's page of orders, newest first, built as the handler builds its query. */
    method GetUserOrders(caller: Option<int>, isAdmin: bool, page: Option<int>, limit: Option<int>, status: Option<string>)
      returns (r: ListOutcome)
      ensures r == if GivenId(caller) then OrdersPage(orders, caller.value, isAdmin, page, limit, status) else ListUnauthorized
    {
      if !GivenId(caller) {
        return ListUnauthorized;
      }
      var user := caller.value;
      var p := OrDefault(page, 1);
      var l := OrDefault(limit, 10);
      var offset := (p - 1) * l;
      var conditions: seq<Condition> := [];
      if !isAdmin {
        conditions := conditions + [OwnedBy(user)];
      }
      if status.Some? && status.value != "" && status.value != "all" && status.value != "undefined" {
        if status.value == "pending" {
          conditions := conditions + [StatusAmong({"pending", "processing"})];
        } else if status.value == "completed" {
          conditions := conditions + [StatusAmong({"completed", "cancelled"})];
        } else {
          conditions := conditions + [StatusIs(status.value)];
        }
      }
      if l < 0 || offset < 0 {
        return QueryFailed;
      }
      QueryMeansListable(orders, conditions, user, isAdmin, status);
      r := Listed(Window(Filter(Newest(orders), (o: Order) => HoldsAll(o, conditions)), offset, l));
    }
  }

  /** The conditions the handler adds select exactly the orders the caller may see under the tab. */
  lemma QueryMeansListable(orders: seq<Order>, conditions: seq<Condition>, user: int, isAdmin: bool, status: Option<string>)
    requires conditions == (if isAdmin then [] else [OwnedBy(user)]) + QueryTab(status)
    ensures Filter(Newest(orders), (o: Order) => HoldsAll(o, conditions))
         == Filter(Newest(orders), (o: Order) => Listable(o, user, isAdmin, TabOf(status)))
  {
    forall o: Order
      ensures HoldsAll(o, conditions) == Listable(o, user, isAdmin, TabOf(status))
    {
      var own := if isAdmin then [] else [OwnedBy(user)];
      HoldsAllConcat(o, own, QueryTab(status));
      TabCondition(o, status);
      if !isAdmin {
        assert HoldsAll(o, own) <==> Holds(o, own[0]);
      }
    }
    FilterSame(Newest(orders), (o: Order) => HoldsAll(o, conditions),
                                (o: Order) => Listable(o, user, isAdmin, TabOf(status)));
  }

  lemma HoldsAllConcat(o: Order, a: seq<Condition>, b: seq<Condition>)
    ensures HoldsAll(o, a + b) <==> HoldsAll(o, a) && HoldsAll(o, b)
  {
    if HoldsAll(o, a) && HoldsAll(o, b) {
      forall i | 0 <= i < |a + b|
        ensures Holds(o, (a + b)[i])
      {
        if i >= |a| {
          assert (a + b)[i] == b[i - |a|];
        }
      }
    }
    if HoldsAll(o, a + b) {
      forall i | 0 <= i < |a|
        ensures Holds(o, a[i])
      {
        assert (a + b)[i] == a[i];
      }
      forall i | 0 <= i < |b|
        ensures Holds(o, b[i])
      {
        assert (a + b)[i + |a|] == b[i];
      }
    }
  }

  /** The status condition of a tab holds exactly for the statuses in the tab. */
  lemma TabCondition(o: Order, status: Option<string>)
    ensures HoldsAll(o, QueryTab(status)) <==> InTab(o.status, TabOf(status))
  {
    var q := QueryTab(status);
    if |q| == 1 {
      assert HoldsAll(o, q) <==> Holds(o, q[0]);
    }
  }

  /** The status condition the handler adds for a tab, if any. */
  function QueryTab(status: Option<string>): seq<Condition>
  {
    if status.Some? && status.value != "" && status.value != "all" && status.value != "undefined" then
      if status.value == "pending" then [StatusAmong({"pending", "processing"})]
      else if status.value == "completed" then [StatusAmong({"completed", "cancelled"})]
      else [StatusIs(status.value)]
    else []
  }
}
