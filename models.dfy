/** The data model of the point-of-sale service: menu items, order lines
    and the per-session order with its running total. Prices are integer
    cents; timestamps are opaque natural numbers supplied by the caller. */
module Models {
  import opened Wrappers

  type Cents = nat
  type Timestamp = nat

  /** A catalog entry (models.py `MenuItem`). */
  datatype MenuItem = MenuItem(
    id: string,
    name: string,
    category: string,
    price: Cents,
    description: Option<string>,
    available: bool)

  /** One line of an order; name and price are copied from the catalog when
      the line is made (models.py `OrderItem`). */
  datatype OrderItem = OrderItem(
    menuItemId: string,
    menuItemName: string,
    quantity: nat := 1,
    price: Cents,
    subtotal: Cents)

  /** The order lifecycle; `Cancelled` is declared by the source but nothing
      ever sets it. */
  datatype Status = InProgress | Completed | Cancelled

  /** `sum(item.subtotal for item in items)`. */
  function SumSubtotals(items: seq<OrderItem>): nat
  {
    if items == [] then 0
    else SumSubtotals(items[..|items| - 1]) + items[|items| - 1].subtotal
  }

  /** Summing over two runs of lines is summing over their concatenation. */
  lemma {:induction false} SumSubtotalsConcat(a: seq<OrderItem>, b: seq<OrderItem>)
    ensures SumSubtotals(a + b) == SumSubtotals(a) + SumSubtotals(b)
  {
    if b == [] {
      assert a + b == a;
    } else {
      var b' := b[..|b| - 1];
      assert (a + b)[..|a + b| - 1] == a + b';
      SumSubtotalsConcat(a, b');
    }
  }

  /** The value of an `Order` object at one moment. */
  datatype OrderView = OrderView(
    sessionId: string,
    items: seq<OrderItem>,
    total: nat,
    status: Status,
    createdAt: Timestamp,
    completedAt: Option<Timestamp>)
  {
    /** The invariant the running total is meant to keep. */
    predicate TotalConsistent()
    {
      total == SumSubtotals(items)
    }
  }

  /** The value of `Order(session_id=sessionId)` made at time `now`: the
      field defaults of models.py. */
  function NewOrderView(sessionId: string, now: Timestamp): OrderView
  {
    OrderView(sessionId, [], 0, InProgress, now, None)
  }

  /** A customer's order, updated in place (models.py `Order`). */
  class Order {
    const sessionId: string
    var items: seq<OrderItem>
    var total: nat
    var status: Status
    const createdAt: Timestamp
    var completedAt: Option<Timestamp>

    function View(): OrderView
      reads this
    {
      OrderView(sessionId, items, total, status, createdAt, completedAt)
    }

    ghost predicate TotalConsistent()
      reads this
    {
      View().TotalConsistent()
    }

    /** `Order(session_id=sessionId)`: no lines, total 0, in progress, no
        completion time. */
    constructor (sessionId: string, now: Timestamp)
      ensures View() == NewOrderView(sessionId, now)
      ensures TotalConsistent()
    {
      this.sessionId := sessionId;
      items := [];
      total := 0;
      status := InProgress;
      createdAt := now;
      completedAt := None;
    }

    /** `add_item`: the line goes at the end, earlier lines stay, the total
        grows by the line's subtotal, so a consistent total stays
        consistent. */
    method AddItem(item: OrderItem)
      modifies this`items, this`total
      ensures items == old(items) + [item]
      ensures total == old(total) + item.subtotal
      ensures old(TotalConsistent()) ==> TotalConsistent()
    {
      items := items + [item];
      total := total + item.subtotal;
      assert items[..|items| - 1] == old(items);
    }

    /** `calculate_total`: the total becomes the sum of the line subtotals
        and is returned; the lines are untouched, so a second call returns
        the same amount. */
    method CalculateTotal() returns (r: nat)
      modifies this`total
      ensures TotalConsistent()
      ensures r == total
    {
      total := SumSubtotals(items);
      r := total;
    }
  }
}
