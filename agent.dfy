/** The order-taking dialogue engine (agent.py): a session store mapping
    session ids to orders and to conversation histories, the deterministic
    rule table, the catalog-driven item extractor and the order summary.

    The behaviour is first stated as functions over order values
    (`MockOutcome`, `LlmOutcome`, `RespondOutcome`); the `OrderAgent` class
    then performs it in place on `Order` objects, and each of its methods
    is proved to produce exactly the outcome those functions describe. */
module Agent {
  import opened Wrappers
  import opened Seqs
  import opened Text
  import opened Models
  import opened Menu

  datatype Role = User | Assistant

  /** One entry of a session's conversation history. */
  datatype Turn = Turn(role: Role, content: string)

  const Greetings: seq<string> := ["hi", "hello", "hey", "good morning", "good afternoon", "good evening"]
  const MenuRequests: seq<string> := ["menu", "what do you have", "what can i get"]
  const DonePhrases: seq<string> :=
    ["that's all", "that's it", "nothing else", "no thanks", "i'm done", "that'll be all", "finish", "complete"]

  const WelcomeReply: string := "Hello! Welcome to NoPickles. I'm here to help you order. What would you like today?"
  const NothingOrderedReply: string := "You haven't ordered anything yet. What would you like?"
  const FallbackReply: string :=
    "I'm not sure I understood that. You can tell me what you'd like to order, ask for the menu, or let me know if you're done ordering."
  const EmptySummary: string := "No items ordered yet."

  function MenuReply(menuText: string): string
  {
    "Here's our menu:" + menuText + "\n\nWhat would you like to order?"
  }

  /** How a confirmation names one added line: `name ($price)`. */
  function AddedText(line: OrderItem): string
  {
    line.menuItemName + " ($" + Money(line.price) + ")"
  }

  function ConfirmReply(added: seq<OrderItem>, total: nat): string
  {
    "Great! I've added " + Join(Map(added, AddedText), ", ") + " to your order. Your current total is $"
      + Money(total) + ". Would you like anything else?"
  }

  function CompletedReply(summary: string): string
  {
    "Perfect! Your order is complete.\n" + summary + "\n\nThank you for ordering with NoPickles!"
  }

  /** One line of the order summary: `  - {qty}x {name}: ${subtotal}`. */
  function SummaryLine(line: OrderItem): string
  {
    "  - " + NatToString(line.quantity) + "x " + line.menuItemName + ": $" + Money(line.subtotal) + "\n"
  }

  function SummaryLines(lines: seq<OrderItem>): string
  {
    if lines == [] then ""
    else SummaryLines(lines[..|lines| - 1]) + SummaryLine(lines[|lines| - 1])
  }

  /** The text `_get_order_summary` renders for an order's lines and total. */
  function Summary(items: seq<OrderItem>, total: nat): string
  {
    if items == [] then EmptySummary
    else "Order Summary:\n" + SummaryLines(items) + "\nTotal: $" + Money(total)
  }

  /** The extractor's test: the item's lower-cased name occurs in the
      lower-cased message. */
  predicate Mentions(message: string, item: MenuItem)
  {
    Contains(Lower(message), Lower(item.name))
  }

  function MentionFilter(message: string): MenuItem -> bool
  {
    x => Mentions(message, x)
  }

  /** The catalog items the message names, each once, in catalog order. */
  function MentionedItems(catalog: seq<MenuItem>, message: string): (r: seq<MenuItem>)
    ensures forall x :: x in r <==> x in catalog && Mentions(message, x)
    ensures IsSubsequence(r, catalog)
  {
    Filter(catalog, MentionFilter(message))
  }

  /** The order line made for a mentioned item: quantity 1, unit price and
      subtotal the catalog price. */
  function LineFor(item: MenuItem): OrderItem
  {
    OrderItem(item.id, item.name, 1, item.price, item.price)
  }

  /** The lines `_extract_and_add_items` appends for a message. */
  function ExtractLines(catalog: seq<MenuItem>, message: string): seq<OrderItem>
  {
    Map(MentionedItems(catalog, message), LineFor)
  }

  /** An order with `added` appended by successive `add_item` calls. */
  function WithLines(v: OrderView, added: seq<OrderItem>): OrderView
  {
    v.(items := v.items + added, total := v.total + SumSubtotals(added))
  }

  lemma WithNoLines(v: OrderView)
    ensures WithLines(v, []) == v
  {
    assert v.items + [] == v.items;
  }

  /** What handling one message does: the order afterwards and the reply. */
  datatype Outcome = Outcome(order: OrderView, response: string)

  /** `_process_mock`: the rule table, first match wins — greeting, menu
      request, then the ordering rules. */
  function MockOutcome(catalog: seq<MenuItem>, v: OrderView, message: string, now: Timestamp): Outcome
  {
    var lower := Lower(message);
    if ContainsAny(lower, Greetings) then Outcome(v, WelcomeReply)
    else if ContainsAny(lower, MenuRequests) then Outcome(v, MenuReply(MenuText(catalog)))
    else OrderingOutcome(catalog, v, message, now)
  }

  /** The rule table past the greeting and menu rules: items the message
      names are added and confirmed; failing that, the completion rules. */
  function OrderingOutcome(catalog: seq<MenuItem>, v: OrderView, message: string, now: Timestamp): Outcome
  {
    var added := ExtractLines(catalog, message);
    if added != [] then
      var v' := WithLines(v, added);
      Outcome(v', ConfirmReply(added, v'.total))
    else CompletionOutcome(v, Lower(message), now)
  }

  /** The last rules: a completion phrase completes a non-empty order (and
      is refused for an empty one); anything else gets the fallback. */
  function CompletionOutcome(v: OrderView, lower: string, now: Timestamp): Outcome
  {
    if ContainsAny(lower, DonePhrases) then
      if v.items != [] then
        var v' := v.(status := Completed, completedAt := Some(now));
        Outcome(v', CompletedReply(Summary(v'.items, v'.total)))
      else Outcome(v, NothingOrderedReply)
    else Outcome(v, FallbackReply)
  }

  /** `_process_with_llm` with the backend's answer as a parameter: on a
      reply, the reply is returned and the extractor runs on the message;
      on a failure (`None`), the rule table handles the message. */
  function LlmOutcome(catalog: seq<MenuItem>, v: OrderView, message: string, now: Timestamp, reply: Option<string>): Outcome
  {
    match reply
    case Some(text) => Outcome(WithLines(v, ExtractLines(catalog, message)), text)
    case None => MockOutcome(catalog, v, message, now)
  }

  /** The strategy chosen once at start-up. */
  function RespondOutcome(useLlm: bool, catalog: seq<MenuItem>, v: OrderView, message: string, now: Timestamp, reply: Option<string>): Outcome
  {
    if useLlm then LlmOutcome(catalog, v, message, now, reply) else MockOutcome(catalog, v, message, now)
  }

  /** A session's history so far; a session without one has none. */
  function History(context: map<string, seq<Turn>>, sessionId: string): seq<Turn>
  {
    if sessionId in context then context[sessionId] else []
  }

  /** The completion rules never touch the lines, the total or the
      session of the order. */
  lemma CompletionKeepsLines(v: OrderView, lower: string, now: Timestamp)
    ensures var after := CompletionOutcome(v, lower, now).order;
            after.items == v.items && after.total == v.total && after.sessionId == v.sessionId
  {
  }

  /** Appending lines through `add_item` keeps a consistent total
      consistent. */
  lemma WithLinesKeepsTotalConsistent(v: OrderView, added: seq<OrderItem>)
    requires v.TotalConsistent()
    ensures WithLines(v, added).TotalConsistent()
  {
    SumSubtotalsConcat(v.items, added);
  }

  /** The ordering rules keep a consistent total consistent and the order
      with its session. */
  lemma OrderingKeepsTotalConsistent(catalog: seq<MenuItem>, v: OrderView, message: string, now: Timestamp)
    requires v.TotalConsistent()
    ensures var after := OrderingOutcome(catalog, v, message, now).order;
            after.TotalConsistent() && after.sessionId == v.sessionId
  {
    WithLinesKeepsTotalConsistent(v, ExtractLines(catalog, message));
    CompletionKeepsLines(v, Lower(message), now);
  }

  /** The rule table keeps a consistent total consistent and the order
      with its session. */
  lemma MockKeepsTotalConsistent(catalog: seq<MenuItem>, v: OrderView, message: string, now: Timestamp)
    requires v.TotalConsistent()
    ensures var after := MockOutcome(catalog, v, message, now).order;
            after.TotalConsistent() && after.sessionId == v.sessionId
  {
    var lower := Lower(message);
    if !ContainsAny(lower, Greetings) && !ContainsAny(lower, MenuRequests) {
      assert MockOutcome(catalog, v, message, now) == OrderingOutcome(catalog, v, message, now);
      OrderingKeepsTotalConsistent(catalog, v, message, now);
    }
  }

  /** Whatever the strategy and the message, an order whose total is the
      sum of its lines still has that property afterwards, and stays with
      its session. */
  lemma RespondKeepsTotalConsistent(useLlm: bool, catalog: seq<MenuItem>, v: OrderView, message: string, now: Timestamp, reply: Option<string>)
    requires v.TotalConsistent()
    ensures var after := RespondOutcome(useLlm, catalog, v, message, now, reply).order;
            after.TotalConsistent() && after.sessionId == v.sessionId
  {
    if useLlm && reply.Some? {
      WithLinesKeepsTotalConsistent(v, ExtractLines(catalog, message));
    } else {
      assert RespondOutcome(useLlm, catalog, v, message, now, reply) == MockOutcome(catalog, v, message, now);
      MockKeepsTotalConsistent(catalog, v, message, now);
    }
  }

  /** A second update of the same key overrides the first. */
  lemma UpdateTwice<K, V>(m: map<K, V>, k: K, v: V, w: V)
    ensures m[k := v][k := w] == m[k := w]
  {
  }

  lemma ExtractLinesSnoc(catalog: seq<MenuItem>, i: nat, message: string)
    requires i < |catalog|
    ensures ExtractLines(catalog[..i + 1], message)
         == ExtractLines(catalog[..i], message) + (if Mentions(message, catalog[i]) then [LineFor(catalog[i])] else [])
  {
    assert catalog[..i + 1] == catalog[..i] + [catalog[i]];
    FilterSnoc(catalog[..i], catalog[i], MentionFilter(message));
  }

  lemma SummaryLinesSnoc(lines: seq<OrderItem>, i: nat)
    requires i < |lines|
    ensures SummaryLines(lines[..i + 1]) == SummaryLines(lines[..i]) + SummaryLine(lines[i])
  {
    assert lines[..i + 1][..i] == lines[..i];
  }

  /** The session store and dialogue engine (agent.py `OrderAgent`). The
      catalog and the strategy flag are fixed at construction. */
  class OrderAgent {
    const menu: MenuManager
    const useLlm: bool
    var orders: map<string, Order>
    var conversationContext: map<string, seq<Turn>>

    /** Every stored order belongs to its key's session and keeps its total
        equal to the sum of its lines; since an order's session never
        changes, no two sessions share an order object. */
    ghost predicate Valid()
      reads this, orders.Values
    {
      forall s :: s in orders ==> orders[s].sessionId == s && orders[s].TotalConsistent()
    }

    /** `OrderAgent()`: no orders and no histories yet. */
    constructor (menu: MenuManager, useLlm: bool)
      ensures this.menu == menu && this.useLlm == useLlm
      ensures orders == map[] && conversationContext == map[]
      ensures Valid()
    {
      this.menu := menu;
      this.useLlm := useLlm;
      orders := map[];
      conversationContext := map[];
    }

    /** `get_or_create_order`: the stored order of a known session,
        untouched; otherwise a new order for the session, stored under its
        id. No other entry changes and no order object is modified. */
    method GetOrCreateOrder(sessionId: string, now: Timestamp) returns (order: Order)
      requires Valid()
      modifies this`orders
      ensures Valid()
      ensures orders == old(orders)[sessionId := order]
      ensures sessionId in old(orders) ==> order == old(orders[sessionId])
      ensures sessionId !in old(orders) ==> fresh(order) && order.View() == NewOrderView(sessionId, now)
    {
      if sessionId !in orders {
        var created := new Order(sessionId, now);
        orders := orders[sessionId := created];
      }
      order := orders[sessionId];
    }

    /** `process_message`: fetch or create the session's order, record the
        user turn, answer with the configured strategy (the backend's
        answer is the parameter `llmReply`), record the assistant turn.
        Only this session's entries change; by the modifies clause, no
        other session's order object is touched. */
    method ProcessMessage(sessionId: string, message: string, now: Timestamp, llmReply: Option<string>) returns (response: string)
      requires Valid()
      modifies this`orders, this`conversationContext, if sessionId in orders then {orders[sessionId]} else {}
      ensures Valid()
      ensures sessionId in orders && orders == old(orders)[sessionId := orders[sessionId]]
      ensures sessionId in old(orders) ==> orders[sessionId] == old(orders[sessionId])
      ensures sessionId !in old(orders) ==> fresh(orders[sessionId])
      ensures var start := if sessionId in old(orders) then old(orders[sessionId].View()) else NewOrderView(sessionId, now);
              var out := RespondOutcome(useLlm, menu.items, start, message, now, llmReply);
              orders[sessionId].View() == out.order && response == out.response
      ensures conversationContext
           == old(conversationContext)[sessionId := History(old(conversationContext), sessionId) + [Turn(User, message), Turn(Assistant, response)]]
    {
      ghost var past := History(conversationContext, sessionId);
      ghost var context := conversationContext;
      var order := GetOrCreateOrder(sessionId, now);
      AppendTurn(sessionId, Turn(User, message));
      response := Respond(order, message, now, llmReply);
      AppendTurn(sessionId, Turn(Assistant, response));
      ghost var asked := past + [Turn(User, message)];
      UpdateTwice(context, sessionId, asked, asked + [Turn(Assistant, response)]);
      ConcatAssoc(past, [Turn(User, message)], [Turn(Assistant, response)]);
      assert [Turn(User, message)] + [Turn(Assistant, response)] == [Turn(User, message), Turn(Assistant, response)];
    }

    /** One history append: the session's list is created empty when
        missing, then the turn goes at its end. */
    method AppendTurn(sessionId: string, turn: Turn)
      modifies this`conversationContext
      ensures conversationContext == old(conversationContext)[sessionId := History(old(conversationContext), sessionId) + [turn]]
    {
      if sessionId !in conversationContext {
        conversationContext := conversationContext[sessionId := []];
      }
      conversationContext := conversationContext[sessionId := conversationContext[sessionId] + [turn]];
    }

    /** The strategy fixed at construction answers the message: the
        backend path when `useLlm`, the rule table otherwise. */
    method Respond(order: Order, message: string, now: Timestamp, llmReply: Option<string>) returns (response: string)
      modifies order
      ensures old(order.TotalConsistent()) ==> order.TotalConsistent()
      ensures var out := RespondOutcome(useLlm, menu.items, old(order.View()), message, now, llmReply);
              order.View() == out.order && response == out.response
    {
      if order.TotalConsistent() {
        RespondKeepsTotalConsistent(useLlm, menu.items, order.View(), message, now, llmReply);
      }
      if useLlm {
        response := ProcessWithLlm(order, message, now, llmReply);
      } else {
        response := ProcessMock(order, message, now);
      }
    }

    /** `_process_with_llm`, the backend's answer given as `llmReply`. */
    method ProcessWithLlm(order: Order, message: string, now: Timestamp, llmReply: Option<string>) returns (response: string)
      modifies order
      ensures var out := LlmOutcome(menu.items, old(order.View()), message, now, llmReply);
              order.View() == out.order && response == out.response
    {
      match llmReply
      case Some(text) =>
        var added := ExtractAndAddItems(message, order);
        response := text;
      case None =>
        response := ProcessMock(order, message, now);
    }

    /** `_process_mock`: the rule table applied to the order in place. */
    method ProcessMock(order: Order, message: string, now: Timestamp) returns (response: string)
      modifies order
      ensures var out := MockOutcome(menu.items, old(order.View()), message, now);
              order.View() == out.order && response == out.response
    {
      var lower := Lower(message);
      if ContainsAny(lower, Greetings) {
        response := WelcomeReply;
      } else if ContainsAny(lower, MenuRequests) {
        var menuText := menu.GetMenuText();
        response := MenuReply(menuText);
      } else {
        response := TakeOrder(order, message, lower, now);
      }
    }

    /** The ordering rules of `_process_mock`: extraction, then completion. */
    method TakeOrder(order: Order, message: string, lower: string, now: Timestamp) returns (response: string)
      requires lower == Lower(message)
      modifies order
      ensures var out := OrderingOutcome(menu.items, old(order.View()), message, now);
              order.View() == out.order && response == out.response
    {
      var added := ExtractAndAddItems(message, order);
      if added != [] {
        response := ConfirmReply(added, order.total);
      } else {
        WithNoLines(old(order.View()));
        response := Conclude(order, lower, now);
      }
    }

    /** The completion rules of `_process_mock`. */
    method Conclude(order: Order, lower: string, now: Timestamp) returns (response: string)
      modifies order`status, order`completedAt
      ensures var out := CompletionOutcome(old(order.View()), lower, now);
              order.View() == out.order && response == out.response
    {
      if ContainsAny(lower, DonePhrases) {
        if order.items != [] {
          order.status := Completed;
          order.completedAt := Some(now);
          assert order.View() == old(order.View()).(status := Completed, completedAt := Some(now));
          var summary := GetOrderSummary(order);
          response := CompletedReply(summary);
        } else {
          response := NothingOrderedReply;
        }
      } else {
        response := FallbackReply;
      }
    }

    /** `_extract_and_add_items`: one line per catalog item the message
        names, appended to the order in catalog order; returns the lines
        added. */
    method ExtractAndAddItems(message: string, order: Order) returns (added: seq<OrderItem>)
      modifies order`items, order`total
      ensures added == ExtractLines(menu.items, message)
      ensures order.items == old(order.items) + added
      ensures order.total == old(order.total) + SumSubtotals(added)
      ensures order.View() == WithLines(old(order.View()), added)
    {
      var lower := Lower(message);
      added := [];
      var all := menu.GetAllItems();
      for i := 0 to |all|
        invariant added == ExtractLines(all[..i], message)
        invariant order.items == old(order.items) + added
        invariant order.total == old(order.total) + SumSubtotals(added)
      {
        var item := all[i];
        ExtractLinesSnoc(all, i, message);
        if Contains(lower, Lower(item.name)) {
          var line := LineFor(item);
          ConcatAssoc(old(order.items), added, [line]);
          SumSubtotalsConcat(added, [line]);
          order.AddItem(line);
          added := added + [line];
        }
      }
      assert all[..|all|] == all;
    }

    /** `_get_order_summary`. */
    method GetOrderSummary(order: Order) returns (summary: string)
      ensures summary == Summary(order.items, order.total)
    {
      var items := order.items;
      if items == [] {
        return EmptySummary;
      }
      summary := "Order Summary:\n";
      for i := 0 to |items|
        invariant summary == "Order Summary:\n" + SummaryLines(items[..i])
      {
        SummaryLinesSnoc(items, i);
        ConcatAssoc("Order Summary:\n", SummaryLines(items[..i]), SummaryLine(items[i]));
        summary := summary + SummaryLine(items[i]);
      }
      assert items[..|items|] == items;
      summary := summary + "\nTotal: $" + Money(order.total);
    }

    /** `get_order`: the session's order object, or None for an unknown
        session (nothing is created). */
    function GetOrder(sessionId: string): (r: Option<Order>)
      reads this
      ensures r.Some? <==> sessionId in orders
      ensures r.Some? ==> r.value == orders[sessionId]
    {
      if sessionId in orders then Some(orders[sessionId]) else None
    }

    /** `get_all_orders`: the whole store; each order is keyed by its own
        session id and keeps its total consistent. */
    function GetAllOrders(): (r: map<string, Order>)
      reads this, orders.Values
      requires Valid()
      ensures r == orders
      ensures forall s :: s in r ==> r[s].sessionId == s && r[s].TotalConsistent()
    {
      orders
    }
  }
}
