/** What the dialogue engine promises, stated over the outcome functions of
    module Agent: the precedence of the rule table, the shape of what the
    extractor adds, the one-way completion, and the order summary. */
module AgentProperties {
  import opened Wrappers
  import opened Seqs
  import opened Text
  import opened Models
  import opened Menu
  import opened Agent

  /** The sum of the catalog prices of `items`. */
  function PriceSum(items: seq<MenuItem>): nat
  {
    if items == [] then 0 else PriceSum(items[..|items| - 1]) + items[|items| - 1].price
  }

  /** The lines made for some items add up to the items' prices. */
  lemma {:induction false} LinesTotal(items: seq<MenuItem>)
    ensures SumSubtotals(Map(items, LineFor)) == PriceSum(items)
  {
    if items != [] {
      var n := |items| - 1;
      var lines := Map(items, LineFor);
      assert lines[..n] == Map(items[..n], LineFor);
      LinesTotal(items[..n]);
    }
  }

  /** A greeting anywhere in the message wins over every later rule: the
      welcome is the reply and the order is untouched, even when the message
      also names menu items, asks for the menu or says it is done. */
  lemma GreetingTakesPrecedence(catalog: seq<MenuItem>, v: OrderView, message: string, now: Timestamp)
    requires ContainsAny(Lower(message), Greetings)
    ensures MockOutcome(catalog, v, message, now) == Outcome(v, WelcomeReply)
  {
  }

  /** The completion phrase "nothing else" contains the greeting "hi", so a
      message saying it is always answered with the welcome: it can never
      complete an order. */
  lemma NothingElseIsGreeting(catalog: seq<MenuItem>, v: OrderView, message: string, now: Timestamp)
    requires Contains(Lower(message), "nothing else")
    ensures MockOutcome(catalog, v, message, now) == Outcome(v, WelcomeReply)
  {
    var lower := Lower(message);
    var i :| 0 <= i <= |lower| - 12 && OccursAt(lower, "nothing else", i);
    assert lower[i + 3] == lower[i..i + 12][3] == 'h';
    assert lower[i + 4] == lower[i..i + 12][4] == 'i';
    assert lower[i + 3..i + 5] == "hi";
    assert OccursAt(lower, "hi", i + 3);
    assert Contains(lower, Greetings[0]);
    GreetingTakesPrecedence(catalog, v, message, now);
  }

  /** Without a greeting, a menu request is answered with the menu text and
      leaves the order as it was, whatever items the message names. */
  lemma MenuRequestLeavesOrder(catalog: seq<MenuItem>, v: OrderView, message: string, now: Timestamp)
    requires !ContainsAny(Lower(message), Greetings)
    requires Contains(Lower(message), "menu") || Contains(Lower(message), "what do you have")
          || Contains(Lower(message), "what can i get")
    ensures MockOutcome(catalog, v, message, now) == Outcome(v, MenuReply(MenuText(catalog)))
  {
    var lower := Lower(message);
    if Contains(lower, "menu") {
      assert Contains(lower, MenuRequests[0]);
    } else if Contains(lower, "what do you have") {
      assert Contains(lower, MenuRequests[1]);
    } else {
      assert Contains(lower, MenuRequests[2]);
    }
  }

  /** The extractor adds a line for every catalog item whose lower-cased
      name occurs in the lower-cased message and for no other item; each
      line has quantity 1 and the item's catalog price as both price and
      subtotal. */
  lemma ExtractLinesExactly(catalog: seq<MenuItem>, message: string)
    ensures forall l :: l in ExtractLines(catalog, message) <==> exists x :: x in catalog && Mentions(message, x) && l == LineFor(x)
    ensures forall l :: l in ExtractLines(catalog, message) ==> l.quantity == 1 && l.price == l.subtotal
  {
    var mentioned := MentionedItems(catalog, message);
    var lines := ExtractLines(catalog, message);
    forall l | l in lines ensures exists x :: x in catalog && Mentions(message, x) && l == LineFor(x) {
      var k :| 0 <= k < |lines| && lines[k] == l;
      assert mentioned[k] in mentioned;
    }
    forall x | x in catalog && Mentions(message, x) ensures LineFor(x) in lines {
      var k :| 0 <= k < |mentioned| && mentioned[k] == x;
      assert lines[k] == LineFor(x);
    }
  }

  /** With unique catalog ids, no item is added twice by one message. */
  lemma ExtractLinesDistinct(catalog: seq<MenuItem>, message: string)
    requires UniqueIds(catalog)
    ensures var lines := ExtractLines(catalog, message);
            forall i, j :: 0 <= i < j < |lines| ==> lines[i].menuItemId != lines[j].menuItemId
  {
    var mentioned := MentionedItems(catalog, message);
    SubsequenceUniqueIds(mentioned, catalog);
  }

  /** The lines one message adds are worth the prices of the items it
      names. */
  lemma ExtractLinesTotal(catalog: seq<MenuItem>, message: string)
    ensures SumSubtotals(ExtractLines(catalog, message)) == PriceSum(MentionedItems(catalog, message))
  {
    LinesTotal(MentionedItems(catalog, message));
  }

  /** Past the greeting and menu rules, a message naming catalog items has
      their lines appended after the existing ones and the total raised by
      their prices; nothing else about the order changes and the reply
      confirms the lines and the new total. */
  lemma ExtractionAppendsMentionedItems(catalog: seq<MenuItem>, v: OrderView, message: string, now: Timestamp)
    requires !ContainsAny(Lower(message), Greetings) && !ContainsAny(Lower(message), MenuRequests)
    requires exists x :: x in catalog && Mentions(message, x)
    ensures var out := MockOutcome(catalog, v, message, now);
            var lines := ExtractLines(catalog, message);
            && lines != []
            && out.order == WithLines(v, lines)
            && out.order.total == v.total + PriceSum(MentionedItems(catalog, message))
            && out.response == ConfirmReply(lines, out.order.total)
  {
    var x :| x in catalog && Mentions(message, x);
    assert x in MentionedItems(catalog, message);
    var lines := ExtractLines(catalog, message);
    assert |lines| == |MentionedItems(catalog, message)|;
    ExtractLinesTotal(catalog, message);
    assert MockOutcome(catalog, v, message, now) == OrderingOutcome(catalog, v, message, now);
  }

  /** The order is completed by exactly one path of the rule table: no
      greeting, no menu request, no item named, a completion phrase, and
      lines already in the order. Then the status becomes completed and the
      completion time is `now`; on every other path neither changes. */
  lemma CompletionOnlyWhenNothingExtracted(catalog: seq<MenuItem>, v: OrderView, message: string, now: Timestamp)
    ensures var out := MockOutcome(catalog, v, message, now).order;
            var lower := Lower(message);
            var completes := && !ContainsAny(lower, Greetings) && !ContainsAny(lower, MenuRequests)
                             && ExtractLines(catalog, message) == [] && ContainsAny(lower, DonePhrases)
                             && v.items != [];
            && (completes ==> out == v.(status := Completed, completedAt := Some(now)))
            && (!completes ==> out.status == v.status && out.completedAt == v.completedAt)
  {
    var lower := Lower(message);
    if !ContainsAny(lower, Greetings) && !ContainsAny(lower, MenuRequests) {
      assert MockOutcome(catalog, v, message, now) == OrderingOutcome(catalog, v, message, now);
    }
  }

  /** A completion phrase on an empty order is refused: the order stays as
      it was and the customer is told nothing has been ordered. */
  lemma EmptyOrderCompletionRefused(catalog: seq<MenuItem>, v: OrderView, message: string, now: Timestamp)
    requires !ContainsAny(Lower(message), Greetings) && !ContainsAny(Lower(message), MenuRequests)
    requires ExtractLines(catalog, message) == [] && ContainsAny(Lower(message), DonePhrases)
    requires v.items == []
    ensures MockOutcome(catalog, v, message, now) == Outcome(v, NothingOrderedReply)
  {
    assert MockOutcome(catalog, v, message, now) == OrderingOutcome(catalog, v, message, now);
  }

  /** Appending lines keeps the earlier lines as a prefix. */
  lemma WithLinesExtends(v: OrderView, added: seq<OrderItem>)
    ensures |v.items| <= |WithLines(v, added).items|
    ensures WithLines(v, added).items[..|v.items|] == v.items
  {
    assert (v.items + added)[..|v.items|] == v.items;
  }

  /** The rule table only appends lines, only ever moves the status to
      completed, and keeps the session and creation time. */
  lemma MockOnlyMovesForward(catalog: seq<MenuItem>, v: OrderView, message: string, now: Timestamp)
    ensures var out := MockOutcome(catalog, v, message, now).order;
            && |v.items| <= |out.items| && out.items[..|v.items|] == v.items
            && (out.status == v.status || out.status == Completed)
            && out.sessionId == v.sessionId && out.createdAt == v.createdAt
  {
    var lower := Lower(message);
    if !ContainsAny(lower, Greetings) && !ContainsAny(lower, MenuRequests) {
      assert MockOutcome(catalog, v, message, now) == OrderingOutcome(catalog, v, message, now);
      WithLinesExtends(v, ExtractLines(catalog, message));
      CompletionKeepsLines(v, lower, now);
    }
  }

  /** Whatever the strategy and the backend's answer, handling a message
      only appends lines to the order, never moves it back to in progress
      once completed, and keeps its session and creation time. */
  lemma RespondOnlyMovesForward(useLlm: bool, catalog: seq<MenuItem>, v: OrderView, message: string, now: Timestamp, reply: Option<string>)
    ensures var out := RespondOutcome(useLlm, catalog, v, message, now, reply).order;
            && |v.items| <= |out.items| && out.items[..|v.items|] == v.items
            && (out.status == v.status || out.status == Completed)
            && (v.status == Completed ==> out.status == Completed)
            && out.sessionId == v.sessionId && out.createdAt == v.createdAt
  {
    if useLlm && reply.Some? {
      WithLinesExtends(v, ExtractLines(catalog, message));
    } else {
      assert RespondOutcome(useLlm, catalog, v, message, now, reply) == MockOutcome(catalog, v, message, now);
      MockOnlyMovesForward(catalog, v, message, now);
    }
  }

  /** When the backend answers, its text is the reply and the extractor
      still runs on the message, whatever the message says; when it fails,
      the message is handled as the rule table would. */
  lemma LlmOutcomeCases(catalog: seq<MenuItem>, v: OrderView, message: string, now: Timestamp, reply: Option<string>)
    ensures reply.Some? ==> LlmOutcome(catalog, v, message, now, reply).response == reply.value
    ensures reply.Some? ==> LlmOutcome(catalog, v, message, now, reply).order.items == v.items + ExtractLines(catalog, message)
    ensures reply.None? ==> LlmOutcome(catalog, v, message, now, reply) == MockOutcome(catalog, v, message, now)
  {
  }

  /** The summary says "No items ordered yet." exactly when the order has
      no lines. */
  lemma SummaryEmptyIff(items: seq<OrderItem>, total: nat)
    ensures Summary(items, total) == EmptySummary <==> items == []
  {
    if items != [] {
      var s := Summary(items, total);
      assert s[0] == 'O';
      assert EmptySummary[0] == 'N';
    }
  }

  /** Every line of the order is rendered in the lines block. */
  lemma {:induction false} SummaryLinesContain(lines: seq<OrderItem>, k: nat)
    requires k < |lines|
    ensures Contains(SummaryLines(lines), SummaryLine(lines[k]))
  {
    var n := |lines| - 1;
    var front := SummaryLines(lines[..n]);
    if k == n {
      ContainsSelf(SummaryLine(lines[n]));
    } else {
      assert lines[..n][k] == lines[k];
      SummaryLinesContain(lines[..n], k);
    }
    ContainsInConcat(front, SummaryLine(lines[n]), SummaryLine(lines[k]));
  }

  /** A non-empty order's summary shows each of its lines. */
  lemma SummaryListsEveryLine(items: seq<OrderItem>, total: nat)
    requires items != []
    ensures forall k :: 0 <= k < |items| ==> Contains(Summary(items, total), SummaryLine(items[k]))
  {
    forall k | 0 <= k < |items| {
      SummaryShowsLine(items, total, k);
    }
  }

  lemma SummaryShowsLine(items: seq<OrderItem>, total: nat, k: nat)
    requires k < |items|
    ensures Contains(Summary(items, total), SummaryLine(items[k]))
  {
    var head := "Order Summary:\n" + SummaryLines(items);
    var line := SummaryLine(items[k]);
    SummaryLinesContain(items, k);
    ContainsInConcat("Order Summary:\n", SummaryLines(items), line);
    ContainsInConcat(head, "\nTotal: $", line);
    ContainsInConcat(head + "\nTotal: $", Money(total), line);
  }

  /** A non-empty order's summary ends with its total, from which the
      amount in cents can be read back. */
  lemma SummaryEndsWithTotal(items: seq<OrderItem>, total: nat)
    requires items != []
    ensures var s := Summary(items, total);
            var m := |Money(total)|;
            m <= |s| && ParseMoney(s[|s| - m..]) == total
  {
    var s := Summary(items, total);
    var prefix := "Order Summary:\n" + SummaryLines(items) + "\nTotal: $";
    assert s == prefix + Money(total);
    assert s[|s| - |Money(total)|..] == Money(total);
    MoneyRoundTrip(total);
  }
}
