# NoPickles order-taking engine, in Dafny

This project models the core of the NoPickles point-of-sale service: a
conversational order taker for a fast-food menu. The model has three parts.

- **Catalog** (`menu.py`): a fixed list of menu items, indexed by id. It
  answers lookups by id, case-insensitive searches and category filters, and
  renders a menu text grouped by category.
- **Order aggregate** (`models.py`): an `Order` object that holds order
  lines and a running total, updated in place. `add_item` appends a line and
  raises the total by that line's subtotal. `calculate_total` recomputes the
  total.
- **Dialogue engine and session store** (`agent.py`): a map from session id
  to order and a map from session id to conversation history, both filled
  lazily. A message is answered either by the rule table or by a
  text-generation backend. The rule table's first matching rule wins:
  greeting, menu request, item extraction, completion phrase, fallback.
  The backend path returns the backend's text and runs the same item
  extractor; if the backend fails, the rule table answers instead.

The files:

| file | module | contents |
|---|---|---|
| `wrappers.dfy` | `Wrappers` | `Option` |
| `seqs.dfy` | `Seqs` | order-preserving filter, element-wise map, subsequences, duplicate-freedom |
| `text.dfy` | `Text` | ASCII `lower()`/`upper()`, substring test, `", ".join`, decimal and money rendering with read-back |
| `sorting.dfy` | `Sorting` | Python's string order and `sorted` on category names |
| `models.dfy` | `Models` | `MenuItem`, `OrderItem`, `Status`, the `OrderView` value of an order, and the `Order` class |
| `menu.dfy` | `Menu` | the sample catalog, `MenuManager` and its queries, the menu text |
| `agent.dfy` | `Agent` | the reply texts, the outcome functions and the `OrderAgent` class |
| `agent_properties.dfy` | `AgentProperties` | properties of the rule table, the extractor and the summary |

How the model is built:

- Behaviour is first stated as functions over values:
  - `MockOutcome` for the rule table, with its tail split into
    `OrderingOutcome` and `CompletionOutcome`;
  - `LlmOutcome` for the backend path;
  - `RespondOutcome` for the strategy chosen at start-up;
  - `ExtractLines`, `Summary` and `MenuText` for the extractor, the order
    summary and the menu text.
- The imperative code is modelled as methods on objects. `Order` and
  `OrderAgent` are classes whose methods update fields in place, and the
  loops of `_extract_and_add_items`, `_get_order_summary` and
  `get_menu_text` are `for` loops.
- Each such method's postcondition ties its result and the new state to
  the matching function. The properties are then proved as lemmas about
  those functions.

Values that come from outside the engine are parameters:

- the current time is `now: Timestamp`;
- the backend's answer is `llmReply: Option<string>`, where `None` is a
  failure;
- the strategy flag is `useLlm`;
- the catalog is the `menu` given to the `OrderAgent` constructor.

Prices and totals are whole cents. `f"{x:.2f}"` becomes `Money`, which is
proved to read back to the same number of cents.

Where the code and the system's written description disagree, the model
follows the code:

- **Repeated completion.** A completion phrase on a non-empty order that
  is already completed sets the status again and overwrites `completed_at`
  with the new time (`agent.py:141-144`). The completion time is not set
  "exactly once". `CompletionOnlyWhenNothingExtracted` states this: its
  completing path does not depend on the previous status.
- **Lines after completion.** A completed order still accepts new lines,
  because extraction does not look at the status (`agent.py:133`).
- **Backend failure.** When the backend fails, the whole rule table runs
  (`agent.py:115-117`). A message that greets or asks for the menu
  therefore adds no lines on that path, even though the extractor alone
  would have added some.
- **The phrase "nothing else".** It contains "hi", so the greeting rule
  always catches it before the completion rule is reached
  (`NothingElseIsGreeting`).

## Model

| member | source | states |
|---|---|---|
| `Models.Order.constructor` | models.py:27-34 | A new order has the given session id, no lines, total 0, status in progress, the creation time, and no completion time; its total is consistent. |
| `Models.Order.AddItem` | models.py:36-39 | The line is appended after the unchanged earlier lines and the total grows by exactly its subtotal, so "total = sum of subtotals" is preserved. |
| `Models.Order.CalculateTotal` | models.py:41-44 | The total becomes the sum of the line subtotals and is returned. Only the total may change, so a second call returns the same amount. |
| `Models.SumSubtotalsConcat` | models.py:36-44 | The sum of subtotals over two runs of lines is the sum of the two sums. |
| `Text.LowerIdempotent` | agent.py:121 | Lower-casing a message that is already lower-cased changes nothing. |
| `Text.LowerHasNoUpper` | agent.py:155 | A lower-cased message holds no character from 'A' to 'Z'. |
| `Text.LowerUpper` | menu.py:143 | Case is forgotten: lower-casing an upper-cased string gives the same result as lower-casing the original, as the case-insensitive category comparison needs. |
| `Text.Money` | agent.py:184-185 | A cents amount is rendered as digits, a point and exactly two digits, with no leading zero before a units digit (`0.05`, never `00.05`). |
| `Text.MoneyRoundTrip` | agent.py:184-185 | The rendering of an amount reads back to the same amount of cents. |
| `Sorting.Sort` | menu.py:155 | `sorted` gives a non-decreasing permutation, in Python's string order, of the category names. |
| `Sorting.SortNoDup` | menu.py:155 | Sorting the distinct keys of a dict keeps them distinct. |
| `Menu.PutById` | menu.py:120 | A dict assignment by id appends the item when no entry has its id. The item is present afterwards, every entry is the item or an old entry, and no entry with another id is lost. |
| `Menu.PutByIdReplacesInPlace` | menu.py:120 | A dict assignment to an id that is present replaces the first entry with that id at its own position, and every other entry stays where it was. |
| `Menu.IndexById` | menu.py:120 | Building the id-keyed dict gives entries with unique ids, all taken from the source list. A source with unique ids comes out unchanged and in order. |
| `Menu.NewMenuManager` | menu.py:119-120 | The manager's items have unique ids, and with a unique-id source they are that source in order. |
| `Menu.FixtureIdsUnique` | menu.py:7-113 | The sample catalog has no repeated id. |
| `Menu.FixtureCatalog` | menu.py:119-124 | `get_all_items` on the sample catalog returns the fourteen items in catalog order. |
| `Menu.MenuManager.GetAllItems` | menu.py:122-124 | `get_all_items` returns the dict's values in insertion order, so no two returned items share an id. |
| `Menu.FindById` | menu.py:126-128 | Finds an item with the id exactly when one exists; with unique ids it is that item. |
| `Menu.MenuManager.GetItemById` | menu.py:126-128 | `get_item_by_id` returns Some exactly when an item has that id. The result has that id and, with unique ids, is that item; an unknown id gives None. |
| `Menu.MenuManager.SearchItems` | menu.py:130-137 | Returns exactly the items whose lower-cased name contains the lower-cased query, or whose present, non-empty description does, as a subsequence of the catalog. |
| `Menu.MenuManager.GetItemsByCategory` | menu.py:139-144 | Returns exactly the items whose category equals the argument ignoring ASCII case, in catalog order. The result is empty exactly when no item has that category. |
| `Menu.Categories` | menu.py:148-152 | The grouping keys are duplicate-free and are exactly the categories that occur among the items. |
| `Menu.MenuManager.GroupByCategory` | menu.py:148-152 | The grouping loop's keys are the categories in order of first appearance, and each key's list holds exactly that category's items in catalog order. |
| `Menu.MenuManager.GetMenuText` | menu.py:146-160 | The text is the banner, then one upper-cased header per category in sorted order, each followed by one `  - name: $price` line per item. |
| `Menu.MenuManager.AppendLines` | menu.py:157-158 | The inner loop appends one item line per item, in order, after the text so far. |
| `Menu.MenuSectionsSorted` | menu.py:155-156 | The menu text's categories are in strictly increasing order. |
| `Menu.MenuSectionsShape` | menu.py:148-158 | Every section is a non-empty, catalog-ordered run of exactly its category's items, and every item's category has a section. |
| `Menu.MenuSectionsCoverCatalog` | menu.py:148-158 | Across the sections, every item appears exactly as often as in the catalog: once each for the dict's items. |
| `Agent.MentionedItems` | agent.py:159-163 | The items the extractor picks are exactly the catalog items whose lower-cased name occurs in the lower-cased message, in catalog order. |
| `Agent.CompletionKeepsLines` | agent.py:139-151 | The completion and fallback rules never change the lines, the total or the session of the order. |
| `Agent.WithLinesKeepsTotalConsistent` | agent.py:172 | Appending lines by `add_item` keeps a consistent total consistent. |
| `Agent.OrderingKeepsTotalConsistent` | agent.py:132-151 | The extraction, completion and fallback rules keep a consistent total consistent and keep the session. |
| `Agent.MockKeepsTotalConsistent` | agent.py:119-151 | Every path of the rule table keeps a consistent total consistent and keeps the session. |
| `Agent.RespondKeepsTotalConsistent` | agent.py:60-63 | With either strategy and any backend answer, a consistent total stays consistent and the order stays with its session. |
| `Agent.OrderAgent.constructor` | agent.py:14-16 | A new agent has no orders and no histories. |
| `Agent.OrderAgent.GetOrCreateOrder` | agent.py:40-44 | A known session's stored order is returned untouched. An unknown session gets a fresh order with its id, no lines, total 0 and in-progress status. No other entry of the store changes. |
| `Agent.OrderAgent.ProcessMessage` | agent.py:46-71 | The session's order, either the stored object or a newly allocated one for an unknown session, ends as the chosen strategy's outcome, and the response is that outcome's reply. No other store entry or order object changes. The session's history grows by exactly the user turn and then the reply turn; other histories are untouched. Every order stays consistent and keyed by its own session. |
| `Agent.OrderAgent.AppendTurn` | agent.py:51-58 | A history append creates an empty list for a new session, then puts the turn at its end, leaving other sessions' histories alone. |
| `Agent.OrderAgent.Respond` | agent.py:60-63 | Dispatches on the start-up strategy: the order ends as `RespondOutcome` describes and the reply is its reply. A consistent total stays consistent. |
| `Agent.OrderAgent.ProcessWithLlm` | agent.py:107-117 | On a backend answer, the answer is the reply and the extractor's lines are appended. On a failure, the rule table's outcome. |
| `Agent.OrderAgent.ProcessMock` | agent.py:119-130 | The rule table in place: a greeting gets the welcome and a menu request the menu text, both leaving the order as it was. Otherwise the ordering rules apply. |
| `Agent.OrderAgent.TakeOrder` | agent.py:132-137 | Named items are appended and confirmed with the new total. When none are named, the completion rules apply to the unchanged order. |
| `Agent.OrderAgent.Conclude` | agent.py:139-151 | A completion phrase on a non-empty order sets the status to completed and the completion time, and replies with the summary. On an empty order it is refused without changing the order. Anything else gets the fallback reply. |
| `Agent.OrderAgent.ExtractAndAddItems` | agent.py:153-175 | The lines appended and returned are those of the mentioned catalog items, in catalog order. The total grows by their subtotals and nothing else about the order changes. |
| `Agent.OrderAgent.GetOrderSummary` | agent.py:177-186 | The loop-built summary is the summary text of the order's lines and total. |
| `Agent.OrderAgent.GetOrder` | agent.py:188-190 | Returns the session's order when the session is known and None otherwise; being a function, it creates nothing. |
| `Agent.OrderAgent.GetAllOrders` | agent.py:192-194 | Returns the store itself, in which each order is keyed by its own session id and has a consistent total. |
| `AgentProperties.LinesTotal` | agent.py:165-172 | The lines made for some items have subtotals adding up to the items' prices. |
| `AgentProperties.GreetingTakesPrecedence` | agent.py:124-126 | A message containing any greeting gets the welcome and leaves the order unchanged, whatever else it contains. |
| `AgentProperties.NothingElseIsGreeting` | agent.py:124-126 | A message containing "nothing else" (agent.py:140) always gets the welcome, because that phrase contains "hi". |
| `AgentProperties.MenuRequestLeavesOrder` | agent.py:128-130 | Without a greeting, "menu", "what do you have" or "what can i get" gets the menu reply and leaves the order unchanged, even when items are named. |
| `AgentProperties.ExtractLinesExactly` | agent.py:159-171 | The extractor makes a line for a catalog item if and only if its lower-cased name occurs in the lower-cased message. Each line has quantity 1 and the catalog price as price and subtotal. |
| `AgentProperties.ExtractLinesDistinct` | agent.py:159-173 | With unique catalog ids, one message never adds the same item twice. |
| `AgentProperties.ExtractLinesTotal` | agent.py:165-173 | The lines one message adds are worth the sum of the named items' prices. |
| `AgentProperties.ExtractionAppendsMentionedItems` | agent.py:132-137 | Past the greeting and menu rules, a message naming catalog items appends their lines after the existing ones. The total rises by their prices, status and completion time are kept, and the reply confirms the lines and the new total. |
| `AgentProperties.CompletionOnlyWhenNothingExtracted` | agent.py:133-146 | Status and completion time change on exactly one path: no greeting, no menu request, nothing extracted, a completion phrase, and a non-empty order. On that path they become completed and `now`. |
| `AgentProperties.EmptyOrderCompletionRefused` | agent.py:141-148 | A completion phrase on an empty order leaves the order as it was and gets the "nothing ordered yet" reply. |
| `AgentProperties.MockOnlyMovesForward` | agent.py:119-151 | The rule table only appends lines, only ever moves the status to completed, and keeps the session and creation time. |
| `AgentProperties.RespondOnlyMovesForward` | agent.py:60-63 | With either strategy, earlier lines stay as a prefix. A completed order never goes back to in progress, since the only status write is to completed. Session and creation time are kept. |
| `AgentProperties.LlmOutcomeCases` | agent.py:107-117 | On a backend answer, the reply is the answer and the extractor's lines are appended, whatever the message. On a failure, the outcome is the rule table's. |
| `AgentProperties.SummaryEmptyIff` | agent.py:177-186 | The summary is "No items ordered yet." if and only if the order has no lines. |
| `AgentProperties.SummaryListsEveryLine` | agent.py:182-184 | A non-empty order's summary shows a `  - {qty}x {name}: ${subtotal}` line for every one of its lines. |
| `AgentProperties.SummaryEndsWithTotal` | agent.py:185 | A non-empty order's summary ends with the total, which reads back to the total in cents. |

## Left out

- The backend itself is left out. The prompt (`agent.py:73-106`) is not
  modelled: it holds the menu text, the current summary, and the user
  turns found among the last six history entries of both roles
  (`agent.py:103-105`), so usually three user turns. The call
  (`agent.py:108`) is replaced by the parameter `llmReply`, whose `None`
  is any failure.
  Printing the error is not modelled.
- OpenAI and LangChain initialisation and the `OPENAI_API_KEY` check
  (`agent.py:18-38`) are replaced by the constructor argument `useLlm`.
- `datetime.now()` is the parameter `now`. Timestamps are opaque natural
  numbers.
- Floating-point prices and totals, and the rounding of `:.2f`, are not
  modelled: amounts are whole cents, so no rounding drift arises.
- `str.lower()` and `str.upper()` are modelled for ASCII letters only. Other
  characters are kept as they are, with no Unicode case mapping.
- The module-level singletons `menu_manager` (`menu.py:164`) and `agent`
  (`agent.py:198`) are replaced by explicit values: the catalog is the
  agent's `menu` and the fixture is `MenuItems()`.
- The `MenuManager` is a value (a datatype), not a class, because nothing
  changes its dict after construction.
- `MenuItem.available` is a field that no operation reads, as in the source.
  The `Cancelled` status exists but nothing sets it.
- The HTTP layer (`main.py`), Pydantic validation and serialisation,
  `ChatMessage`/`ChatResponse`, and any concurrency between requests are
  not part of this model.
- Menu.IndexById: for a source with a repeated id, it does not state
  which of the equal-id items is kept. Python keeps the last; the model
  states only unique ids, membership, and identity on unique-id sources.
- Agent.OrderAgent.GetOrder and Agent.OrderAgent.GetAllOrders return the stored
  order objects themselves, as the source does. The model does not forbid a
  caller from changing them afterwards. `get_all_orders` (`agent.py:194`)
  returns the live dict, so sessions created later show up through it.
  `GetAllOrders` returns a map value, a snapshot of the store at the call,
  so that aliasing of the dict is not captured.
