# Family terms, menu cart and point-paid orders — a Dafny model

This project models the algorithmic core of a small family web application in Dafny and proves
properties about it. There are three parts.

- **Family terms.** The server builds a two-way relation graph from the stored relation rows and
  runs a breadth-first search, at most three hops deep, from the viewer to every other user. It
  then turns the labels on the path ("father", "spouse-mother", …) into a Chinese address term.
  A per-pair override replaces the computed term. A stored override comes first; otherwise the
  first legacy text on a relation row is used. The two write handlers add a relation row and
  store an override.
- **Cart store.** This is the page-side menu store. A cart line is keyed by the dish and a
  canonical form of the selected specifications:
  - specification names are sorted;
  - the choices of a multi-choice specification are sorted.

  Adding merges into the line with the same key, and removing takes one unit away. The two
  totals are folds over the lines. The search filter narrows the categories to the dishes that
  match.
- **Menu and orders.** The server assembles the two-level menu tree and guards the removal of a
  category. Placing an order charges the owner's family points. Cancelling refunds the owner. An
  admin moves orders through their statuses. Users list their orders newest first, one page at a
  time.

Files:
- `basics.dfy`: the optional value, the JavaScript "is given" tests, and generic filter and sum.
- `family_graph.dfy`, `family_path.dfy`, `family_terms.dfy` and `family_controller.dfy`: the family part.
- `menu_spec_key.dfy` and `menu_store.dfy`: the cart.
- `menu_catalog.dfy` and `menu_orders.dfy`: the menu and order handlers.

Two behaviours of the code are worth stating up front.
- **Duplicate check.** The duplicate check looks only for a row with the same ordered pair
  (user, related user). So B can record A as a child after A recorded B as a father, and two rows
  then link the same two people. `FamilyController.ReverseDirectionNotChecked` states this.
- **Override precedence.** An override comes from the stored override table first. Otherwise it
  comes from the first non-empty legacy text on a relation row for the same ordered pair.

## Model

| member | source | states |
|---|---|---|
| FamilyGraph.GenderTableLookup | src/controllers/familyController.ts:48-51 | The gender table has exactly the users' ids. A repeated id takes the gender of its last row. |
| FamilyGraph.ReverseLabel | src/controllers/familyController.ts:72-78 | The reverse label is spouse exactly for spouse and child exactly for father or mother. For child it is mother exactly when the source user is female, and otherwise father (unknown and missing genders included). |
| FamilyGraph.ReverseTwice | src/controllers/familyController.ts:72-78 | Reversing a label twice gives it back when the label agrees with the gender. |
| FamilyGraph.EdgesAtMembership | src/controllers/familyController.ts:58-81 | An edge is in a node's list exactly when some relation row puts it there: the forward edge at user_id, the derived reverse edge at related_user_id. |
| FamilyGraph.EdgesAtLength | src/controllers/familyController.ts:69-80 | Each row adds exactly one edge at each of its two ends. |
| FamilyGraph.FirstLegacyCallIsFirst | src/controllers/familyController.ts:63-66 | Among the relation rows for a pair, the first one with a non-empty legacy text gives the legacy override. |
| FamilyGraph.FirstLegacyCallNone | src/controllers/familyController.ts:63-66 | A pair with no non-empty legacy text has no legacy override. |
| FamilyGraph.GraphOf | src/controllers/familyController.ts:48-51 | The graph's nodes are exactly the users. |
| FamilyGraph.BuildGraph | src/controllers/familyController.ts:43-81 | The loops build exactly the reference graph, the gender table, and an override table in which a stored override beats the legacy text of a relation row. |
| FamilyPath.FindShortestPath | src/controllers/familyController.ts:207-226 | The search returns a label path of at most 3 hops that is a walk from the viewer to the target, and no shorter walk exists. It returns nothing exactly when no walk of at most 3 hops exists. |
| FamilyPath.FoundIsShortest | src/controllers/familyController.ts:211-213 | A node taken from the queue carries a walk of minimal length. |
| FamilyPath.ExhaustedIsUnreachable | src/controllers/familyController.ts:211-225 | When the queue runs empty, the target has no walk within the depth cap. |
| FamilyTerms.CalculateCall | src/controllers/familyController.ts:229-262 | Looking up the joined signature gives the same term as matching on the path's labels. A missing or empty path gets no term. |
| FamilyTerms.JoinInjective | src/controllers/familyController.ts:232 | Different paths have different dash-joined signatures. |
| FamilyTerms.JoinLength | src/controllers/familyController.ts:232 | A signature of n labels is at least 6n - 1 characters long. |
| FamilyTerms.SignatureLookupIsStructural | src/controllers/familyController.ts:232-261 | The chain of string comparisons agrees with the structural table for every non-empty path. |
| FamilyTerms.OneLabelLookup | src/controllers/familyController.ts:235-238 | The four direct rows give the direct terms. |
| FamilyTerms.TwoLabelLookup | src/controllers/familyController.ts:242-259 | The two-label rows give the two-hop terms; every other pair of labels gets none. |
| FamilyTerms.LongSignatureUnlisted | src/controllers/familyController.ts:261 | A signature of 17 or more characters matches no row; with `JoinLength`, so does every path of three or more labels. |
| FamilyTerms.TermDomain | src/controllers/familyController.ts:230-261 | A path has a term exactly when it has one label, or two labels other than spouse-spouse, spouse-child, father-spouse, mother-spouse, child-father, child-mother and child-child. |
| FamilyTerms.TermsNonEmpty | src/controllers/familyController.ts:235-259 | Every term in the table is non-empty. |
| FamilyTerms.ViewerGenderMattersOnlyForInLaws | src/controllers/familyController.ts:242-243 | The viewer's gender changes the term only for the spouse's father and mother. |
| FamilyTerms.NonMaleTargetsGetFemaleTerms | src/controllers/familyController.ts:235-257 | A target not recorded as male gets the same term as a female one. |
| FamilyController.TermOrUnset | src/controllers/familyController.ts:100 | A non-empty computed term is shown as it is; a missing or empty one shows as "未设置". So the shown term is never empty. |
| FamilyController.ParseRelationType | src/controllers/familyController.ts:177-180 | Only the four stored spellings are accepted, each as its own type. |
| FamilyController.ParseName | src/controllers/familyController.ts:177-180 | Parsing a type's stored name gives the type back. |
| FamilyController.CheckAddRelation | src/controllers/familyController.ts:168-190 | A relation is added exactly when the ids and the type are given, the ids differ, the type is known and no row has the same ordered pair. An incomplete request is refused as such. |
| FamilyController.AddTwiceRejected | src/controllers/familyController.ts:183-190 | After one request succeeds, the same request is refused as a duplicate. |
| FamilyController.ReverseDirectionNotChecked | src/controllers/familyController.ts:183-186 | A row for the reverse pair does not block a new relation. |
| FamilyController.ApplyCustomCall | src/controllers/familyController.ts:121-132 | With both ids and a text given, the pair's override becomes exactly that text and every other pair keeps its own. Missing ids or a missing text change nothing (the column refuses NULL, so the insert fails). |
| FamilyController.ApplyCustomCallIdempotent | src/controllers/familyController.ts:127-132 | Sending the same update twice leaves the same table as sending it once. |
| FamilyController.UpdatedCallWins | src/controllers/familyController.ts:92-95 | After an update, the pair's override is exactly the text sent, whatever the legacy rows say. |
| FamilyController.FamilyStore.GetFamilyList | src/controllers/familyController.ts:21-106 | Without a viewer the request is unauthorized. Otherwise there is one entry per user, in order: "我" for the viewer; else a non-empty override; else the term of a shortest path of at most 3 hops in the graph, or "未设置". |
| FamilyController.FamilyStore.AddRelation | src/controllers/familyController.ts:163-203 | Exactly one row is appended when the checks pass; otherwise nothing changes. |
| FamilyController.FamilyStore.UpdateCustomCall | src/controllers/familyController.ts:116-139 | Missing ids are refused as bad parameters. A missing text fails at the store. Success comes exactly when both ids and a text are given. The table becomes the upsert's result. |
| MenuSpecKey.LessEqTotal | frontend/src/app/store/menu.ts:111 | Any two strings are comparable in the sort order. |
| MenuSpecKey.LessEqAntisymmetric | frontend/src/app/store/menu.ts:111 | Strings that sort both ways are equal. |
| MenuSpecKey.LessEqTransitive | frontend/src/app/store/menu.ts:111 | The sort order is transitive. |
| MenuSpecKey.LessEqReflexive | frontend/src/app/store/menu.ts:111 | Every string sorts with itself. |
| MenuSpecKey.InsertKeeps | frontend/src/app/store/menu.ts:111-114 | Inserting into a sorted list keeps it sorted and adds exactly the element. |
| MenuSpecKey.SortByKeeps | frontend/src/app/store/menu.ts:111-114 | The sort returns a sorted permutation of its input. |
| MenuSpecKey.SortedUnique | frontend/src/app/store/menu.ts:111-114 | Two sorted arrangements of the same elements with distinct keys are equal. |
| MenuSpecKey.KeyOf | frontend/src/app/store/menu.ts:120 | The key carries the dish's id. |
| MenuSpecKey.NormalValueOfSameChoice | frontend/src/app/store/menu.ts:112-117 | The same choices in any order normalise alike. |
| MenuSpecKey.KeyIdentifiesSelection | frontend/src/app/store/menu.ts:107-120 | Two lines share a key exactly when they are for the same dish with the same choices, whatever order the choices were made in. |
| MenuSpecKey.KeyIgnoresOrder | frontend/src/app/store/menu.ts:110-120 | Reordering the choices within any specification keeps the key. |
| MenuSpecKey.KeyIgnoresEntryOrder | frontend/src/app/store/menu.ts:110-120 | Permuting the specifications keeps the key. |
| MenuStore.LineIndex | frontend/src/app/store/menu.ts:139 | The search finds the first line with the key, or -1 when there is none. |
| MenuStore.KeyCountOfValid | frontend/src/app/store/menu.ts:66-72 | In a valid cart, the units under a key are those of its single line, or 0. |
| MenuStore.AddKeepsValid | frontend/src/app/store/menu.ts:122-135 | Adding keeps keys distinct and quantities at least 1. |
| MenuStore.RemoveKeepsValid | frontend/src/app/store/menu.ts:138-148 | Removing keeps keys distinct and quantities at least 1. |
| MenuStore.AddCounts | frontend/src/app/store/menu.ts:122-135 | Adding puts one more unit under the selection's key and changes no other key. The total count grows by exactly 1. |
| MenuStore.AddPoints | frontend/src/app/store/menu.ts:122-135 | Adding raises the total points by the unit price of the line: the price copied into an existing line, or the dish's own. |
| MenuStore.RemoveCounts | frontend/src/app/store/menu.ts:138-148 | Removing takes one unit from the key if the cart holds any, and otherwise leaves the cart unchanged. Totals and other keys change accordingly. |
| MenuStore.AddThenRemove | frontend/src/app/store/menu.ts:107-148 | Adding a selection and then removing its key restores the cart. |
| MenuStore.AddLeavesOtherLines | frontend/src/app/store/menu.ts:122-135 | Lines with other keys are untouched and no key moves. A new line comes last, with one unit and the dish's details. |
| MenuStore.KeepCategoriesExact | frontend/src/app/store/menu.ts:57-63 | Each category is narrowed to its matching dishes; exactly those left non-empty are kept. |
| MenuStore.FilteredCategoriesMeaning | frontend/src/app/store/menu.ts:53-64 | An empty search shows the menu as it is. Otherwise every category shown is one of the menu's, is non-empty, and shows exactly its matching dishes. Every matching dish is shown. |
| MenuStore.Store.AddToCart | frontend/src/app/store/menu.ts:107-136 | The cart becomes the added cart and the count grows by 1. The invariant is kept. |
| MenuStore.Store.RemoveFromCart | frontend/src/app/store/menu.ts:138-148 | The cart becomes the removed cart and the invariant is kept. |
| MenuStore.Store.ClearCart | frontend/src/app/store/menu.ts:150-152 | The cart is empty, so both totals are 0. |
| MenuCatalog.CategoryIds | src/controllers/menuController.ts:667 | The id list holds exactly the category's id and its sub-categories' ids. |
| MenuCatalog.MenuTopLevel | src/controllers/menuController.ts:662 | There is one node for each category without a parent (missing or 0), and no other. |
| MenuCatalog.MenuChildren | src/controllers/menuController.ts:664 | A node's children are exactly the categories whose parent is the node's category. |
| MenuCatalog.MenuItems | src/controllers/menuController.ts:667-675 | A node lists exactly the active dishes filed under its category or a direct child, each with its own specifications. |
| MenuCatalog.ViewOfSpecs | src/controllers/menuController.ts:669-673 | A dish carries exactly the specification rows with its item id. |
| MenuCatalog.DeepCategoryHidden | src/controllers/menuController.ts:662-676 | A dish filed under a third-level category appears in no node. |
| MenuCatalog.CheckDelete | src/controllers/menuController.ts:621-640 | A removal passes exactly for an admin, when no dish (active or not) is filed under the category and no category names it as parent. |
| MenuCatalog.DeleteKeepsClosed | src/controllers/menuController.ts:631-642 | A removal the guards allow leaves no dish and no sub-category pointing at a missing category. |
| MenuCatalog.Catalog.DeleteCategory | src/controllers/menuController.ts:621-648 | The category is removed exactly when the guards pass; the dish and specification tables are unchanged. |
| MenuOrders.ParseStatus | src/controllers/menuController.ts:469-470 | Exactly the four stored status names are accepted, each as its own status. |
| MenuOrders.ComputeTotal | src/controllers/menuController.ts:699-702 | The loop computes the sum of unit price times quantity over the lines. |
| MenuOrders.CartTotalIsOrderTotal | src/controllers/menuController.ts:699-702 | An order sent from the cart costs exactly the cart's total points (frontend/src/app/store/menu.ts:66-68). |
| MenuOrders.NegativeQuantityCredits | src/controllers/menuController.ts:699-702 | The prices and quantities sent are used as given, so a negative quantity gives a negative total. |
| MenuOrders.CheckCreate | src/controllers/menuController.ts:688-712 | An order is placed exactly when the caller is given, exists and has at least the total. The shortfall is reported exactly when an existing caller has less than the total, and it carries the caller's current balance and the total. A missing caller is unauthorized. |
| MenuOrders.PlaceKeepsWealth | src/controllers/menuController.ts:714 | Placing an order moves points from the balance into the order; no user's balance plus open orders changes. |
| MenuOrders.CheckCancel | src/controllers/menuController.ts:382-424 | A cancellation passes exactly for a given caller reaching an order (their own, or any for an admin) that is neither completed nor cancelled. |
| MenuOrders.RefundKeepsWealth | src/controllers/menuController.ts:426-429 | Cancelling an open order moves its points back to its owner; no user's balance plus open orders changes. |
| MenuOrders.RefundGoesToOwner | src/controllers/menuController.ts:429 | The refund goes to the order's owner, not to whoever cancels it; no other balance moves. |
| MenuOrders.RestatusKeepsWealth | src/controllers/menuController.ts:486 | Changing an order from an open status to a non-cancelled one changes no user's balance plus open orders. |
| MenuOrders.PlaceThenCancel | src/controllers/menuController.ts:714-729 | Placing an order and then cancelling it gives every user back their balance (the cancel side is at lines 426-429). |
| MenuOrders.CheckStatusAsWritten | src/controllers/menuController.ts:462-484 | A status change passes exactly for an admin naming a known status other than "cancelled". |
| MenuOrders.CheckStatus | src/controllers/menuController.ts:462-484 | The same checks, and in addition a cancelled order keeps its status (see Findings). |
| MenuOrders.CheckedStatusKeepsWealth | src/controllers/menuController.ts:462-486 | Every change the corrected checks allow keeps every user's balance plus open orders. |
| MenuOrders.RevivedOrderRefundedTwice | src/controllers/menuController.ts:462-486 | With the checks as written, an order of 10 points is refunded twice, and the corrected checks refuse the step that allows it. |
| MenuOrders.StatusFilterIgnoresCase | src/controllers/menuController.ts:339-346 | A status that is not "pending" or "completed" is compared by the database without regard to case. So "PROCESSING" lists processing orders, and "Pending" lists only pending ones, not the whole "pending" tab. |
| MenuOrders.TabsSplitOrders | src/controllers/menuController.ts:340-343 | Every status is in exactly one of the "pending" and "completed" tabs. |
| MenuOrders.QueryMeansListable | src/controllers/menuController.ts:329-346 | The conditions the handler adds select exactly the caller's own orders (all orders for an admin) with a status in the tab asked for. |
| MenuOrders.OrdersPageSound | src/controllers/menuController.ts:323-350 | A listing holds at most a page of orders, each visible to the caller and in the tab. |
| MenuOrders.PagesTile | src/controllers/menuController.ts:326 | Page n followed by page n + 1 is the window of twice the size, so pages neither overlap nor skip. |
| MenuOrders.OrdersPageNewestFirst | src/controllers/menuController.ts:350 | A listing has strictly decreasing order ids, so the newest comes first. |
| MenuOrders.Ledger.CreateOrder | src/controllers/menuController.ts:686-714 | The outcome is the create check. When placed, the total comes off the owner's balance, which stays at least 0, and a pending order is appended. Otherwise nothing changes. |
| MenuOrders.Ledger.CancelOrder | src/controllers/menuController.ts:377-429 | The outcome is the cancel check. When it passes, the order is cancelled and its total is refunded to its owner. Otherwise nothing changes. |
| MenuOrders.Ledger.UpdateOrderStatus | src/controllers/menuController.ts:442-486 | The outcome is the corrected status check; an allowed change sets the order's status. Balances never change, and a missing order is left as it is. |
| MenuOrders.Ledger.GetUserOrders | src/controllers/menuController.ts:301-350 | Without a caller the request is unauthorized. Otherwise the query built condition by condition returns the requested page of visible orders in the tab, newest first; a negative page size or offset fails. |

## Left out

- Database access, SQL text, connections and transactions are not modelled. The tables are
  sequences and maps.
- A failing query becomes a 500 response, except in the order-creation and cancellation handlers.
  Those two catch every error and answer 400. The model covers two database failures that the
  input causes: a negative page size or offset, and a missing override text, which the NOT NULL
  column refuses.
- MenuOrders.Ledger.CreateOrder: a malformed item list (missing, not a list, or with non-numeric
  prices) is an input error that the handler answers with 400. The model takes the lines as
  well-formed integers.
- MenuOrders.Ledger.GetUserOrders: a status filter is compared as the database's case-insensitive
  collation compares it, but only ASCII case folding is modelled. Trailing spaces and non-ASCII
  characters that the collation treats as equal to a status name are not modelled.
- The second admin check against the users table is not modelled: "is admin" is a parameter.
- FamilyPath.FindShortestPath: the contract says the path is shortest. It does not say which of
  several shortest paths is returned; the code picks the first one in neighbour insertion order.
- FamilyController.FamilyStore.GetFamilyList: an entry carries the user's id, nickname and gender
  only, not username, phone or family_role. The path behind each term is a ghost result.
- FamilyController.FamilyStore.UpdateCustomCall: the model accepts a text longer than the
  32-character column. Depending on its SQL mode, the database either refuses it or truncates it.
- A NULL legacy text on a relation row means "no override", as does an empty one.
- The string keys "viewer-related" of the override map are modelled as pairs.
- Two concurrent `addRelation` requests can both pass the duplicate check. Concurrency is out of
  scope.
- JavaScript's default sort compares UTF-16 code units; the model compares characters. They can
  differ only for characters outside the Basic Multilingual Plane.
- The cart key's text (the id, a dash, and the JSON text of the sorted selection) is modelled as
  the pair of the id and the canonical selection. So the model takes the JSON text to be
  injective.
- JSON property order puts integer-like names first; the model assumes specification names are
  not integer-like.
- `fetchMenu`, `fetchItemDetails` and `placeOrder` in the page store are network calls and are
  not modelled. The store's categories and search text are parameters of `FilteredCategories`,
  not fields.
- JavaScript numbers are modelled as unbounded integers. So are the unsigned `family_points`
  column and the prices.
- `parseInt` of the page and limit parameters is taken as already done: a missing or non-numeric
  value is `None`.
- The spec options are given already decoded, not as JSON text. The menu's category order is
  the given order.
- MenuOrders.Ledger.CreateOrder: the model leaves out the order type, scheduled time, address,
  remark and date parsing. It also leaves out inserting the order-item rows; the lines are kept
  on the order.
- New orders are taken to start as "pending", the column default; the table definition is not
  part of this model.
- Order ids are taken to be positions: the k-th order has id k, with no gaps. Orders with the
  same creation time are listed in reverse id order.
- MenuOrders.Ledger.GetUserOrders: the listing does not attach each order's item rows or the
  owner's nickname.
- MenuOrders.Ledger.UpdateOrderStatus: the model also refuses to change a cancelled order, which
  is the correction described under Findings.

## Findings

| source | as written | input that shows it | evidently intended | confidence | as-written member | corrected member |
|---|---|---|---|---|---|---|
| src/controllers/menuController.ts:462-486 | An admin may set any known status other than "cancelled" on any order, including one that is already cancelled and refunded. | A user with 10 points orders for 10 and the order is cancelled, which refunds the 10. An admin sets it to "pending" and it is cancelled again. The user ends with 20 points. | A cancelled order keeps its status, so its points are refunded at most once; cancelling goes only through the refunding endpoint. | medium; not executed | MenuOrders.RevivedOrderRefundedTwice | MenuOrders.CheckStatus |
