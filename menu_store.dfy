/**
 * The page-side menu store: the categories shown, the search text and the cart. The cart is a list of
 * lines, one per distinct combination of dish and selected specifications; adding merges into the
 * line with the same key, removing takes one unit away and drops the line when it reaches zero.
 */
module MenuStore {
  import opened Basics
  import opened MenuSpecKey

  /** A dish as the page holds it. */
  datatype MenuItem = MenuItem(id: int, name: string, imageUrl: string, pricePoints: int, description: Option<string>)

  /** A category as the page holds it, with its dishes. */
  datatype MenuCategory = MenuCategory(id: int, name: string, items: seq<MenuItem>)

  /** One cart line: the dish's details copied when the line was made, the quantity and the line key. */
  datatype CartLine = CartLine(itemId: int, name: string, imageUrl: string, pricePoints: int, quantity: int,
                               selectedSpecs: Specs, specKey: SpecKey)

  // ---------------------------------------------------------------------------------------------
  // Folds over the cart.

  function Quantity(line: CartLine): int
  {
    line.quantity
  }

  function LinePoints(line: CartLine): int
  {
    line.pricePoints * line.quantity
  }

  /** The number of units in the cart. */
  function TotalCount(lines: seq<CartLine>): int
  {
    SumOf(lines, Quantity)
  }

  /** The points the cart costs: each line's unit price times its quantity. */
  function TotalPoints(lines: seq<CartLine>): int
  {
    SumOf(lines, LinePoints)
  }

  /** The number of units in the cart under one key. */
  function KeyCount(lines: seq<CartLine>, key: SpecKey): int
  {
    SumOf(lines, UnitsUnder(key))
  }

  /** A line's quantity if it has the key, and 0 otherwise. */
  function UnitsUnder(key: SpecKey): CartLine -> int
  {
    (line: CartLine) => if line.specKey == key then line.quantity else 0
  }

  // ---------------------------------------------------------------------------------------------
  // The cart as a list of lines.

  /** The first line with the key, or -1 when there is none. */
  function LineIndex(lines: seq<CartLine>, key: SpecKey): (r: int)
    ensures -1 <= r < |lines|
    ensures r >= 0 ==> lines[r].specKey == key && forall j :: 0 <= j < r ==> lines[j].specKey != key
    ensures r == -1 ==> forall j :: 0 <= j < |lines| ==> lines[j].specKey != key
    decreases |lines|
  {
    if |lines| == 0 then -1
    else if lines[0].specKey == key then 0
    else
      var r := LineIndex(lines[1..], key);
      if r == -1 then -1 else r + 1
  }

  /** The cart's invariant: no two lines share a key and every line holds at least one unit. */
  predicate CartValid(lines: seq<CartLine>)
  {
    && (forall i, j :: 0 <= i < j < |lines| ==> lines[i].specKey != lines[j].specKey)
    && (forall i :: 0 <= i < |lines| ==> lines[i].quantity >= 1)
  }

  /** The line made for a dish that is not yet in the cart. */
  function NewLine(item: MenuItem, specs: Specs): CartLine
  {
    CartLine(item.id, item.name, item.imageUrl, item.pricePoints, 1, specs, KeyOf(item.id, specs))
  }

  /** The cart after adding one unit of a dish with a selection. */
  function AddItem(cart: seq<CartLine>, item: MenuItem, specs: Specs): seq<CartLine>
  {
    var i := LineIndex(cart, KeyOf(item.id, specs));
    if i >= 0 then cart[i := cart[i].(quantity := cart[i].quantity + 1)]
    else cart + [NewLine(item, specs)]
  }

  /** The cart after taking one unit away from the line with the key. */
  function RemoveKey(cart: seq<CartLine>, key: SpecKey): seq<CartLine>
  {
    var i := LineIndex(cart, key);
    if i < 0 then cart
    else if cart[i].quantity > 1 then cart[i := cart[i].(quantity := cart[i].quantity - 1)]
    else cart[..i] + cart[i + 1..]
  }

  /** A line that has the key and no earlier line with it is the one found. */
  lemma LineIndexIs(lines: seq<CartLine>, key: SpecKey, i: int)
    requires 0 <= i < |lines| && lines[i].specKey == key
    requires forall j :: 0 <= j < i ==> lines[j].specKey != key
    ensures LineIndex(lines, key) == i
  {
  }

  /** In a valid cart, the units under a key are those of its line, or none. */
  lemma KeyCountOfValid(cart: seq<CartLine>, key: SpecKey)
    requires CartValid(cart)
    ensures var i := LineIndex(cart, key);
            KeyCount(cart, key) == if i >= 0 then cart[i].quantity else 0
  {
    var f := UnitsUnder(key);
    var i := LineIndex(cart, key);
    if i >= 0 {
      var rest := cart[..i] + cart[i + 1..];
      forall j | 0 <= j < |rest|
        ensures f(rest[j]) == 0
      {
        if j >= i {
          assert rest[j] == cart[j + 1];
        }
      }
      SumOfRemove(cart, i, f);
      SumOfZeros(rest, f);
    } else {
      SumOfZeros(cart, f);
    }
  }

  /** Adding keeps the cart valid. */
  lemma AddKeepsValid(cart: seq<CartLine>, item: MenuItem, specs: Specs)
    requires CartValid(cart)
    ensures CartValid(AddItem(cart, item, specs))
  {
  }

  /** Removing keeps the cart valid. */
  lemma RemoveKeepsValid(cart: seq<CartLine>, key: SpecKey)
    requires CartValid(cart)
    ensures CartValid(RemoveKey(cart, key))
  {
    var i := LineIndex(cart, key);
    if i >= 0 && cart[i].quantity <= 1 {
      var r := cart[..i] + cart[i + 1..];
      assert forall j :: 0 <= j < |r| ==> r[j] == cart[if j < i then j else j + 1];
    }
  }

  /**
   * Adding a unit puts it under the line's key and nowhere else: the cart gains exactly one unit.
   */
  lemma AddCounts(cart: seq<CartLine>, item: MenuItem, specs: Specs, key: SpecKey)
    ensures KeyCount(AddItem(cart, item, specs), key)
         == KeyCount(cart, key) + if key == KeyOf(item.id, specs) then 1 else 0
    ensures TotalCount(AddItem(cart, item, specs)) == TotalCount(cart) + 1
  {
    var f := UnitsUnder(key);
    var i := LineIndex(cart, KeyOf(item.id, specs));
    if i >= 0 {
      SumOfUpdate(cart, i, cart[i].(quantity := cart[i].quantity + 1), f);
      SumOfUpdate(cart, i, cart[i].(quantity := cart[i].quantity + 1), Quantity);
    } else {
      SumOfAppend(cart, NewLine(item, specs), f);
      SumOfAppend(cart, NewLine(item, specs), Quantity);
    }
  }

  /** Adding a unit costs the unit price of its line: the price copied into an existing line, or the dish's. */
  lemma AddPoints(cart: seq<CartLine>, item: MenuItem, specs: Specs)
    ensures var i := LineIndex(cart, KeyOf(item.id, specs));
            TotalPoints(AddItem(cart, item, specs))
            == TotalPoints(cart) + if i >= 0 then cart[i].pricePoints else item.pricePoints
  {
    var i := LineIndex(cart, KeyOf(item.id, specs));
    if i >= 0 {
      var line := cart[i];
      SumOfUpdate(cart, i, line.(quantity := line.quantity + 1), LinePoints);
      OneMoreUnit(line);
    } else {
      SumOfAppend(cart, NewLine(item, specs), LinePoints);
    }
  }

  lemma OneMoreUnit(line: CartLine)
    ensures LinePoints(line.(quantity := line.quantity + 1)) == LinePoints(line) + line.pricePoints
  {
    assert line.pricePoints * (line.quantity + 1) == line.pricePoints * line.quantity + line.pricePoints;
  }

  /**
   * Removing takes one unit away from the key when the cart holds any, and otherwise changes
   * nothing; the cart loses exactly the units it loses under the key.
   */
  lemma RemoveCounts(cart: seq<CartLine>, key: SpecKey, other: SpecKey)
    requires CartValid(cart)
    ensures KeyCount(cart, key) == 0 ==> RemoveKey(cart, key) == cart
    ensures KeyCount(RemoveKey(cart, key), other)
         == KeyCount(cart, other) - if other == key && KeyCount(cart, key) > 0 then 1 else 0
    ensures TotalCount(RemoveKey(cart, key)) == TotalCount(cart) - if KeyCount(cart, key) > 0 then 1 else 0
  {
    KeyCountOfValid(cart, key);
    var f := UnitsUnder(other);
    var i := LineIndex(cart, key);
    if i >= 0 {
      var line := cart[i];
      if line.quantity > 1 {
        SumOfUpdate(cart, i, line.(quantity := line.quantity - 1), f);
        SumOfUpdate(cart, i, line.(quantity := line.quantity - 1), Quantity);
      } else {
        SumOfRemove(cart, i, f);
        SumOfRemove(cart, i, Quantity);
      }
    }
  }

  /** Adding a unit and then removing one under the same selection gives back the cart. */
  lemma AddThenRemove(cart: seq<CartLine>, item: MenuItem, specs: Specs)
    requires CartValid(cart)
    ensures RemoveKey(AddItem(cart, item, specs), KeyOf(item.id, specs)) == cart
  {
    var key := KeyOf(item.id, specs);
    var i := LineIndex(cart, key);
    var added := AddItem(cart, item, specs);
    if i >= 0 {
      LineIndexIs(added, key, i);
      assert added[i := added[i].(quantity := added[i].quantity - 1)] == cart;
    } else {
      LineIndexIs(added, key, |cart|);
      assert added[..|cart|] + added[|cart| + 1..] == cart;
    }
  }

  /**
   * Adding changes no line with another key; a new line, when one is needed, comes last with one
   * unit and the dish's details.
   */
  lemma AddLeavesOtherLines(cart: seq<CartLine>, item: MenuItem, specs: Specs)
    ensures var r := AddItem(cart, item, specs);
            && |cart| <= |r| <= |cart| + 1
            && (forall j :: 0 <= j < |cart| && cart[j].specKey != KeyOf(item.id, specs) ==> r[j] == cart[j])
            && (forall j :: 0 <= j < |cart| ==> r[j].specKey == cart[j].specKey)
            && (|r| == |cart| + 1 ==> r[|cart|] == NewLine(item, specs))
  {
  }

  // ---------------------------------------------------------------------------------------------
  // The search filter.

  /** The text occurs in s as a contiguous piece. */
  predicate Contains(s: string, part: string)
  {
    exists i :: 0 <= i <= |s| && part <= s[i..]
  }

  /** A dish matches when its name, or its description if it has one, contains the search text. */
  predicate Matches(item: MenuItem, search: string)
  {
    Contains(item.name, search) || (item.description.Some? && Contains(item.description.value, search))
  }

  /** The matching dishes, in order. */
  function KeepItems(items: seq<MenuItem>, search: string): seq<MenuItem>
  {
    Filter(items, (x: MenuItem) => Matches(x, search))
  }

  /** Each category narrowed to its matching dishes, dropping those left without any. */
  function KeepCategories(categories: seq<MenuCategory>, search: string): seq<MenuCategory>
    decreases |categories|
  {
    if |categories| == 0 then []
    else
      var c := categories[0].(items := KeepItems(categories[0].items, search));
      (if |c.items| > 0 then [c] else []) + KeepCategories(categories[1..], search)
  }

  /** The categories the page shows for a search text: all of them unfiltered when the text is empty. */
  function FilteredCategories(categories: seq<MenuCategory>, search: string): seq<MenuCategory>
  {
    if search == "" then categories else KeepCategories(categories, search)
  }

  lemma {:induction false} KeepCategoriesExact(categories: seq<MenuCategory>, search: string)
    ensures forall c :: c in KeepCategories(categories, search) ==>
              |c.items| > 0 && exists c0 :: c0 in categories && c == c0.(items := KeepItems(c0.items, search))
    ensures forall c0 :: c0 in categories && |KeepItems(c0.items, search)| > 0 ==>
              c0.(items := KeepItems(c0.items, search)) in KeepCategories(categories, search)
    decreases |categories|
  {
    if |categories| > 0 {
      KeepCategoriesExact(categories[1..], search);
      assert categories == [categories[0]] + categories[1..];
    }
  }

  /**
   * With a non-empty search text every category shown is one of the menu's, has at least one dish,
   * and shows exactly its dishes that match; with an empty one the menu is shown as it is.
   */
  lemma FilteredCategoriesMeaning(categories: seq<MenuCategory>, search: string)
    ensures search == "" ==> FilteredCategories(categories, search) == categories
    ensures search != "" ==> forall c :: c in FilteredCategories(categories, search) ==>
              && |c.items| > 0
              && exists c0 :: c0 in categories && c0.id == c.id && c0.name == c.name
                              && forall x :: x in c.items <==> x in c0.items && Matches(x, search)
    ensures search != "" ==> forall c0, x :: c0 in categories && x in c0.items && Matches(x, search) ==>
              exists c :: c in FilteredCategories(categories, search) && c.id == c0.id && x in c.items
  {
    if search != "" {
      KeepCategoriesExact(categories, search);
      forall c0 | c0 in categories
        ensures forall x :: x in KeepItems(c0.items, search) <==> x in c0.items && Matches(x, search)
      {
        FilterExact(c0.items, (x: MenuItem) => Matches(x, search));
      }
    }
  }

  // ---------------------------------------------------------------------------------------------
  // The store.

  class Store {
    var cart: seq<CartLine>

    constructor ()
      ensures cart == []
    {
      cart := [];
    }

    /** Adds one unit of the dish with the selection, merging into the line with the same key. */
    method AddToCart(item: MenuItem, specs: Specs)
      modifies this
      ensures cart == AddItem(old(cart), item, specs)
      ensures TotalCount(cart) == TotalCount(old(cart)) + 1
      ensures CartValid(old(cart)) ==> CartValid(cart)
    {
      AddCounts(cart, item, specs, KeyOf(item.id, specs));
      if CartValid(cart) {
        AddKeepsValid(cart, item, specs);
      }
      var key := KeyOf(item.id, specs);
      var index := LineIndex(cart, key);
      if index >= 0 {
        cart := cart[index := cart[index].(quantity := cart[index].quantity + 1)];
      } else {
        cart := cart + [NewLine(item, specs)];
      }
    }

    /** Takes one unit away from the line with the key, dropping the line at its last unit. */
    method RemoveFromCart(key: SpecKey)
      modifies this
      ensures cart == RemoveKey(old(cart), key)
      ensures CartValid(old(cart)) ==> CartValid(cart)
    {
      if CartValid(cart) {
        RemoveKeepsValid(cart, key);
      }
      var index := LineIndex(cart, key);
      if index > -1 {
        var line := cart[index];
        if line.quantity > 1 {
          cart := cart[index := line.(quantity := line.quantity - 1)];
        } else {
          cart := cart[..index] + cart[index + 1..];
        }
      }
    }

    /** Empties the cart, so that it holds no unit and costs nothing. */
    method ClearCart()
      modifies this
      ensures cart == []
      ensures CartValid(cart) && TotalCount(cart) == 0 && TotalPoints(cart) == 0
    {
      cart := [];
    }
  }
}
