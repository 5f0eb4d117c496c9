/**
 * The menu as the server assembles it from its three tables (categories, dishes and dish
 * specifications), and the guarded removal of a category.
 */
module MenuCatalog {
  import opened Basics

  /** A row of menu_categories; a missing or zero parent makes it a top-level category. */
  datatype CategoryRow = CategoryRow(id: int, name: string, parentId: Option<int>, sort: int)

  /** A row of menu_items; only dishes with status 1 are on the menu. */
  datatype ItemRow = ItemRow(id: int, categoryId: int, name: string, imageUrl: string, pricePoints: int,
                             description: string, status: int)

  /** A row of menu_item_specs, with its options already decoded. */
  datatype SpecRow = SpecRow(id: int, itemId: int, specName: string, specOptions: seq<string>, isMultiple: int)

  /** A specification as the menu shows it. */
  datatype SpecView = SpecView(name: string, options: seq<string>, isMultiple: int)

  /** A dish as the menu shows it, with its specifications. */
  datatype ItemView = ItemView(item: ItemRow, specs: seq<SpecView>)

  /** A top-level category as the menu shows it: its dishes and its direct sub-categories. */
  datatype MenuNode = MenuNode(category: CategoryRow, items: seq<ItemView>, children: seq<CategoryRow>)

  predicate IsTopLevel(c: CategoryRow)
  {
    c.parentId.None? || c.parentId.value == 0
  }

  predicate IsActive(x: ItemRow)
  {
    x.status == 1
  }

  /** The categories whose parent is the given one. */
  function ChildrenOf(categories: seq<CategoryRow>, id: int): seq<CategoryRow>
  {
    Filter(categories, (c: CategoryRow) => c.parentId == Some(id))
  }

  /** A category's own id followed by the ids of its sub-categories. */
  function CategoryIds(category: CategoryRow, subs: seq<CategoryRow>): (ids: seq<int>)
    ensures forall k :: k in ids <==> k == category.id || exists c :: c in subs && c.id == k
  {
    var ids := [category.id] + seq(|subs|, i requires 0 <= i < |subs| => subs[i].id);
    assert forall i :: 0 <= i < |subs| ==> ids[i + 1] == subs[i].id;
    ids
  }

  function ViewOfSpec(s: SpecRow): SpecView
  {
    SpecView(s.specName, s.specOptions, s.isMultiple)
  }

  /** A dish with the specifications recorded for it, in table order. */
  function ViewOf(item: ItemRow, specs: seq<SpecRow>): ItemView
  {
    var mine := Filter(specs, (s: SpecRow) => s.itemId == item.id);
    ItemView(item, seq(|mine|, i requires 0 <= i < |mine| => ViewOfSpec(mine[i])))
  }

  /** A top-level category with its direct sub-categories and the dishes of both. */
  function NodeOf(category: CategoryRow, categories: seq<CategoryRow>, active: seq<ItemRow>, specs: seq<SpecRow>)
    : MenuNode
  {
    MenuNode(category, Views(NodeRows(category, categories, active), specs), ChildrenOf(categories, category.id))
  }

  /** The dishes filed under a category or one of its direct sub-categories. */
  function NodeRows(category: CategoryRow, categories: seq<CategoryRow>, active: seq<ItemRow>): seq<ItemRow>
  {
    var ids := CategoryIds(category, ChildrenOf(categories, category.id));
    Filter(active, (x: ItemRow) => x.categoryId in ids)
  }

  /** Each dish with its specifications. */
  function Views(rows: seq<ItemRow>, specs: seq<SpecRow>): seq<ItemView>
  {
    seq(|rows|, i requires 0 <= i < |rows| => ViewOf(rows[i], specs))
  }

  /** The menu: one node per top-level category, in the categories' order. */
  function GetMenu(categories: seq<CategoryRow>, items: seq<ItemRow>, specs: seq<SpecRow>): seq<MenuNode>
  {
    var tops := Filter(categories, IsTopLevel);
    var active := Filter(items, IsActive);
    seq(|tops|, i requires 0 <= i < |tops| => NodeOf(tops[i], categories, active, specs))
  }

  /** The menu has one node for each top-level category and no other. */
  lemma MenuTopLevel(categories: seq<CategoryRow>, items: seq<ItemRow>, specs: seq<SpecRow>)
    ensures forall n :: n in GetMenu(categories, items, specs) ==> n.category in categories && IsTopLevel(n.category)
    ensures forall c :: c in categories && IsTopLevel(c) ==>
              exists n :: n in GetMenu(categories, items, specs) && n.category == c
  {
    var tops := Filter(categories, IsTopLevel);
    var menu := GetMenu(categories, items, specs);
    FilterExact(categories, IsTopLevel);
    forall c | c in categories && IsTopLevel(c)
      ensures exists n :: n in menu && n.category == c
    {
      var i :| 0 <= i < |tops| && tops[i] == c;
      assert menu[i].category == c;
    }
  }

  /** A node's sub-categories are exactly the categories whose parent is the node's category. */
  lemma MenuChildren(categories: seq<CategoryRow>, items: seq<ItemRow>, specs: seq<SpecRow>)
    ensures forall n, c :: n in GetMenu(categories, items, specs) ==>
              (c in n.children <==> c in categories && c.parentId == Some(n.category.id))
  {
    forall n | n in GetMenu(categories, items, specs)
      ensures forall c :: c in n.children <==> c in categories && c.parentId == Some(n.category.id)
    {
      FilterExact(categories, (c: CategoryRow) => c.parentId == Some(n.category.id));
    }
  }

  /**
   * A node lists exactly the active dishes filed under its category or under one of its direct
   * sub-categories, each with its own specifications.
   */
  lemma MenuItems(categories: seq<CategoryRow>, items: seq<ItemRow>, specs: seq<SpecRow>)
    ensures forall n, x :: n in GetMenu(categories, items, specs) ==>
              ((exists v :: v in n.items && v.item == x) <==>
               && x in items && IsActive(x)
               && (x.categoryId == n.category.id
                   || exists c :: c in categories && c.parentId == Some(n.category.id) && c.id == x.categoryId))
    ensures forall n, v :: n in GetMenu(categories, items, specs) && v in n.items ==> v == ViewOf(v.item, specs)
  {
    var menu := GetMenu(categories, items, specs);
    var tops := Filter(categories, IsTopLevel);
    forall n | n in menu
      ensures forall x :: (exists v :: v in n.items && v.item == x) <==>
                && x in items && IsActive(x)
                && (x.categoryId == n.category.id
                    || exists c :: c in categories && c.parentId == Some(n.category.id) && c.id == x.categoryId)
      ensures forall v :: v in n.items ==> v == ViewOf(v.item, specs)
    {
      var i :| 0 <= i < |menu| && menu[i] == n;
      NodeItems(tops[i], categories, items, specs);
    }
  }

  lemma NodeItems(category: CategoryRow, categories: seq<CategoryRow>, items: seq<ItemRow>, specs: seq<SpecRow>)
    ensures var n := NodeOf(category, categories, Filter(items, IsActive), specs);
            && (forall x :: (exists v :: v in n.items && v.item == x) <==>
                  && x in items && IsActive(x)
                  && (x.categoryId == category.id
                      || exists c :: c in categories && c.parentId == Some(category.id) && c.id == x.categoryId))
            && (forall v :: v in n.items ==> v == ViewOf(v.item, specs))
  {
    var active := Filter(items, IsActive);
    FilterExact(items, IsActive);
    NodeRowsExact(category, categories, active);
    ViewsExact(NodeRows(category, categories, active), specs);
  }

  lemma NodeRowsExact(category: CategoryRow, categories: seq<CategoryRow>, active: seq<ItemRow>)
    ensures forall x :: x in NodeRows(category, categories, active) <==>
              && x in active
              && (x.categoryId == category.id
                  || exists c :: c in categories && c.parentId == Some(category.id) && c.id == x.categoryId)
  {
    var subs := ChildrenOf(categories, category.id);
    var ids := CategoryIds(category, subs);
    FilterExact(categories, (c: CategoryRow) => c.parentId == Some(category.id));
    FilterExact(active, (x: ItemRow) => x.categoryId in ids);
  }

  lemma ViewsExact(rows: seq<ItemRow>, specs: seq<SpecRow>)
    ensures forall x :: (exists v :: v in Views(rows, specs) && v.item == x) <==> x in rows
    ensures forall v :: v in Views(rows, specs) ==> v == ViewOf(v.item, specs)
  {
    forall x | x in rows
      ensures exists v :: v in Views(rows, specs) && v.item == x
    {
      var i :| 0 <= i < |rows| && rows[i] == x;
      assert Views(rows, specs)[i].item == x;
    }
  }

  /** A dish carries exactly the specifications recorded for it. */
  lemma ViewOfSpecs(item: ItemRow, specs: seq<SpecRow>)
    ensures forall v :: v in ViewOf(item, specs).specs <==>
              exists s :: s in specs && s.itemId == item.id && v == ViewOfSpec(s)
  {
    var mine := Filter(specs, (s: SpecRow) => s.itemId == item.id);
    FilterExact(specs, (s: SpecRow) => s.itemId == item.id);
    forall v | v in ViewOf(item, specs).specs
      ensures exists s :: s in specs && s.itemId == item.id && v == ViewOfSpec(s)
    {
      var i :| 0 <= i < |mine| && ViewOf(item, specs).specs[i] == v;
      assert mine[i] in specs;
    }
    forall s | s in specs && s.itemId == item.id
      ensures ViewOfSpec(s) in ViewOf(item, specs).specs
    {
      var i :| 0 <= i < |mine| && mine[i] == s;
      assert ViewOf(item, specs).specs[i] == ViewOfSpec(s);
    }
  }

  /** No two categories share an id. */
  predicate UniqueIds(categories: seq<CategoryRow>)
  {
    forall c1, c2 :: c1 in categories && c2 in categories && c1.id == c2.id ==> c1 == c2
  }

  /**
   * The menu shows two levels: a dish filed under a category whose parent is not a top-level
   * category appears in no node.
   */
  lemma DeepCategoryHidden(categories: seq<CategoryRow>, items: seq<ItemRow>, specs: seq<SpecRow>, c: CategoryRow, x: ItemRow)
    requires UniqueIds(categories)
    requires c in categories && !IsTopLevel(c)
    requires forall t :: t in categories && IsTopLevel(t) ==> Some(t.id) != c.parentId
    requires x.categoryId == c.id
    ensures forall n, v :: n in GetMenu(categories, items, specs) && v in n.items ==> v.item != x
  {
    MenuTopLevel(categories, items, specs);
    MenuItems(categories, items, specs);
  }

  // ---------------------------------------------------------------------------------------------
  // Removing a category.

  datatype DeleteOutcome = PermissionDenied | HasItems | HasChildren | Deleted

  /** The guards of a removal, in order: admin only, no dish filed under it, no sub-category. */
  function CheckDelete(isAdmin: bool, id: int, categories: seq<CategoryRow>, items: seq<ItemRow>): (r: DeleteOutcome)
    ensures r == Deleted <==> isAdmin && (forall x :: x in items ==> x.categoryId != id)
                              && (forall c :: c in categories ==> c.parentId != Some(id))
  {
    if !isAdmin then PermissionDenied
    else if exists x :: x in items && x.categoryId == id then HasItems
    else if exists c :: c in categories && c.parentId == Some(id) then HasChildren
    else Deleted
  }

  /** Every dish is filed under an existing category, and every parent named exists. */
  predicate Closed(categories: seq<CategoryRow>, items: seq<ItemRow>)
  {
    && (forall x :: x in items ==> exists c :: c in categories && c.id == x.categoryId)
    && (forall c :: c in categories && !IsTopLevel(c) ==> exists p :: p in categories && Some(p.id) == c.parentId)
  }

  function Without(categories: seq<CategoryRow>, id: int): seq<CategoryRow>
  {
    Filter(categories, (c: CategoryRow) => c.id != id)
  }

  /** A removal the guards let through leaves no dish and no sub-category pointing at a missing category. */
  lemma DeleteKeepsClosed(isAdmin: bool, id: int, categories: seq<CategoryRow>, items: seq<ItemRow>)
    requires Closed(categories, items)
    requires CheckDelete(isAdmin, id, categories, items) == Deleted
    ensures Closed(Without(categories, id), items)
  {
    FilterExact(categories, (c: CategoryRow) => c.id != id);
  }

  /** The tables the menu handlers read and write. */
  class Catalog {
    var categories: seq<CategoryRow>
    var items: seq<ItemRow>
    var specs: seq<SpecRow>

    constructor (categories0: seq<CategoryRow>, items0: seq<ItemRow>, specs0: seq<SpecRow>)
      ensures categories == categories0 && items == items0 && specs == specs0
    {
      categories, items, specs := categories0, items0, specs0;
    }

    /** Removes the category when the guards pass; otherwise changes nothing. */
    method DeleteCategory(isAdmin: bool, id: int) returns (r: DeleteOutcome)
      modifies this
      ensures r == CheckDelete(isAdmin, id, old(categories), old(items))
      ensures categories == if r == Deleted then Without(old(categories), id) else old(categories)
      ensures items == old(items) && specs == old(specs)
      ensures Closed(old(categories), items) ==> Closed(categories, items)
    {
      r := CheckDelete(isAdmin, id, categories, items);
      if r == Deleted {
        if Closed(categories, items) {
          DeleteKeepsClosed(isAdmin, id, categories, items);
        }
        categories := Without(categories, id);
      }
    }
  }
}
