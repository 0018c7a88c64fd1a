/**
 * The Shell page: the user's extracted items grouped into categories. Four
 * default categories come first, the user's own follow; a category's count
 * and its detail list use one predicate, under which "Core Values" also
 * takes the items of the older category name "Values". New categories are
 * created from a small form and always get the generic icon.
 */
module Shell {
  import opened Wrappers
  import opened Store
  import JsString

  const CoreValues: string := "Core Values"
  const LegacyValues: string := "Values"

  /** The icons the page can draw. */
  datatype Icon = Zap | Users | MapPin | Target | Box

  /** `iconMap[iconName] || Box`: the four default names and "Box" have their own entry; every other name draws Box. */
  function IconFor(iconName: string): (icon: Icon)
    ensures icon == Zap <==> iconName == CoreValues
    ensures icon == Users <==> iconName == "People"
    ensures icon == MapPin <==> iconName == "Places"
    ensures icon == Target <==> iconName == "Long-term Goals"
    ensures icon == Box <==> iconName !in {CoreValues, "People", "Places", "Long-term Goals"}
  {
    if iconName == CoreValues then Zap
    else if iconName == "People" then Users
    else if iconName == "Places" then MapPin
    else if iconName == "Long-term Goals" then Target
    else Box
  }

  /** What the page lists for a category. */
  datatype CategoryCard = CategoryCard(name: string, iconName: string, description: string)

  /** `defaultCats`, in their fixed order. */
  const Defaults: seq<CategoryCard> := [
    CategoryCard(CoreValues, CoreValues, "Your life principles"),
    CategoryCard("People", "People", "Connections & Inner circle"),
    CategoryCard("Places", "Places", "Locations that matter"),
    CategoryCard("Long-term Goals", "Long-term Goals", "Your north star")
  ]

  /** The icon a new custom category is stored with. */
  const NewCategoryIcon: string := "Box"

  function CardOf(row: ShellCategory): CategoryCard
  {
    CategoryCard(row.name, row.iconName, row.description)
  }

  /** `shell_categories` rows of `u`, `.eq('user_id', u)`, in table order. */
  function CategoriesOf(rows: seq<ShellCategory>, u: UserId): (r: seq<ShellCategory>)
    ensures forall k :: 0 <= k < |r| ==> r[k].userId == Some(u)
  {
    if rows == [] then []
    else (if rows[0].userId == Some(u) then [rows[0]] else []) + CategoriesOf(rows[1..], u)
  }

  /** The cards of the user's own categories. */
  function Cards(rows: seq<ShellCategory>): (r: seq<CategoryCard>)
    ensures |r| == |rows|
    ensures forall k :: 0 <= k < |r| ==> r[k] == CardOf(rows[k])
  {
    if rows == [] then [] else [CardOf(rows[0])] + Cards(rows[1..])
  }

  function CustomCards(rows: seq<ShellCategory>, u: UserId): seq<CategoryCard>
  {
    Cards(CategoriesOf(rows, u))
  }

  /** `[...defaultCats, ...custom]`: the defaults in order, then the user's categories. */
  function CategoryList(custom: seq<CategoryCard>): (r: seq<CategoryCard>)
    ensures |r| == |Defaults| + |custom|
    ensures r[..|Defaults|] == Defaults && r[|Defaults|..] == custom
  {
    Defaults + custom
  }

  /** `shell_items` rows of `u`, `.eq('user_id', u)`, in table order. */
  function ItemsOf(rows: seq<ShellItem>, u: UserId): (r: seq<ShellItem>)
    ensures forall k :: 0 <= k < |r| ==> r[k].userId == u
  {
    if rows == [] then []
    else (if rows[0].userId == u then [rows[0]] else []) + ItemsOf(rows[1..], u)
  }

  /** The filter only drops rows: every item it returns comes from the table, as often as it occurs there. */
  lemma {:induction false} ItemsOfIsSubMultiset(rows: seq<ShellItem>, u: UserId)
    ensures multiset(ItemsOf(rows, u)) <= multiset(rows)
  {
    if rows != [] {
      ItemsOfIsSubMultiset(rows[1..], u);
      assert rows == [rows[0]] + rows[1..];
    }
  }

  /** The same for the categories filter. */
  lemma {:induction false} CategoriesOfIsSubMultiset(rows: seq<ShellCategory>, u: UserId)
    ensures multiset(CategoriesOf(rows, u)) <= multiset(rows)
  {
    if rows != [] {
      CategoriesOfIsSubMultiset(rows[1..], u);
      assert rows == [rows[0]] + rows[1..];
    }
  }

  /** The filter drops none of the user's items. */
  lemma {:induction false} ItemsOfKeepsOwned(rows: seq<ShellItem>, u: UserId, i: nat)
    requires i < |rows| && rows[i].userId == u
    ensures rows[i] in ItemsOf(rows, u)
  {
    if i > 0 {
      ItemsOfKeepsOwned(rows[1..], u, i - 1);
    }
  }

  /** The filter drops none of the user's categories. */
  lemma {:induction false} CategoriesOfKeepsOwned(rows: seq<ShellCategory>, u: UserId, i: nat)
    requires i < |rows| && rows[i].userId == Some(u)
    ensures rows[i] in CategoriesOf(rows, u)
  {
    if i > 0 {
      CategoriesOfKeepsOwned(rows[1..], u, i - 1);
    }
  }

  /** `i.category === name || (name === "Core Values" && i.category === "Values")` */
  predicate InCategory(item: ShellItem, name: string)
    ensures name != CoreValues ==> (InCategory(item, name) <==> item.category == name)
    ensures name == CoreValues ==> (InCategory(item, name) <==> item.category == CoreValues || item.category == LegacyValues)
  {
    item.category == name || (name == CoreValues && item.category == LegacyValues)
  }

  /** `items.filter(i => InCategory(i, name))`: the detail list of a category. */
  function Listed(items: seq<ShellItem>, name: string): (r: seq<ShellItem>)
    ensures forall k :: 0 <= k < |r| ==> InCategory(r[k], name)
    ensures forall x :: multiset(r)[x] == if InCategory(x, name) then multiset(items)[x] else 0
  {
    if items == [] then []
    else
      assert items == [items[0]] + items[1..];
      (if InCategory(items[0], name) then [items[0]] else []) + Listed(items[1..], name)
  }

  /** `getCount(name)`: the length of the same filter the detail list shows. */
  function GetCount(items: seq<ShellItem>, name: string): (n: nat)
    ensures n == |Listed(items, name)|
    ensures n <= |items|
  {
    var r := Listed(items, name);
    assert |multiset(r)| <= |multiset(items)| by {
      assert multiset(r) <= multiset(items) by {
        assert forall x :: multiset(r)[x] <= multiset(items)[x];
      }
      MultisetSubsetSize(multiset(r), multiset(items));
    }
    |r|
  }

  lemma MultisetSubsetSize<T>(a: multiset<T>, b: multiset<T>)
    requires a <= b
    ensures |a| <= |b|
  {
    assert b == a + (b - a);
  }

  /** How many items carry exactly this category name. */
  function CountExactly(items: seq<ShellItem>, name: string): nat
  {
    if items == [] then 0
    else (if items[0].category == name then 1 else 0) + CountExactly(items[1..], name)
  }

  /** "Core Values" counts its own items and those that still carry the older name "Values". */
  lemma {:induction false} CoreValuesCountsLegacy(items: seq<ShellItem>)
    ensures GetCount(items, CoreValues) == CountExactly(items, CoreValues) + CountExactly(items, LegacyValues)
  {
    if items != [] {
      CoreValuesCountsLegacy(items[1..]);
    }
  }

  /** Every other name counts exactly its own items: no other category has an alias. */
  lemma {:induction false} OtherNamesCountExactly(items: seq<ShellItem>, name: string)
    requires name != CoreValues
    ensures GetCount(items, name) == CountExactly(items, name)
  {
    if items != [] {
      OtherNamesCountExactly(items[1..], name);
    }
  }

  /** The page's React state. */
  class ShellPage {
    var items: seq<ShellItem>
    var categories: seq<CategoryCard>
    var selected: Option<string>
    var loading: bool
    var isModalOpen: bool
    var newCatName: string
    var newCatDesc: string

    /** The initial state. */
    constructor ()
      ensures items == [] && categories == [] && selected == None && loading
      ensures !isModalOpen && newCatName == "" && newCatDesc == ""
    {
      items, categories, selected, loading := [], [], None, true;
      isModalOpen, newCatName, newCatDesc := false, "", "";
    }

    /** Whether the detail page is shown: a selected name that is not the empty text. */
    predicate ShowsDetail()
      reads this
    {
      selected.Some? && selected.value != ""
    }

    /** The detail page's header count, the same number as its list has items. */
    function DetailCount(): (n: nat)
      reads this
      requires ShowsDetail()
      ensures n == |Listed(items, selected.value)|
    {
      GetCount(items, selected.value)
    }

    /**
     * `fetchData`: with a signed-in user, the user's items (kept as they were
     * when that read failed) and the category list, defaults first; the
     * custom part is empty when its read failed.
     */
    method FetchData(db: Database, user: Option<UserId>, itemsRead: bool, categoriesRead: bool)
      modifies this
      ensures user.None? ==> items == old(items) && categories == old(categories) && loading == old(loading)
      ensures user.Some? ==> items == (if itemsRead then ItemsOf(db.shellItems, user.value) else old(items))
      ensures user.Some? ==> categories == CategoryList(if categoriesRead then CustomCards(db.shellCategories, user.value) else [])
      ensures user.Some? ==> !loading
      ensures selected == old(selected) && isModalOpen == old(isModalOpen)
      ensures newCatName == old(newCatName) && newCatDesc == old(newCatDesc)
    {
      if user.None? {
        return;
      }
      var u := user.value;
      if itemsRead {
        items := ItemsOf(db.shellItems, u);
      }
      var custom := if categoriesRead then CustomCards(db.shellCategories, u) else [];
      categories := CategoryList(custom);
      loading := false;
    }

    /**
     * `handleCreateCategory`: a name that is empty or only whitespace creates
     * nothing. Otherwise one row with the name and description as typed and
     * the Box icon is inserted; when that succeeds the form is cleared, the
     * modal closes and the page fetches its data again.
     */
    method CreateCategory(db: Database, user: Option<UserId>, insertOk: bool, itemsRead: bool, categoriesRead: bool)
      returns (created: bool)
      requires db.Valid()
      modifies this, db
      ensures db.Valid()
      ensures created <==> JsString.Trim(old(newCatName)) != [] && insertOk
      ensures db.entries == old(db.entries) && db.interviewResponses == old(db.interviewResponses)
      ensures db.dailyPages == old(db.dailyPages) && db.profiles == old(db.profiles)
      ensures db.shellItems == old(db.shellItems)
      ensures selected == old(selected)
      // Blank name, or the insert failed: nothing changes, the modal stays open.
      ensures !created ==> unchanged(this) && unchanged(db)
      ensures created ==>
                db.shellCategories == old(db.shellCategories) + [ShellCategory(old(newCatName), old(newCatDesc), user, NewCategoryIcon)]
      ensures created ==> newCatName == "" && newCatDesc == "" && !isModalOpen
      // The refetch that follows a successful insert.
      ensures created && user.Some? ==>
                items == (if itemsRead then ItemsOf(db.shellItems, user.value) else old(items))
      ensures created && user.Some? ==>
                categories == CategoryList(if categoriesRead then CustomCards(db.shellCategories, user.value) else [])
      ensures created && user.Some? ==> !loading
      ensures created && user.None? ==> items == old(items) && categories == old(categories) && loading == old(loading)
    {
      if JsString.Trim(newCatName) == [] || !insertOk {
        return false;
      }
      db.InsertCategory(ShellCategory(newCatName, newCatDesc, user, NewCategoryIcon));
      newCatName := "";
      newCatDesc := "";
      isModalOpen := false;
      FetchData(db, user, itemsRead, categoriesRead);
      created := true;
    }
  }

  /** A category created with a signed-in user shows up after the defaults, with the Box icon. */
  lemma CreatedCategoryIsListed(rows: seq<ShellCategory>, u: UserId, name: string, description: string)
    ensures var r := rows + [ShellCategory(name, description, Some(u), NewCategoryIcon)];
            var list := CategoryList(CustomCards(r, u));
            && CategoryCard(name, NewCategoryIcon, description) in list[|Defaults|..]
            && IconFor(NewCategoryIcon) == Box
  {
    var r := rows + [ShellCategory(name, description, Some(u), NewCategoryIcon)];
    assert r[|rows|].userId == Some(u);
    CategoriesOfKeepsOwned(r, u, |rows|);
    var mine := CategoriesOf(r, u);
    var j :| 0 <= j < |mine| && mine[j] == r[|rows|];
    assert Cards(mine)[j] == CategoryCard(name, NewCategoryIcon, description);
  }
}
