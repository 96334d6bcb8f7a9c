/**
 * The list updates of the main page (app/page.tsx) as functions on the
 * category list: toggling an item, the assistant's check / uncheck /
 * rename / delete passes with their loose name match, the specification of
 * appending new items, and the id counter recovered when a saved list loads.
 */
module ListOps {
  import opened Wrappers
  import opened Seqs
  import opened Strings
  import opened Types

  /** The fallback category ("Other"). */
  const Other: string := "אחר"

  datatype Meta = Meta(icon: string, color: string)

  /** CATEGORY_META: icon and colour of each known supermarket department. */
  const CategoryMeta: map<string, Meta> := map[
    "פירות וירקות" := Meta("🥬", "#22c55e"),
    "בשר ודגים" := Meta("🥩", "#e07850"),
    "חלב וקירור" := Meta("🧀", "#3b82f6"),
    "קפואים" := Meta("🧊", "#06b6d4"),
    "יבש/מזווה" := Meta("🫙", "#f59e0b"),
    "לחם ומאפים" := Meta("🍞", "#d97706"),
    "פארם וניקיון" := Meta("🧴", "#8b5cf6"),
    "שתייה" := Meta("🥤", "#ec4899"),
    Other := Meta("🛒", "#6b7280")
  ]

  /** `CATEGORY_META[name] || CATEGORY_META["אחר"]`. */
  function MetaFor(name: string): Meta
  {
    if name in CategoryMeta then CategoryMeta[name] else CategoryMeta[Other]
  }

  // ---------------------------------------------------------------- loose match

  /** An item name and a name from the assistant match when equal or when either contains the other. */
  predicate LooseMatch(itemName: string, name: string)
  {
    itemName == name || Contains(itemName, name) || Contains(name, itemName)
  }

  /**
   * The match is symmetric and is exactly "one contains the other"; in
   * particular the empty name (which every string contains) matches every item.
   */
  lemma LooseMatchSpec(a: string, b: string)
    ensures LooseMatch(a, b) <==> LooseMatch(b, a)
    ensures LooseMatch(a, b) <==> Contains(a, b) || Contains(b, a)
    ensures LooseMatch(a, "") && LooseMatch("", a)
  {
    ContainsSelf(a);
    ContainsEmpty(a);
  }

  /** `names.some((name) => …loose match…)`. */
  predicate MatchesAny(itemName: string, names: seq<string>)
  {
    exists j :: 0 <= j < |names| && LooseMatch(itemName, names[j])
  }

  // ---------------------------------------------------------------- item-wise passes

  /** `items.map(f)`. */
  function MapEach(items: seq<Item>, f: Item -> Item): seq<Item>
  {
    seq(|items|, i requires 0 <= i < |items| => f(items[i]))
  }

  /** `prev.map((cat) => ({ ...cat, items: cat.items.map(f) }))`. */
  function MapItems(cats: seq<Category>, f: Item -> Item): seq<Category>
  {
    seq(|cats|, k requires 0 <= k < |cats| => cats[k].(items := MapEach(cats[k].items, f)))
  }

  /** Same categories, in the same order, with the same number of items each. */
  predicate SameShape(a: seq<Category>, b: seq<Category>)
  {
    && |a| == |b|
    && forall k :: 0 <= k < |a| ==>
         a[k].name == b[k].name && a[k].icon == b[k].icon && a[k].color == b[k].color
         && |a[k].items| == |b[k].items|
  }

  function Toggled(item: Item, itemId: string): Item
  {
    if item.id == itemId then item.(checked := !item.checked) else item
  }

  function ToggleFn(itemId: string): Item -> Item
  {
    (item: Item) => Toggled(item, itemId)
  }

  /** handleToggleItem. */
  function ToggleItem(cats: seq<Category>, itemId: string): seq<Category>
  {
    MapItems(cats, ToggleFn(itemId))
  }

  /**
   * Toggling flips `checked` exactly on the items carrying the id, leaves
   * every other field and category alone, and toggling again restores the list.
   */
  lemma ToggleItemSpec(cats: seq<Category>, itemId: string)
    ensures SameShape(ToggleItem(cats, itemId), cats)
    ensures forall k, i :: 0 <= k < |cats| && 0 <= i < |cats[k].items| ==>
      var before, after := cats[k].items[i], ToggleItem(cats, itemId)[k].items[i];
      && after.id == before.id && after.name == before.name && after.category == before.category
      && (after.checked <==> (before.checked != (before.id == itemId)))
    ensures ToggleItem(ToggleItem(cats, itemId), itemId) == cats
  {
    var r := ToggleItem(cats, itemId);
    var rr := ToggleItem(r, itemId);
    forall k | 0 <= k < |cats| ensures rr[k] == cats[k] {
      assert rr[k].items == cats[k].items;
    }
  }

  function Checked(item: Item, names: seq<string>): Item
  {
    if MatchesAny(item.name, names) then item.(checked := true) else item
  }

  function Unchecked(item: Item, names: seq<string>): Item
  {
    if MatchesAny(item.name, names) then item.(checked := false) else item
  }

  function CheckFn(names: seq<string>): Item -> Item
  {
    (item: Item) => Checked(item, names)
  }

  function UncheckFn(names: seq<string>): Item -> Item
  {
    (item: Item) => Unchecked(item, names)
  }

  /** The pass that marks as found every item matching a name in `updatedItems`. */
  function CheckPass(cats: seq<Category>, names: seq<string>): seq<Category>
  {
    MapItems(cats, CheckFn(names))
  }

  /** The pass that returns to pending every item matching a name in `uncheckedItems`. */
  function UncheckPass(cats: seq<Category>, names: seq<string>): seq<Category>
  {
    MapItems(cats, UncheckFn(names))
  }

  /**
   * After the check pass an item is checked exactly when it matches one of
   * the names or was checked already; nothing else changes, and a second
   * pass with the same names changes nothing.
   */
  lemma CheckPassSpec(cats: seq<Category>, names: seq<string>)
    ensures SameShape(CheckPass(cats, names), cats)
    ensures forall k, i :: 0 <= k < |cats| && 0 <= i < |cats[k].items| ==>
      var before, after := cats[k].items[i], CheckPass(cats, names)[k].items[i];
      && after.id == before.id && after.name == before.name && after.category == before.category
      && (after.checked <==> before.checked || MatchesAny(before.name, names))
      && (!MatchesAny(before.name, names) ==> after == before)
    ensures CheckPass(CheckPass(cats, names), names) == CheckPass(cats, names)
  {
    var r := CheckPass(cats, names);
    var rr := CheckPass(r, names);
    forall k | 0 <= k < |cats| ensures rr[k] == r[k] {
      assert rr[k].items == r[k].items;
    }
  }

  /** The uncheck pass: an item is unchecked exactly when it matches, otherwise untouched. */
  lemma UncheckPassSpec(cats: seq<Category>, names: seq<string>)
    ensures SameShape(UncheckPass(cats, names), cats)
    ensures forall k, i :: 0 <= k < |cats| && 0 <= i < |cats[k].items| ==>
      var before, after := cats[k].items[i], UncheckPass(cats, names)[k].items[i];
      && after.id == before.id && after.name == before.name && after.category == before.category
      && (after.checked <==> before.checked && !MatchesAny(before.name, names))
      && (!MatchesAny(before.name, names) ==> after == before)
    ensures UncheckPass(UncheckPass(cats, names), names) == UncheckPass(cats, names)
  {
    var r := UncheckPass(cats, names);
    var rr := UncheckPass(r, names);
    forall k | 0 <= k < |cats| ensures rr[k] == r[k] {
      assert rr[k].items == r[k].items;
    }
  }

  /**
   * The uncheck pass runs after the check pass, so an item matched by both
   * lists ends up unchecked; one matched only by the first ends up checked.
   */
  lemma CheckThenUncheck(cats: seq<Category>, found: seq<string>, returned: seq<string>)
    ensures SameShape(UncheckPass(CheckPass(cats, found), returned), cats)
    ensures forall k, i :: 0 <= k < |cats| && 0 <= i < |cats[k].items| ==>
      var before, after := cats[k].items[i], UncheckPass(CheckPass(cats, found), returned)[k].items[i];
      after.checked <==>
        if MatchesAny(before.name, returned) then false
        else before.checked || MatchesAny(before.name, found)
  {
    CheckPassSpec(cats, found);
    UncheckPassSpec(CheckPass(cats, found), returned);
  }

  // ---------------------------------------------------------------- rename

  /** Edit j is the first edit, in list order, whose old name matches the item name. */
  predicate IsFirstMatch(itemName: string, edits: seq<Edit>, j: int)
  {
    && 0 <= j < |edits|
    && LooseMatch(itemName, edits[j].oldName)
    && forall j' :: 0 <= j' < j ==> !LooseMatch(itemName, edits[j'].oldName)
  }

  /** `editedItems.find(…loose match on oldName…)`, giving the new name of the first matching edit. */
  function FirstEdit(itemName: string, edits: seq<Edit>): (r: Option<string>)
    ensures r.None? <==> forall j :: 0 <= j < |edits| ==> !LooseMatch(itemName, edits[j].oldName)
    ensures r.Some? ==> exists j :: IsFirstMatch(itemName, edits, j) && r.value == edits[j].newName
  {
    if edits == [] then None
    else if LooseMatch(itemName, edits[0].oldName) then
      assert IsFirstMatch(itemName, edits, 0);
      Some(edits[0].newName)
    else
      var r := FirstEdit(itemName, edits[1..]);
      assert r.Some? ==> exists j :: IsFirstMatch(itemName, edits, j) && r.value == edits[j].newName by {
        if r.Some? {
          var j :| IsFirstMatch(itemName, edits[1..], j) && r.value == edits[1..][j].newName;
          assert forall j' :: 1 <= j' < j + 1 ==> edits[j'] == edits[1..][j' - 1];
          assert IsFirstMatch(itemName, edits, j + 1);
        }
      }
      r
  }

  function Renamed(item: Item, edits: seq<Edit>): Item
  {
    match FirstEdit(item.name, edits)
    case Some(newName) => item.(name := newName)
    case None => item
  }

  function RenameFn(edits: seq<Edit>): Item -> Item
  {
    (item: Item) => Renamed(item, edits)
  }

  /** editItems. */
  function EditItems(cats: seq<Category>, edits: seq<Edit>): seq<Category>
  {
    MapItems(cats, RenameFn(edits))
  }

  /**
   * Renaming keeps the categories, the item counts and every item's id,
   * category and checked flag; an item takes the new name of the first edit
   * in list order whose old name matches it, and keeps its name when none does.
   */
  lemma EditItemsSpec(cats: seq<Category>, edits: seq<Edit>)
    ensures SameShape(EditItems(cats, edits), cats)
    ensures forall k, i :: 0 <= k < |cats| && 0 <= i < |cats[k].items| ==>
      var before, after := cats[k].items[i], EditItems(cats, edits)[k].items[i];
      && after.id == before.id && after.category == before.category && after.checked == before.checked
      && ((forall j :: 0 <= j < |edits| ==> !LooseMatch(before.name, edits[j].oldName)) ==> after.name == before.name)
      && (forall j :: IsFirstMatch(before.name, edits, j) ==> after.name == edits[j].newName)
  {
    forall k, i, j | 0 <= k < |cats| && 0 <= i < |cats[k].items| && IsFirstMatch(cats[k].items[i].name, edits, j)
      ensures EditItems(cats, edits)[k].items[i].name == edits[j].newName
    {
      var name := cats[k].items[i].name;
      var r := FirstEdit(name, edits);
      var w :| IsFirstMatch(name, edits, w) && r.value == edits[w].newName;
      assert w == j;
    }
  }

  // ---------------------------------------------------------------- delete

  /** The items removeItems keeps: those matching none of the removed names. */
  function Survives(names: seq<string>): Item -> bool
  {
    (item: Item) => !MatchesAny(item.name, names)
  }

  /** removeItems: drop every matching item, then every category left empty. */
  function RemoveItems(cats: seq<Category>, names: seq<string>): seq<Category>
  {
    FilterCategories(cats, Survives(names))
  }

  /**
   * An item survives the delete pass exactly when it matches none of the
   * names; survivors keep their relative order, and no category in the
   * result is empty.
   */
  lemma RemoveItemsSpec(cats: seq<Category>, names: seq<string>)
    ensures forall k :: 0 <= k < |RemoveItems(cats, names)| ==> |RemoveItems(cats, names)[k].items| > 0
    ensures AllItems(RemoveItems(cats, names)) == Filter(AllItems(cats), Survives(names))
    ensures forall x :: x in AllItems(RemoveItems(cats, names)) <==>
      x in AllItems(cats) && !MatchesAny(x.name, names)
  {
    FilterCategoriesFlatten(cats, Survives(names));
    forall x ensures x in AllItems(RemoveItems(cats, names)) <==> x in AllItems(cats) && !MatchesAny(x.name, names) {
      FilterMembership(AllItems(cats), Survives(names), x);
    }
  }

  /** An empty name matches every item, so deleting it empties the whole list. */
  lemma RemoveEmptyNameClearsList(cats: seq<Category>)
    ensures RemoveItems(cats, [""]) == []
  {
    var r := RemoveItems(cats, [""]);
    RemoveItemsSpec(cats, [""]);
    forall x | x in AllItems(cats) ensures MatchesAny(x.name, [""]) {
      LooseMatchSpec(x.name, "");
      assert LooseMatch(x.name, [""][0]);
    }
    FilterEmpty(AllItems(cats), Survives([""]));
    AllItemsEmpty(r);
  }

  // ---------------------------------------------------------------- add

  /** `newItem.category || "אחר"`: a missing category becomes "Other". */
  function CategoryName(requested: string): (r: string)
    ensures r != ""
  {
    if requested == "" then Other else requested
  }

  /** The id `item-new-${n}` an added item receives while the counter stands at n. */
  function NewId(n: nat): string
  {
    "item-new-" + Decimal(n)
  }

  /** Different counter values give different ids, and the id carries its counter value. */
  lemma NewIdSpec(a: nat, b: nat)
    ensures NewId(a) == NewId(b) <==> a == b
    ensures IdNumber(NewId(a)) == Some(a)
  {
    var prefix := "item-new-";
    if NewId(a) == NewId(b) {
      assert Decimal(a) == NewId(a)[|prefix|..];
      assert Decimal(b) == NewId(b)[|prefix|..];
      DecimalInjective(a, b);
    }
    IdNumberOfRendered(prefix, a);
  }

  /** `updated.find((c) => c.name === name)`, as the index of the first category with that name. */
  function FindCategory(cats: seq<Category>, name: string): (r: Option<nat>)
    ensures r.Some? ==>
      && r.value < |cats| && cats[r.value].name == name
      && forall j :: 0 <= j < r.value ==> cats[j].name != name
    ensures r.None? ==> forall j :: 0 <= j < |cats| ==> cats[j].name != name
  {
    if cats == [] then None
    else if cats[0].name == name then Some(0)
    else
      match FindCategory(cats[1..], name)
      case None => None
      case Some(j) => Some(j + 1)
  }

  /** The item built for a requested item while the counter stands at n. */
  function Fresh(ni: NewItem, n: nat): Item
  {
    Item(NewId(n), ni.name, CategoryName(ni.category), false)
  }

  /** The items built for a list of requests, the counter starting at n. */
  function FreshItems(nis: seq<NewItem>, n: nat): (r: seq<Item>)
    ensures |r| == |nis| && forall j :: 0 <= j < |nis| ==> r[j] == Fresh(nis[j], n + j)
  {
    seq(|nis|, j requires 0 <= j < |nis| => Fresh(nis[j], n + j))
  }

  /**
   * One iteration of addNewItems' loop with the counter at n: the item goes
   * to the end of the first category with its name, or into a new category
   * appended to the list with icon and colour from CATEGORY_META.
   */
  function AddOne(cats: seq<Category>, ni: NewItem, n: nat): seq<Category>
  {
    var item := Fresh(ni, n);
    match FindCategory(cats, item.category)
    case Some(k) => cats[k := cats[k].(items := cats[k].items + [item])]
    case None =>
      var meta := MetaFor(item.category);
      cats + [Category(item.category, meta.icon, meta.color, [item])]
  }

  /** What addNewItems makes of a list, the id counter starting at n. */
  function AddAll(cats: seq<Category>, nis: seq<NewItem>, n: nat): seq<Category>
    decreases |nis|
  {
    if nis == [] then cats
    else AddOne(AddAll(cats, nis[..|nis| - 1], n), nis[|nis| - 1], n + |nis| - 1)
  }

  lemma AllItemsUpdate(cats: seq<Category>, k: nat, c: Category)
    requires k < |cats|
    ensures AllItems(cats) == AllItems(cats[..k]) + cats[k].items + AllItems(cats[k + 1..])
    ensures AllItems(cats[k := c]) == AllItems(cats[..k]) + c.items + AllItems(cats[k + 1..])
  {
    assert cats == cats[..k] + [cats[k]] + cats[k + 1..];
    assert cats[k := c] == cats[..k] + [c] + cats[k + 1..];
    AllItemsAppend(cats[..k] + [cats[k]], cats[k + 1..]);
    AllItemsAppend(cats[..k], [cats[k]]);
    AllItemsAppend(cats[..k] + [c], cats[k + 1..]);
    AllItemsAppend(cats[..k], [c]);
    assert [c][1..] == [] && [cats[k]][1..] == [];
  }

  lemma AddOneItems(cats: seq<Category>, ni: NewItem, n: nat)
    ensures multiset(AllItems(AddOne(cats, ni, n))) == multiset(AllItems(cats)) + multiset{Fresh(ni, n)}
  {
    var item := Fresh(ni, n);
    match FindCategory(cats, item.category)
    case Some(k) =>
      AllItemsUpdate(cats, k, cats[k].(items := cats[k].items + [item]));
    case None =>
      var meta := MetaFor(item.category);
      var c := Category(item.category, meta.icon, meta.color, [item]);
      AllItemsAppend(cats, [c]);
      assert [c][1..] == [];
  }

  lemma FreshItemsSnoc(nis: seq<NewItem>, n: nat)
    requires nis != []
    ensures FreshItems(nis, n) == FreshItems(nis[..|nis| - 1], n) + [Fresh(nis[|nis| - 1], n + |nis| - 1)]
  {
  }

  lemma MultisetLength(a: seq<Item>, b: seq<Item>, c: seq<Item>)
    requires multiset(a) == multiset(b) + multiset(c)
    ensures |a| == |b| + |c|
  {
    assert |multiset(a)| == |a|;
  }

  /**
   * Adding keeps every existing item and gains exactly the new items (fresh
   * ids, requested names, defaulted categories, unchecked): the item count
   * grows by exactly the number of requests.
   */
  lemma {:induction false} AddAllItems(cats: seq<Category>, nis: seq<NewItem>, n: nat)
    ensures multiset(AllItems(AddAll(cats, nis, n))) == multiset(AllItems(cats)) + multiset(FreshItems(nis, n))
    ensures |AllItems(AddAll(cats, nis, n))| == |AllItems(cats)| + |nis|
    decreases |nis|
  {
    if nis == [] {
      assert FreshItems(nis, n) == [];
    } else {
      var m := |nis| - 1;
      var r := AddAll(cats, nis[..m], n);
      var f := FreshItems(nis[..m], n);
      var x := Fresh(nis[m], n + m);
      AddAllItems(cats, nis[..m], n);
      assert multiset(AllItems(r)) == multiset(AllItems(cats)) + multiset(f);
      AddOneItems(r, nis[m], n + m);
      assert multiset(AllItems(AddOne(r, nis[m], n + m))) == multiset(AllItems(r)) + multiset{x};
      FreshItemsSnoc(nis, n);
      assert multiset(FreshItems(nis, n)) == multiset(f) + multiset{x};
      assert AddAll(cats, nis, n) == AddOne(r, nis[m], n + m);
    }
    MultisetLength(AllItems(AddAll(cats, nis, n)), AllItems(cats), FreshItems(nis, n));
  }

  /** The new items carry pairwise distinct ids. */
  lemma FreshIdsDistinct(nis: seq<NewItem>, n: nat)
    ensures forall j, j' :: 0 <= j < j' < |nis| ==> FreshItems(nis, n)[j].id != FreshItems(nis, n)[j'].id
  {
    forall j, j' | 0 <= j < j' < |nis| ensures FreshItems(nis, n)[j].id != FreshItems(nis, n)[j'].id {
      NewIdSpec(n + j, n + j');
    }
  }

  /** The items whose category field is `name`. */
  function InCategory(name: string): Item -> bool
  {
    (item: Item) => item.category == name
  }

  /**
   * r is what adding `arrivals` to cats gives: the existing categories keep
   * their header and position and gain, at their end, the new items of
   * their name (only the first category with a name gains any); every new
   * category is appended after them, is the first with its name, takes its
   * icon and colour from CATEGORY_META and holds at least one new item, and
   * the new categories come in the order their names are first requested;
   * every new item sits in the first category carrying its category name.
   */
  predicate AddedInto(cats: seq<Category>, r: seq<Category>, arrivals: seq<Item>)
  {
    && HeadersKept(cats, r) && NewCategoriesFirst(cats, r) && NewCategoriesUsed(cats, r)
    && NewCategoriesInOrder(cats, r, arrivals) && Placed(r, arrivals) && ItemsAccounted(cats, r, arrivals)
  }

  /** The existing categories keep their position, name, icon and colour. */
  predicate HeadersKept(cats: seq<Category>, r: seq<Category>)
  {
    && |cats| <= |r|
    && forall k :: 0 <= k < |cats| ==>
         r[k].name == cats[k].name && r[k].icon == cats[k].icon && r[k].color == cats[k].color
  }

  /** Each category after the existing ones is the first with its name and has CATEGORY_META's icon and colour. */
  predicate NewCategoriesFirst(cats: seq<Category>, r: seq<Category>)
  {
    forall k :: |cats| <= k < |r| ==>
      r[k].icon == MetaFor(r[k].name).icon && r[k].color == MetaFor(r[k].name).color
      && FindCategory(r, r[k].name) == Some(k)
  }

  /** No category after the existing ones is empty. */
  predicate NewCategoriesUsed(cats: seq<Category>, r: seq<Category>)
  {
    forall k :: |cats| <= k < |r| ==> r[k].items != []
  }

  /** Some request in `arrivals` names the category `name`. */
  predicate RequestedIn(arrivals: seq<Item>, name: string)
  {
    Filter(arrivals, InCategory(name)) != []
  }

  /**
   * The categories after the existing ones come in the order their names
   * are first requested: a prefix of the requests that names a later one
   * names every earlier one too.
   */
  predicate NewCategoriesInOrder(cats: seq<Category>, r: seq<Category>, arrivals: seq<Item>)
  {
    forall k, k', j :: |cats| <= k < k' < |r| && 0 <= j <= |arrivals| && RequestedIn(arrivals[..j], r[k'].name)
      ==> RequestedIn(arrivals[..j], r[k].name)
  }

  /** Every new item's category name names some category of r. */
  predicate Placed(r: seq<Category>, arrivals: seq<Item>)
  {
    forall j :: 0 <= j < |arrivals| ==> FindCategory(r, arrivals[j].category).Some?
  }

  /** Every category holds its old items followed by the new items it received. */
  predicate ItemsAccounted(cats: seq<Category>, r: seq<Category>, arrivals: seq<Item>)
  {
    forall k :: 0 <= k < |r| ==> ItemsAt(r, k, BaseItems(cats, k), arrivals)
  }

  /** The items category k held before the additions: none for a category that did not exist. */
  function BaseItems(cats: seq<Category>, k: nat): seq<Item>
  {
    if k < |cats| then cats[k].items else []
  }

  /** The category at index k holds `base` followed by the new items of its name if it is the first with that name. */
  predicate ItemsAt(r: seq<Category>, k: nat, base: seq<Item>, arrivals: seq<Item>)
    requires k < |r|
  {
    r[k].items == base + (if FindCategory(r, r[k].name) == Some(k) then Filter(arrivals, InCategory(r[k].name)) else [])
  }

  lemma {:induction false} FindCategoryNames(a: seq<Category>, b: seq<Category>, name: string)
    requires |a| == |b| && forall k :: 0 <= k < |a| ==> a[k].name == b[k].name
    ensures FindCategory(a, name) == FindCategory(b, name)
  {
    if a != [] {
      FindCategoryNames(a[1..], b[1..], name);
    }
  }

  lemma FindCategoryExtend(a: seq<Category>, c: Category, name: string)
    ensures FindCategory(a + [c], name)
      == if FindCategory(a, name).Some? then FindCategory(a, name)
         else if c.name == name then Some(|a|) else None
  {
    var r := FindCategory(a + [c], name);
    if FindCategory(a, name).Some? {
      var p := FindCategory(a, name).value;
      assert (a + [c])[p].name == name;
    } else if c.name == name {
      assert (a + [c])[|a|].name == name;
    }
  }

  lemma FilterSnoc(s: seq<Item>, x: Item, keep: Item -> bool)
    ensures Filter(s + [x], keep) == Filter(s, keep) + (if keep(x) then [x] else [])
  {
    FilterAppend(s, [x], keep);
    assert [x][1..] == [];
  }

  lemma ArrivalsSnoc(arrivals: seq<Item>, item: Item, name: string)
    ensures Filter(arrivals + [item], InCategory(name))
      == Filter(arrivals, InCategory(name)) + (if item.category == name then [item] else [])
  {
    FilterSnoc(arrivals, item, InCategory(name));
    assert InCategory(name)(item) == (item.category == name);
  }

  lemma ExistingStepAt(r: seq<Category>, p: nat, item: Item, k: nat, base: seq<Item>, arrivals: seq<Item>)
    requires p < |r| && FindCategory(r, item.category) == Some(p)
    requires k < |r| && ItemsAt(r, k, base, arrivals)
    ensures ItemsAt(r[p := r[p].(items := r[p].items + [item])], k, base, arrivals + [item])
  {
    var r' := r[p := r[p].(items := r[p].items + [item])];
    var name := r[k].name;
    FindCategoryNames(r, r', name);
    ArrivalsSnoc(arrivals, item, name);
    if k != p && FindCategory(r, name) == Some(k) {
      assert name != item.category;
    }
  }

  lemma AddOneIntoExisting(cats: seq<Category>, r: seq<Category>, arrivals: seq<Item>, ni: NewItem, n: nat)
    requires AddedInto(cats, r, arrivals)
    requires FindCategory(r, Fresh(ni, n).category).Some?
    ensures AddedInto(cats, AddOne(r, ni, n), arrivals + [Fresh(ni, n)])
  {
    var item := Fresh(ni, n);
    var p := FindCategory(r, item.category).value;
    var r' := r[p := r[p].(items := r[p].items + [item])];
    assert AddOne(r, ni, n) == r';
    ExistingKeepsFirst(cats, r, p, item);
    ExistingKeepsPlaced(r, arrivals, p, item);
    ExistingKeepsItems(cats, r, arrivals, p, item);
    ExistingKeepsUsed(cats, r, p, item);
    NewCategoriesRequested(cats, r', arrivals + [item]);
    ExistingKeepsOrder(cats, r, arrivals, p, item);
  }

  lemma ExistingKeepsUsed(cats: seq<Category>, r: seq<Category>, p: nat, item: Item)
    requires p < |r| && NewCategoriesUsed(cats, r)
    ensures NewCategoriesUsed(cats, r[p := r[p].(items := r[p].items + [item])])
  {
    var r' := r[p := r[p].(items := r[p].items + [item])];
    forall k | |cats| <= k < |r'| ensures r'[k].items != [] {
      assert |r'[k].items| >= |r[k].items|;
    }
  }

  /** Each new category's name is requested, since its items are exactly its requests. */
  lemma NewCategoriesRequested(cats: seq<Category>, r: seq<Category>, arrivals: seq<Item>)
    requires NewCategoriesFirst(cats, r) && NewCategoriesUsed(cats, r) && ItemsAccounted(cats, r, arrivals)
    ensures forall k :: |cats| <= k < |r| ==> RequestedIn(arrivals, r[k].name)
  {
    forall k | |cats| <= k < |r| ensures RequestedIn(arrivals, r[k].name) {
      assert ItemsAt(r, k, BaseItems(cats, k), arrivals);
    }
  }

  lemma ExistingKeepsOrder(cats: seq<Category>, r: seq<Category>, arrivals: seq<Item>, p: nat, item: Item)
    requires p < |r| && NewCategoriesInOrder(cats, r, arrivals)
    requires forall k :: |cats| <= k < |r| ==> RequestedIn(arrivals + [item], r[k].name)
    ensures NewCategoriesInOrder(cats, r[p := r[p].(items := r[p].items + [item])], arrivals + [item])
  {
    var r' := r[p := r[p].(items := r[p].items + [item])];
    var a' := arrivals + [item];
    forall k, k', j | |cats| <= k < k' < |r'| && 0 <= j <= |a'|
      ensures RequestedIn(a'[..j], r'[k'].name) ==> RequestedIn(a'[..j], r'[k].name)
    {
      assert r'[k].name == r[k].name && r'[k'].name == r[k'].name;
      if j <= |arrivals| {
        assert a'[..j] == arrivals[..j];
      } else {
        assert a'[..j] == a';
      }
    }
  }

  lemma ExistingKeepsFirst(cats: seq<Category>, r: seq<Category>, p: nat, item: Item)
    requires p < |r| && HeadersKept(cats, r) && NewCategoriesFirst(cats, r)
    ensures HeadersKept(cats, r[p := r[p].(items := r[p].items + [item])])
    ensures NewCategoriesFirst(cats, r[p := r[p].(items := r[p].items + [item])])
  {
    var r' := r[p := r[p].(items := r[p].items + [item])];
    forall k | |cats| <= k < |r'| ensures FindCategory(r', r'[k].name) == Some(k) {
      FindCategoryNames(r, r', r'[k].name);
    }
  }

  lemma ExistingKeepsPlaced(r: seq<Category>, arrivals: seq<Item>, p: nat, item: Item)
    requires p < |r| && FindCategory(r, item.category) == Some(p) && Placed(r, arrivals)
    ensures Placed(r[p := r[p].(items := r[p].items + [item])], arrivals + [item])
  {
    var r' := r[p := r[p].(items := r[p].items + [item])];
    var arrivals' := arrivals + [item];
    forall j | 0 <= j < |arrivals'| ensures FindCategory(r', arrivals'[j].category).Some? {
      FindCategoryNames(r, r', arrivals'[j].category);
      if j < |arrivals| {
        assert arrivals'[j] == arrivals[j];
      }
    }
  }

  lemma ExistingKeepsItems(cats: seq<Category>, r: seq<Category>, arrivals: seq<Item>, p: nat, item: Item)
    requires p < |r| && FindCategory(r, item.category) == Some(p) && ItemsAccounted(cats, r, arrivals)
    ensures ItemsAccounted(cats, r[p := r[p].(items := r[p].items + [item])], arrivals + [item])
  {
    var r' := r[p := r[p].(items := r[p].items + [item])];
    forall k | 0 <= k < |r'| ensures ItemsAt(r', k, BaseItems(cats, k), arrivals + [item]) {
      var base := BaseItems(cats, k);
      assert ItemsAt(r, k, base, arrivals);
      ExistingStepAt(r, p, item, k, base, arrivals);
    }
  }

  lemma NewStepAt(r: seq<Category>, c: Category, k: nat, base: seq<Item>, arrivals: seq<Item>)
    requires |c.items| == 1 && c.items[0].category == c.name
    requires FindCategory(r, c.name).None?
    requires k < |r| ==> ItemsAt(r, k, base, arrivals)
    requires k == |r| ==> base == [] && Filter(arrivals, InCategory(c.name)) == []
    requires k <= |r|
    ensures ItemsAt(r + [c], k, base, arrivals + [c.items[0]])
  {
    var r' := r + [c];
    var item := c.items[0];
    var name := r'[k].name;
    FindCategoryExtend(r, c, name);
    ArrivalsSnoc(arrivals, item, name);
    if k < |r| {
      assert r'[k] == r[k];
      assert name != c.name;
    }
  }

  lemma AddOneIntoNew(cats: seq<Category>, r: seq<Category>, arrivals: seq<Item>, ni: NewItem, n: nat)
    requires AddedInto(cats, r, arrivals)
    requires FindCategory(r, Fresh(ni, n).category).None?
    ensures AddedInto(cats, AddOne(r, ni, n), arrivals + [Fresh(ni, n)])
  {
    var item := Fresh(ni, n);
    var meta := MetaFor(item.category);
    var c := Category(item.category, meta.icon, meta.color, [item]);
    assert AddOne(r, ni, n) == r + [c];
    NewKeepsFirst(cats, r, c);
    NewKeepsPlaced(r, arrivals, c);
    NewKeepsItems(cats, r, arrivals, c);
    NewKeepsUsed(cats, r, c);
    NewCategoriesRequested(cats, r + [c], arrivals + [item]);
    NewKeepsOrder(cats, r, arrivals, c);
  }

  lemma NewKeepsUsed(cats: seq<Category>, r: seq<Category>, c: Category)
    requires c.items != [] && NewCategoriesUsed(cats, r)
    ensures NewCategoriesUsed(cats, r + [c])
  {
    var r' := r + [c];
    forall k | |cats| <= k < |r'| ensures r'[k].items != [] {
      if k < |r| {
        assert r'[k] == r[k];
      }
    }
  }

  /** No prefix of the requests names a category the list does not have. */
  lemma NotRequested(r: seq<Category>, arrivals: seq<Item>, name: string, j: nat)
    requires FindCategory(r, name).None? && Placed(r, arrivals) && j <= |arrivals|
    ensures !RequestedIn(arrivals[..j], name)
  {
    FilterEmpty(arrivals[..j], InCategory(name));
    forall i | 0 <= i < j ensures !InCategory(name)(arrivals[..j][i]) {
      assert arrivals[..j][i] == arrivals[i];
      assert FindCategory(r, arrivals[i].category).Some?;
    }
  }

  lemma NewKeepsOrder(cats: seq<Category>, r: seq<Category>, arrivals: seq<Item>, c: Category)
    requires |c.items| == 1
    requires FindCategory(r, c.name).None? && Placed(r, arrivals) && NewCategoriesInOrder(cats, r, arrivals)
    requires forall k :: |cats| <= k < |r + [c]| ==> RequestedIn(arrivals + [c.items[0]], (r + [c])[k].name)
    ensures NewCategoriesInOrder(cats, r + [c], arrivals + [c.items[0]])
  {
    var r' := r + [c];
    var a' := arrivals + [c.items[0]];
    forall k, k', j | |cats| <= k < k' < |r'| && 0 <= j <= |a'|
      ensures RequestedIn(a'[..j], r'[k'].name) ==> RequestedIn(a'[..j], r'[k].name)
    {
      if j <= |arrivals| {
        assert a'[..j] == arrivals[..j];
        assert r'[k] == r[k];
        if k' == |r| {
          NotRequested(r, arrivals, c.name, j);
        } else {
          assert r'[k'] == r[k'];
        }
      } else {
        assert a'[..j] == a';
      }
    }
  }

  lemma NewKeepsFirst(cats: seq<Category>, r: seq<Category>, c: Category)
    requires FindCategory(r, c.name).None?
    requires c.icon == MetaFor(c.name).icon && c.color == MetaFor(c.name).color
    requires HeadersKept(cats, r) && NewCategoriesFirst(cats, r)
    ensures HeadersKept(cats, r + [c]) && NewCategoriesFirst(cats, r + [c])
  {
    var r' := r + [c];
    forall k | |cats| <= k < |r'| ensures FindCategory(r', r'[k].name) == Some(k) {
      FindCategoryExtend(r, c, r'[k].name);
    }
  }

  lemma NewKeepsPlaced(r: seq<Category>, arrivals: seq<Item>, c: Category)
    requires |c.items| == 1 && c.items[0].category == c.name
    requires FindCategory(r, c.name).None? && Placed(r, arrivals)
    ensures Placed(r + [c], arrivals + [c.items[0]])
  {
    var r' := r + [c];
    var arrivals' := arrivals + [c.items[0]];
    forall j | 0 <= j < |arrivals'| ensures FindCategory(r', arrivals'[j].category).Some? {
      FindCategoryExtend(r, c, arrivals'[j].category);
      if j < |arrivals| {
        assert arrivals'[j] == arrivals[j];
      }
    }
  }

  lemma NewKeepsItems(cats: seq<Category>, r: seq<Category>, arrivals: seq<Item>, c: Category)
    requires |c.items| == 1 && c.items[0].category == c.name
    requires FindCategory(r, c.name).None? && Placed(r, arrivals)
    requires |cats| <= |r| && ItemsAccounted(cats, r, arrivals)
    ensures ItemsAccounted(cats, r + [c], arrivals + [c.items[0]])
  {
    assert Filter(arrivals, InCategory(c.name)) == [] by {
      FilterEmpty(arrivals, InCategory(c.name));
    }
    var r' := r + [c];
    forall k | 0 <= k < |r'| ensures ItemsAt(r', k, BaseItems(cats, k), arrivals + [c.items[0]]) {
      NewStepAt(r, c, k, BaseItems(cats, k), arrivals);
    }
  }

  /**
   * addNewItems' effect: see AddedInto. In particular a later request with
   * the same category joins the category an earlier one created.
   */
  lemma {:induction false} AddAllSpec(cats: seq<Category>, nis: seq<NewItem>, n: nat)
    ensures AddedInto(cats, AddAll(cats, nis, n), FreshItems(nis, n))
    decreases |nis|
  {
    if nis == [] {
      assert FreshItems(nis, n) == [];
    } else {
      var m := |nis| - 1;
      AddAllSpec(cats, nis[..m], n);
      var r := AddAll(cats, nis[..m], n);
      assert FreshItems(nis, n) == FreshItems(nis[..m], n) + [Fresh(nis[m], n + m)];
      if FindCategory(r, Fresh(nis[m], n + m).category).Some? {
        AddOneIntoExisting(cats, r, FreshItems(nis[..m], n), nis[m], n + m);
      } else {
        AddOneIntoNew(cats, r, FreshItems(nis[..m], n), nis[m], n + m);
      }
    }
  }

  /** A request without a category lands in the first "Other" category, created if the list has none. */
  lemma AddAllOther(cats: seq<Category>, nis: seq<NewItem>, n: nat, j: nat)
    requires j < |nis| && nis[j].category == ""
    ensures var r := AddAll(cats, nis, n);
      FindCategory(r, Other).Some? && Fresh(nis[j], n + j) in r[FindCategory(r, Other).value].items
  {
    AddAllPlacement(cats, nis, n, j);
  }

  /** Each new item lands in the first category named after its (defaulted) category. */
  lemma AddAllPlacement(cats: seq<Category>, nis: seq<NewItem>, n: nat, j: nat)
    requires j < |nis|
    ensures var r, cn := AddAll(cats, nis, n), CategoryName(nis[j].category);
      FindCategory(r, cn).Some? && Fresh(nis[j], n + j) in r[FindCategory(r, cn).value].items
  {
    var arrivals := FreshItems(nis, n);
    AddAllSpec(cats, nis, n);
    assert arrivals[j] == Fresh(nis[j], n + j);
    ArrivalIn(cats, AddAll(cats, nis, n), arrivals, j);
  }

  /** In a list satisfying AddedInto, the j-th new item sits in the first category of its name. */
  lemma ArrivalIn(cats: seq<Category>, r: seq<Category>, arrivals: seq<Item>, j: nat)
    requires j < |arrivals| && Placed(r, arrivals) && ItemsAccounted(cats, r, arrivals)
    ensures FindCategory(r, arrivals[j].category).Some?
    ensures arrivals[j] in r[FindCategory(r, arrivals[j].category).value].items
  {
    var cn := arrivals[j].category;
    var p := FindCategory(r, cn).value;
    assert ItemsAt(r, p, BaseItems(cats, p), arrivals);
    FilterMembership(arrivals, InCategory(cn), arrivals[j]);
    assert arrivals[j] in Filter(arrivals, InCategory(r[p].name));
  }

  // ---------------------------------------------------------------- counter recovery on load

  /** One step of the reduce over saved items: an id without digits (NaN) leaves the running maximum alone. */
  function MaxStep(acc: nat, item: Item): nat
  {
    match IdNumber(item.id)
    case None => acc
    case Some(v) => if v > acc then v else acc
  }

  /** `items.reduce(MaxStep, acc)`. */
  function MaxIdNumber(acc: nat, items: seq<Item>): nat
    decreases |items|
  {
    if items == [] then acc else MaxIdNumber(MaxStep(acc, items[0]), items[1..])
  }

  /** The item at index i carries the number v in its id. */
  predicate NumberedAt(items: seq<Item>, i: int, v: nat)
  {
    0 <= i < |items| && IdNumber(items[i].id) == Some(v)
  }

  /**
   * The reduce yields an upper bound of the start value and of every id
   * number, and that bound is attained: it is the start value or some
   * item's number.
   */
  lemma {:induction false} MaxIdNumberSpec(acc: nat, items: seq<Item>)
    ensures acc <= MaxIdNumber(acc, items)
    ensures forall i, v: nat :: NumberedAt(items, i, v) ==> v <= MaxIdNumber(acc, items)
    ensures MaxIdNumber(acc, items) == acc || exists i :: NumberedAt(items, i, MaxIdNumber(acc, items))
    decreases |items|
  {
    if items != [] {
      var a := MaxStep(acc, items[0]);
      var r := MaxIdNumber(a, items[1..]);
      MaxIdNumberSpec(a, items[1..]);
      forall i, v: nat | NumberedAt(items, i, v) ensures v <= r {
        if i > 0 {
          assert NumberedAt(items[1..], i - 1, v);
        }
      }
      if r != acc {
        if r == a {
          assert NumberedAt(items, 0, r);
        } else {
          var i :| NumberedAt(items[1..], i, r);
          assert NumberedAt(items, i + 1, r);
        }
      }
    }
  }

  /** globalIdCounter after a saved list loads: the largest id number plus 100. */
  function RecoveredCounter(saved: seq<Category>): nat
  {
    MaxIdNumber(0, AllItems(saved)) + 100
  }

  /**
   * The recovered counter lies at least 100 above every number found in a
   * saved id (and is exactly 100 above the largest, or 100 when none has
   * digits), so no id the counter hands out from there on is already in the list.
   */
  lemma RecoveredCounterSpec(saved: seq<Category>, k: nat)
    requires k >= RecoveredCounter(saved)
    ensures forall i, v: nat :: NumberedAt(AllItems(saved), i, v) ==> v + 100 <= RecoveredCounter(saved)
    ensures RecoveredCounter(saved) == 100
         || exists i, v: nat :: NumberedAt(AllItems(saved), i, v) && v + 100 == RecoveredCounter(saved)
    ensures forall x :: x in AllItems(saved) ==> x.id != NewId(k)
  {
    var items := AllItems(saved);
    MaxIdNumberSpec(0, items);
    var m := MaxIdNumber(0, items);
    assert RecoveredCounter(saved) == m + 100;
    if m != 0 {
      var i :| NumberedAt(items, i, m);
      Attained(items, i, m, RecoveredCounter(saved));
    }
    NewIdSpec(k, k);
    forall x | x in items ensures x.id != NewId(k) {
      var i :| 0 <= i < |items| && items[i] == x;
      if x.id == NewId(k) {
        assert NumberedAt(items, i, k);
      }
    }
  }

  lemma Attained(items: seq<Item>, i: int, m: nat, counter: nat)
    requires NumberedAt(items, i, m) && m + 100 == counter
    ensures exists j, v: nat :: NumberedAt(items, j, v) && v + 100 == counter
  {
    var j: nat := i;
    assert NumberedAt(items, j, m);
  }

  // ---------------------------------------------------------------- ids in use

  /** The ids present in a list. */
  function Ids(cats: seq<Category>): set<string>
  {
    set x | x in AllItems(cats) :: x.id
  }

  /**
   * Every id of the form `item-new-k` in the list has k below n, so the
   * counter standing at n hands out only ids the list does not hold.
   */
  ghost predicate IssuedBelow(cats: seq<Category>, n: nat)
  {
    forall k: nat :: NewId(k) in Ids(cats) ==> k < n
  }

  lemma {:induction false} MapItemsFlatten(cats: seq<Category>, f: Item -> Item)
    ensures AllItems(MapItems(cats, f)) == MapEach(AllItems(cats), f)
  {
    if cats != [] {
      MapItemsFlatten(cats[1..], f);
      assert MapItems(cats, f)[1..] == MapItems(cats[1..], f);
      assert MapEach(cats[0].items + AllItems(cats[1..]), f)
          == MapEach(cats[0].items, f) + MapEach(AllItems(cats[1..]), f);
    }
  }

  /** An item-wise pass that keeps every item's id keeps the set of ids. */
  lemma MapItemsIds(cats: seq<Category>, f: Item -> Item)
    requires forall y :: f(y).id == y.id
    ensures Ids(MapItems(cats, f)) == Ids(cats)
  {
    MapItemsFlatten(cats, f);
    var s := AllItems(cats);
    var t := MapEach(s, f);
    forall id | id in Ids(cats) ensures id in Ids(MapItems(cats, f)) {
      var x :| x in s && x.id == id;
      var i :| 0 <= i < |s| && s[i] == x;
      assert t[i] in t;
    }
    forall id | id in Ids(MapItems(cats, f)) ensures id in Ids(cats) {
      var x :| x in t && x.id == id;
      var i :| 0 <= i < |t| && t[i] == x;
      assert s[i] in s;
    }
  }

  /** Toggling, the check and uncheck passes and renaming leave the set of ids alone. */
  lemma PassesKeepIds(cats: seq<Category>, itemId: string, names: seq<string>, edits: seq<Edit>)
    ensures Ids(ToggleItem(cats, itemId)) == Ids(cats)
    ensures Ids(CheckPass(cats, names)) == Ids(cats)
    ensures Ids(UncheckPass(cats, names)) == Ids(cats)
    ensures Ids(EditItems(cats, edits)) == Ids(cats)
  {
    MapItemsIds(cats, ToggleFn(itemId));
    MapItemsIds(cats, CheckFn(names));
    MapItemsIds(cats, UncheckFn(names));
    MapItemsIds(cats, RenameFn(edits));
  }

  /** Deleting only drops ids. */
  lemma RemoveItemsIds(cats: seq<Category>, names: seq<string>)
    ensures Ids(RemoveItems(cats, names)) <= Ids(cats)
  {
    RemoveItemsSpec(cats, names);
  }

  /**
   * With the counter at n above every issued number, the ids addNewItems
   * hands out are not in the list yet, and afterwards the counter is again
   * above every issued number.
   */
  lemma AddAllIssued(cats: seq<Category>, nis: seq<NewItem>, n: nat)
    requires IssuedBelow(cats, n)
    ensures forall j :: 0 <= j < |nis| ==> FreshItems(nis, n)[j].id !in Ids(cats)
    ensures IssuedBelow(AddAll(cats, nis, n), n + |nis|)
  {
    FreshNotIssued(cats, nis, n);
    var r := AddAll(cats, nis, n);
    var arrivals := FreshItems(nis, n);
    AddAllItems(cats, nis, n);
    forall k: nat | NewId(k) in Ids(r) ensures k < n + |nis| {
      var x :| x in AllItems(r) && x.id == NewId(k);
      assert x in multiset(AllItems(r));
      if x in AllItems(cats) {
        assert NewId(k) in Ids(cats);
      } else {
        assert x in multiset(arrivals);
        var j :| 0 <= j < |arrivals| && arrivals[j] == x;
        NewIdSpec(k, n + j);
      }
    }
  }

  lemma FreshNotIssued(cats: seq<Category>, nis: seq<NewItem>, n: nat)
    requires IssuedBelow(cats, n)
    ensures forall j :: 0 <= j < |nis| ==> FreshItems(nis, n)[j].id !in Ids(cats)
  {
    forall j | 0 <= j < |nis| ensures FreshItems(nis, n)[j].id !in Ids(cats) {
      assert FreshItems(nis, n)[j].id == NewId(n + j);
    }
  }

  /** The counter recovered on load is above every number issued in the saved list. */
  lemma RecoveredIssued(saved: seq<Category>)
    ensures IssuedBelow(saved, RecoveredCounter(saved))
  {
    var c := RecoveredCounter(saved);
    RecoveredCounterSpec(saved, c);
    forall k: nat | NewId(k) in Ids(saved) ensures k < c {
      var items := AllItems(saved);
      var x :| x in items && x.id == NewId(k);
      var i :| 0 <= i < |items| && items[i] == x;
      NewIdSpec(k, k);
      assert NumberedAt(items, i, k);
    }
  }
}
