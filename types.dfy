/**
 * The shopping-list data model (lib/types.ts): items grouped into
 * supermarket categories, plus the structured reply the assistant endpoint
 * sends back to the page.
 */
module Types {
  import opened Seqs

  datatype Item = Item(id: string, name: string, category: string, checked: bool)

  datatype Category = Category(name: string, icon: string, color: string, items: seq<Item>)

  /** An item the assistant asks to add; an empty category means the model gave none. */
  datatype NewItem = NewItem(name: string, category: string)

  /** A rename the assistant asks for. */
  datatype Edit = Edit(oldName: string, newName: string)

  /** The assistant endpoint's reply, every key present. */
  datatype AssistantReply = AssistantReply(
    updatedItems: seq<string>,
    uncheckedItems: seq<string>,
    newItems: seq<NewItem>,
    editedItems: seq<Edit>,
    removedItems: seq<string>,
    voiceResponse: string)

  /** `!item.checked`: the item still has to be found. */
  function IsPending(): Item -> bool
  {
    (item: Item) => !item.checked
  }

  /** `item.checked`: the item is in the cart. */
  function IsCompleted(): Item -> bool
  {
    (item: Item) => item.checked
  }

  /**
   * Filtering by the two flags partitions a list: each item is in exactly
   * the one its flag selects, in the original order, and the two lengths
   * add up to the total.
   */
  lemma PendingCompletedSplit(items: seq<Item>)
    ensures |Filter(items, IsPending())| + |Filter(items, IsCompleted())| == |items|
    ensures forall x :: x in Filter(items, IsPending()) <==> x in items && !x.checked
    ensures forall x :: x in Filter(items, IsCompleted()) <==> x in items && x.checked
  {
    FilterComplementLength(items, IsPending(), IsCompleted());
    forall x ensures x in Filter(items, IsPending()) <==> x in items && !x.checked {
      FilterMembership(items, IsPending(), x);
    }
    forall x ensures x in Filter(items, IsCompleted()) <==> x in items && x.checked {
      FilterMembership(items, IsCompleted(), x);
    }
  }

  /** `categories.flatMap((c) => c.items)`. */
  function AllItems(cats: seq<Category>): seq<Item>
  {
    if cats == [] then [] else cats[0].items + AllItems(cats[1..])
  }

  lemma {:induction false} AllItemsAppend(a: seq<Category>, b: seq<Category>)
    ensures AllItems(a + b) == AllItems(a) + AllItems(b)
  {
    if a == [] {
      assert a + b == b;
    } else {
      assert (a + b)[1..] == a[1..] + b;
      AllItemsAppend(a[1..], b);
    }
  }

  /** A list whose categories all hold items flattens to nothing only when it has no category. */
  lemma AllItemsEmpty(cats: seq<Category>)
    requires forall k :: 0 <= k < |cats| ==> |cats[k].items| > 0
    ensures AllItems(cats) == [] <==> cats == []
  {
    if cats != [] {
      assert |AllItems(cats)| >= |cats[0].items|;
    }
  }

  /** The flattening holds every category's items and nothing else. */
  lemma {:induction false} AllItemsMembership(cats: seq<Category>, x: Item)
    ensures x in AllItems(cats) <==> exists k :: 0 <= k < |cats| && x in cats[k].items
  {
    if cats != [] {
      var rest := cats[1..];
      AllItemsMembership(rest, x);
      assert AllItems(cats) == cats[0].items + AllItems(rest);
      if x in AllItems(rest) {
        var k :| 0 <= k < |rest| && x in rest[k].items;
        assert x in cats[k + 1].items;
      }
      if x in cats[0].items {
        assert 0 < |cats| && x in cats[0].items;
      }
      forall k | 1 <= k < |cats| && x in cats[k].items ensures x in AllItems(rest) {
        assert cats[k] == rest[k - 1];
      }
    }
  }

  /**
   * Keep, in every category, the items that satisfy `keep`, then drop the
   * categories left without items: the shape shared by the delete pass
   * (app/page.tsx) and the pending view (components/ShoppingList.tsx).
   */
  function FilterCategories(cats: seq<Category>, keep: Item -> bool): (r: seq<Category>)
    ensures forall k :: 0 <= k < |r| ==> |r[k].items| > 0
  {
    if cats == [] then []
    else
      var items := Filter(cats[0].items, keep);
      (if |items| > 0 then [cats[0].(items := items)] else []) + FilterCategories(cats[1..], keep)
  }

  /**
   * Flattening after filtering per category is filtering the flattened
   * list: the survivors are exactly the kept items, in their original order.
   */
  lemma {:induction false} FilterCategoriesFlatten(cats: seq<Category>, keep: Item -> bool)
    ensures AllItems(FilterCategories(cats, keep)) == Filter(AllItems(cats), keep)
  {
    if cats != [] {
      var items := Filter(cats[0].items, keep);
      var head := if |items| > 0 then [cats[0].(items := items)] else [];
      FilterCategoriesFlatten(cats[1..], keep);
      AllItemsAppend(head, FilterCategories(cats[1..], keep));
      FilterAppend(cats[0].items, AllItems(cats[1..]), keep);
      if |items| > 0 {
        assert AllItems(head) == items + AllItems([]);
      }
    }
  }

  /** The categories `keep` turns into: the category with only its kept items, when it keeps one. */
  predicate KeptFrom(c: Category, d: Category, keep: Item -> bool)
  {
    Filter(c.items, keep) != [] && d == c.(items := Filter(c.items, keep))
  }

  /**
   * A category survives exactly when it keeps an item, and then with its
   * name, icon and colour and exactly its kept items in their original order.
   */
  lemma {:induction false} FilterCategoriesMembers(cats: seq<Category>, keep: Item -> bool, d: Category)
    ensures d in FilterCategories(cats, keep) <==> exists c :: c in cats && KeptFrom(c, d, keep)
  {
    if cats != [] {
      FilterCategoriesMembers(cats[1..], keep, d);
      var items := Filter(cats[0].items, keep);
      var head := if |items| > 0 then [cats[0].(items := items)] else [];
      assert FilterCategories(cats, keep) == head + FilterCategories(cats[1..], keep);
      if d in head {
        assert KeptFrom(cats[0], d, keep);
      }
      if d in FilterCategories(cats[1..], keep) {
        var c :| c in cats[1..] && KeptFrom(c, d, keep);
        assert c in cats;
      }
      if exists c :: c in cats && KeptFrom(c, d, keep) {
        var c :| c in cats && KeptFrom(c, d, keep);
        if c != cats[0] {
          assert c in cats[1..];
        }
      }
    }
  }
}
