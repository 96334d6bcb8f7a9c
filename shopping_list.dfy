/**
 * What the list screen (components/ShoppingList.tsx) derives from the
 * categories: the pending and completed partitions of the flattened list,
 * the pending-only categories it renders, the set of collapsed sections and
 * the completion banner.
 */
module ShoppingList {
  import opened Seqs
  import opened Types

  /** `pendingItems`: the unchecked items of the flattened list, in order. */
  function PendingItems(cats: seq<Category>): seq<Item>
  {
    Filter(AllItems(cats), IsPending())
  }

  /** `completedItems`: the checked items of the flattened list, in order. */
  function CompletedItems(cats: seq<Category>): seq<Item>
  {
    Filter(AllItems(cats), IsCompleted())
  }

  /**
   * The two views partition the list: every item is in exactly the one its
   * flag selects, neither holds anything else, and their lengths add up to
   * the total.
   */
  lemma PartitionSpec(cats: seq<Category>)
    ensures |PendingItems(cats)| + |CompletedItems(cats)| == |AllItems(cats)|
    ensures forall x :: x in PendingItems(cats) <==> x in AllItems(cats) && !x.checked
    ensures forall x :: x in CompletedItems(cats) <==> x in AllItems(cats) && x.checked
  {
    PendingCompletedSplit(AllItems(cats));
  }

  /** `pendingCategories`: every category with only its unchecked items, the emptied ones dropped. */
  function PendingCategories(cats: seq<Category>): seq<Category>
  {
    FilterCategories(cats, IsPending())
  }

  /**
   * The rendered categories hold exactly the pending items, in order; each
   * is a category of the list with its name, icon and colour and exactly
   * its unchecked items (so the count on its header is its number of
   * unchecked items); and a category appears exactly when it has one.
   */
  lemma PendingCategoriesSpec(cats: seq<Category>)
    ensures AllItems(PendingCategories(cats)) == PendingItems(cats)
    ensures forall k :: 0 <= k < |PendingCategories(cats)| ==> |PendingCategories(cats)[k].items| > 0
    ensures forall d :: d in PendingCategories(cats) <==> exists c :: c in cats && KeptFrom(c, d, IsPending())
  {
    FilterCategoriesFlatten(cats, IsPending());
    forall d ensures d in PendingCategories(cats) <==> exists c :: c in cats && KeptFrom(c, d, IsPending()) {
      FilterCategoriesMembers(cats, IsPending(), d);
    }
  }

  /** `toggleCategory`: a copy of the set with the name's membership flipped. */
  function ToggleCollapsed(collapsed: set<string>, name: string): (r: set<string>)
    ensures name in r <==> name !in collapsed
    ensures forall other :: other != name ==> (other in r <==> other in collapsed)
  {
    if name in collapsed then collapsed - {name} else collapsed + {name}
  }

  /** Toggling a section twice restores the set; toggling different sections commutes. */
  lemma ToggleCollapsedSpec(collapsed: set<string>, a: string, b: string)
    ensures ToggleCollapsed(ToggleCollapsed(collapsed, a), a) == collapsed
    ensures ToggleCollapsed(ToggleCollapsed(collapsed, a), b) == ToggleCollapsed(ToggleCollapsed(collapsed, b), a)
  {
  }

  /**
   * `progress === 100`, on the integer counts the percentage is computed
   * from: there is an item and the completed count equals the total.
   */
  predicate ShowsCompletion(total: nat, completed: nat)
  {
    total > 0 && completed == total
  }

  /** The banner shows exactly when the list has an item and every item is checked. */
  lemma CompletionSpec(cats: seq<Category>)
    ensures ShowsCompletion(|AllItems(cats)|, |CompletedItems(cats)|)
        <==> AllItems(cats) != [] && forall x :: x in AllItems(cats) ==> x.checked
  {
    var all := AllItems(cats);
    PartitionSpec(cats);
    if forall x :: x in all ==> x.checked {
      FilterAllKept(all, IsCompleted());
    }
    if |CompletedItems(cats)| == |all| {
      FilterEmpty(all, IsPending());
      forall x | x in all ensures x.checked {
        assert !IsPending()(x);
      }
    }
  }
}
