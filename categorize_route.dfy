/**
 * The categorisation endpoint (app/api/categorize/route.ts): it checks the
 * request's `text`, asks the language model to group the items into
 * departments, and numbers the returned items `item-0, item-1, …` across
 * all categories, each unchecked and tagged with its category's name.
 *
 * The model call and the parsing of its answer are one function parameter
 * (`model`), from the user prompt to the parsed categories or `None` when
 * the call, the JSON parse or the shape of the answer fails.
 */
module CategorizeRoute {
  import opened Wrappers
  import opened Strings
  import opened Types
  import opened Http
  import ListOps

  /** `{ name }` of an item in the model's answer. */
  datatype RawItem = RawItem(name: string)

  /** A category of the model's answer, items without ids. */
  datatype RawCategory = RawCategory(name: string, icon: string, color: string, items: seq<RawItem>)

  /** The id of the item numbered k. */
  function ItemId(k: nat): string
  {
    "item-" + Decimal(k)
  }

  /** The user prompt sent with the list. */
  function UserPrompt(text: string): string
  {
    "Here is the shopping list:\n" + text
  }

  /** The items of one category, numbered from `offset`. */
  function NumberItems(raws: seq<RawItem>, category: string, offset: nat): (r: seq<Item>)
    ensures |r| == |raws|
  {
    seq(|raws|, i requires 0 <= i < |raws| => Item(ItemId(offset + i), raws[i].name, category, false))
  }

  /** The nested `map`s with the running `idCounter`, which starts the categories at `offset`. */
  function AssignIds(raws: seq<RawCategory>, offset: nat): (r: seq<Category>)
    ensures |r| == |raws|
  {
    if raws == [] then []
    else
      var c := raws[0];
      [Category(c.name, c.icon, c.color, NumberItems(c.items, c.name, offset))]
        + AssignIds(raws[1..], offset + |c.items|)
  }

  /**
   * Numbering keeps the categories in order with their name, icon, colour
   * and item count; each item keeps its name, takes its category's name
   * and starts unchecked.
   */
  lemma {:induction false} AssignIdsShape(raws: seq<RawCategory>, offset: nat)
    ensures forall k :: 0 <= k < |raws| ==>
      var c, r := raws[k], AssignIds(raws, offset)[k];
      && r.name == c.name && r.icon == c.icon && r.color == c.color && |r.items| == |c.items|
      && forall i :: 0 <= i < |c.items| ==>
           r.items[i].name == c.items[i].name && r.items[i].category == c.name && !r.items[i].checked
  {
    if raws != [] {
      AssignIdsShape(raws[1..], offset + |raws[0].items|);
      forall k | 1 <= k < |raws| ensures AssignIds(raws, offset)[k] == AssignIds(raws[1..], offset + |raws[0].items|)[k - 1] {
      }
    }
  }

  /** Across all categories, in order, the items carry `item-<offset>`, `item-<offset+1>`, …. */
  lemma {:induction false} AssignIdsConsecutive(raws: seq<RawCategory>, offset: nat)
    ensures forall j :: 0 <= j < |AllItems(AssignIds(raws, offset))| ==>
      AllItems(AssignIds(raws, offset))[j].id == ItemId(offset + j)
  {
    if raws != [] {
      var head := NumberItems(raws[0].items, raws[0].name, offset);
      var rest := AssignIds(raws[1..], offset + |raws[0].items|);
      AssignIdsConsecutive(raws[1..], offset + |raws[0].items|);
      var r := AssignIds(raws, offset);
      assert r[0].items == head && r[1..] == rest;
      assert AllItems(r) == head + AllItems(rest);
    }
  }

  lemma ItemIdInjective(a: nat, b: nat)
    ensures ItemId(a) == ItemId(b) <==> a == b
  {
    if ItemId(a) == ItemId(b) {
      assert Decimal(a) == ItemId(a)[5..];
      assert Decimal(b) == ItemId(b)[5..];
      DecimalInjective(a, b);
    }
  }

  /** The ids of a categorised list are pairwise distinct. */
  lemma AssignIdsDistinct(raws: seq<RawCategory>)
    ensures var items := AllItems(AssignIds(raws, 0));
      forall j, j' :: 0 <= j < j' < |items| ==> items[j].id != items[j'].id
  {
    AssignIdsConsecutive(raws, 0);
    var items := AllItems(AssignIds(raws, 0));
    forall j, j' | 0 <= j < j' < |items| ensures items[j].id != items[j'].id {
      ItemIdInjective(j, j');
    }
  }

  /** The route's ids and the page's `item-new-<n>` ids differ in their sixth character. */
  lemma ItemIdNotNew(j: nat, k: nat)
    ensures ItemId(j) != ListOps.NewId(k)
  {
    assert IsDigit(ItemId(j)[5]);
    assert ListOps.NewId(k)[5] == 'n';
  }

  /**
   * A categorised list never holds an id of the page's `item-new-<n>` form,
   * so the page's id counter is above every number issued in it whatever
   * its value.
   */
  lemma AssignIdsIssued(raws: seq<RawCategory>, n: nat)
    ensures ListOps.IssuedBelow(AssignIds(raws, 0), n)
  {
    var cats := AssignIds(raws, 0);
    var items := AllItems(cats);
    AssignIdsConsecutive(raws, 0);
    forall k: nat ensures ListOps.NewId(k) !in ListOps.Ids(cats) {
      forall x | x in items ensures x.id != ListOps.NewId(k) {
        var j :| 0 <= j < |items| && items[j] == x;
        ItemIdNotNew(j, k);
      }
    }
  }

  /**
   * POST /api/categorize. `body` is the request's `text` field, or None when
   * destructuring it throws: the body does not parse as JSON, or parses to
   * `null`. A body that parses to a string, number or array has no `text`
   * and is `Some(Absent)`. A missing, non-string or empty text is a 400; a
   * body that throws or a failed model answer is a 500; otherwise the
   * answer's categories come back numbered from 0.
   */
  function Categorize(body: Option<JsonField<string>>, model: string -> Option<seq<RawCategory>>): (r: Response<seq<Category>>)
    ensures body.None? ==> r == Error(500, "Failed to categorize items")
    ensures body.Some? && MissingString(body.value) ==> r == Error(400, "Missing text")
    ensures body.Some? && !MissingString(body.value) ==>
      var answer := model(UserPrompt(body.value.value));
      && (answer.None? ==> r == Error(500, "Failed to categorize items"))
      && (answer.Some? ==> r == Ok(AssignIds(answer.value, 0)))
  {
    match body
    case None => Error(500, "Failed to categorize items")
    case Some(text) =>
      if MissingString(text) then Error(400, "Missing text")
      else
        match model(UserPrompt(text.value))
        case None => Error(500, "Failed to categorize items")
        case Some(parsed) => Ok(AssignIds(parsed, 0))
  }
}
