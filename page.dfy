/**
 * The main page's state (app/page.tsx): the screen shown, the category
 * list, the assistant toast, the reset dialog and the module-wide id
 * counter, with one method per handler. Network replies arrive as
 * parameters: `None` stands for a failed request.
 */
module Page {
  import opened Wrappers
  import opened Types
  import opened ListOps

  datatype AppState = Initial | Categorizing | Shopping

  /** The counter's value when the module loads. */
  const FirstId: nat := 1000

  /** Shown when the assistant request fails. */
  const AssistantError: string := "שגיאה בתקשורת עם העוזר. בדקו חיבור לרשת."

  /**
   * What handleAssistantCommand does to the list with a successful reply,
   * the counter standing at n: the check, uncheck, rename, delete and add
   * passes in that order, each only when its list is non-empty.
   */
  function ApplyReply(cats: seq<Category>, d: AssistantReply, n: nat): seq<Category>
  {
    var checked := if |d.updatedItems| > 0 then CheckPass(cats, d.updatedItems) else cats;
    var unchecked := if |d.uncheckedItems| > 0 then UncheckPass(checked, d.uncheckedItems) else checked;
    var edited := if |d.editedItems| > 0 then EditItems(unchecked, d.editedItems) else unchecked;
    var removed := if |d.removedItems| > 0 then RemoveItems(edited, d.removedItems) else edited;
    if |d.newItems| > 0 then AddAll(removed, d.newItems, n) else removed
  }

  /** Applying a reply, the counter advancing past the added items, keeps it above every issued id number. */
  lemma ApplyReplyIssued(cats: seq<Category>, d: AssistantReply, n: nat)
    requires IssuedBelow(cats, n)
    ensures IssuedBelow(ApplyReply(cats, d, n), n + |d.newItems|)
  {
    var checked := if |d.updatedItems| > 0 then CheckPass(cats, d.updatedItems) else cats;
    var unchecked := if |d.uncheckedItems| > 0 then UncheckPass(checked, d.uncheckedItems) else checked;
    var edited := if |d.editedItems| > 0 then EditItems(unchecked, d.editedItems) else unchecked;
    var removed := if |d.removedItems| > 0 then RemoveItems(edited, d.removedItems) else edited;
    PassesKeepIds(cats, "", d.updatedItems, []);
    PassesKeepIds(checked, "", d.uncheckedItems, d.editedItems);
    PassesKeepIds(unchecked, "", [], d.editedItems);
    RemoveItemsIds(edited, d.removedItems);
    assert IssuedBelow(removed, n);
    if |d.newItems| > 0 {
      AddAllIssued(removed, d.newItems, n);
    }
  }

  class ShoppingPage {
    var appState: AppState
    var categories: seq<Category>
    var assistantMessage: string
    var showResetConfirm: bool
    /** globalIdCounter: the number the next added item's id carries. */
    var idCounter: nat

    /** The counter is above every number it has issued into the list. */
    ghost predicate Valid()
      reads this
    {
      IssuedBelow(categories, idCounter)
    }

    constructor()
      ensures appState == Initial && categories == [] && assistantMessage == ""
      ensures !showResetConfirm && idCounter == FirstId
      ensures Valid()
    {
      appState := Initial;
      categories := [];
      assistantMessage := "";
      showResetConfirm := false;
      idCounter := FirstId;
    }

    /** The load effect: a saved non-empty list opens the shopping screen and moves the counter past its ids. */
    method LoadSaved(saved: Option<seq<Category>>)
      requires Valid()
      modifies this`categories, this`appState, this`idCounter
      ensures if saved.Some? && |saved.value| > 0 then
          categories == saved.value && appState == Shopping && idCounter == RecoveredCounter(saved.value)
        else
          categories == old(categories) && appState == old(appState) && idCounter == old(idCounter)
      ensures Valid()
    {
      if saved.Some? && |saved.value| > 0 {
        categories := saved.value;
        appState := Shopping;
        idCounter := RecoveredCounter(saved.value);
        RecoveredIssued(saved.value);
      }
    }

    /** handleCategorize, first step: the loading screen while the request runs. */
    method BeginCategorize()
      modifies this`appState
      ensures appState == Categorizing
    {
      appState := Categorizing;
    }

    /**
     * handleCategorize, on the reply: the categorised list opens the
     * shopping screen; a failure goes back to the input screen with the
     * list untouched.
     */
    method FinishCategorize(result: Option<seq<Category>>)
      requires Valid()
      modifies this`categories, this`appState
      ensures result.Some? ==> categories == result.value && appState == Shopping
      ensures result.None? ==> categories == old(categories) && appState == Initial
      ensures result.Some? && IssuedBelow(result.value, idCounter) ==> Valid()
      ensures result.None? ==> Valid()
    {
      match result {
        case Some(cats) =>
          categories := cats;
          appState := Shopping;
        case None =>
          appState := Initial;
      }
    }

    method ToggleItem(itemId: string)
      requires Valid()
      modifies this`categories
      ensures categories == ListOps.ToggleItem(old(categories), itemId)
      ensures Valid()
    {
      PassesKeepIds(categories, itemId, [], []);
      categories := ListOps.ToggleItem(categories, itemId);
    }

    /**
     * addNewItems: each request in turn takes the next counter value as its
     * id and joins the first category of its name, or opens a new one.
     */
    method AddNewItems(newItems: seq<NewItem>)
      requires Valid()
      modifies this`categories, this`idCounter
      ensures categories == AddAll(old(categories), newItems, old(idCounter))
      ensures idCounter == old(idCounter) + |newItems|
      ensures Valid()
    {
      var updated := categories;
      var i := 0;
      while i < |newItems|
        invariant 0 <= i <= |newItems|
        invariant updated == AddAll(categories, newItems[..i], old(idCounter))
        invariant idCounter == old(idCounter) + i
        invariant categories == old(categories)
      {
        var newItem := newItems[i];
        var catName := CategoryName(newItem.category);
        var item := Item(NewId(idCounter), newItem.name, catName, false);
        idCounter := idCounter + 1;
        match FindCategory(updated, catName) {
          case Some(k) =>
            updated := updated[k := updated[k].(items := updated[k].items + [item])];
          case None =>
            var meta := MetaFor(catName);
            updated := updated + [Category(catName, meta.icon, meta.color, [item])];
        }
        assert newItems[..i + 1][..i] == newItems[..i];
        i := i + 1;
      }
      assert newItems[..i] == newItems;
      AddAllIssued(categories, newItems, old(idCounter));
      categories := updated;
    }

    method EditItems(editedItems: seq<Edit>)
      requires Valid()
      modifies this`categories
      ensures categories == ListOps.EditItems(old(categories), editedItems)
      ensures Valid()
    {
      PassesKeepIds(categories, "", [], editedItems);
      categories := ListOps.EditItems(categories, editedItems);
    }

    method RemoveItems(removedNames: seq<string>)
      requires Valid()
      modifies this`categories
      ensures categories == ListOps.RemoveItems(old(categories), removedNames)
      ensures Valid()
    {
      RemoveItemsIds(categories, removedNames);
      categories := ListOps.RemoveItems(categories, removedNames);
    }

    /**
     * handleAssistantCommand with the endpoint's reply (None when the
     * request failed): commands shorter than two characters are ignored; a
     * failure shows the error toast; a reply runs the passes of ApplyReply
     * and shows a non-empty voice response.
     */
    method HandleAssistantCommand(text: string, reply: Option<AssistantReply>)
      requires Valid()
      modifies this`categories, this`idCounter, this`assistantMessage
      ensures |text| < 2 ==>
        categories == old(categories) && assistantMessage == old(assistantMessage) && idCounter == old(idCounter)
      ensures |text| >= 2 && reply.None? ==>
        categories == old(categories) && assistantMessage == AssistantError && idCounter == old(idCounter)
      ensures |text| >= 2 && reply.Some? ==>
        && categories == ApplyReply(old(categories), reply.value, old(idCounter))
        && idCounter == old(idCounter) + |reply.value.newItems|
        && assistantMessage == (if reply.value.voiceResponse != "" then reply.value.voiceResponse else old(assistantMessage))
      ensures Valid()
    {
      if |text| < 2 {
        return;
      }
      match reply {
        case None =>
          assistantMessage := AssistantError;
        case Some(d) =>
          ApplyPasses(d);
          if d.voiceResponse != "" {
            assistantMessage := d.voiceResponse;
          }
      }
    }

    /** The list updates of a successful reply, each pass only when its list is non-empty. */
    method ApplyPasses(d: AssistantReply)
      requires Valid()
      modifies this`categories, this`idCounter
      ensures categories == ApplyReply(old(categories), d, old(idCounter))
      ensures idCounter == old(idCounter) + |d.newItems|
      ensures Valid()
    {
      if |d.updatedItems| > 0 {
        PassesKeepIds(categories, "", d.updatedItems, []);
        categories := CheckPass(categories, d.updatedItems);
      }
      if |d.uncheckedItems| > 0 {
        PassesKeepIds(categories, "", d.uncheckedItems, []);
        categories := UncheckPass(categories, d.uncheckedItems);
      }
      if |d.editedItems| > 0 {
        EditItems(d.editedItems);
      }
      if |d.removedItems| > 0 {
        RemoveItems(d.removedItems);
      }
      ghost var removed := categories;
      if |d.newItems| > 0 {
        AddNewItems(d.newItems);
      }
      assert categories == if |d.newItems| > 0 then AddAll(removed, d.newItems, old(idCounter)) else removed;
    }

    /** The toast's six-second timer firing. */
    method MessageTimeout()
      modifies this`assistantMessage
      ensures assistantMessage == ""
    {
      assistantMessage := "";
    }

    method ResetRequest()
      modifies this`showResetConfirm
      ensures showResetConfirm
    {
      showResetConfirm := true;
    }

    /** Confirming the reset clears the list and returns to the input screen; the counter keeps running. */
    method ResetConfirm()
      requires Valid()
      modifies this`categories, this`appState, this`assistantMessage, this`showResetConfirm
      ensures categories == [] && appState == Initial && assistantMessage == "" && !showResetConfirm
      ensures Valid()
    {
      categories := [];
      appState := Initial;
      assistantMessage := "";
      showResetConfirm := false;
    }

    method ResetCancel()
      modifies this`showResetConfirm
      ensures !showResetConfirm
    {
      showResetConfirm := false;
    }
  }
}
