/**
 * The assistant endpoint (app/api/assistant/route.ts): it checks the
 * request's `message`, splits the current items into pending and completed,
 * renders them into the context sent to the language model, and returns the
 * model's structured answer with every missing key filled with its default.
 *
 * The model call and the parsing of its answer are one function parameter
 * (`model`), from the context string to the parsed answer or `None` when the
 * call or the JSON parse fails.
 */
module AssistantRoute {
  import opened Wrappers
  import opened Seqs
  import opened Strings
  import opened Types
  import opened Http

  /**
   * The model's answer as parsed: a key that is missing (or holds a falsy
   * value such as `null`) is `None`.
   */
  datatype ParsedReply = ParsedReply(
    updatedItems: Option<seq<string>>,
    uncheckedItems: Option<seq<string>>,
    newItems: Option<seq<NewItem>>,
    editedItems: Option<seq<Edit>>,
    removedItems: Option<seq<string>>,
    voiceResponse: Option<string>)

  /** `value || fallback`. */
  function OrElse<T>(o: Option<T>, fallback: T): T
  {
    match o
    case Some(v) => v
    case None => fallback
  }

  /** The reply the route sends: each missing list becomes `[]` and a missing voice response `""`. */
  function FillDefaults(p: ParsedReply): AssistantReply
  {
    AssistantReply(
      OrElse(p.updatedItems, []),
      OrElse(p.uncheckedItems, []),
      OrElse(p.newItems, []),
      OrElse(p.editedItems, []),
      OrElse(p.removedItems, []),
      OrElse(p.voiceResponse, ""))
  }

  /** The answer that carries every key of a reply. */
  function Complete(d: AssistantReply): ParsedReply
  {
    ParsedReply(Some(d.updatedItems), Some(d.uncheckedItems), Some(d.newItems), Some(d.editedItems),
      Some(d.removedItems), Some(d.voiceResponse))
  }

  /**
   * Each key on its own: a present key passes its value through and a
   * missing one becomes its default (`[]`, or `""` for the voice
   * response). So an answer with every key present passes through
   * unchanged and one with none becomes the empty reply.
   */
  lemma FillDefaultsSpec(d: AssistantReply, p: ParsedReply)
    ensures FillDefaults(Complete(d)) == d
    ensures FillDefaults(ParsedReply(None, None, None, None, None, None)) == AssistantReply([], [], [], [], [], "")
    ensures p.updatedItems.Some? ==> FillDefaults(p).updatedItems == p.updatedItems.value
    ensures p.uncheckedItems.Some? ==> FillDefaults(p).uncheckedItems == p.uncheckedItems.value
    ensures p.newItems.Some? ==> FillDefaults(p).newItems == p.newItems.value
    ensures p.editedItems.Some? ==> FillDefaults(p).editedItems == p.editedItems.value
    ensures p.removedItems.Some? ==> FillDefaults(p).removedItems == p.removedItems.value
    ensures p.voiceResponse.Some? ==> FillDefaults(p).voiceResponse == p.voiceResponse.value
    ensures p.updatedItems.None? ==> FillDefaults(p).updatedItems == []
    ensures p.uncheckedItems.None? ==> FillDefaults(p).uncheckedItems == []
    ensures p.newItems.None? ==> FillDefaults(p).newItems == []
    ensures p.editedItems.None? ==> FillDefaults(p).editedItems == []
    ensures p.removedItems.None? ==> FillDefaults(p).removedItems == []
    ensures p.voiceResponse.None? ==> FillDefaults(p).voiceResponse == ""
  {
  }

  // ---------------------------------------------------------------- context

  /** `- name (category)`. */
  function ItemLine(item: Item): string
  {
    "- " + item.name + " (" + item.category + ")"
  }

  function ItemLines(items: seq<Item>): seq<string>
  {
    seq(|items|, i requires 0 <= i < |items| => ItemLine(items[i]))
  }

  /** One item per line, or `(none)` for an empty list. */
  function Section(items: seq<Item>): string
  {
    if |items| > 0 then JoinLines(ItemLines(items)) else "(none)"
  }

  /** No newline in a name or category: the item renders to one line. */
  predicate OneLine(item: Item)
  {
    '\n' !in item.name && '\n' !in item.category
  }

  /**
   * A section reads `(none)` exactly when the list is empty, and, when no
   * name or category holds a newline, splitting a non-empty section at its
   * newlines gives back one `- name (category)` line per item, in order.
   */
  lemma SectionSpec(items: seq<Item>)
    ensures Section(items) == "(none)" <==> items == []
    ensures (forall i :: 0 <= i < |items| ==> OneLine(items[i])) && items != [] ==>
      SplitLines(Section(items)) == ItemLines(items)
  {
    if items != [] {
      assert JoinLines(ItemLines(items))[0] == '-' by {
        JoinLinesStart(ItemLines(items));
      }
      if forall i :: 0 <= i < |items| ==> OneLine(items[i]) {
        forall k | 0 <= k < |items| ensures '\n' !in ItemLine(items[k]) {
          var item := items[k];
          assert ItemLine(item) == "- " + item.name + " (" + item.category + ")";
        }
        SplitJoin(ItemLines(items));
      }
    }
  }

  /** A join of item lines starts with the first line, so with its leading dash. */
  lemma JoinLinesStart(lines: seq<string>)
    requires |lines| >= 1 && |lines[0]| >= 1
    ensures |JoinLines(lines)| >= 1 && JoinLines(lines)[0] == lines[0][0]
  {
  }

  const Header: string := "Current shopping list state:\nPENDING items (not yet found):\n"
  const Middle: string := "\n\nCOMPLETED items (already found):\n"
  const Prompt: string := "\n\nUser message: "

  /** `listContext`: the two sections and the user's message. */
  function ListContext(items: seq<Item>, message: string): string
  {
    Header + Section(Filter(items, IsPending())) + Middle + Section(Filter(items, IsCompleted())) + Prompt + message
  }

  /**
   * The context starts with the pending section's header and ends with
   * `User message: ` followed by the message itself.
   */
  lemma ListContextSpec(items: seq<Item>, message: string)
    ensures var c, tail := ListContext(items, message), "User message: " + message;
      && |Header| <= |c| && c[..|Header|] == Header
      && |tail| <= |c| && c[|c| - |tail|..] == tail
  {
    var pending, completed := Section(Filter(items, IsPending())), Section(Filter(items, IsCompleted()));
    var tail := "User message: " + message;
    var body := pending + Middle + completed + "\n\n";
    ContextSplit(pending, completed, message);
    Ends(Header, body + tail);
    Ends(Header + body, tail);
  }

  lemma ContextSplit(pending: string, completed: string, message: string)
    ensures Header + pending + Middle + completed + Prompt + message
         == Header + (pending + Middle + completed + "\n\n" + ("User message: " + message))
    ensures Header + (pending + Middle + completed + "\n\n" + ("User message: " + message))
         == (Header + (pending + Middle + completed + "\n\n")) + ("User message: " + message)
  {
    assert Prompt == "\n\n" + "User message: ";
  }

  lemma Ends(a: string, b: string)
    ensures (a + b)[..|a|] == a && (a + b)[|a + b| - |b|..] == b
  {
  }

  // ---------------------------------------------------------------- the route

  /**
   * POST /api/assistant. `body` holds the request's `message` and `items`
   * fields, or is None when destructuring it throws: the body does not
   * parse as JSON, or parses to `null`. A body that parses to a string,
   * number or array has no `message` and gives a 400, as does a missing,
   * non-string or empty message; a body that throws, missing items or a
   * failed model answer is a 500; otherwise the model is asked with the
   * list context and its answer returned with defaults filled in.
   */
  function Assistant(body: Option<(JsonField<string>, Option<seq<Item>>)>, model: string -> Option<ParsedReply>)
    : (r: Response<AssistantReply>)
    ensures body.None? ==> r == Error(500, "Failed to process assistant request")
    ensures body.Some? && MissingString(body.value.0) ==> r == Error(400, "Missing message")
    ensures body.Some? && !MissingString(body.value.0) && body.value.1.None? ==>
      r == Error(500, "Failed to process assistant request")
    ensures body.Some? && !MissingString(body.value.0) && body.value.1.Some? ==>
      var answer := model(ListContext(body.value.1.value, body.value.0.value));
      && (answer.None? ==> r == Error(500, "Failed to process assistant request"))
      && (answer.Some? ==> r == Ok(FillDefaults(answer.value)))
  {
    match body
    case None => Error(500, "Failed to process assistant request")
    case Some((message, items)) =>
      if MissingString(message) then Error(400, "Missing message")
      else
        match items
        case None => Error(500, "Failed to process assistant request")
        case Some(list) =>
          match model(ListContext(list, message.value))
          case None => Error(500, "Failed to process assistant request")
          case Some(parsed) => Ok(FillDefaults(parsed))
  }
}
