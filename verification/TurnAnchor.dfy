// Which prompt an exchange belongs to (turnAnchor and the turn key in internal/proxy/turns.go).
module TurnAnchor {
  import opened Prelude
  import opened Json

  datatype TurnKey = TurnKey(route: string, session: string, index: int, anchor: Json)

  // The request field that holds the history.
  datatype History = Contents | Input | Messages {
    function Name(): string {
      match this
      case Contents => "contents"
      case Input => "input"
      case Messages => "messages"
    }
  }

  function HistoryOf(vendor: Vendor, path: string): History {
    if vendor == Gemini then Contents else if HasSuffix(path, "/responses") then Input else Messages
  }

  // A user message that is more than tool results.
  predicate IsPrompt(vendor: Vendor, history: History, item: Json) {
    var message := ObjectOf(item);
    && Text(Field(message, "role")) == "user"
    && (if vendor == Anthropic then
          || Field(message, "content").Str?
          || exists i ::
              0 <= i < |ArrayOf(Field(message, "content"))| && NotToolResult(ArrayOf(Field(message, "content"))[i])
        else if vendor == Gemini then
          exists i :: 0 <= i < |ArrayOf(Field(message, "parts"))| && IsTextPart(ArrayOf(Field(message, "parts"))[i])
        else
          history != Input || Field(message, "type") == Null || Text(Field(message, "type")) == "message")
  }

  predicate NotToolResult(block: Json) {
    Text(Field(ObjectOf(block), "type")) != "tool_result"
  }

  predicate IsTextPart(part: Json) {
    Field(ObjectOf(part), "text").Str? && Field(ObjectOf(part), "functionResponse") == Null
  }

  function Prompts(vendor: Vendor, history: History): Json -> bool {
    (item: Json) => IsPrompt(vendor, history, item)
  }

  // The two inner loops that look for visible content.
  method AnyNotToolResult(blocks: seq<Json>) returns (found: bool)
    ensures found <==> exists i :: 0 <= i < |blocks| && NotToolResult(blocks[i])
  {
    for i := 0 to |blocks|
      invariant forall j :: 0 <= j < i ==> !NotToolResult(blocks[j])
    {
      if Text(Field(ObjectOf(blocks[i]), "type")) != "tool_result" {
        return true;
      }
    }
    found := false;
  }

  method AnyTextPart(parts: seq<Json>) returns (found: bool)
    ensures found <==> exists i :: 0 <= i < |parts| && IsTextPart(parts[i])
  {
    for i := 0 to |parts|
      invariant forall j :: 0 <= j < i ==> !IsTextPart(parts[j])
    {
      var p := ObjectOf(parts[i]);
      if Field(p, "text").Str? && Field(p, "functionResponse") == Null {
        return true;
      }
    }
    found := false;
  }

  // The body of the backward scan: does this message stop it?
  method StopsAt(vendor: Vendor, history: History, item: Json) returns (stops: bool)
    ensures stops <==> IsPrompt(vendor, history, item)
  {
    var message := ObjectOf(item);
    if Text(Field(message, "role")) != "user" {
      return false;
    }
    match vendor
    case Anthropic =>
      if Field(message, "content").Str? {
        return true;
      }
      stops := AnyNotToolResult(ArrayOf(Field(message, "content")));
    case Gemini =>
      stops := AnyTextPart(ArrayOf(Field(message, "parts")));
    case _ =>
      stops := history != Input || Field(message, "type") == Null || Text(Field(message, "type")) == "message";
  }

  method ScanBack(vendor: Vendor, history: History, items: seq<Json>, ghost p: Json -> bool) returns (i: int)
    requires forall item :: p(item) <==> IsPrompt(vendor, history, item)
    ensures i == LastIndex(p, items)
  {
    i := |items| - 1;
    while i >= 0
      invariant -1 <= i < |items|
      invariant LastIndex(p, items) == LastIndex(p, items[..i + 1])
    {
      assert items[..i + 1][..i] == items[..i];
      var stops := StopsAt(vendor, history, items[i]);
      if stops {
        return;
      }
      i := i - 1;
    }
  }

  method TurnAnchor(vendor: Vendor, path: string, request: Object) returns (anchor: Json, index: int)
    ensures var history := HistoryOf(vendor, path); var value := Field(request, history.Name());
      if history == Input && value.Str? then anchor == value && index == 0
      else
        && index == LastIndex(Prompts(vendor, history), ArrayOf(value))
        && anchor == if index >= 0 then ArrayOf(value)[index] else Null
  {
    var history := HistoryOf(vendor, path);
    var value := Field(request, history.Name());
    if value.Str? && history == Input {
      return value, 0;
    }
    index := ScanBack(vendor, history, ArrayOf(value), Prompts(vendor, history));
    anchor := if index >= 0 then ArrayOf(value)[index] else Null;
  }

  // The key of an anchored exchange.
  function Key(route: string, session: string, isPrompt: Json -> bool, items: seq<Json>): TurnKey
    requires LastIndex(isPrompt, items) >= 0
  {
    var index := LastIndex(isPrompt, items);
    TurnKey(route, session, index, items[index])
  }

  // A conversation that only grows: two of its requests are in the same turn exactly when the
  // later one adds no prompt. Otherwise the later turn has a larger index.
  lemma SameTurnIffNoNewPrompt(route: string, session: string, isPrompt: Json -> bool, items: seq<Json>,
                               more: seq<Json>)
    requires LastIndex(isPrompt, items) >= 0
    ensures LastIndex(isPrompt, items + more) >= 0
    ensures Key(route, session, isPrompt, items + more) == Key(route, session, isPrompt, items) <==>
      Absent(isPrompt, more)
    ensures !Absent(isPrompt, more) ==>
      Key(route, session, isPrompt, items + more).index >= |items| > Key(route, session, isPrompt, items).index
  {
    LastIndexAppend(isPrompt, items, more);
  }

  predicate ByUser(item: Json) {
    Text(Field(ObjectOf(item), "role")) == "user"
  }

  // Which user messages open a turn: for Anthropic those with a text, or any block that is no tool
  // result; for Gemini those with a text part that answers no function; for OpenAI all, but in an input
  // list only those without a type or with the type of a message.
  lemma UserPromptIff(vendor: Vendor, history: History, item: Json)
    requires ByUser(item)
    ensures vendor.Anthropic? ==>
      (IsPrompt(vendor, history, item) <==>
        || Field(ObjectOf(item), "content").Str?
        || exists block :: block in ArrayOf(Field(ObjectOf(item), "content"))
                           && Text(Field(ObjectOf(block), "type")) != "tool_result")
    ensures vendor.Gemini? ==>
      (IsPrompt(vendor, history, item) <==>
        exists part :: part in ArrayOf(Field(ObjectOf(item), "parts"))
                       && Field(ObjectOf(part), "text").Str? && Field(ObjectOf(part), "functionResponse") == Null)
    ensures vendor.OpenAI? || vendor.ChatGPT? ==>
      (IsPrompt(vendor, history, item) <==>
        || !history.Input? || Field(ObjectOf(item), "type") == Null
        || Field(ObjectOf(item), "type") == Str("message"))
  {
    if vendor == Anthropic {
      var blocks := ArrayOf(Field(ObjectOf(item), "content"));
      assert forall i :: 0 <= i < |blocks| ==> blocks[i] in blocks;
      if block :| block in blocks && Text(Field(ObjectOf(block), "type")) != "tool_result" {
        assert NotToolResult(block);
      }
    } else if vendor == Gemini {
      var parts := ArrayOf(Field(ObjectOf(item), "parts"));
      assert forall i :: 0 <= i < |parts| ==> parts[i] in parts;
      if part :| part in parts && Field(ObjectOf(part), "text").Str?
                 && Field(ObjectOf(part), "functionResponse") == Null {
        assert IsTextPart(part);
      }
    }
  }

  // Every message that is not the user's leaves the turn alone, and so does every Anthropic user
  // message made of tool results only and every Gemini one without a text part.
  lemma ContinuationsAreNoPrompts(vendor: Vendor, history: History, item: Json)
    ensures Text(Field(ObjectOf(item), "role")) != "user" ==> !IsPrompt(vendor, history, item)
    ensures vendor == Anthropic && Field(ObjectOf(item), "content").Arr?
      && (forall block :: block in Field(ObjectOf(item), "content").items ==>
        Text(Field(ObjectOf(block), "type")) == "tool_result")
      ==> !IsPrompt(vendor, history, item)
    ensures vendor == Gemini
      && (forall part :: part in ArrayOf(Field(ObjectOf(item), "parts")) ==>
        Field(ObjectOf(part), "functionResponse") != Null)
      ==> !IsPrompt(vendor, history, item)
  {
    if vendor == Anthropic && Field(ObjectOf(item), "content").Arr? {
      var blocks := Field(ObjectOf(item), "content").items;
      assert forall i :: 0 <= i < |blocks| ==> blocks[i] in blocks;
    }
  }
}
