// The ids of issued tool calls and of their results in decoded messages: toolCalls and toolResults
// of internal/proxy/parser.go.
module ToolIds {
  import opened Prelude
  import opened Json

  // Gemini may leave ids out; the key then hashes function name, position of the issuing message in
  // the conversation and the call's rank among the calls of that name.
  datatype CallId = Explicit(id: string) | Synthetic(name: string, turn: int, ordinal: nat)

  const NO_ID := Explicit("")

  datatype Call = Call(name: string, arguments: Json)

  datatype Result = Result(id: CallId, call: Call, content: Json, isError: bool)

  // A named Gemini call or response part.
  datatype Named = Named(name: string, id: string)

  // ----- Ranks and keys -----

  // How many of `xs` carry this name.
  function Count(xs: seq<Named>, name: string): nat {
    if xs == [] then 0 else Count(xs[..|xs| - 1], name) + if xs[|xs| - 1].name == name then 1 else 0
  }

  function KeyAt(xs: seq<Named>, turn: int, i: nat): CallId
    requires i < |xs|
  {
    if xs[i].id == "" then Synthetic(xs[i].name, turn, Count(xs[..i], xs[i].name)) else Explicit(xs[i].id)
  }

  // ----- Issued calls -----

  function FunctionCall(part: Json): Object {
    ObjectOf(Field(ObjectOf(part), "functionCall"))
  }

  function FunctionResponse(part: Json): Object {
    ObjectOf(Field(ObjectOf(part), "functionResponse"))
  }

  function Parts(message: Json): seq<Json> {
    ArrayOf(Field(ObjectOf(message), "parts"))
  }

  function NamedOf(f: Object): Named {
    Named(Text(Field(f, "name")), Text(Field(f, "id")))
  }

  // The named function objects of a list of parts, in order.
  function Functions(parts: seq<Json>, of: Json -> Object): seq<Object> {
    if parts == [] then []
    else
      var f := of(parts[|parts| - 1]);
      Functions(parts[..|parts| - 1], of) + (if NamedOf(f).name == "" then [] else [f])
  }

  function Names(fs: seq<Object>): (names: seq<Named>)
    ensures |names| == |fs|
  {
    seq(|fs|, i requires 0 <= i < |fs| => NamedOf(fs[i]))
  }

  type Calls = map<CallId, Call>

  function Add(calls: Calls, id: CallId, name: string, arguments: Json): Calls {
    if id != NO_ID && name != "" then calls[id := Call(name, arguments)] else calls
  }

  function AddBlock(calls: Calls, block: Object): Calls {
    if Text(Field(block, "type")) == "tool_use"
    then Add(calls, Explicit(Text(Field(block, "id"))), Text(Field(block, "name")), Field(block, "input"))
    else calls
  }

  function AddBlocks(calls: Calls, blocks: seq<Json>): Calls {
    if blocks == [] then calls else AddBlock(AddBlocks(calls, blocks[..|blocks| - 1]), ObjectOf(blocks[|blocks| - 1]))
  }

  function AddToolCall(calls: Calls, call: Object): Calls {
    var f := ObjectOf(Field(call, "function"));
    Add(calls, Explicit(Text(Field(call, "id"))), Text(Field(f, "name")), Field(f, "arguments"))
  }

  function AddToolCalls(calls: Calls, list: seq<Json>): Calls {
    if list == [] then calls else AddToolCall(AddToolCalls(calls, list[..|list| - 1]), ObjectOf(list[|list| - 1]))
  }

  function AddFunctions(calls: Calls, fs: seq<Object>, turn: int): Calls {
    if fs == [] then calls
    else
      var n := |fs| - 1;
      Add(AddFunctions(calls, fs[..n], turn), KeyAt(Names(fs), turn, n), NamedOf(fs[n]).name, Field(fs[n], "args"))
  }

  function AddFunctionCall(calls: Calls, message: Object): Calls {
    if Text(Field(message, "type")) == "function_call"
    then Add(calls, Explicit(Text(Field(message, "call_id"))), Text(Field(message, "name")),
      Field(message, "arguments"))
    else calls
  }

  predicate ByModel(message: Object) {
    Text(Field(message, "role")) == "assistant" || Text(Field(message, "role")) == "model"
  }

  function AddMessage(calls: Calls, message: Object, turn: int): Calls {
    var calls := AddFunctionCall(calls, message);
    if !ByModel(message) then calls
    else
      var calls := AddBlocks(calls, ArrayOf(Field(message, "content")));
      var calls := AddToolCalls(calls, ArrayOf(Field(message, "tool_calls")));
      AddFunctions(calls, Functions(ArrayOf(Field(message, "parts")), FunctionCall), turn)
  }

  function IssuedCalls(messages: seq<Json>, turn: int): Calls {
    if messages == [] then map[]
    else
      var n := |messages| - 1;
      AddMessage(IssuedCalls(messages[..n], turn), ObjectOf(messages[n]), turn + n)
  }

  // ----- The loops of toolCalls -----

  // The ordinals map of the source: a missing name counts as zero.
  ghost predicate Counts(ordinals: map<string, nat>, names: seq<Named>) {
    forall name: string :: Rank(ordinals, name) == Count(names, name)
  }

  function Rank(ordinals: map<string, nat>, name: string): nat {
    if name in ordinals then ordinals[name] else 0
  }

  // One named part: its key, and the ordinals after it.
  method NextKey(ordinals: map<string, nat>, f: Object, turn: int, ghost before: seq<Object>)
    returns (key: CallId, ordinals': map<string, nat>)
    requires Counts(ordinals, Names(before))
    ensures key == KeyAt(Names(before + [f]), turn, |before|)
    ensures Counts(ordinals', Names(before + [f]))
  {
    var named := NamedOf(f);
    key := if named.id == "" then Synthetic(named.name, turn, Rank(ordinals, named.name)) else Explicit(named.id);
    ordinals' := ordinals[named.name := Rank(ordinals, named.name) + 1];
    assert Names(before + [f]) == Names(before) + [named];
    assert (Names(before) + [named])[..|before|] == Names(before);
  }

  lemma AddFunctionsNext(calls: Calls, fs: seq<Object>, f: Object, turn: int)
    ensures AddFunctions(calls, fs + [f], turn)
      == Add(AddFunctions(calls, fs, turn), KeyAt(Names(fs + [f]), turn, |fs|), NamedOf(f).name, Field(f, "args"))
  {
    assert (fs + [f])[..|fs|] == fs;
  }

  lemma FunctionsNext(parts: seq<Json>, i: nat, of: Json -> Object)
    requires i < |parts|
    ensures Functions(parts[..i + 1], of) ==
      Functions(parts[..i], of) + (if NamedOf(of(parts[i])).name == "" then [] else [of(parts[i])])
  {
    assert parts[..i + 1][..i] == parts[..i];
  }

  method AddParts(calls: Calls, parts: seq<Json>, turn: int) returns (calls': Calls)
    ensures calls' == AddFunctions(calls, Functions(parts, FunctionCall), turn)
  {
    calls' := calls;
    var ordinals: map<string, nat> := map[];
    ghost var fs: seq<Object> := [];
    for i := 0 to |parts|
      invariant fs == Functions(parts[..i], FunctionCall)
      invariant calls' == AddFunctions(calls, fs, turn)
      invariant Counts(ordinals, Names(fs))
    {
      FunctionsNext(parts, i, FunctionCall);
      var f := FunctionCall(parts[i]);
      if NamedOf(f).name != "" {
        AddFunctionsNext(calls, fs, f, turn);
        var key;
        key, ordinals := NextKey(ordinals, f, turn, fs);
        fs := fs + [f];
        calls' := Add(calls', key, NamedOf(f).name, Field(f, "args"));
      }
    }
    assert parts[..|parts|] == parts;
  }

  method AddContent(calls: Calls, blocks: seq<Json>) returns (calls': Calls)
    ensures calls' == AddBlocks(calls, blocks)
  {
    calls' := calls;
    for j := 0 to |blocks|
      invariant calls' == AddBlocks(calls, blocks[..j])
    {
      assert blocks[..j + 1][..j] == blocks[..j];
      calls' := AddBlock(calls', ObjectOf(blocks[j]));
    }
    assert blocks[..|blocks|] == blocks;
  }

  method AddListed(calls: Calls, list: seq<Json>) returns (calls': Calls)
    ensures calls' == AddToolCalls(calls, list)
  {
    calls' := calls;
    for j := 0 to |list|
      invariant calls' == AddToolCalls(calls, list[..j])
    {
      assert list[..j + 1][..j] == list[..j];
      calls' := AddToolCall(calls', ObjectOf(list[j]));
    }
    assert list[..|list|] == list;
  }

  method AddFrom(calls: Calls, message: Object, turn: int) returns (calls': Calls)
    ensures calls' == AddMessage(calls, message, turn)
  {
    calls' := AddFunctionCall(calls, message);
    if ByModel(message) {
      calls' := AddContent(calls', ArrayOf(Field(message, "content")));
      calls' := AddListed(calls', ArrayOf(Field(message, "tool_calls")));
      calls' := AddParts(calls', ArrayOf(Field(message, "parts")), turn);
    }
  }

  method ToolCalls(messages: seq<Json>, turn: int) returns (calls: Calls)
    ensures calls == IssuedCalls(messages, turn)
  {
    calls := map[];
    for i := 0 to |messages|
      invariant calls == IssuedCalls(messages[..i], turn)
    {
      assert messages[..i + 1][..i] == messages[..i];
      calls := AddFrom(calls, ObjectOf(messages[i]), turn + i);
    }
    assert messages[..|messages|] == messages;
  }

  // ----- Results -----

  predicate EndsTurn(item: Json) {
    ByModel(ObjectOf(item)) || Text(Field(ObjectOf(item), "type")) == "function_call"
  }

  // An answer found in a message. Only a Gemini answer names its function.
  datatype Answer = Answer(id: CallId, name: string, content: Json, isError: bool)

  function BlockAnswer(block: Object): seq<Answer> {
    if Text(Field(block, "type")) == "tool_result"
    then [Answer(Explicit(Text(Field(block, "tool_use_id"))), "", Field(block, "content"),
      Field(block, "is_error") == Bool(true))]
    else []
  }

  function BlockAnswers(blocks: seq<Json>): seq<Answer> {
    if blocks == [] then []
    else BlockAnswers(blocks[..|blocks| - 1]) + BlockAnswer(ObjectOf(blocks[|blocks| - 1]))
  }

  function PlainAnswer(message: Object): seq<Answer> {
    if Text(Field(message, "role")) == "tool" then
      [Answer(Explicit(Text(Field(message, "tool_call_id"))), "", Field(message, "content"), false)]
    else if Text(Field(message, "type")) == "function_call_output" then
      [Answer(Explicit(Text(Field(message, "call_id"))), "", Field(message, "output"), false)]
    else []
  }

  predicate ByUser(message: Object) {
    Text(Field(message, "role")) == "user"
  }

  function MessageAnswers(vendor: Vendor, message: Object): seq<Answer> {
    if vendor == Anthropic && ByUser(message) then BlockAnswers(ArrayOf(Field(message, "content")))
      else PlainAnswer(message)
  }

  function GeminiAnswer(f: Object, key: CallId): Answer {
    Answer(key, NamedOf(f).name, Field(f, "response"), "error" in ObjectOf(Field(f, "response")))
  }

  function GeminiAnswers(fs: seq<Object>, turn: int): (answers: seq<Answer>)
    ensures |answers| == |fs|
    ensures forall i :: 0 <= i < |fs| ==> answers[i].id == KeyAt(Names(fs), turn, i)
  {
    seq(|fs|, i requires 0 <= i < |fs| => GeminiAnswer(fs[i], KeyAt(Names(fs), turn, i)))
  }

  // Gemini ranks responses across all messages after the model's.
  function Responses(messages: seq<Json>): seq<Object> {
    if messages == [] then []
    else
      Responses(messages[..|messages| - 1])
      + Functions(Parts(messages[|messages| - 1]), FunctionResponse)
  }

  function AllAnswers(vendor: Vendor, messages: seq<Json>, turn: int): seq<Answer> {
    if vendor == Gemini then GeminiAnswers(Responses(messages), turn)
    else if messages == [] then []
    else AllAnswers(vendor, messages[..|messages| - 1], turn) + MessageAnswers(vendor,
      ObjectOf(messages[|messages| - 1]))
  }

  // The first answer for each id counts.
  function FirstAnswers(answers: seq<Answer>): seq<Answer> {
    if answers == [] then []
    else
      var init, last := FirstAnswers(answers[..|answers| - 1]), answers[|answers| - 1];
      if last.id == NO_ID || exists i :: 0 <= i < |init| && init[i].id == last.id then init else init + [last]
  }

  // A result takes name and arguments from the call in the same request, if it is there.
  function Resolve(calls: Calls, answer: Answer): Result {
    Result(answer.id, if answer.id in calls then calls[answer.id]
      else Call(answer.name, Null), answer.content, answer.isError)
  }

  function ResolveAll(calls: Calls, answers: seq<Answer>): seq<Result> {
    seq(|answers|, i requires 0 <= i < |answers| => Resolve(calls, answers[i]))
  }

  function RequestCalls(vendor: Vendor, messages: seq<Json>): Calls {
    var last := LastIndex(EndsTurn, messages);
    if vendor == Gemini && last >= 0 then IssuedCalls([messages[last]], last) else IssuedCalls(messages, 0)
  }

  function RequestAnswers(vendor: Vendor, messages: seq<Json>): seq<Answer> {
    var last := LastIndex(EndsTurn, messages);
    AllAnswers(vendor, messages[last + 1..], last)
  }

  function RequestResults(vendor: Vendor, messages: seq<Json>): seq<Result> {
    ResolveAll(RequestCalls(vendor, messages), FirstAnswers(RequestAnswers(vendor, messages)))
  }

  // ----- The loops of toolResults -----

  ghost predicate Seen(first: seq<Answer>, seen: set<CallId>) {
    forall id :: id in seen <==> exists i :: 0 <= i < |first| && first[i].id == id
  }

  // State of the collecting loops: which answers have been offered so far.
  ghost predicate Gathered(calls: Calls, answers: seq<Answer>, results: seq<Result>, seen: set<CallId>) {
    results == ResolveAll(calls, FirstAnswers(answers)) && Seen(FirstAnswers(answers), seen)
  }

  method Offer(calls: Calls, answer: Answer, results: seq<Result>, seen: set<CallId>, ghost answers: seq<Answer>)
    returns (results': seq<Result>, seen': set<CallId>)
    requires Gathered(calls, answers, results, seen)
    ensures Gathered(calls, answers + [answer], results', seen')
  {
    FirstAnswersNext(answers, answer);
    results', seen' := results, seen;
    if answer.id != NO_ID && answer.id !in seen {
      seen' := seen + {answer.id};
      results' := results + [Resolve(calls, answer)];
      GatheredMore(calls, answers, answer, results, seen);
    }
  }

  lemma FirstAnswersNext(answers: seq<Answer>, answer: Answer)
    ensures var first := FirstAnswers(answers);
      FirstAnswers(answers + [answer]) ==
        if answer.id == NO_ID || exists i :: 0 <= i < |first| && first[i].id == answer.id then first
          else first + [answer]
  {
    assert (answers + [answer])[..|answers|] == answers;
  }

  lemma GatheredMore(calls: Calls, answers: seq<Answer>, answer: Answer, results: seq<Result>, seen: set<CallId>)
    requires Gathered(calls, answers, results, seen) && answer.id != NO_ID && answer.id !in seen
    ensures Gathered(calls, answers + [answer], results + [Resolve(calls, answer)], seen + {answer.id})
  {
    FirstAnswersNext(answers, answer);
    var first := FirstAnswers(answers);
    var more := first + [answer];
    assert FirstAnswers(answers + [answer]) == more;
    assert ResolveAll(calls, more) == ResolveAll(calls, first) + [Resolve(calls, answer)];
    SeenNext(first, answer, seen);
  }

  lemma SeenNext(first: seq<Answer>, answer: Answer, seen: set<CallId>)
    requires Seen(first, seen)
    ensures Seen(first + [answer], seen + {answer.id})
  {
    var more := first + [answer];
    assert more[|first|].id == answer.id;
    forall id ensures id in seen + {answer.id} <==> exists i :: 0 <= i < |more| && more[i].id == id {
      if i :| 0 <= i < |first| && first[i].id == id {
        assert more[i].id == id;
      }
    }
  }

  // A block offers one answer or none.
  method OfferFound(calls: Calls, found: seq<Answer>, results: seq<Result>, seen: set<CallId>,
                    ghost answers: seq<Answer>)
    returns (results': seq<Result>, seen': set<CallId>)
    requires |found| <= 1 && Gathered(calls, answers, results, seen)
    ensures Gathered(calls, answers + found, results', seen')
  {
    if found == [] {
      assert answers + found == answers;
      return results, seen;
    }
    results', seen' := Offer(calls, found[0], results, seen, answers);
    assert [found[0]] == found;
  }

  lemma BlockAnswersNext(answers: seq<Answer>, blocks: seq<Json>, i: nat)
    requires i < |blocks|
    ensures answers + BlockAnswers(blocks[..i + 1]) ==
      answers + BlockAnswers(blocks[..i]) + BlockAnswer(ObjectOf(blocks[i]))
  {
    assert blocks[..i + 1][..i] == blocks[..i];
  }

  method OfferBlocks(calls: Calls, blocks: seq<Json>, results: seq<Result>, seen: set<CallId>,
                     ghost answers: seq<Answer>)
    returns (results': seq<Result>, seen': set<CallId>)
    requires Gathered(calls, answers, results, seen)
    ensures Gathered(calls, answers + BlockAnswers(blocks), results', seen')
  {
    results', seen' := results, seen;
    ghost var soFar := answers;
    assert answers + [] == answers;
    for i := 0 to |blocks|
      invariant soFar == answers + BlockAnswers(blocks[..i])
      invariant Gathered(calls, soFar, results', seen')
    {
      var found := BlockAnswer(ObjectOf(blocks[i]));
      results', seen' := OfferFound(calls, found, results', seen', soFar);
      BlockAnswersNext(answers, blocks, i);
      soFar := soFar + found;
    }
    assert blocks[..|blocks|] == blocks;
  }

  lemma GeminiAnswersNext(fs: seq<Object>, f: Object, turn: int)
    ensures GeminiAnswers(fs + [f], turn) ==
      GeminiAnswers(fs, turn) + [GeminiAnswer(f, KeyAt(Names(fs + [f]), turn, |fs|))]
  {
    var a, b := GeminiAnswers(fs + [f], turn), GeminiAnswers(fs, turn);
    assert Names(fs + [f]) == Names(fs) + [NamedOf(f)];
    forall i | 0 <= i < |fs| ensures a[i] == b[i] {
      assert Names(fs + [f])[..i] == Names(fs)[..i];
    }
  }

  method OfferFunction(calls: Calls, f: Object, turn: int, ordinals: map<string, nat>, results: seq<Result>,
                       seen: set<CallId>,
                       ghost fs: seq<Object>)
    returns (ordinals': map<string, nat>, results': seq<Result>, seen': set<CallId>)
    requires Counts(ordinals, Names(fs)) && Gathered(calls, GeminiAnswers(fs, turn), results, seen)
    ensures Counts(ordinals', Names(fs + [f])) && Gathered(calls, GeminiAnswers(fs + [f], turn), results', seen')
  {
    GeminiAnswersNext(fs, f, turn);
    var key;
    key, ordinals' := NextKey(ordinals, f, turn, fs);
    results', seen' := Offer(calls, GeminiAnswer(f, key), results, seen, GeminiAnswers(fs, turn));
  }

  method OfferParts(calls: Calls, parts: seq<Json>, turn: int, ordinals: map<string, nat>, results: seq<Result>,
                    seen: set<CallId>,
                    ghost fs: seq<Object>)
    returns (ordinals': map<string, nat>, results': seq<Result>, seen': set<CallId>, ghost fs': seq<Object>)
    requires Counts(ordinals, Names(fs)) && Gathered(calls, GeminiAnswers(fs, turn), results, seen)
    ensures fs' == fs + Functions(parts, FunctionResponse)
    ensures Counts(ordinals', Names(fs')) && Gathered(calls, GeminiAnswers(fs', turn), results', seen')
  {
    ordinals', results', seen', fs' := ordinals, results, seen, fs;
    for i := 0 to |parts|
      invariant fs' == fs + Functions(parts[..i], FunctionResponse)
      invariant Counts(ordinals', Names(fs')) && Gathered(calls, GeminiAnswers(fs', turn), results', seen')
    {
      FunctionsNext(parts, i, FunctionResponse);
      var f := FunctionResponse(parts[i]);
      if NamedOf(f).name != "" {
        ordinals', results', seen' := OfferFunction(calls, f, turn, ordinals', results', seen', fs');
        fs' := fs' + [f];
      }
    }
    assert parts[..|parts|] == parts;
  }

  method CollectGemini(calls: Calls, messages: seq<Json>, turn: int) returns (results: seq<Result>)
    ensures results == ResolveAll(calls, FirstAnswers(AllAnswers(Gemini, messages, turn)))
  {
    var seen: set<CallId> := {};
    var ordinals: map<string, nat> := map[];
    results := [];
    ghost var fs: seq<Object> := [];
    for i := 0 to |messages|
      invariant fs == Responses(messages[..i])
      invariant Counts(ordinals, Names(fs)) && Gathered(calls, GeminiAnswers(fs, turn), results, seen)
    {
      assert messages[..i + 1][..i] == messages[..i];
      ordinals, results, seen, fs := OfferParts(calls, Parts(messages[i]), turn, ordinals, results, seen, fs);
    }
    assert messages[..|messages|] == messages;
  }

  method CollectPlain(vendor: Vendor, calls: Calls, messages: seq<Json>, turn: int) returns (results: seq<Result>)
    requires vendor != Gemini
    ensures results == ResolveAll(calls, FirstAnswers(AllAnswers(vendor, messages, turn)))
  {
    var seen: set<CallId> := {};
    results := [];
    for i := 0 to |messages|
      invariant Gathered(calls, AllAnswers(vendor, messages[..i], turn), results, seen)
    {
      assert messages[..i + 1][..i] == messages[..i];
      ghost var soFar := AllAnswers(vendor, messages[..i], turn);
      var message := ObjectOf(messages[i]);
      if vendor == Anthropic && ByUser(message) {
        results, seen := OfferBlocks(calls, ArrayOf(Field(message, "content")), results, seen, soFar);
      } else {
        results, seen := OfferFound(calls, PlainAnswer(message), results, seen, soFar);
      }
    }
    assert messages[..|messages|] == messages;
  }

  method LastAssistant(messages: seq<Json>) returns (last: int)
    ensures last == LastIndex(EndsTurn, messages)
  {
    last := -1;
    for i := 0 to |messages|
      invariant last == LastIndex(EndsTurn, messages[..i])
    {
      assert messages[..i + 1][..i] == messages[..i];
      if EndsTurn(messages[i]) {
        last := i;
      }
    }
    assert messages[..|messages|] == messages;
  }

  // Gemini takes only the calls of the last model message, numbered from where it stands.
  method CallsInRequest(vendor: Vendor, messages: seq<Json>, last: int) returns (calls: Calls)
    requires last == LastIndex(EndsTurn, messages)
    ensures calls == RequestCalls(vendor, messages)
  {
    if vendor == Gemini && last >= 0 {
      assert messages[last..last + 1] == [messages[last]];
      calls := ToolCalls(messages[last..last + 1], last);
    } else {
      calls := ToolCalls(messages, 0);
    }
  }

  lemma RequestResultsAre(vendor: Vendor, messages: seq<Json>, last: int, calls: Calls)
    requires last == LastIndex(EndsTurn, messages) && calls == RequestCalls(vendor, messages)
    ensures RequestResults(vendor, messages) ==
      ResolveAll(calls, FirstAnswers(AllAnswers(vendor, messages[last + 1..], last)))
  {
    assert RequestAnswers(vendor, messages) == AllAnswers(vendor, messages[last + 1..], last);
  }

  method ToolResults(vendor: Vendor, messages: seq<Json>) returns (results: seq<Result>)
    ensures results == RequestResults(vendor, messages)
  {
    var last := LastAssistant(messages);
    var calls := CallsInRequest(vendor, messages, last);
    RequestResultsAre(vendor, messages, last, calls);
    if vendor == Gemini {
      results := CollectGemini(calls, messages[last + 1..], last);
    } else {
      results := CollectPlain(vendor, calls, messages[last + 1..], last);
    }
  }

  // Where toolResults finds the messages of a request.
  function MessageList(vendor: Vendor, path: string, request: Object): seq<Json> {
    if HasSuffix(path, "/responses") then ArrayOf(Field(request, "input"))
    else if vendor == Gemini then ArrayOf(Field(request, "contents"))
    else ArrayOf(Field(request, "messages"))
  }

  method ToolResultsOf(vendor: Vendor, path: string, request: Object) returns (results: seq<Result>)
    ensures results == RequestResults(vendor, MessageList(vendor, path, request))
  {
    var messages := ArrayOf(Field(request, "messages"));
    if HasSuffix(path, "/responses") {
      messages := ArrayOf(Field(request, "input"));
    } else if vendor == Gemini {
      messages := ArrayOf(Field(request, "contents"));
    }
    results := ToolResults(vendor, messages);
  }

  // ----- Issue and result agree -----

  // The named function calls of one model message.
  function MessageCalls(message: Json): seq<Object> {
    Functions(Parts(message), FunctionCall)
  }

  // The next request repeats the conversation, then the model's message, then messages that do not
  // end the turn: its last model message sits where the reply sat when its calls were recorded.
  lemma ReplyKeepsItsPlace(contents: seq<Json>, reply: Json, tail: seq<Json>)
    requires EndsTurn(reply) && Absent(EndsTurn, tail)
    ensures LastIndex(EndsTurn, contents + [reply] + tail) == |contents|
    ensures RequestAnswers(Gemini, contents + [reply] + tail) == GeminiAnswers(Responses(tail), |contents|)
  {
    LastIndexAppend(EndsTurn, contents + [reply], tail);
    assert (contents + [reply] + tail)[|contents| + 1..] == tail;
  }

  // Two keys without ids are equal exactly when position, name and rank are.
  lemma SyntheticKeysEqual(calls: seq<Named>, responses: seq<Named>, turn: int, turn': int, i: nat, j: nat)
    requires i < |calls| && j < |responses| && calls[i].id == "" && responses[j].id == ""
    ensures KeyAt(calls, turn, i) == KeyAt(responses, turn', j) <==>
      && turn == turn'
      && calls[i].name == responses[j].name
      && Count(calls[..i], calls[i].name) == Count(responses[..j], responses[j].name)
  {
  }

  // Gemini, without ids on either side: the j-th response resolves to the id under which the i-th
  // call was recorded, when the reply was captured, exactly when both name the same function and
  // have the same rank among the parts of that name.
  lemma IssueAndResultAgree(contents: seq<Json>, reply: Json, tail: seq<Json>, calls: seq<Named>,
                            responses: seq<Named>, i: nat, j: nat)
    requires ByModel(ObjectOf(reply)) && Absent(EndsTurn, tail)
    requires calls == Names(MessageCalls(reply)) && responses == Names(Responses(tail))
    requires i < |calls| && j < |responses| && calls[i].id == "" && responses[j].id == ""
    ensures |RequestAnswers(Gemini, contents + [reply] + tail)| == |responses|
    ensures RequestAnswers(Gemini, contents + [reply] + tail)[j].id == KeyAt(calls, |contents|, i) <==>
      && calls[i].name == responses[j].name
      && Count(calls[..i], calls[i].name) == Count(responses[..j], responses[j].name)
  {
    ReplyKeepsItsPlace(contents, reply, tail);
    SyntheticKeysEqual(calls, responses, |contents|, |contents|, i, j);
  }

  // Every named call of a captured reply is recorded under its key, so such a response finds it.
  lemma {:induction false} RecordedUnderKey(calls: Calls, fs: seq<Object>, turn: int, i: nat)
    requires i < |fs| && forall h :: 0 <= h < |fs| ==> NamedOf(fs[h]).name != ""
    ensures KeyAt(Names(fs), turn, i) in AddFunctions(calls, fs, turn)
    decreases |fs|
  {
    var n := |fs| - 1;
    assert Names(fs)[..n] == Names(fs[..n]);
    if i < n {
      RecordedUnderKey(calls, fs[..n], turn, i);
      assert Names(fs)[..i] == Names(fs[..n])[..i];
    }
  }

  lemma {:induction false} FunctionsAreNamed(parts: seq<Json>, of: Json -> Object)
    ensures forall h :: 0 <= h < |Functions(parts, of)| ==> NamedOf(Functions(parts, of)[h]).name != ""
    decreases |parts|
  {
    if parts != [] {
      FunctionsAreNamed(parts[..|parts| - 1], of);
    }
  }

  lemma CapturedReplyRecordsCalls(output: Json, turn: int, i: nat)
    requires ByModel(ObjectOf(output)) && i < |MessageCalls(output)|
    ensures KeyAt(Names(MessageCalls(output)), turn, i) in IssuedCalls([output], turn)
  {
    var message := ObjectOf(output);
    var calls := AddToolCalls(AddBlocks(AddFunctionCall(map[], message), ArrayOf(Field(message, "content"))),
                              ArrayOf(Field(message, "tool_calls")));
    assert [output][..0] == [];
    FunctionsAreNamed(Parts(output), FunctionCall);
    RecordedUnderKey(calls, MessageCalls(output), turn, i);
  }

  // So a response of the right name and rank finds the call that the captured reply recorded.
  lemma AnsweredCallIsRecorded(contents: seq<Json>, output: Json, reply: Json, tail: seq<Json>, i: nat, j: nat)
    requires ByModel(ObjectOf(output)) && ByModel(ObjectOf(reply)) && MessageCalls(output) == MessageCalls(reply)
    requires Absent(EndsTurn, tail) && i < |MessageCalls(reply)| && j < |Responses(tail)|
    requires KeyAt(Names(MessageCalls(reply)), |contents|, i) == KeyAt(Names(Responses(tail)), |contents|, j)
    ensures j < |RequestAnswers(Gemini, contents + [reply] + tail)|
    ensures RequestAnswers(Gemini, contents + [reply] + tail)[j].id in IssuedCalls([output], |contents|)
  {
    ReplyKeepsItsPlace(contents, reply, tail);
    CapturedReplyRecordsCalls(output, |contents|, i);
  }

  // ----- Parts with and without ids in one message -----

  function CallPart(name: string, id: string): Json {
    Obj(map["functionCall" := Obj(map["name" := Str(name), "id" := Str(id)])])
  }

  function ResponsePart(name: string, id: string): Json {
    Obj(map["functionResponse" := Obj(map["name" := Str(name), "id" := Str(id)])])
  }

  function GeminiMessage(role: string, parts: seq<Json>): Json {
    Obj(map["role" := Str(role), "parts" := Arr(parts)])
  }

  lemma PartsRead(name: string, id: string)
    ensures NamedOf(FunctionCall(CallPart(name, id))) == Named(name, id)
    ensures NamedOf(FunctionResponse(ResponsePart(name, id))) == Named(name, id)
  {
    assert "name" != "id" by { assert |"name"| != |"id"|; }
  }

  lemma MessageRead(role: string, parts: seq<Json>)
    ensures var m := ObjectOf(GeminiMessage(role, parts));
      && Text(Field(m, "role")) == role && Parts(GeminiMessage(role, parts)) == parts && Text(Field(m, "type")) == ""
      && ArrayOf(Field(m, "content")) == [] && ArrayOf(Field(m, "tool_calls")) == []
  {
    assert |"role"| == 4 && |"parts"| == 5 && |"type"| == 4 && |"content"| == 7 && |"tool_calls"| == 10;
    assert "type"[0] != "role"[0];
  }

  lemma TwoFunctions(p: Json, q: Json, of: Json -> Object)
    requires NamedOf(of(p)).name != "" && NamedOf(of(q)).name != ""
    ensures Functions([p, q], of) == [of(p), of(q)]
  {
    assert [p, q][..1] == [p] && [p][..0] == [];
    assert Functions([p], of) == [of(p)];
  }

  // Only the keys of a message's own calls are recorded for it.
  lemma {:induction false} RecordedOnly(fs: seq<Object>, turn: int, id: CallId)
    requires id in AddFunctions(map[], fs, turn)
    ensures exists i :: 0 <= i < |fs| && id == KeyAt(Names(fs), turn, i)
    decreases |fs|
  {
    var n := |fs| - 1;
    var names := Names(fs);
    if id == KeyAt(names, turn, n) {
      assert 0 <= n < |fs|;
    } else {
      RecordedOnly(fs[..n], turn, id);
      var i :| 0 <= i < n && id == KeyAt(Names(fs[..n]), turn, i);
      assert Names(fs[..n]) == names[..n] && names[..n][..i] == names[..i];
      assert id == KeyAt(names, turn, i);
    }
  }

  // A model's message that has nothing but parts.
  predicate OnlyParts(message: Object) {
    && ByModel(message) && Text(Field(message, "type")) == ""
    && ArrayOf(Field(message, "content")) == [] && ArrayOf(Field(message, "tool_calls")) == []
  }

  lemma GeminiCalls(m: Json, turn: int)
    requires OnlyParts(ObjectOf(m))
    ensures IssuedCalls([m], turn) == AddFunctions(map[], Functions(Parts(m), FunctionCall), turn)
  {
    assert [m][..0] == [];
    assert IssuedCalls([m], turn) == AddMessage(map[], ObjectOf(m), turn + 0);
  }

  // Mixing parts with and without ids breaks the ranking: the model calls one function twice, the
  // first time with an id, and the answers come in the other order. The answer without an id finds
  // none of the calls recorded for the reply, though one of them has no id either.
  lemma MixedIdsMiss(contents: seq<Json>)
    ensures var reply := GeminiMessage("model", [CallPart("x", "a"), CallPart("x", "")]);
      var tail := [GeminiMessage("user", [ResponsePart("x", ""), ResponsePart("x", "a")])];
      var answers := RequestAnswers(Gemini, contents + [reply] + tail);
      && |answers| == 2 && answers[0].id !in IssuedCalls([reply], |contents|)
      && Synthetic("x", |contents|, 1) in IssuedCalls([reply], |contents|)
  {
    var callParts, responseParts := [CallPart("x", "a"), CallPart("x", "")],
      [ResponsePart("x", ""), ResponsePart("x", "a")];
    var reply, user := GeminiMessage("model", callParts), GeminiMessage("user", responseParts);
    PartsRead("x", "a");
    PartsRead("x", "");
    TwoFunctions(callParts[0], callParts[1], FunctionCall);
    TwoFunctions(responseParts[0], responseParts[1], FunctionResponse);
    MessageRead("model", callParts);
    MessageRead("user", responseParts);
    ReplyKeepsItsPlace(contents, reply, [user]);
    assert [user][..0] == [] && Responses([user]) == Functions(responseParts, FunctionResponse);
    GeminiCalls(reply, |contents|);
    MixedKeys(Functions(callParts, FunctionCall), Functions(responseParts, FunctionResponse), |contents|);
  }

  lemma MixedKeys(calls: seq<Object>, responses: seq<Object>, turn: int)
    requires Names(calls) == [Named("x", "a"), Named("x", "")] && Names(responses) == [Named("x", ""), Named("x", "a")]
    ensures KeyAt(Names(responses), turn, 0) !in AddFunctions(map[], calls, turn)
    ensures Synthetic("x", turn, 1) in AddFunctions(map[], calls, turn)
  {
    var names := Names(calls);
    assert names[..1] == [Named("x", "a")] && names[..1][..0] == [];
    assert Count(names[..1], "x") == 1 && KeyAt(names, turn, 1) == Synthetic("x", turn, 1);
    assert KeyAt(Names(responses), turn, 0) == Synthetic("x", turn, 0) by {
      assert Names(responses)[..0] == [];
    }
    if Synthetic("x", turn, 0) in AddFunctions(map[], calls, turn) {
      RecordedOnly(calls, turn, Synthetic("x", turn, 0));
    }
    RecordedUnderKey(map[], calls, turn, 1);
  }
}
