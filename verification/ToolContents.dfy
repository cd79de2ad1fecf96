// What a tool result says (toolCalls and toolResults in internal/proxy/parser.go): content and error
// flag come from the first answer to its id, name and arguments from the call in the same request.
module ToolContents {
  import opened Prelude
  import opened Json
  import opened ToolIds
  import TurnAnchor

  // ----- The calls of a request -----

  type Source = (CallId, Call) -> bool

  // `calls'` is `calls` with some of the calls of `source`, at least one for each of its ids.
  ghost predicate Grows(calls: Calls, calls': Calls, source: Source) {
    && (forall id :: id in calls' ==> (id in calls && calls'[id] == calls[id]) || source(id, calls'[id]))
    && (forall id :: id in calls ==> id in calls')
    && (forall id, call :: source(id, call) ==> id in calls')
  }

  ghost function Either(a: Source, b: Source): Source {
    (id, call) => a(id, call) || b(id, call)
  }

  lemma GrowsTwice(x: Calls, y: Calls, z: Calls, a: Source, b: Source)
    requires Grows(x, y, a) && Grows(y, z, b)
    ensures Grows(x, z, Either(a, b))
  {
  }

  lemma SameSource(x: Calls, y: Calls, a: Source, b: Source)
    requires Grows(x, y, a) && forall id, call :: a(id, call) <==> b(id, call)
    ensures Grows(x, y, b)
  {
  }

  predicate Stated(id: string, name: string) {
    id != "" && name != ""
  }

  // One block, list entry or message issues this call.
  predicate BlockIssues(block: Object, id: CallId, call: Call) {
    && Text(Field(block, "type")) == "tool_use"
    && Stated(Text(Field(block, "id")), Text(Field(block, "name")))
    && id == Explicit(Text(Field(block, "id")))
    && call == ToolIds.Call(Text(Field(block, "name")), Field(block, "input"))
  }

  predicate EntryIssues(entry: Object, id: CallId, call: Call) {
    var f := ObjectOf(Field(entry, "function"));
    && Stated(Text(Field(entry, "id")), Text(Field(f, "name")))
    && id == Explicit(Text(Field(entry, "id")))
    && call == ToolIds.Call(Text(Field(f, "name")), Field(f, "arguments"))
  }

  predicate ItemIssues(message: Object, id: CallId, call: Call) {
    && Text(Field(message, "type")) == "function_call"
    && Stated(Text(Field(message, "call_id")), Text(Field(message, "name")))
    && id == Explicit(Text(Field(message, "call_id")))
    && call == ToolIds.Call(Text(Field(message, "name")), Field(message, "arguments"))
  }

  predicate FunctionIssues(fs: seq<Object>, turn: int, i: nat, id: CallId, call: Call)
    requires i < |fs|
  {
    && id == KeyAt(Names(fs), turn, i) && Text(Field(fs[i], "name")) != ""
    && call == ToolIds.Call(Text(Field(fs[i], "name")), Field(fs[i], "args"))
  }

  ghost function FromBlocks(blocks: seq<Json>): Source {
    (id, call) => exists b :: b in blocks && BlockIssues(ObjectOf(b), id, call)
  }

  ghost function FromEntries(list: seq<Json>): Source {
    (id, call) => exists e :: e in list && EntryIssues(ObjectOf(e), id, call)
  }

  ghost function FromFunctions(fs: seq<Object>, turn: int): Source {
    (id, call) => exists i :: 0 <= i < |fs| && FunctionIssues(fs, turn, i, id, call)
  }

  ghost function FromBlock(block: Json): Source {
    (id, call) => BlockIssues(ObjectOf(block), id, call)
  }

  ghost function FromEntry(entry: Json): Source {
    (id, call) => EntryIssues(ObjectOf(entry), id, call)
  }

  lemma BlockGrows(calls: Calls, block: Json)
    ensures Grows(calls, AddBlock(calls, ObjectOf(block)), FromBlock(block))
  {
  }

  lemma EntryGrows(calls: Calls, entry: Json)
    ensures Grows(calls, AddToolCall(calls, ObjectOf(entry)), FromEntry(entry))
  {
  }

  lemma InOneMore(all: seq<Json>, init: seq<Json>, last: Json)
    requires all == init + [last]
    ensures forall b :: b in all <==> b in init || b == last
  {
  }

  lemma {:induction false} BlocksGrow(calls: Calls, blocks: seq<Json>)
    ensures Grows(calls, AddBlocks(calls, blocks), FromBlocks(blocks))
  {
    if blocks != [] {
      var init, last := blocks[..|blocks| - 1], blocks[|blocks| - 1];
      var mid := AddBlocks(calls, init);
      BlocksGrow(calls, init);
      BlockGrows(mid, last);
      GrowsTwice(calls, mid, AddBlocks(calls, blocks), FromBlocks(init), FromBlock(last));
      InOneMore(blocks, init, last);
      SameSource(calls, AddBlocks(calls, blocks), Either(FromBlocks(init), FromBlock(last)), FromBlocks(blocks));
    }
  }

  lemma {:induction false} EntriesGrow(calls: Calls, list: seq<Json>)
    ensures Grows(calls, AddToolCalls(calls, list), FromEntries(list))
  {
    if list != [] {
      var init, last := list[..|list| - 1], list[|list| - 1];
      var mid := AddToolCalls(calls, init);
      EntriesGrow(calls, init);
      EntryGrows(mid, last);
      GrowsTwice(calls, mid, AddToolCalls(calls, list), FromEntries(init), FromEntry(last));
      InOneMore(list, init, last);
      SameSource(calls, AddToolCalls(calls, list), Either(FromEntries(init), FromEntry(last)), FromEntries(list));
    }
  }

  // The function objects of a message are named.
  ghost predicate AllNamed(fs: seq<Object>) {
    forall i :: 0 <= i < |fs| ==> NamedOf(fs[i]).name != ""
  }

  lemma FunctionsBefore(fs: seq<Object>, turn: int, i: nat, id: CallId, call: Call)
    requires i < |fs| - 1
    ensures FunctionIssues(fs, turn, i, id, call) <==> FunctionIssues(fs[..|fs| - 1], turn, i, id, call)
  {
    assert Names(fs)[..i] == Names(fs[..|fs| - 1])[..i];
  }

  lemma {:induction false} FunctionsGrow(calls: Calls, fs: seq<Object>, turn: int)
    requires AllNamed(fs)
    ensures Grows(calls, AddFunctions(calls, fs, turn), FromFunctions(fs, turn))
  {
    if fs != [] {
      var n := |fs| - 1;
      var mid := AddFunctions(calls, fs[..n], turn);
      var last: Source := (id, call) => FunctionIssues(fs, turn, n, id, call);
      FunctionsGrow(calls, fs[..n], turn);
      assert Grows(mid, AddFunctions(calls, fs, turn), last) by { LastFunctionGrows(mid, fs, turn); }
      GrowsTwice(calls, mid, AddFunctions(calls, fs, turn), FromFunctions(fs[..n], turn), last);
      var both := Either(FromFunctions(fs[..n], turn), last);
      forall id, call ensures both(id, call) <==> FromFunctions(fs, turn)(id, call) {
        forall i | 0 <= i < n
          ensures FunctionIssues(fs, turn, i, id, call) <==> FunctionIssues(fs[..n], turn, i, id, call)
        {
          FunctionsBefore(fs, turn, i, id, call);
        }
      }
      SameSource(calls, AddFunctions(calls, fs, turn), both, FromFunctions(fs, turn));
    }
  }

  lemma LastFunctionGrows(calls: Calls, fs: seq<Object>, turn: int)
    requires fs != [] && AllNamed(fs)
    ensures var n := |fs| - 1;
      Grows(calls, Add(calls, KeyAt(Names(fs), turn, n), NamedOf(fs[n]).name, Field(fs[n], "args")),
            (id, call) => FunctionIssues(fs, turn, n, id, call))
  {
  }

  // What one message issues, standing at this place.
  ghost predicate Issues(message: Json, turn: int, id: CallId, call: Call) {
    || ItemIssues(ObjectOf(message), id, call)
    || (ByModel(ObjectOf(message)) &&
        (|| FromBlocks(ArrayOf(Field(ObjectOf(message), "content")))(id, call)
         || FromEntries(ArrayOf(Field(ObjectOf(message), "tool_calls")))(id, call)
         || FromFunctions(MessageCalls(message), turn)(id, call)))
  }

  lemma ItemGrows(calls: Calls, message: Object)
    ensures Grows(calls, AddFunctionCall(calls, message), (id, call) => ItemIssues(message, id, call))
  {
  }

  lemma MessageGrows(calls: Calls, message: Json, turn: int)
    ensures Grows(calls, AddMessage(calls, ObjectOf(message), turn), FromMessage(message, turn))
  {
    var o := ObjectOf(message);
    var item: Source := (id, call) => ItemIssues(o, id, call);
    var one := AddFunctionCall(calls, o);
    ItemGrows(calls, o);
    if ByModel(o) {
      var blocks, list, fs := ArrayOf(Field(o, "content")), ArrayOf(Field(o, "tool_calls")), MessageCalls(message);
      var two := AddBlocks(one, blocks);
      var three := AddToolCalls(two, list);
      var four := AddFunctions(three, fs, turn);
      BlocksGrow(one, blocks);
      EntriesGrow(two, list);
      FunctionsAreNamed(Parts(message), FunctionCall);
      FunctionsGrow(three, fs, turn);
      GrowsTwice(calls, one, two, item, FromBlocks(blocks));
      GrowsTwice(calls, two, three, Either(item, FromBlocks(blocks)), FromEntries(list));
      var source := Either(Either(item, FromBlocks(blocks)), FromEntries(list));
      GrowsTwice(calls, three, four, source, FromFunctions(fs, turn));
      SameSource(calls, four, Either(source, FromFunctions(fs, turn)), FromMessage(message, turn));
    }
  }

  ghost predicate IssuedBy(messages: seq<Json>, turn: int, p: int, id: CallId, call: Call) {
    0 <= p < |messages| && Issues(messages[p], turn + p, id, call)
  }

  ghost function FromMessages(messages: seq<Json>, turn: int): Source {
    (id, call) => exists p :: IssuedBy(messages, turn, p, id, call)
  }

  ghost function FromMessage(message: Json, turn: int): Source {
    (id, call) => Issues(message, turn, id, call)
  }

  lemma MessagesNext(init: seq<Json>, last: Json, turn: int, p: int, id: CallId, call: Call)
    ensures IssuedBy(init + [last], turn, p, id, call) <==>
      IssuedBy(init, turn, p, id, call) || (p == |init| && Issues(last, turn + |init|, id, call))
  {
  }

  lemma SourceNext(init: seq<Json>, last: Json, turn: int, id: CallId, call: Call)
    ensures Either(FromMessages(init, turn), FromMessage(last, turn + |init|))(id, call) <==>
      FromMessages(init + [last], turn)(id, call)
  {
    var all := init + [last];
    MessagesNext(init, last, turn, |init|, id, call);
    if p :| IssuedBy(init, turn, p, id, call) {
      MessagesNext(init, last, turn, p, id, call);
    }
    if p :| IssuedBy(all, turn, p, id, call) {
      MessagesNext(init, last, turn, p, id, call);
    }
  }

  lemma {:induction false} MessagesGrow(messages: seq<Json>, turn: int, calls: Calls)
    requires calls == IssuedCalls(messages, turn)
    ensures Grows(map[], calls, FromMessages(messages, turn))
  {
    if messages != [] {
      var init, last := messages[..|messages| - 1], messages[|messages| - 1];
      var before := IssuedCalls(init, turn);
      MessagesGrow(init, turn, before);
      assert messages == init + [last];
      OneMoreGrows(init, last, turn, before, calls);
    }
  }

  lemma OneMoreGrows(init: seq<Json>, last: Json, turn: int, before: Calls, after: Calls)
    requires Grows(map[], before, FromMessages(init, turn))
    requires after == AddMessage(before, ObjectOf(last), turn + |init|)
    ensures Grows(map[], after, FromMessages(init + [last], turn))
  {
    MessageGrows(before, last, turn + |init|);
    OneMoreSource(init, last, turn, before, after);
  }

  lemma OneMoreSource(init: seq<Json>, last: Json, turn: int, before: Calls, after: Calls)
    requires Grows(map[], before, FromMessages(init, turn)) && Grows(before, after, FromMessage(last, turn + |init|))
    ensures Grows(map[], after, FromMessages(init + [last], turn))
  {
    var source := Either(FromMessages(init, turn), FromMessage(last, turn + |init|));
    GrowsTwice(map[], before, after, FromMessages(init, turn), FromMessage(last, turn + |init|));
    forall id, call ensures source(id, call) <==> FromMessages(init + [last], turn)(id, call) {
      SourceNext(init, last, turn, id, call);
    }
    SameSource(map[], after, source, FromMessages(init + [last], turn));
  }

  // The calls of a list of messages are what its messages issue: each of their ids, with one of its calls.
  lemma CallsAreIssued(messages: seq<Json>, turn: int, id: CallId)
    ensures id in IssuedCalls(messages, turn) <==> exists p, call :: IssuedBy(messages, turn, p, id, call)
    ensures id in IssuedCalls(messages, turn) ==>
      exists p :: IssuedBy(messages, turn, p, id, IssuedCalls(messages, turn)[id])
  {
    var calls := IssuedCalls(messages, turn);
    MessagesGrow(messages, turn, calls);
    if id in calls {
      assert FromMessages(messages, turn)(id, calls[id]);
    }
    if p, call :| IssuedBy(messages, turn, p, id, call) {
      assert FromMessages(messages, turn)(id, call);
    }
  }

  // ----- The answers of a request -----

  // This message answers the call: an Anthropic user message in one of its blocks, or any other by its
  // own id.
  ghost predicate Gives(vendor: Vendor, message: Json, answer: Answer) {
    var o := ObjectOf(message);
    if vendor.Anthropic? && Text(Field(o, "role")) == "user" then
      exists b :: b in ArrayOf(Field(o, "content")) && BlockGives(ObjectOf(b), answer)
    else if Text(Field(o, "role")) == "tool" then
      answer == Answer(Explicit(Text(Field(o, "tool_call_id"))), "", Field(o, "content"), false)
    else
      && Text(Field(o, "type")) == "function_call_output"
      && answer == Answer(Explicit(Text(Field(o, "call_id"))), "", Field(o, "output"), false)
  }

  predicate BlockGives(block: Object, answer: Answer) {
    && Text(Field(block, "type")) == "tool_result"
    && answer.id == Explicit(Text(Field(block, "tool_use_id"))) && answer.name == ""
    && answer.content == Field(block, "content")
    && (answer.isError <==> Field(block, "is_error") == Bool(true))
  }

  lemma {:induction false} BlocksGive(blocks: seq<Json>, answers: seq<Answer>, answer: Answer)
    requires answers == BlockAnswers(blocks)
    ensures answer in answers <==> exists b :: b in blocks && BlockGives(ObjectOf(b), answer)
  {
    if blocks != [] {
      var init, last := blocks[..|blocks| - 1], blocks[|blocks| - 1];
      BlocksGive(init, BlockAnswers(init), answer);
      BlockGivesOne(ObjectOf(last), answer);
      InOneMore(blocks, init, last);
    }
  }

  lemma BlockGivesOne(block: Object, answer: Answer)
    ensures answer in BlockAnswer(block) <==> BlockGives(block, answer)
  {
  }

  lemma MessageGives(vendor: Vendor, message: Json, answer: Answer)
    ensures answer in MessageAnswers(vendor, ObjectOf(message)) <==> Gives(vendor, message, answer)
  {
    var blocks := ArrayOf(Field(ObjectOf(message), "content"));
    BlocksGive(blocks, BlockAnswers(blocks), answer);
  }

  ghost predicate Given(vendor: Vendor, messages: seq<Json>, answer: Answer) {
    exists m :: m in messages && Gives(vendor, m, answer)
  }

  lemma GivenNext(vendor: Vendor, init: seq<Json>, last: Json, answer: Answer)
    ensures Given(vendor, init + [last], answer) <==> Given(vendor, init, answer) || Gives(vendor, last, answer)
  {
    InOneMore(init + [last], init, last);
  }

  lemma {:induction false} MessagesGive(vendor: Vendor, messages: seq<Json>, turn: int, answers: seq<Answer>,
                                        answer: Answer)
    requires vendor != Gemini && answers == AllAnswers(vendor, messages, turn)
    ensures answer in answers <==> Given(vendor, messages, answer)
  {
    if messages != [] {
      var init, last := messages[..|messages| - 1], messages[|messages| - 1];
      assert messages == init + [last];
      MessagesGive(vendor, init, turn, AllAnswers(vendor, init, turn), answer);
      AnswersNext(vendor, init, last, turn, answer);
      GivenNext(vendor, init, last, answer);
    }
  }

  lemma AnswersNext(vendor: Vendor, init: seq<Json>, last: Json, turn: int, answer: Answer)
    requires vendor != Gemini
    ensures answer in AllAnswers(vendor, init + [last], turn) <==>
      answer in AllAnswers(vendor, init, turn) || Gives(vendor, last, answer)
  {
    assert (init + [last])[..|init|] == init;
    MessageGives(vendor, last, answer);
  }

  // An answer counts if it has an id and is the first to have it.
  ghost predicate Counts(answers: seq<Answer>, i: nat) {
    && i < |answers| && answers[i].id != NO_ID
    && forall h :: 0 <= h < i ==> answers[h].id != answers[i].id
  }

  ghost predicate Counted(answers: seq<Answer>, answer: Answer) {
    exists i: nat :: Counts(answers, i) && answers[i] == answer
  }

  ghost predicate HasId(answers: seq<Answer>, id: CallId) {
    exists i :: 0 <= i < |answers| && answers[i].id == id
  }

  lemma CountedNext(init: seq<Answer>, last: Answer, answer: Answer)
    ensures Counted(init + [last], answer) <==>
      Counted(init, answer) || (answer == last && last.id != NO_ID && !HasId(init, last.id))
  {
    var answers := init + [last];
    if i: nat :| Counts(answers, i) && answers[i] == answer {
      if i < |init| {
        CountsBefore(init, last, i);
        assert Counted(init, answer);
      } else {
        assert forall h :: 0 <= h < |init| ==> answers[h] == init[h];
      }
    }
    if i: nat :| Counts(init, i) && init[i] == answer {
      CountsBefore(init, last, i);
      assert Counts(answers, i) && answers[i] == answer;
    }
    if answer == last && last.id != NO_ID && !HasId(init, last.id) {
      assert forall h :: 0 <= h < |init| ==> answers[h] == init[h];
      assert Counts(answers, |init|);
    }
  }

  lemma CountsBefore(init: seq<Answer>, last: Answer, i: nat)
    requires i < |init|
    ensures Counts(init + [last], i) <==> Counts(init, i)
  {
    assert forall h :: 0 <= h < |init| ==> (init + [last])[h] == init[h];
  }

  lemma {:induction false} FirstWith(answers: seq<Answer>, h: nat) returns (i: nat)
    requires h < |answers| && answers[h].id != NO_ID
    ensures Counts(answers, i) && answers[i].id == answers[h].id
  {
    if g :| 0 <= g < h && answers[g].id == answers[h].id {
      i := FirstWith(answers, g);
    } else {
      i := h;
    }
  }

  lemma SameIds(answers: seq<Answer>, first: seq<Answer>, id: CallId)
    requires id != NO_ID && forall a :: a in first <==> Counted(answers, a)
    ensures HasId(first, id) <==> HasId(answers, id)
  {
    if k :| 0 <= k < |first| && first[k].id == id {
      assert first[k] in first;
      var i: nat :| Counts(answers, i) && answers[i] == first[k];
    }
    if h :| 0 <= h < |answers| && answers[h].id == id {
      var i := FirstWith(answers, h);
      assert Counted(answers, answers[i]) && answers[i] in first;
    }
  }

  lemma {:induction false} FirstAnswersCount(answers: seq<Answer>)
    ensures forall a :: a in FirstAnswers(answers) <==> Counted(answers, a)
  {
    if answers != [] {
      var init, last := answers[..|answers| - 1], answers[|answers| - 1];
      var first := FirstAnswers(init);
      FirstAnswersCount(init);
      FirstAnswersNext(init, last);
      assert answers == init + [last];
      if last.id != NO_ID {
        SameIds(init, first, last.id);
      }
      forall a ensures a in FirstAnswers(answers) <==> Counted(answers, a) {
        CountedNext(init, last, a);
      }
    }
  }

  lemma {:induction false} FirstAnswersDiffer(answers: seq<Answer>)
    ensures forall k, l :: 0 <= k < l < |FirstAnswers(answers)| ==>
      FirstAnswers(answers)[k].id != FirstAnswers(answers)[l].id
  {
    if answers != [] {
      FirstAnswersDiffer(answers[..|answers| - 1]);
    }
  }

  // ----- What the results say -----

  // Name and arguments of a result: those of a call in the request that has its id, else those that the
  // answer brings, which is at most a name.
  ghost predicate Called(messages: seq<Json>, turn: int, answer: Answer, call: Call) {
    if exists p, c :: IssuedBy(messages, turn, p, answer.id, c) then
      exists p :: IssuedBy(messages, turn, p, answer.id, call)
    else call == ToolIds.Call(answer.name, Null)
  }

  lemma ResolvedSays(messages: seq<Json>, turn: int, answer: Answer)
    ensures var r := Resolve(IssuedCalls(messages, turn), answer);
      && r.id == answer.id && r.content == answer.content && r.isError == answer.isError
      && Called(messages, turn, answer, r.call)
  {
    CallsAreIssued(messages, turn, answer.id);
  }

  // A result says what one answer after the last model message says, the first with its id.
  ghost predicate Says(vendor: Vendor, messages: seq<Json>, r: Result, answer: Answer) {
    var last := LastIndex(EndsTurn, messages);
    && r.id == answer.id && r.content == answer.content && r.isError == answer.isError
    && if vendor.Gemini? && last >= 0 then Called([messages[last]], last, answer, r.call)
       else Called(messages, 0, answer, r.call)
  }

  // Every result says what an answer that counts says.
  lemma ResultsSay(vendor: Vendor, messages: seq<Json>, k: nat) returns (answer: Answer)
    requires k < |RequestResults(vendor, messages)|
    ensures Counted(RequestAnswers(vendor, messages), answer)
    ensures Says(vendor, messages, RequestResults(vendor, messages)[k], answer)
  {
    var first := FirstAnswers(RequestAnswers(vendor, messages));
    FirstAnswersCount(RequestAnswers(vendor, messages));
    answer := first[k];
    assert answer in first;
    ResultSays(vendor, messages, answer);
  }

  // Every answer that counts has its result, and only one.
  lemma AnswersHaveResults(vendor: Vendor, messages: seq<Json>, answer: Answer) returns (k: nat)
    requires Counted(RequestAnswers(vendor, messages), answer)
    ensures k < |RequestResults(vendor, messages)|
    ensures Says(vendor, messages, RequestResults(vendor, messages)[k], answer)
    ensures forall l :: 0 <= l < |RequestResults(vendor, messages)| && l != k ==>
      RequestResults(vendor, messages)[l].id != answer.id
  {
    var first := FirstAnswers(RequestAnswers(vendor, messages));
    FirstAnswersCount(RequestAnswers(vendor, messages));
    FirstAnswersDiffer(RequestAnswers(vendor, messages));
    assert answer in first;
    k :| k < |first| && first[k] == answer;
    ResultSays(vendor, messages, answer);
  }

  lemma ResultSays(vendor: Vendor, messages: seq<Json>, answer: Answer)
    ensures Says(vendor, messages, Resolve(RequestCalls(vendor, messages), answer), answer)
  {
    var last := LastIndex(EndsTurn, messages);
    if vendor == Gemini && last >= 0 {
      ResolvedSays([messages[last]], last, answer);
    } else {
      ResolvedSays(messages, 0, answer);
    }
  }

  lemma AnswersBehind(vendor: Vendor, messages: seq<Json>, last: int, tail: seq<Json>, answers: seq<Answer>)
    requires last == LastIndex(EndsTurn, messages) && tail == messages[last + 1..]
    requires answers == AllAnswers(vendor, tail, last)
    ensures RequestAnswers(vendor, messages) == answers
  {
  }

  // Which answers a request has. All but Gemini's name the call by its id.
  lemma AnswersGiven(vendor: Vendor, messages: seq<Json>, tail: seq<Json>, answer: Answer)
    requires !vendor.Gemini? && tail == messages[LastIndex(EndsTurn, messages) + 1..]
    ensures answer in RequestAnswers(vendor, messages) <==> Given(vendor, tail, answer)
  {
    var last := LastIndex(EndsTurn, messages);
    var answers := AllAnswers(vendor, tail, last);
    AnswersBehind(vendor, messages, last, tail, answers);
    MessagesGive(vendor, tail, last, answers, answer);
  }

  predicate SaysResponse(f: Object, answer: Answer) {
    && answer.name == Text(Field(f, "name")) && answer.content == Field(f, "response")
    && (answer.isError <==> "error" in ObjectOf(Field(f, "response")))
  }

  lemma GeminiAnswerSays(fs: seq<Object>, turn: int, j: nat)
    requires j < |fs|
    ensures SaysResponse(fs[j], GeminiAnswers(fs, turn)[j])
  {
  }

  lemma GeminiAnswersSay(fs: seq<Object>, turn: int, answers: seq<Answer>)
    requires answers == GeminiAnswers(fs, turn)
    ensures |answers| == |fs| && forall j :: 0 <= j < |fs| ==> SaysResponse(fs[j], answers[j])
  {
    forall j | 0 <= j < |fs| ensures SaysResponse(fs[j], answers[j]) {
      GeminiAnswerSays(fs, turn, j);
    }
  }

  lemma GeminiRequest(messages: seq<Json>, last: int, tail: seq<Json>, fs: seq<Object>)
    requires last == LastIndex(EndsTurn, messages) && tail == messages[last + 1..] && fs == Responses(tail)
    ensures RequestAnswers(Gemini, messages) == GeminiAnswers(fs, last)
  {
    AnswersBehind(Gemini, messages, last, tail, AllAnswers(Gemini, tail, last));
  }

  // Gemini's name the function, bring its whole response, and are errors if it has an error field.
  lemma GeminiAnswersGiven(messages: seq<Json>, last: int, tail: seq<Json>, fs: seq<Object>, answers: seq<Answer>)
    requires last == LastIndex(EndsTurn, messages) && tail == messages[last + 1..] && fs == Responses(tail)
    requires answers == RequestAnswers(Gemini, messages)
    ensures |answers| == |fs| && forall j :: 0 <= j < |fs| ==> SaysResponse(fs[j], answers[j])
  {
    GeminiRequest(messages, last, tail, fs);
    GeminiAnswersSay(fs, last, answers);
  }

  // ----- One history -----

  // Turns and tool results read the same list of messages, except for a Gemini request whose path ends
  // like the one of OpenAI's responses.
  lemma SameHistory(vendor: Vendor, path: string, request: Object)
    requires !(vendor.Gemini? && HasSuffix(path, "/responses"))
    ensures MessageList(vendor, path, request) ==
      ArrayOf(Field(request, TurnAnchor.HistoryOf(vendor, path).Name()))
    ensures vendor.Gemini? ==> MessageList(vendor, path, request) == ArrayOf(Field(request, "contents"))
    ensures !vendor.Gemini? && HasSuffix(path, "/responses") ==>
      MessageList(vendor, path, request) == ArrayOf(Field(request, "input"))
  {
  }
}
