// From the stream to the next request: the function calls of a streamed Gemini reply survive its
// reassembly, so answers find them (internal/proxy/parser.go, relay.go).
module GeminiReplies {
  import opened Prelude
  import opened Json
  import opened GeminiParts
  import opened ToolIds

  function Jsons(parts: seq<Part>): seq<Json> {
    seq(|parts|, i requires 0 <= i < |parts| => Obj(parts[i]))
  }

  // The named function call of a part, if it has one.
  function CallOf(p: Part): seq<Object> {
    var f := FunctionCall(Obj(p));
    if NamedOf(f).name == "" then [] else [f]
  }

  function CallsIn(parts: seq<Part>): seq<Object> {
    Functions(Jsons(parts), FunctionCall)
  }

  lemma CallsNext(parts: seq<Part>, p: Part)
    ensures CallsIn(parts + [p]) == CallsIn(parts) + CallOf(p)
  {
    assert Jsons(parts + [p]) == Jsons(parts) + [Obj(p)];
    assert (Jsons(parts) + [Obj(p)])[..|parts|] == Jsons(parts);
  }

  lemma SameField(p: Part, q: Part)
    requires Field(p, "functionCall") == Field(q, "functionCall")
    ensures CallOf(p) == CallOf(q)
  {
  }

  lemma CleanedKeepsCall(p: Part)
    ensures CallOf(Cleaned(p)) == CallOf(p)
  {
    assert "functionCall" != SIGNATURE by {
      assert |"functionCall"| != |SIGNATURE|;
    }
    SameField(Cleaned(p), p);
  }

  lemma TextKeepsCall(p: Part, text: string)
    ensures CallOf(WithText(p, text)) == CallOf(p)
  {
    assert "functionCall" != "text" by {
      assert |"functionCall"| != |"text"|;
    }
    SameField(WithText(p, text), p);
  }

  lemma BlankHasNoCall(p: Part)
    requires Blank(p)
    ensures CallOf(p) == []
  {
    assert "functionCall" != "text" by {
      assert |"functionCall"| != |"text"|;
    }
    assert Field(p, "functionCall") == Null;
  }

  lemma {:induction false} CollectedKeepsCalls(parts: seq<Part>)
    ensures CallsIn(Collected(parts)) == CallsIn(parts)
  {
    if parts != [] {
      var init, p := parts[..|parts| - 1], parts[|parts| - 1];
      assert parts == init + [p];
      CollectedKeepsCalls(init);
      CallsNext(init, p);
      CleanedKeepsCall(p);
      if Blank(Cleaned(p)) {
        BlankHasNoCall(Cleaned(p));
        assert Collected(init) + [] == Collected(init);
      } else {
        CallsNext(Collected(init), Cleaned(p));
      }
    }
  }

  // A text part with a call of its own would lose the call when it is joined to the text before it.
  ghost predicate Pure(p: Part) {
    IsText(p) ==> CallOf(p) == []
  }

  lemma PushKeepsCalls(result: seq<Part>, p: Part)
    requires Pure(p)
    ensures CallsIn(Push(result, p)) == CallsIn(result) + CallOf(p)
  {
    if result != [] && IsText(p) && IsText(result[|result| - 1]) {
      var init, last := result[..|result| - 1], result[|result| - 1];
      var joined := WithText(last, TextOf(last) + TextOf(p));
      assert result == init + [last] && Push(result, p) == init + [joined];
      TextKeepsCall(last, TextOf(last) + TextOf(p));
      CallsNext(init, last);
      CallsNext(init, joined);
      assert CallsIn(result) + [] == CallsIn(result);
    } else {
      CallsNext(result, p);
    }
  }

  lemma {:induction false} MergeKeepsCalls(parts: seq<Part>)
    requires forall i :: 0 <= i < |parts| ==> Pure(parts[i])
    ensures CallsIn(Merge(parts)) == CallsIn(parts)
  {
    if parts != [] {
      var init, p := parts[..|parts| - 1], parts[|parts| - 1];
      assert parts == init + [p];
      assert forall i :: 0 <= i < |init| ==> init[i] == parts[i];
      MergeKeepsCalls(init);
      PushKeepsCalls(Merge(init), p);
      CallsNext(init, p);
    }
  }

  lemma {:induction false} CollectedIsPure(parts: seq<Part>)
    requires forall i :: 0 <= i < |parts| ==> Pure(parts[i])
    ensures forall i :: 0 <= i < |Collected(parts)| ==> Pure(Collected(parts)[i])
  {
    if parts != [] {
      var init, p := parts[..|parts| - 1], parts[|parts| - 1];
      assert forall i :: 0 <= i < |init| ==> init[i] == parts[i];
      CollectedIsPure(init);
      CleanedKeepsCall(p);
      assert "text" != SIGNATURE by {
        assert |"text"| != |SIGNATURE|;
      }
      assert IsText(Cleaned(p)) <==> IsText(p);
    }
  }

  // The reassembled message has the function calls of the streamed parts, in order.
  lemma MessageKeepsCalls(parts: seq<Part>)
    requires forall i :: 0 <= i < |parts| ==> Pure(parts[i])
    ensures CallsIn(Message(parts)) == CallsIn(parts)
  {
    CollectedIsPure(parts);
    MergeKeepsCalls(Collected(parts));
    CollectedKeepsCalls(parts);
  }

  // A reply is streamed and captured. The next request repeats the history and the model's message
  // with the same calls, in whatever parts, and then answers: an answer without an id finds the
  // recorded call without an id that has its name and rank.
  lemma AnswerFindsStreamedCall(contents: seq<Json>, parts: seq<Part>, reply: Json, tail: seq<Json>, i: nat, j: nat)
    requires forall h :: 0 <= h < |parts| ==> Pure(parts[h])
    requires ByModel(ObjectOf(reply)) && MessageCalls(reply) == CallsIn(parts) && Absent(EndsTurn, tail)
    requires i < |CallsIn(parts)| && j < |Responses(tail)|
    requires var calls, responses := Names(CallsIn(parts)), Names(Responses(tail));
      && calls[i].id == "" == responses[j].id && calls[i].name == responses[j].name
      && Count(calls[..i], calls[i].name) == Count(responses[..j], responses[j].name)
    ensures var output := GeminiMessage("assistant", Jsons(Message(parts)));
      && j < |RequestAnswers(Gemini, contents + [reply] + tail)|
      && RequestAnswers(Gemini, contents + [reply] + tail)[j].id == KeyAt(Names(CallsIn(parts)), |contents|, i)
      && RequestAnswers(Gemini, contents + [reply] + tail)[j].id in IssuedCalls([output], |contents|)
  {
    var output := GeminiMessage("assistant", Jsons(Message(parts)));
    MessageRead("assistant", Jsons(Message(parts)));
    MessageKeepsCalls(parts);
    assert MessageCalls(output) == MessageCalls(reply);
    IssueAndResultAgree(contents, reply, tail, Names(MessageCalls(reply)), Names(Responses(tail)), i, j);
    SyntheticKeysEqual(Names(MessageCalls(reply)), Names(Responses(tail)), |contents|, |contents|, i, j);
    AnsweredCallIsRecorded(contents, output, reply, tail, i, j);
  }
}
