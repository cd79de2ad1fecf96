// Tool calls and turns together (capture and recordDroppedOrigins in internal/proxy/relay.go): the
// trace of an exchange with a session is the one of the turn it joins.
module JointRuns {
  import opened Prelude
  import opened Correlation
  import opened CorrelationRuns
  import opened Json
  import opened ResultSpans
  import opened SpanContents
  import TurnAnchor
  import TurnTable

  type TurnKey = TurnAnchor.TurnKey

  // One step of the proxy. `capture` is what the exchange means to the turns, if it has a session;
  // `expired` are the turn records that retention deletes, in a step of its own or between the
  // lookup and the commit of a capture.
  datatype Joint = Joint(step: Step, capture: Option<TurnTable.Capture>, expired: set<TurnKey>)

  function Steps(joints: seq<Joint>): seq<Step> {
    seq(|joints|, i requires 0 <= i < |joints| => joints[i].step)
  }

  // What a step does to the turn records; a dropped exchange only reads them.
  function EventOf(j: Joint): TurnTable.Event {
    if j.step.Captured? && j.capture.Some? then TurnTable.Joins(j.capture.value, j.expired)
    else TurnTable.Expires(j.expired)
  }

  function Events(joints: seq<Joint>): seq<TurnTable.Event> {
    seq(|joints|, i requires 0 <= i < |joints| => EventOf(joints[i]))
  }

  // The turn that step i joins; `text` is the stored form of a turn's key.
  ghost function TurnOf(joints: seq<Joint>, text: TurnKey -> string, i: nat): TurnKey
    requires i < |joints| && joints[i].capture.Some?
  {
    TurnTable.Resolve(TurnTable.Run(Events(joints[..i]), text).turns, joints[i].capture.value, text)
  }

  predicate HasTurn(j: Joint) {
    j.capture.Some? && (j.step.Captured? || j.step.Dropped?)
  }

  // The exchange goes where its turn is, captured or dropped; a capture brings the turn's root. Turns
  // and tool calls are scoped by the same route and session.
  ghost predicate Follows(joints: seq<Joint>, text: TurnKey -> string, i: nat)
    requires i < |joints|
  {
    var j := joints[i];
    HasTurn(j) ==>
      var turn := text(TurnOf(joints, text, i));
      && j.capture.value.route == j.step.ex.route && j.capture.value.session == j.step.ex.session
      && j.step.ex.traceId == TurnTrace(turn)
      && (j.step.Captured? ==> j.step.ex.root.Some? && j.step.ex.root.value.traceId == TurnTrace(turn)
                               && j.step.ex.root.value.spanId == TurnRoot(turn))
  }

  ghost predicate JointLegal(joints: seq<Joint>, text: TurnKey -> string) {
    Legal(Steps(joints)) && forall i :: 0 <= i < |joints| ==> Follows(joints, text, i)
  }

  ghost predicate Injective(text: TurnKey -> string) {
    forall a, b :: text(a) == text(b) ==> a == b
  }

  // The exchange carries this history, whose last prompt is its anchor.
  ghost predicate Carries(j: Joint, isPrompt: Json -> bool, items: seq<Json>) {
    var last := LastIndex(isPrompt, items);
    HasTurn(j) && last >= 0 && j.capture.value.anchor == Some(TurnTable.Anchor(last, items[last]))
  }

  predicate SameScope(a: Exchange, b: Exchange) {
    a.route == b.route && a.session == b.session
  }

  // Exchanges share a trace if and only if they joined the same turn.
  lemma OneTracePerTurn(joints: seq<Joint>, text: TurnKey -> string, i: nat, j: nat)
    requires JointLegal(joints, text) && Injective(text)
    requires i < |joints| && j < |joints| && HasTurn(joints[i]) && HasTurn(joints[j])
    ensures joints[i].step.ex.traceId == joints[j].step.ex.traceId <==>
      TurnOf(joints, text, i) == TurnOf(joints, text, j)
  {
    assert Follows(joints, text, i) && Follows(joints, text, j);
  }

  // A growing conversation, in any run: two of its exchanges, captured or dropped and in whichever
  // order they are processed, share a trace if and only if the longer history adds no prompt.
  lemma ConversationSharesTrace(joints: seq<Joint>, text: TurnKey -> string, i: nat, j: nat,
                                isPrompt: Json -> bool, items: seq<Json>, more: seq<Json>)
    requires JointLegal(joints, text) && Injective(text) && i < |joints| && j < |joints|
    requires Carries(joints[i], isPrompt, items) && Carries(joints[j], isPrompt, items + more)
    requires SameScope(joints[i].step.ex, joints[j].step.ex)
    ensures joints[i].step.ex.traceId == joints[j].step.ex.traceId <==> Absent(isPrompt, more)
  {
    assert Follows(joints, text, i) && Follows(joints, text, j);
    OneTracePerTurn(joints, text, i, j);
    TurnTable.AnchoredTurnIsStable(
      isPrompt, items, more, joints[i].capture.value, joints[j].capture.value,
      TurnTable.Run(Events(joints[..i]), text).turns, TurnTable.Run(Events(joints[..j]), text).turns, text);
  }

  // An Anthropic message that only hands over tool results, or is not the user's.
  ghost predicate HandsOver(item: Json) {
    !TurnAnchor.ByUser(item) ||
    (Field(ObjectOf(item), "content").Arr?
     && forall block :: block in Field(ObjectOf(item), "content").items ==>
          Text(Field(ObjectOf(block), "type")) == "tool_result")
  }

  // For instance with Anthropic: an agent's loop of calls and tool results stays in one trace, and the
  // next message that the user types opens another.
  lemma ToolLoopSharesTrace(joints: seq<Joint>, text: TurnKey -> string, i: nat, j: nat, history: TurnAnchor.History,
                            items: seq<Json>, more: seq<Json>)
    requires JointLegal(joints, text) && Injective(text) && i < |joints| && j < |joints|
    requires var isPrompt := TurnAnchor.Prompts(Anthropic, history);
      Carries(joints[i], isPrompt, items) && Carries(joints[j], isPrompt, items + more)
    requires SameScope(joints[i].step.ex, joints[j].step.ex)
    ensures (forall k :: 0 <= k < |more| ==> HandsOver(more[k])) ==>
      joints[i].step.ex.traceId == joints[j].step.ex.traceId
    ensures (exists k :: 0 <= k < |more| && TurnAnchor.ByUser(more[k]) && Field(ObjectOf(more[k]), "content").Str?) ==>
      joints[i].step.ex.traceId != joints[j].step.ex.traceId
  {
    var isPrompt := TurnAnchor.Prompts(Anthropic, history);
    ConversationSharesTrace(joints, text, i, j, isPrompt, items, more);
    forall k | 0 <= k < |more| ensures HandsOver(more[k]) ==> !isPrompt(more[k]) {
      TurnAnchor.ContinuationsAreNoPrompts(Anthropic, history, more[k]);
    }
    if k :| 0 <= k < |more| && TurnAnchor.ByUser(more[k]) && Field(ObjectOf(more[k]), "content").Str? {
      TurnAnchor.UserPromptIff(Anthropic, history, more[k]);
      assert isPrompt(more[k]);
    }
  }

  // The span of an answered call lies in the trace of the turn that the issuing exchange joined,
  // under that exchange's model span, even if the exchange was dropped.
  lemma AnsweredCallIsInItsTurn(joints: seq<Joint>, text: TurnKey -> string, k: ToolKey, i: int, j: int)
    requires JointLegal(joints, text) && FirstIssue(Steps(joints), k, i) && FirstAnswer(Steps(joints), k, i, j)
    requires joints[i].capture.Some?
    requires Live(NewOrigin(joints[i].step.ex, joints[i].step.ex.calls[k.id]), Cutoff(Steps(joints)))
    ensures var issue, answer, spans := joints[i].step.ex, joints[j].step.ex, Run(Steps(joints)).spans;
      var trace := TurnTrace(text(TurnOf(joints, text, i)));
      && ((trace, ToolSpan(k)) in spans <==> Kept(Steps(joints), k, i, trace))
      && (NotBefore(answer.startNs, PurgeCutoff(Steps(joints))) ==> (trace, ToolSpan(k)) in spans)
      && ((trace, ToolSpan(k)) in spans ==>
            && spans[(trace, ToolSpan(k))].parentId == issue.SpanId()
            && spans[(trace, ToolSpan(k))].endNs == answer.startNs
            && spans[(trace, ToolSpan(k))].startNs == Min(issue.endNs, answer.startNs))
  {
    assert Follows(joints, text, i);
    assert Steps(joints)[i] == joints[i].step && Steps(joints)[j] == joints[j].step;
    AnsweredCallIsLinked(Steps(joints), k, i, j);
  }

  // So the span of a call issued anywhere in a turn lies in the trace of every exchange of that turn:
  // each one whose history continues the issuer's, or is continued by it, without a new prompt.
  lemma AnsweredCallStaysInConversation(joints: seq<Joint>, text: TurnKey -> string, k: ToolKey, i: int, j: int, h: int,
                                        isPrompt: Json -> bool, items: seq<Json>, more: seq<Json>)
    requires JointLegal(joints, text) && Injective(text)
    requires FirstIssue(Steps(joints), k, i) && FirstAnswer(Steps(joints), k, i, j) && 0 <= h < |joints|
    requires Live(NewOrigin(joints[i].step.ex, joints[i].step.ex.calls[k.id]), Cutoff(Steps(joints)))
    requires Absent(isPrompt, more)
    requires || (Carries(joints[i], isPrompt, items) && Carries(joints[h], isPrompt, items + more))
             || (Carries(joints[h], isPrompt, items) && Carries(joints[i], isPrompt, items + more))
    requires SameScope(joints[i].step.ex, joints[h].step.ex)
    ensures var trace := joints[h].step.ex.traceId; var spans := Run(Steps(joints)).spans;
      && ((trace, ToolSpan(k)) in spans <==> Kept(Steps(joints), k, i, trace))
      && (NotBefore(joints[j].step.ex.startNs, PurgeCutoff(Steps(joints))) ==> (trace, ToolSpan(k)) in spans)
  {
    if Carries(joints[i], isPrompt, items) && Carries(joints[h], isPrompt, items + more) {
      ConversationSharesTrace(joints, text, i, h, isPrompt, items, more);
    } else {
      ConversationSharesTrace(joints, text, h, i, isPrompt, items, more);
    }
    assert Follows(joints, text, i);
    AnsweredCallIsInItsTurn(joints, text, k, i, j);
  }

  // A batch begins with the model span, ends with the root, and holds neither twice.
  lemma BatchEnds(spans: SpanTable, m: Origins, ex: Exchange)
    requires ex.WellFormed() && ex.root.Some? && ex.root.value.spanId != ex.SpanId()
    ensures var model, root, stored := ex.ModelRow(), ex.root.value, UpsertRows(spans, Batch(ex, m));
      && (ex.traceId, ex.SpanId()) in stored && stored[(ex.traceId, ex.SpanId())] == ex.model
      && (root.traceId, root.spanId) in stored && stored[(root.traceId, root.spanId)] == root.span
  {
    var rows := Batch(ex, m);
    forall l | 0 < l < |rows| ensures rows[l].spanId != ex.SpanId() {
      if l < |rows| - 1 {
        ResultRowAt(m, ex, ex.results, l - 1);
      }
    }
    LastRowStays(spans, rows, 0, ex.traceId, ex.SpanId());
    LastRowStays(spans, rows, |rows| - 1, ex.root.value.traceId, ex.root.value.spanId);
  }

  // A capture stores its model span and the turn's root side by side.
  lemma CaptureStoresItsTurn(joints: seq<Joint>, text: TurnKey -> string)
    requires joints != [] && JointLegal(joints, text)
    requires joints[|joints| - 1].step.Captured? && joints[|joints| - 1].capture.Some?
    ensures var n := |joints| - 1; var turn := text(TurnOf(joints, text, n)); var spans := Run(Steps(joints)).spans;
      && joints[n].step.ex.root.Some? && (TurnTrace(turn), TurnRoot(turn)) in spans
      && spans[(TurnTrace(turn), TurnRoot(turn))] == joints[n].step.ex.root.value.span
      && (TurnTrace(turn), joints[n].step.ex.SpanId()) in spans
      && spans[(TurnTrace(turn), joints[n].step.ex.SpanId())] == joints[n].step.ex.model
  {
    var n := |joints| - 1;
    var steps, ex := Steps(joints), joints[n].step.ex;
    assert Follows(joints, text, n);
    assert steps == steps[..n] + [steps[n]];
    RunNext(steps[..n], steps[n]);
    BatchEnds(Run(steps[..n]).spans, Run(steps[..n]).View(), ex);
  }
}
