// Reassembling streamed replies (parseAnthropicChunks, orderedBlocks, parseAnthropicJSON and the
// tool deltas of parseOpenAIChunks in internal/proxy/parser.go).
module Streams {
  import opened Prelude
  import opened Json
  import opened Order

  // ----- Anthropic -----

  datatype Kind = TextBlock | Thinking | ToolUse | OtherKind | NoKind

  // A content block: the fields the parser looks at, and the rest. `thinking` comes only from the
  // vendor, `chars` and `partial` are only written by the parser. Lengths are in bytes.
  datatype Block = Block(kind: Kind, text: Option<string>, thinking: string, chars: Option<int>,
    partial: Option<string>,
                         input: Option<Json>, signature: Option<string>, rest: Object)

  const EMPTY_BLOCK := Block(NoKind, None, "", None, None, None, None, map[])

  datatype Delta = TextDelta(text: string) | ThinkingDelta(text: string) | InputDelta(text: string) | OtherDelta

  datatype Event = Start(index: int, block: Block) | Change(index: int, delta: Delta) | OtherEvent

  type Blocks = map<int, Block>

  function Or<T>(o: Option<T>, default: T): T {
    if o.Some? then o.value else default
  }

  // content_block_start: thinking is reduced to its length, text loses its signature.
  function Opened(b: Block): Block {
    match b.kind
    case Thinking => EMPTY_BLOCK.(kind := Thinking, chars := Some(|b.thinking|))
    case TextBlock => b.(signature := None)
    case _ => b
  }

  function Changed(b: Block, d: Delta): Block {
    match d
    case TextDelta(text) => b.(text := Some(Or(b.text, "") + text))
    case ThinkingDelta(text) => b.(chars := Some(Or(b.chars, 0) + |text|))
    case InputDelta(text) => b.(partial := Some(Or(b.partial, "") + text))
    case OtherDelta => b
  }

  function Step(blocks: Blocks, e: Event): Blocks {
    match e
    case Start(index, block) => blocks[index := Opened(block)]
    case Change(index, delta) => blocks[index := Changed(if index in blocks then blocks[index] else EMPTY_BLOCK, delta)]
    case OtherEvent => blocks
  }

  function Fold(events: seq<Event>): Blocks {
    if events == [] then map[] else Step(Fold(events[..|events| - 1]), events[|events| - 1])
  }

  type Decoder = string -> Option<Json>

  // Collected tool input is decoded, or kept as text. Empty collected input stays where it is.
  function Finished(b: Block, decode: Decoder): Block {
    if Or(b.partial, "") == "" then b
    else b.(input := Some(Or(decode(b.partial.value), Str(b.partial.value))), partial := None)
  }

  method FoldChunks(events: seq<Event>) returns (blocks: Blocks)
    ensures blocks == Fold(events)
  {
    blocks := map[];
    for i := 0 to |events|
      invariant blocks == Fold(events[..i])
    {
      assert events[..i + 1][..i] == events[..i];
      match events[i]
      case Start(index, b) =>
        var block := b;
        if block.kind == Thinking {
          block := EMPTY_BLOCK.(kind := Thinking, chars := Some(|b.thinking|));
        } else if block.kind == TextBlock {
          block := block.(signature := None);
        }
        blocks := blocks[index := block];
      case Change(index, delta) =>
        var block := if index in blocks then blocks[index] else EMPTY_BLOCK;
        match delta {
          case TextDelta(text) => block := block.(text := Some(Or(block.text, "") + text));
          case ThinkingDelta(text) => block := block.(chars := Some(Or(block.chars, 0) + |text|));
          case InputDelta(text) => block := block.(partial := Some(Or(block.partial, "") + text));
          case OtherDelta =>
        }
        blocks := blocks[index := block];
      case OtherEvent =>
    }
    assert events[..|events|] == events;
  }

  predicate IntLeq(a: int, b: int) {
    a <= b
  }

  ghost predicate Ascending(indexes: seq<int>) {
    forall i, j :: 0 <= i < j < |indexes| ==> indexes[i] < indexes[j]
  }

  // `result` lists the finished blocks in ascending order of index.
  ghost predicate InOrder(blocks: Blocks, decode: Decoder, indexes: seq<int>, result: seq<Block>) {
    && Ascending(indexes) && |result| == |indexes|
    && (forall index :: index in indexes <==> index in blocks)
    && forall i :: 0 <= i < |indexes| ==> indexes[i] in blocks && result[i] == Finished(blocks[indexes[i]], decode)
  }

  method SortedKeys(blocks: Blocks) returns (keys: seq<int>)
    ensures Ascending(keys)
    ensures forall index :: index in keys <==> index in blocks
  {
    keys := [];
    var remaining: set<int> := blocks.Keys;
    ghost var done: set<int> := {};
    while remaining != {}
      invariant done !! remaining && done + remaining == blocks.Keys
      invariant Enumerates(keys, done)
      decreases remaining
    {
      assert (forall index: int :: index !in remaining) ==> remaining == {};
      var index: int :| index in remaining;
      DistinctAppend(keys, done, index);
      keys, remaining, done := keys + [index], remaining - {index}, done + {index};
    }
    SortSorts(IntLeq, keys);
    SortMembers(IntLeq, keys);
    SortDistinct(IntLeq, keys);
    keys := Sort(IntLeq, keys);
  }

  method OrderedBlocks(blocks: Blocks, decode: Decoder) returns (result: seq<Block>)
    ensures exists indexes :: InOrder(blocks, decode, indexes, result)
  {
    var keys := SortedKeys(blocks);
    result := [];
    for i := 0 to |keys|
      invariant |result| == i
      invariant forall j :: 0 <= j < i ==> keys[j] in blocks && result[j] == Finished(blocks[keys[j]], decode)
    {
      assert keys[i] in keys;
      result := result + [Finished(blocks[keys[i]], decode)];
    }
    assert InOrder(blocks, decode, keys, result);
  }

  // ----- What a block is after any stream -----

  datatype Channel = TextChannel | ThinkingChannel | InputChannel

  predicate On(channel: Channel, d: Delta) {
    match d
    case TextDelta(_) => channel == TextChannel
    case ThinkingDelta(_) => channel == ThinkingChannel
    case InputDelta(_) => channel == InputChannel
    case OtherDelta => false
  }

  // The concatenation of a channel's fragments; none when nothing was sent on it.
  function Joined(channel: Channel, deltas: seq<Delta>): Option<string> {
    if deltas == [] then None
    else
      var before, d := Joined(channel, deltas[..|deltas| - 1]), deltas[|deltas| - 1];
      if On(channel, d) then Some(Or(before, "") + d.text) else before
  }

  function Appended(value: Option<string>, more: Option<string>): Option<string> {
    if more.Some? then Some(Or(value, "") + more.value) else value
  }

  // A block extended by the concatenation of its fragments.
  function Extended(b: Block, deltas: seq<Delta>): Block {
    var thought := Joined(ThinkingChannel, deltas);
    b.(text := Appended(b.text, Joined(TextChannel, deltas)),
       chars := if thought.Some? then Some(Or(b.chars, 0) + |thought.value|) else b.chars,
       partial := Appended(b.partial, Joined(InputChannel, deltas)))
  }

  lemma JoinedNext(channel: Channel, deltas: seq<Delta>, d: Delta)
    ensures Joined(channel, deltas + [d]) ==
      if On(channel, d) then Some(Or(Joined(channel, deltas), "") + d.text) else Joined(channel, deltas)
  {
    assert (deltas + [d])[..|deltas|] == deltas;
  }

  lemma ExtendedNext(b: Block, deltas: seq<Delta>, d: Delta)
    ensures Extended(b, deltas + [d]) == Changed(Extended(b, deltas), d)
  {
    JoinedNext(TextChannel, deltas, d);
    JoinedNext(ThinkingChannel, deltas, d);
    JoinedNext(InputChannel, deltas, d);
    if d.TextDelta? {
      AppendedNext(b.text, Joined(TextChannel, deltas), d.text);
    } else if d.InputDelta? {
      AppendedNext(b.partial, Joined(InputChannel, deltas), d.text);
    }
  }

  lemma AppendedNext(value: Option<string>, more: Option<string>, next: string)
    ensures Appended(value, Some(Or(more, "") + next)) == Some(Or(Appended(value, more), "") + next)
  {
    assert Or(value, "") + ("" + next) == Or(value, "") + next;
    if more.Some? {
      assert Or(value, "") + (more.value + next) == Or(value, "") + more.value + next;
    }
  }

  predicate Starts(e: Event, index: int) {
    e.Start? && e.index == index
  }

  predicate Concerns(e: Event, index: int) {
    e.Change? && e.index == index
  }

  predicate Appears(index: int, events: seq<Event>) {
    exists i :: 0 <= i < |events| && (Starts(events[i], index) || Concerns(events[i], index))
  }

  // The block of the last start of an index; the empty block when it was not started.
  function Base(index: int, events: seq<Event>): Block {
    if events == [] then EMPTY_BLOCK
    else
      var last := events[|events| - 1];
      if Starts(last, index) then Opened(last.block) else Base(index, events[..|events| - 1])
  }

  // Its deltas since that start, in order.
  function Since(index: int, events: seq<Event>): seq<Delta> {
    if events == [] || Starts(events[|events| - 1], index) then []
    else
      var last := events[|events| - 1];
      Since(index, events[..|events| - 1]) + if Concerns(last, index) then [last.delta] else []
  }

  lemma AppearsNext(index: int, init: seq<Event>, last: Event)
    ensures Appears(index, init + [last]) <==> Appears(index, init) || Starts(last, index) || Concerns(last, index)
  {
    var events := init + [last];
    assert events[|init|] == last;
    assert forall i :: 0 <= i < |init| ==> events[i] == init[i];
  }

  // The block is the base extended by the concatenation of the fragments since.
  ghost predicate IsBlock(index: int, blocks: Blocks, appears: bool, base: Block, since: seq<Delta>) {
    && (index in blocks <==> appears)
    && (appears ==> blocks[index] == Extended(base, since))
    && (!appears ==> base == EMPTY_BLOCK && since == [])
  }

  lemma StartNext(index: int, blocks: Blocks, e: Event)
    requires Starts(e, index)
    ensures IsBlock(index, Step(blocks, e), true, Opened(e.block), [])
  {
    assert Extended(Opened(e.block), []) == Opened(e.block);
  }

  lemma OtherNext(index: int, blocks: Blocks, appears: bool, base: Block, since: seq<Delta>, e: Event)
    requires !Starts(e, index) && IsBlock(index, blocks, appears, base, since)
    ensures Concerns(e, index) ==> IsBlock(index, Step(blocks, e), true, base, since + [e.delta])
    ensures !Concerns(e, index) ==> IsBlock(index, Step(blocks, e), appears, base, since)
  {
    if Concerns(e, index) {
      ExtendedNext(base, since, e.delta);
      assert Extended(EMPTY_BLOCK, []) == EMPTY_BLOCK;
    }
  }

  // A block is its last start extended by its own fragments since, under any interleaving with
  // other indexes.
  lemma {:induction false} BlockIsConcatenation(index: int, events: seq<Event>)
    ensures IsBlock(index, Fold(events), Appears(index, events), Base(index, events), Since(index, events))
    decreases |events|
  {
    if events != [] {
      var init, last := events[..|events| - 1], events[|events| - 1];
      assert events == init + [last];
      BlockIsConcatenation(index, init);
      AppearsNext(index, init, last);
      if Starts(last, index) {
        StartNext(index, Fold(init), last);
      } else {
        OtherNext(index, Fold(init), Appears(index, init), Base(index, init), Since(index, init), last);
        assert !Concerns(last, index) ==> Since(index, events) == Since(index, init);
      }
    }
  }

  // ----- Streaming and whole-message parsing agree -----

  // parseAnthropicJSON on one content item.
  function Whole(b: Block): Block {
    (if b.kind == Thinking then EMPTY_BLOCK.(kind := Thinking, chars := Some(|b.thinking|)) else b).(signature := None)
  }

  method WholeBlocks(items: seq<Block>) returns (blocks: seq<Block>)
    ensures |blocks| == |items| && forall i :: 0 <= i < |items| ==> blocks[i] == Whole(items[i])
  {
    blocks := [];
    for i := 0 to |items|
      invariant |blocks| == i && forall j :: 0 <= j < i ==> blocks[j] == Whole(items[j])
    {
      var block := items[i];
      if block.kind == Thinking {
        block := EMPTY_BLOCK.(kind := Thinking, chars := Some(|block.thinking|));
      }
      block := block.(signature := None);
      blocks := blocks + [block];
    }
  }

  // The stream opens the block and sends the rest of the item's content as fragments, cut
  // anywhere; deltas of no known kind, such as signatures, may come between.
  ghost predicate Sends(item: Block, opening: Block, deltas: seq<Delta>) {
    var text, thought := Joined(TextChannel, deltas), Joined(ThinkingChannel, deltas);
    && item.kind == opening.kind && item.rest == opening.rest
    && item.partial == opening.partial == None && item.chars == opening.chars == None
    && (item.kind != Thinking ==>
        thought == None && item.text == Appended(opening.text, text) && opening.thinking == item.thinking)
    && (item.kind == Thinking ==> text == None && item.thinking == opening.thinking + Or(thought, ""))
    && (item.kind == TextBlock ==> opening.input == item.input)
    && (item.kind == TextBlock || item.kind == Thinking ==> Joined(InputChannel, deltas) == None)
  }

  // When a block of another kind survives: its collected input decodes to what the whole message
  // says, or none was sent. A vendor that sends only empty fragments leaves the empty collection
  // behind, and a signature in the opening is not removed.
  ghost predicate Survives(item: Block, opening: Block, deltas: seq<Delta>, decode: Decoder) {
    && opening.signature == None
    && match Joined(InputChannel, deltas)
       case None => item.input == opening.input
       case Some(partial) => partial != "" && item.input == Some(Or(decode(partial), Str(partial)))
  }

  lemma StreamAgreesWithMessage(item: Block, opening: Block, deltas: seq<Delta>, decode: Decoder)
    requires Sends(item, opening, deltas)
    ensures Finished(Extended(Opened(opening), deltas), decode) == Whole(item) <==>
      item.kind == TextBlock || item.kind == Thinking || Survives(item, opening, deltas, decode)
  {
    var partial := Joined(InputChannel, deltas);
    assert partial.Some? ==> "" + partial.value == partial.value;
  }

  // Nothing is kept of a thinking block but its length, whole or streamed.
  lemma ThinkingIsReduced(b: Block, deltas: seq<Delta>, decode: Decoder)
    requires b.kind.Thinking? && forall i :: 0 <= i < |deltas| ==> deltas[i].ThinkingDelta? || deltas[i].OtherDelta?
    ensures Whole(b) == Block(Thinking, None, "", Some(|b.thinking|), None, None, None, map[])
    ensures Finished(Extended(Opened(b), deltas), decode) ==
      Block(Thinking, None, "", Some(|b.thinking| + |Or(Joined(ThinkingChannel, deltas), "")|), None, None, None, map[])
  {
    NothingJoined(TextChannel, deltas);
    NothingJoined(InputChannel, deltas);
  }

  lemma {:induction false} NothingJoined(channel: Channel, deltas: seq<Delta>)
    requires forall i :: 0 <= i < |deltas| ==> !On(channel, deltas[i])
    ensures Joined(channel, deltas) == None
  {
    if deltas != [] {
      NothingJoined(channel, deltas[..|deltas| - 1]);
    }
  }

  lemma {:induction false} AscendingAtLeast(indexes: seq<int>, i: nat)
    requires Ascending(indexes) && i < |indexes| && indexes[0] >= 0
    ensures indexes[i] >= i
  {
    if i > 0 {
      AscendingAtLeast(indexes, i - 1);
    }
  }

  lemma {:induction false} AscendingFromZero(indexes: seq<int>, n: nat)
    requires Ascending(indexes) && forall index :: index in indexes <==> 0 <= index < n
    ensures |indexes| == n && forall i :: 0 <= i < n ==> indexes[i] == i
  {
    for i := 0 to n
      invariant |indexes| >= i && forall j :: 0 <= j < i ==> indexes[j] == j
    {
      assert i in indexes;
      var at :| 0 <= at < |indexes| && indexes[at] == i;
      assert at >= i && indexes[i] in indexes;
      assert i > 0 ==> indexes[i - 1] < indexes[i];
    }
    if indexes != [] {
      assert indexes[0] in indexes && indexes[|indexes| - 1] in indexes;
      AscendingAtLeast(indexes, |indexes| - 1);
    }
  }

  // A whole reply streamed block by block, its events interleaved in any way, gives the content of
  // the same reply sent whole.
  lemma StreamedReplyIsWholeReply(items: seq<Block>, openings: seq<Block>, events: seq<Event>, decode: Decoder,
                                  indexes: seq<int>, result: seq<Block>, whole: seq<Block>)
    requires |openings| == |items| == |whole| && forall i :: 0 <= i < |items| ==> whole[i] == Whole(items[i])
    requires InOrder(Fold(events), decode, indexes, result)
    requires forall index :: Appears(index, events) <==> 0 <= index < |items|
    requires forall i :: 0 <= i < |items| ==> Base(i, events) == Opened(openings[i])
    requires forall i :: 0 <= i < |items| ==> Sends(items[i], openings[i], Since(i, events))
    requires forall i | 0 <= i < |items| && items[i].kind != TextBlock && items[i].kind != Thinking ::
      Survives(items[i], openings[i], Since(i, events), decode)
    ensures result == whole
  {
    forall index: int ensures index in indexes <==> 0 <= index < |items| {
      BlockIsConcatenation(index, events);
    }
    AscendingFromZero(indexes, |items|);
    forall i | 0 <= i < |items| ensures result[i] == whole[i] {
      BlockIsConcatenation(i, events);
      StreamAgreesWithMessage(items[i], openings[i], Since(i, events), decode);
    }
  }

  // ----- OpenAI tool calls -----

  datatype ToolDelta = ToolDelta(index: int, kind: string, id: string, name: string, arguments: string)

  datatype Tool = Tool(kind: string, id: string, name: string, arguments: string)

  function ToolStep(tools: map<int, Tool>, d: ToolDelta): map<int, Tool> {
    var t := if d.index in tools then tools[d.index] else Tool(d.kind, "", "", "");
    tools[d.index := Tool(t.kind, if d.id != "" then d.id else t.id, if d.name != "" then d.name
      else t.name, t.arguments + d.arguments)]
  }

  function ToolFold(deltas: seq<ToolDelta>): map<int, Tool> {
    if deltas == [] then map[] else ToolStep(ToolFold(deltas[..|deltas| - 1]), deltas[|deltas| - 1])
  }

  method FoldTools(deltas: seq<ToolDelta>) returns (tools: map<int, Tool>)
    ensures tools == ToolFold(deltas)
  {
    tools := map[];
    for i := 0 to |deltas|
      invariant tools == ToolFold(deltas[..i])
    {
      assert deltas[..i + 1][..i] == deltas[..i];
      var d := deltas[i];
      var current := if d.index in tools then tools[d.index] else Tool(d.kind, "", "", "");
      if d.id != "" {
        current := current.(id := d.id);
      }
      if d.name != "" {
        current := current.(name := d.name);
      }
      current := current.(arguments := current.arguments + d.arguments);
      tools := tools[d.index := current];
    }
    assert deltas[..|deltas|] == deltas;
  }

  function Of(index: int, deltas: seq<ToolDelta>): seq<ToolDelta> {
    if deltas == [] then []
    else Of(index, deltas[..|deltas| - 1]) + if deltas[|deltas| - 1].index == index then [deltas[|deltas| - 1]] else []
  }

  function Arguments(deltas: seq<ToolDelta>): string {
    if deltas == [] then "" else Arguments(deltas[..|deltas| - 1]) + deltas[|deltas| - 1].arguments
  }

  function LastId(deltas: seq<ToolDelta>): string {
    if deltas == [] then "" else if deltas[|deltas| - 1].id != "" then deltas[|deltas| - 1].id
      else LastId(deltas[..|deltas| - 1])
  }

  function LastName(deltas: seq<ToolDelta>): string {
    if deltas == [] then "" else if deltas[|deltas| - 1].name != "" then deltas[|deltas| - 1].name
      else LastName(deltas[..|deltas| - 1])
  }

  // However the deltas of several calls interleave, each call has its own fragments' concatenation
  // as arguments, the last id and name sent for it, and the type of its first delta.
  lemma {:induction false} ToolIsConcatenation(index: int, deltas: seq<ToolDelta>)
    ensures index in ToolFold(deltas) <==> Of(index, deltas) != []
    ensures var own := Of(index, deltas); own != [] ==>
      ToolFold(deltas)[index] == Tool(own[0].kind, LastId(own), LastName(own), Arguments(own))
    decreases |deltas|
  {
    if deltas != [] {
      var init, last := deltas[..|deltas| - 1], deltas[|deltas| - 1];
      ToolIsConcatenation(index, init);
      if last.index == index {
        OwnNext(Of(index, init), last);
      } else {
        assert Of(index, deltas) == Of(index, init);
      }
    }
  }

  lemma OwnNext(own: seq<ToolDelta>, d: ToolDelta)
    ensures Arguments(own + [d]) == Arguments(own) + d.arguments
    ensures LastId(own + [d]) == (if d.id != "" then d.id else LastId(own))
    ensures LastName(own + [d]) == (if d.name != "" then d.name else LastName(own))
    ensures (own + [d])[0] == if own == [] then d else own[0]
  {
    assert (own + [d])[..|own|] == own;
  }
}
