// Collecting the parts of a streamed Gemini reply and joining neighbouring texts (parseGeminiChunks
// and mergeGeminiParts in internal/proxy/parser.go).
module GeminiParts {
  import opened Prelude
  import opened Seqs
  import opened Json

  type Part = Object

  predicate IsText(p: Part) {
    Field(p, "text").Str?
  }

  function TextOf(p: Part): string {
    Text(Field(p, "text"))
  }

  function WithText(p: Part, text: string): (r: Part)
    ensures IsText(r) && TextOf(r) == text
  {
    p["text" := Str(text)]
  }

  // One turn of the loop: a text part is appended to a preceding text part.
  function Push(result: seq<Part>, part: Part): seq<Part> {
    if result != [] && IsText(part) && IsText(result[|result| - 1]) then
      result[|result| - 1 := WithText(result[|result| - 1], TextOf(result[|result| - 1]) + TextOf(part))]
    else result + [part]
  }

  function PushAll(result: seq<Part>, parts: seq<Part>): seq<Part> {
    if parts == [] then result else Push(PushAll(result, parts[..|parts| - 1]), parts[|parts| - 1])
  }

  function Merge(parts: seq<Part>): seq<Part> {
    PushAll([], parts)
  }

  method MergeGeminiParts(parts: seq<Part>) returns (result: seq<Part>)
    ensures result == Merge(parts)
  {
    result := [];
    for i := 0 to |parts|
      invariant result == Merge(parts[..i])
    {
      assert parts[..i + 1][..i] == parts[..i];
      var part := parts[i];
      if |result| > 0 && IsText(part) && IsText(result[|result| - 1]) {
        var previous := result[|result| - 1];
        previous := WithText(previous, TextOf(previous) + TextOf(part));
        result := result[|result| - 1 := previous];
      } else {
        result := result + [part];
      }
    }
    assert parts[..|parts|] == parts;
  }

  // ----- Compositional and idempotent -----

  lemma {:induction false} PushAllAppend(result: seq<Part>, a: seq<Part>, b: seq<Part>)
    ensures PushAll(result, a + b) == PushAll(PushAll(result, a), b)
    decreases |b|
  {
    if b == [] {
      assert a + b == a;
    } else {
      PushAllAppend(result, a, b[..|b| - 1]);
      assert (a + b)[..|a + b| - 1] == a + b[..|b| - 1];
    }
  }

  ghost predicate NoTextNeighbours(parts: seq<Part>) {
    forall i :: 0 < i < |parts| ==> !(IsText(parts[i - 1]) && IsText(parts[i]))
  }

  lemma {:induction false} MergedHasNoNeighbours(result: seq<Part>, parts: seq<Part>)
    requires NoTextNeighbours(result)
    ensures NoTextNeighbours(PushAll(result, parts))
    decreases |parts|
  {
    if parts != [] {
      MergedHasNoNeighbours(result, parts[..|parts| - 1]);
    }
  }

  lemma {:induction false} MergeOfMerged(parts: seq<Part>)
    requires NoTextNeighbours(parts)
    ensures Merge(parts) == parts
    decreases |parts|
  {
    if parts != [] {
      MergeOfMerged(parts[..|parts| - 1]);
    }
  }

  // Merging what has been merged so far together with what comes next is merging everything.
  lemma MergeIsCompositional(a: seq<Part>, b: seq<Part>)
    ensures Merge(a + b) == Merge(Merge(a) + b)
    ensures Merge(Merge(a)) == Merge(a)
  {
    MergedHasNoNeighbours([], a);
    MergeOfMerged(Merge(a));
    PushAllAppend([], a, b);
    PushAllAppend([], Merge(a), b);
  }

  // ----- Nothing is lost or reordered -----

  function AllText(parts: seq<Part>): string {
    if parts == [] then "" else AllText(parts[..|parts| - 1]) + TextOf(parts[|parts| - 1])
  }

  function NonText(parts: seq<Part>): seq<Part> {
    if parts == [] then []
    else NonText(parts[..|parts| - 1]) + if IsText(parts[|parts| - 1]) then [] else [parts[|parts| - 1]]
  }

  lemma PushKeeps(result: seq<Part>, part: Part)
    ensures AllText(Push(result, part)) == AllText(result) + TextOf(part)
    ensures NonText(Push(result, part)) == NonText(result) + if IsText(part) then [] else [part]
  {
    if result != [] && IsText(part) && IsText(result[|result| - 1]) {
      var init, last := result[..|result| - 1], result[|result| - 1];
      var joined := WithText(last, TextOf(last) + TextOf(part));
      SplitLast(result);
      assert Push(result, part) == init + [joined];
      TextsNext(init, last);
      TextsNext(init, joined);
    } else {
      TextsNext(result, part);
    }
  }

  lemma TextsNext(parts: seq<Part>, part: Part)
    ensures AllText(parts + [part]) == AllText(parts) + TextOf(part)
    ensures NonText(parts + [part]) == NonText(parts) + if IsText(part) then [] else [part]
  {
    assert (parts + [part])[..|parts|] == parts;
  }

  lemma {:induction false} MergeKeepsEverything(parts: seq<Part>)
    ensures AllText(Merge(parts)) == AllText(parts)
    ensures NonText(Merge(parts)) == NonText(parts)
    decreases |parts|
  {
    if parts != [] {
      MergeKeepsEverything(parts[..|parts| - 1]);
      PushKeeps(Merge(parts[..|parts| - 1]), parts[|parts| - 1]);
    }
  }

  // ----- Collecting the parts of a stream -----

  const SIGNATURE := "thoughtSignature"

  function Cleaned(p: Part): Part {
    p - {SIGNATURE}
  }

  // Nothing is left, or only an empty text.
  predicate Blank(p: Part) {
    p == map[] || p == map["text" := Str("")]
  }

  // The signature is dropped from every part, and then the part if it is blank.
  function CollectOne(p: Part): seq<Part> {
    if Blank(Cleaned(p)) then [] else [Cleaned(p)]
  }

  function Collected(parts: seq<Part>): seq<Part> {
    if parts == [] then [] else Collected(parts[..|parts| - 1]) + CollectOne(parts[|parts| - 1])
  }

  function Flat(chunks: seq<seq<Part>>): seq<Part> {
    if chunks == [] then [] else Flat(chunks[..|chunks| - 1]) + chunks[|chunks| - 1]
  }

  function Message(parts: seq<Part>): seq<Part> {
    Merge(Collected(parts))
  }

  lemma {:induction false} CollectedAppend(a: seq<Part>, b: seq<Part>)
    ensures Collected(a + b) == Collected(a) + Collected(b)
    decreases |b|
  {
    if b == [] {
      assert a + b == a;
    } else {
      CollectedAppend(a, b[..|b| - 1]);
      assert (a + b)[..|a + b| - 1] == a + b[..|b| - 1];
    }
  }

  lemma CollectedSingle(p: Part)
    ensures Collected([p]) == CollectOne(p)
  {
    assert [p][..0] == [];
  }

  method CollectChunk(parts: seq<Part>, chunk: seq<Part>) returns (parts': seq<Part>)
    ensures parts' == parts + Collected(chunk)
  {
    parts' := parts;
    for i := 0 to |chunk|
      invariant parts' == parts + Collected(chunk[..i])
    {
      assert chunk[..i + 1][..i] == chunk[..i];
      var part := chunk[i] - {SIGNATURE};
      if !Blank(part) {
        parts' := parts' + [part];
      }
    }
    assert chunk[..|chunk|] == chunk;
  }

  // The loop over chunks, each given as the parts of its candidates: how the parts are divided into
  // chunks makes no difference.
  method ReplyParts(chunks: seq<seq<Part>>) returns (message: seq<Part>)
    ensures message == Message(Flat(chunks))
  {
    var parts: seq<Part> := [];
    for i := 0 to |chunks|
      invariant parts == Collected(Flat(chunks[..i]))
    {
      assert chunks[..i + 1][..i] == chunks[..i];
      CollectedAppend(Flat(chunks[..i]), chunks[i]);
      parts := CollectChunk(parts, chunks[i]);
    }
    assert chunks[..|chunks|] == chunks;
    message := MergeGeminiParts(parts);
  }

  // ----- Where a text is cut does not matter -----

  lemma PushTwice(result: seq<Part>, p: Part, q: Part, x: string, y: string)
    ensures Push(Push(result, WithText(p, x)), WithText(q, y)) == Push(result, WithText(p, x + y))
  {
    if result != [] && IsText(result[|result| - 1]) {
      var last := result[|result| - 1];
      assert TextOf(last) + x + y == TextOf(last) + (x + y);
      assert WithText(WithText(last, TextOf(last) + x), TextOf(last) + x + y) == WithText(last, TextOf(last) + (x + y));
    } else {
      assert WithText(WithText(p, x), x + y) == WithText(p, x + y);
    }
  }

  lemma CleanedText(p: Part, x: string)
    ensures Cleaned(WithText(p, x)) == WithText(Cleaned(p), x)
  {
    assert "text" != SIGNATURE by {
      assert |"text"| != |SIGNATURE|;
    }
  }

  // No field but a text and a signature.
  predicate Plain(p: Part) {
    Cleaned(p).Keys <= {"text"}
  }

  lemma BlankText(p: Part, x: string)
    ensures Blank(Cleaned(WithText(p, x))) <==> x == "" && Plain(p)
    ensures Plain(p) ==> Cleaned(WithText(p, x)) == map["text" := Str(x)]
  {
    CleanedText(p, x);
    var c := WithText(Cleaned(p), x);
    assert "text" in c && TextOf(c) == x;
    if c == map["text" := Str("")] {
      assert forall k :: k in Cleaned(p) ==> k in c;
    }
  }

  // The pieces of one text after what has been collected before them.
  lemma PiecesMerge(before: seq<Part>, p: Part, q: Part, x: string, y: string)
    requires x != "" || !Plain(p) || Plain(q)
    ensures PushAll(before, CollectOne(WithText(p, x)) + CollectOne(WithText(q, y))) ==
      PushAll(before, CollectOne(WithText(p, x + y)))
  {
    BlankText(p, x);
    BlankText(q, y);
    BlankText(p, x + y);
    CleanedText(p, x);
    CleanedText(q, y);
    CleanedText(p, x + y);
    PushAllSingle(before, WithText(Cleaned(p), x + y));
    if x == "" && Plain(p) {
      assert [] + CollectOne(WithText(q, y)) == CollectOne(WithText(q, y)) && x + y == y;
    } else if y == "" && Plain(q) {
      assert CollectOne(WithText(p, x)) + [] == CollectOne(WithText(p, x)) && x + y == x;
    } else {
      PushAllPair(before, WithText(Cleaned(p), x), WithText(Cleaned(q), y));
      PushTwice(before, Cleaned(p), Cleaned(q), x, y);
    }
  }

  lemma PushAllSingle(before: seq<Part>, p: Part)
    ensures PushAll(before, [p]) == Push(before, p)
  {
    assert [p][..0] == [];
  }

  lemma PushAllPair(before: seq<Part>, p: Part, q: Part)
    ensures PushAll(before, [p] + [q]) == Push(Push(before, p), q)
  {
    PushAllAppend(before, [p], [q]);
    PushAllSingle(before, p);
    PushAllSingle(Push(before, p), q);
  }

  // A text sent in two pieces gives the message of the uncut text, with the first piece's other
  // fields, unless the first piece is empty and has none while the second has some.
  lemma CutDoesNotMatter(a: seq<Part>, p: Part, q: Part, x: string, y: string, b: seq<Part>)
    requires x != "" || !Plain(p) || Plain(q)
    ensures Message(a + [WithText(p, x), WithText(q, y)] + b) == Message(a + [WithText(p, x + y)] + b)
  {
    var first, second, whole := WithText(p, x), WithText(q, y), WithText(p, x + y);
    MessageAround(a, [first, second], b);
    MessageAround(a, [whole], b);
    assert [first, second] == [first] + [second];
    CollectedAppend([first], [second]);
    CollectedSingle(first);
    CollectedSingle(second);
    CollectedSingle(whole);
    PiecesMerge(Message(a), p, q, x, y);
  }

  lemma MessageAround(a: seq<Part>, parts: seq<Part>, b: seq<Part>)
    ensures Message(a + parts + b) == PushAll(PushAll(Message(a), Collected(parts)), Collected(b))
  {
    CollectedAppend(a + parts, b);
    CollectedAppend(a, parts);
    PushAllAppend([], Collected(a) + Collected(parts), Collected(b));
    PushAllAppend([], Collected(a), Collected(parts));
  }

  // In that case the first piece is not seen at all.
  lemma EmptyPieceIsNotSeen(a: seq<Part>, p: Part, b: seq<Part>)
    requires Plain(p)
    ensures Message(a + [WithText(p, "")] + b) == Message(a + b)
  {
    BlankText(p, "");
    CollectedSingle(WithText(p, ""));
    MessageAround(a, [WithText(p, "")], b);
    CollectedAppend(a, b);
    PushAllAppend([], Collected(a), Collected(b));
    assert PushAll(Message(a), []) == Message(a);
  }

  // ----- What is left of a part -----

  // q is p without its signature, and is not blank.
  ghost predicate Stripped(p: Part, q: Part) {
    && (forall key :: key in q <==> key in p && key != "thoughtSignature")
    && (forall key :: key in q ==> q[key] == p[key])
    && q != map[] && q != map["text" := Str("")]
  }

  lemma {:induction false} CollectedAreStripped(parts: seq<Part>, q: Part)
    ensures q in Collected(parts) <==> exists p :: p in parts && Stripped(p, q)
  {
    if parts != [] {
      var init, last := parts[..|parts| - 1], parts[|parts| - 1];
      SplitLast(parts);
      CollectedAreStripped(init, q);
      assert q in CollectOne(last) <==> Stripped(last, q) by { CollectedOne(last, q); }
      assert forall p :: p in parts <==> p in init || p == last;
    }
  }

  lemma CollectedOne(p: Part, q: Part)
    ensures q in CollectOne(p) <==> Stripped(p, q)
  {
    if Stripped(p, q) {
      assert q.Keys == Cleaned(p).Keys;
      assert q == Cleaned(p);
    }
  }

  // No part of a message carries a signature.
  lemma {:induction false} MessageHasNoSignature(parts: seq<Part>)
    ensures forall q :: q in Message(parts) ==> "thoughtSignature" !in q
  {
    forall q | q in Collected(parts) ensures SIGNATURE !in q {
      CollectedAreStripped(parts, q);
    }
    UnsignedMerge(Collected(parts));
  }

  lemma {:induction false} UnsignedMerge(parts: seq<Part>)
    requires forall q :: q in parts ==> SIGNATURE !in q
    ensures forall q :: q in Merge(parts) ==> SIGNATURE !in q
  {
    if parts != [] {
      var init, last := parts[..|parts| - 1], parts[|parts| - 1];
      SplitLast(parts);
      UnsignedMerge(init);
      UnsignedPush(Merge(init), last);
    }
  }

  lemma UnsignedPush(result: seq<Part>, part: Part)
    requires SIGNATURE !in part && forall q :: q in result ==> SIGNATURE !in q
    ensures forall q :: q in Push(result, part) ==> SIGNATURE !in q
  {
    assert "text" != SIGNATURE by {
      assert |"text"| != |SIGNATURE|;
    }
    if result != [] {
      assert result[|result| - 1] in result;
    }
    forall q | q in Push(result, part) ensures SIGNATURE !in q {
      var i :| 0 <= i < |Push(result, part)| && Push(result, part)[i] == q;
      assert i < |result| ==> result[i] in result;
    }
  }
}
