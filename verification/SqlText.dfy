// What the SQL guard accepts, told on the text alone (internal/store/sqlpage.go:35-146): which bytes
// stand outside quotes and comments is decided byte by byte, without the tokenizer.
module SqlText {
  import opened Prelude
  import opened Utf8
  import opened SqlTokens

  // Where a byte stands: in code, after a word or not; within a character of several bytes; in a line
  // comment; in a block comment, at its second byte, its body or its last; in a quoted value, at a
  // quote that is doubled or elsewhere.
  datatype Mode =
    | Code(word: bool)
    | Inside(left: nat, word: bool)
    | Line
    | Opening
    | Block
    | Closing
    | Quote(end: char)
    | Doubling(end: char)

  function AfterCharacter(size: nat, word: bool): Mode {
    if size <= 1 then Code(word) else Inside(size - 1, word)
  }

  // From the mode of byte i to that of the next one.
  function Step(u: Unicode, s: string, i: nat, mode: Mode): Mode
    requires i < |s|
  {
    match mode
    case Code(word) =>
      var rune := Decode(s[i..]);
      if u.space(rune.code) then AfterCharacter(rune.size, false)
      else if StartsWith(s[i..], '-', '-') then Line
      else if StartsWith(s[i..], '/', '*') then Opening
      else if IsQuote(s[i]) then Quote(s[i])
      else if s[i] == '[' then Quote(']')
      else AfterCharacter(rune.size, IsIdentifierStart(u, rune.code) || (word && u.digit(rune.code)))
    case Inside(left, word) => AfterCharacter(left, word)
    case Line => if s[i] == '\n' then Code(false) else Line
    case Opening => Block
    case Block => if CommentEndsAt(s, i) then Closing else Block
    case Closing => Code(false)
    case Quote(end) =>
      if s[i] != end then mode
      else if i + 1 < |s| && s[i + 1] == end then Doubling(end)
      else Code(false)
    case Doubling(end) => Quote(end)
  }

  // The mode of byte i, if the first byte has mode `start`.
  function ModeAt(u: Unicode, s: string, start: Mode, i: nat): Mode
    requires i <= |s|
  {
    if i == 0 then start else Step(u, s, i - 1, ModeAt(u, s, start, i - 1))
  }

  // Something visible begins here: code that is neither white space nor a quote nor a comment, and
  // does not go on with a word.
  predicate Begins(u: Unicode, s: string, i: nat, mode: Mode)
    requires i < |s|
  {
    && mode.Code?
    && !u.space(Decode(s[i..]).code)
    && !StartsWith(s[i..], '-', '-') && !StartsWith(s[i..], '/', '*')
    && !IsQuote(s[i]) && s[i] != '['
    && !(mode.word && IsIdentifierPart(u, Decode(s[i..]).code))
  }

  lemma StepShift(u: Unicode, s: string, n: nat, i: nat, mode: Mode)
    requires n + i < |s|
    ensures Step(u, s[n..], i, mode) == Step(u, s, n + i, mode)
    ensures Begins(u, s[n..], i, mode) == Begins(u, s, n + i, mode)
  {
    assert s[n..][i..] == s[n + i..];
    assert CommentEndsAt(s[n..], i) == CommentEndsAt(s, n + i);
  }

  lemma {:induction false} ModeShift(u: Unicode, s: string, start: Mode, n: nat, i: nat)
    requires n + i <= |s|
    ensures ModeAt(u, s, start, n + i) == ModeAt(u, s[n..], ModeAt(u, s, start, n), i)
    decreases i
  {
    if i > 0 {
      var mode := ModeAt(u, s, start, n);
      ModeShift(u, s, start, n, i - 1);
      ModeNext(u, s, start, n + i - 1);
      ModeNext(u, s[n..], mode, i - 1);
      StepShift(u, s, n, i - 1, ModeAt(u, s, start, n + i - 1));
    }
  }

  lemma ModeNext(u: Unicode, s: string, start: Mode, i: nat)
    requires i < |s|
    ensures ModeAt(u, s, start, i + 1) == Step(u, s, i, ModeAt(u, s, start, i))
  {
  }

  // ----- One piece -----

  // The character at the front is not part of the word before it.
  predicate Apart(u: Unicode, s: string, word: bool) {
    word && s != "" ==> !IsIdentifierPart(u, Decode(s).code)
  }

  lemma {:induction false} CharacterModes(u: Unicode, s: string, start: Mode, word: bool, size: nat, i: nat)
    requires 0 < i <= size <= |s| && s != "" && Step(u, s, 0, start) == AfterCharacter(size, word)
    ensures ModeAt(u, s, start, i) == if i == size then Code(word) else Inside(size - i, word)
    decreases i
  {
    if i > 1 {
      CharacterModes(u, s, start, word, size, i - 1);
    } else {
      assert ModeAt(u, s, start, 0) == start;
    }
  }

  lemma {:induction false} LineModes(u: Unicode, s: string, start: Mode, i: nat)
    requires |s| >= 2 && Step(u, s, 0, start) == Line && s[1] == '-'
    requires 0 < i <= |s| && forall j :: 2 <= j < i ==> s[j] != '\n'
    ensures ModeAt(u, s, start, i) == Line
    decreases i
  {
    if i > 1 {
      LineModes(u, s, start, i - 1);
    } else {
      assert ModeAt(u, s, start, 0) == start;
    }
  }

  lemma {:induction false} BlockModes(u: Unicode, s: string, start: Mode, i: nat)
    requires |s| >= 2 && Step(u, s, 0, start) == Opening
    requires 0 < i <= |s| && forall j :: 2 <= j < i ==> !CommentEndsAt(s, j)
    ensures ModeAt(u, s, start, i) == if i == 1 then Opening else Block
    decreases i
  {
    if i > 1 {
      BlockModes(u, s, start, i - 1);
    } else {
      assert ModeAt(u, s, start, 0) == start;
    }
  }

  // From inside a quoted value on: up to the end that CloseFrom finds, or to the end of the text.
  lemma {:induction false} QuoteModes(u: Unicode, s: string, start: Mode, from: nat, end: char, i: nat)
    requires from <= i <= |s| && ModeAt(u, s, start, from) == Quote(end)
    requires CloseFrom(s, from, end).Some? ==> i <= CloseFrom(s, from, end).value
    ensures CloseFrom(s, from, end) == Some(i) ==> ModeAt(u, s, start, i) == Code(false)
    ensures CloseFrom(s, from, end) != Some(i) ==>
      ModeAt(u, s, start, i) == Quote(end) || (ModeAt(u, s, start, i) == Doubling(end) && i < |s|)
    decreases |s| - from
  {
    if from < |s| && from < i {
      assert ModeAt(u, s, start, from + 1) == Step(u, s, from, Quote(end));
      if s[from] != end {
        QuoteModes(u, s, start, from + 1, end, i);
      } else if from + 1 < |s| && s[from + 1] == end {
        assert ModeAt(u, s, start, from + 2) == Step(u, s, from + 1, Doubling(end));
        if i > from + 1 {
          QuoteModes(u, s, start, from + 2, end, i);
        }
      }
    }
  }

  // A character of a word is no quote, comment or white space.
  lemma PartIsPlain(u: Unicode, s: string)
    requires Sane(u) && s != "" && IsIdentifierPart(u, Decode(s).code)
    ensures !u.space(Decode(s).code) && !StartsWith(s, '-', '-') && !StartsWith(s, '/', '*')
    ensures !IsQuote(s[0]) && s[0] != '['
  {
  }

  // One more character of a word.
  lemma PartModes(u: Unicode, s: string, start: Mode, from: nat, i: nat)
    requires Sane(u) && from < |s| && ModeAt(u, s, start, from) == Code(true)
    requires IsIdentifierPart(u, Decode(s[from..]).code) && 0 < i <= Decode(s[from..]).size
    ensures ModeAt(u, s, start, from + i) == if i == Decode(s[from..]).size then Code(true)
                                             else Inside(Decode(s[from..]).size - i, true)
  {
    var rest := s[from..];
    PartIsPlain(u, rest);
    assert rest[0..] == rest;
    CharacterModes(u, rest, Code(true), true, Decode(rest).size, i);
    ModeShift(u, s, start, from, i);
  }

  lemma WordGoesOn(u: Unicode, s: string, from: nat, end: nat)
    requires from < end <= |s| && WordEnd(u, s, from) == end
    ensures IsIdentifierPart(u, Decode(s[from..]).code)
    ensures from + Decode(s[from..]).size <= end && WordEnd(u, s, from + Decode(s[from..]).size) == end
  {
  }

  lemma {:induction false} WordModes(u: Unicode, s: string, start: Mode, from: nat, end: nat, i: nat)
    requires Sane(u) && from <= i <= end <= |s| && ModeAt(u, s, start, from) == Code(true) && WordEnd(u, s, from) == end
    ensures if i == end then ModeAt(u, s, start, i) == Code(true) else InWord(u, s, i, ModeAt(u, s, start, i))
    decreases end - from
  {
    if from < end {
      var size := Decode(s[from..]).size;
      WordGoesOn(u, s, from, end);
      if from < i < from + size {
        PartModes(u, s, start, from, i - from);
      } else if from < i {
        PartModes(u, s, start, from, size);
        WordModes(u, s, start, from + size, end, i);
      }
    }
  }

  // Within a word: in the middle of a character, or at one that goes on with it.
  predicate InWord(u: Unicode, s: string, i: nat, mode: Mode)
    requires i < |s|
  {
    mode.Inside? || (mode == Code(true) && IsIdentifierPart(u, Decode(s[i..]).code))
  }

  // What a piece of the tokenizer does to the modes: nothing begins within it, and behind it code goes
  // on, unless it is a line comment to the end.
  ghost predicate Passes(u: Unicode, s: string, start: Mode, kind: Kind, size: nat)
    requires size <= |s|
  {
    && (forall i :: 0 < i < size ==> !Begins(u, s, i, ModeAt(u, s, start, i)))
    && ModeAt(u, s, start, size) == (if kind == OpenComment then Line else Code(kind == Word))
    && (kind == Word ==> forall i :: 0 < i < size ==> InWord(u, s, i, ModeAt(u, s, start, i)))
  }

  lemma CharacterPasses(u: Unicode, s: string, start: Mode, kind: Kind, size: nat)
    requires s != "" && (kind == Gap || kind == Symbol) && size == Decode(s).size
    requires Step(u, s, 0, start) == AfterCharacter(size, false)
    ensures Passes(u, s, start, kind, size)
  {
    forall i | 0 < i < size ensures !Begins(u, s, i, ModeAt(u, s, start, i)) {
      CharacterModes(u, s, start, false, size, i);
    }
    CharacterModes(u, s, start, false, size, size);
  }

  lemma WordPasses(u: Unicode, s: string, start: Mode)
    requires Sane(u) && s != "" && Step(u, s, 0, start) == AfterCharacter(Decode(s).size, true)
    ensures Passes(u, s, start, Word, WordEnd(u, s, Decode(s).size))
  {
    var end := WordEnd(u, s, Decode(s).size);
    forall i | 0 < i <= end
      ensures if i == end then ModeAt(u, s, start, i) == Code(true) else InWord(u, s, i, ModeAt(u, s, start, i))
    {
      FirstWordModes(u, s, start, end, i);
    }
  }

  lemma FirstWordModes(u: Unicode, s: string, start: Mode, end: nat, i: nat)
    requires Sane(u) && s != "" && Step(u, s, 0, start) == AfterCharacter(Decode(s).size, true)
    requires WordEnd(u, s, Decode(s).size) == end && 0 < i <= end <= |s|
    ensures if i == end then ModeAt(u, s, start, i) == Code(true) else InWord(u, s, i, ModeAt(u, s, start, i))
  {
    var size := Decode(s).size;
    if i < size {
      CharacterModes(u, s, start, true, size, i);
    } else {
      CharacterModes(u, s, start, true, size, size);
      WordModes(u, s, start, size, end, i);
    }
  }

  lemma LinePasses(u: Unicode, s: string, start: Mode)
    requires StartsWith(s, '-', '-') && Step(u, s, 0, start) == Line
    ensures var move := LexLine(s); move.Piece? && Passes(u, s, start, move.kind, move.size)
  {
    var move, end := LexLine(s), ByteFrom(s, 2, '\n');
    NoByteBefore(s, '\n');
    forall i | 0 < i <= (if end.Some? then end.value else |s|) ensures ModeAt(u, s, start, i) == Line {
      LineModes(u, s, start, i);
    }
    if end.Some? {
      assert ModeAt(u, s, start, end.value + 1) == Step(u, s, end.value, Line);
    }
  }

  lemma NoByteBefore(s: string, c: char)
    ensures var end := ByteFrom(s, 2, c);
      && (end.Some? ==> s[end.value] == c)
      && forall j :: 2 <= j < |s| && (end.Some? ==> j < end.value) ==> s[j] != c
  {
    var end := ByteFrom(s, 2, c);
    if end.Some? {
      ByteFromIff(s, 2, c, end.value);
    } else {
      NoByte(s, 2, c);
    }
  }

  lemma {:induction false} NoByte(s: string, from: nat, c: char)
    requires ByteFrom(s, from, c).None?
    ensures forall j :: from <= j < |s| ==> s[j] != c
    decreases |s| - from
  {
    if from < |s| {
      NoByte(s, from + 1, c);
    }
  }

  lemma {:induction false} NoCommentEnd(s: string, from: nat)
    requires CommentEndFrom(s, from).None?
    ensures forall j :: from <= j < |s| ==> !CommentEndsAt(s, j)
    decreases |s| - from
  {
    if from < |s| {
      NoCommentEnd(s, from + 1);
    }
  }

  lemma BlockPasses(u: Unicode, s: string, start: Mode)
    requires StartsWith(s, '/', '*') && Step(u, s, 0, start) == Opening && LexBlock(s).Piece?
    ensures Passes(u, s, start, Gap, LexBlock(s).size)
  {
    var end := CommentEndFrom(s, 2).value;
    CommentEndIff(s, 2, end);
    forall i | 0 < i <= end ensures ModeAt(u, s, start, i) == if i == 1 then Opening else Block {
      BlockModes(u, s, start, i);
    }
    assert ModeAt(u, s, start, end + 1) == Step(u, s, end, Block);
    assert ModeAt(u, s, start, end + 2) == Step(u, s, end + 1, Closing);
  }

  lemma QuotePasses(u: Unicode, s: string, start: Mode, end: char)
    requires s != "" && Step(u, s, 0, start) == Quote(end) && CloseFrom(s, 1, end).Some?
    ensures Passes(u, s, start, Quoted, CloseFrom(s, 1, end).value)
  {
    assert ModeAt(u, s, start, 1) == Step(u, s, 0, ModeAt(u, s, start, 0));
    forall i | 0 < i <= CloseFrom(s, 1, end).value
      ensures if CloseFrom(s, 1, end) == Some(i) then ModeAt(u, s, start, i) == Code(false)
              else !Begins(u, s, i, ModeAt(u, s, start, i))
    {
      QuoteModes(u, s, start, 1, end, i);
    }
  }

  lemma PiecePasses(u: Unicode, s: string, word: bool)
    requires Sane(u) && s != "" && Apart(u, s, word) && Lex(u, s).Piece?
    ensures Passes(u, s, Code(word), Lex(u, s).kind, Lex(u, s).size)
  {
    assert s[0..] == s;
    var start := Code(word);
    if u.space(Decode(s).code) {
      CharacterPasses(u, s, start, Gap, Decode(s).size);
    } else if StartsWith(s, '-', '-') {
      LinePasses(u, s, start);
    } else if StartsWith(s, '/', '*') {
      BlockPasses(u, s, start);
    } else if IsQuote(s[0]) {
      QuotePasses(u, s, start, s[0]);
    } else if s[0] == '[' {
      QuotePasses(u, s, start, ']');
    } else if IsIdentifierStart(u, Decode(s).code) {
      WordPasses(u, s, start);
    } else {
      CharacterPasses(u, s, start, Symbol, Decode(s).size);
    }
  }

  // A text that the tokenizer cannot end is still in the comment or the quote at its end.
  predicate Unended(mode: Mode) {
    mode.Opening? || mode.Block? || mode.Quote? || mode.Doubling?
  }

  lemma FailureStays(u: Unicode, s: string, word: bool)
    requires Sane(u) && s != "" && Apart(u, s, word) && Lex(u, s).Fail?
    ensures forall i :: 0 <= i < |s| ==> !Begins(u, s, i, ModeAt(u, s, Code(word), i))
    ensures Unended(ModeAt(u, s, Code(word), |s|))
  {
    var start := Code(word);
    assert s[0..] == s && ModeAt(u, s, start, 0) == start;
    assert ModeAt(u, s, start, 1) == Step(u, s, 0, start);
    if StartsWith(s, '/', '*') {
      NoCommentEnd(s, 2);
      forall i | 0 < i <= |s| ensures ModeAt(u, s, start, i) == if i == 1 then Opening else Block {
        BlockModes(u, s, start, i);
      }
    } else {
      var end := if s[0] == '[' then ']' else s[0];
      forall i | 0 < i <= |s| ensures ModeAt(u, s, start, i).Quote? || ModeAt(u, s, start, i).Doubling? {
        QuoteModes(u, s, start, 1, end, i);
      }
    }
  }

  // ----- The pieces in the text -----

  predicate IsWord(u: Unicode, s: string, a: nat)
    requires a < |s|
  {
    IsIdentifierStart(u, Decode(s[a..]).code)
  }

  // The mode of a byte of a whole text.
  function At(u: Unicode, s: string, i: nat): Mode
    requires i <= |s|
  {
    ModeAt(u, s, Code(false), i)
  }

  // Something visible begins at position i of the text.
  predicate Visible(u: Unicode, s: string, i: nat) {
    i < |s| && Begins(u, s, i, At(u, s, i))
  }

  // The tokenizer stands before a piece.
  predicate Stands(u: Unicode, s: string, from: nat) {
    from <= |s| && At(u, s, from).Code? && Apart(u, s[from..], At(u, s, from).word)
  }

  lemma Shifted(u: Unicode, s: string, from: nat, i: nat)
    requires from <= i <= |s|
    ensures At(u, s, i) == ModeAt(u, s[from..], At(u, s, from), i - from)
    ensures i < |s| ==> Visible(u, s, i) == Begins(u, s[from..], i - from, At(u, s, i))
    ensures i < |s| ==> InWord(u, s, i, At(u, s, i)) == InWord(u, s[from..], i - from, At(u, s, i))
  {
    ModeShift(u, s, Code(false), from, i - from);
    if i < |s| {
      StepShift(u, s, from, i - from, At(u, s, i));
      assert s[from..][i - from..] == s[i..];
    }
  }

  lemma PieceInText(u: Unicode, s: string, from: nat)
    requires Sane(u) && Stands(u, s, from) && from < |s| && Lex(u, s[from..]).Piece?
    ensures var move := Lex(u, s[from..]);
      && (forall i :: from < i < from + move.size ==> !Visible(u, s, i))
      && At(u, s, from + move.size) == (if move.kind == OpenComment then Line else Code(move.kind == Word))
      && (move.kind == Word ==> forall i :: from < i < from + move.size ==> InWord(u, s, i, At(u, s, i)))
  {
    var rest, size, start := s[from..], Lex(u, s[from..]).size, At(u, s, from);
    PiecePasses(u, rest, start.word);
    Shifted(u, s, from, from + size);
    forall i | from < i < from + size
      ensures !Visible(u, s, i) && (Lex(u, rest).kind == Word ==> InWord(u, s, i, At(u, s, i)))
    {
      Shifted(u, s, from, i);
      assert !Begins(u, rest, i - from, ModeAt(u, rest, start, i - from));
    }
  }

  // A word stands from a to b.
  ghost predicate WordSpan(u: Unicode, s: string, a: nat, b: nat) {
    && a < b <= |s| && At(u, s, b) == Code(true) && Apart(u, s[b..], true)
    && forall i :: a < i < b ==> InWord(u, s, i, At(u, s, i))
  }

  // What the text has where the tokenizer has a piece.
  ghost predicate PieceAt(u: Unicode, s: string, a: nat, b: nat, kind: Kind) {
    && a < b <= |s|
    && (Visible(u, s, a) <==> kind == Word || kind == Symbol)
    && (forall i :: a < i < b ==> !Visible(u, s, i))
    && (kind == Word ==> IsWord(u, s, a) && WordSpan(u, s, a, b))
    && (kind == Symbol ==> !IsWord(u, s, a) && b == a + Decode(s[a..]).size)
  }

  ghost predicate Reads(u: Unicode, s: string, from: nat, pieces: seq<(Kind, string)>)
    decreases |pieces|
  {
    pieces != [] ==>
      var next := from + |pieces[0].1|;
      && PieceAt(u, s, from, next, pieces[0].0) && s[from..next] == pieces[0].1
      && Reads(u, s, next, pieces[1..])
  }

  lemma {:induction false} WordIsOver(u: Unicode, s: string, from: nat, end: nat)
    requires from <= end <= |s| && WordEnd(u, s, from) == end
    ensures Apart(u, s[end..], true)
    decreases end - from
  {
    if from < end {
      WordGoesOn(u, s, from, end);
      WordIsOver(u, s, from + Decode(s[from..]).size, end);
    }
  }

  lemma LexedPiece(u: Unicode, s: string, from: nat, kind: Kind, size: nat)
    requires Sane(u) && Stands(u, s, from) && from < |s| && Lex(u, s[from..]) == Piece(kind, size)
    ensures PieceAt(u, s, from, from + size, kind)
    ensures kind == OpenComment ==> from + size == |s| && At(u, s, |s|) == Line
    ensures kind != OpenComment ==> Stands(u, s, from + size)
  {
    var rest := s[from..];
    PieceInText(u, s, from);
    if kind == Word {
      WordIsOver(u, rest, Decode(rest).size, size);
      assert rest[size..] == s[from + size..];
    }
  }

  lemma FailureInText(u: Unicode, s: string, from: nat)
    requires Sane(u) && Stands(u, s, from) && from < |s| && Pieces(u, s[from..]) == []
    ensures Scan(u, s[from..]).Broken? && Unended(At(u, s, |s|))
  {
    FailureStays(u, s[from..], At(u, s, from).word);
    Shifted(u, s, from, |s|);
  }

  // The next piece, as the tokenizer and the text have it.
  lemma PieceHere(u: Unicode, s: string, from: nat) returns (kind: Kind, next: nat)
    requires Sane(u) && Stands(u, s, from) && from < |s| && Pieces(u, s[from..]) != []
    ensures PieceAt(u, s, from, next, kind)
    ensures Pieces(u, s[from..]) == [(kind, s[from..next])] + Pieces(u, s[next..])
    ensures Scan(u, s[from..]).Tokens? <==> Scan(u, s[next..]).Tokens?
    ensures if kind == OpenComment then next == |s| && At(u, s, |s|) == Line else Stands(u, s, next)
  {
    var rest := s[from..];
    kind, next := Lex(u, rest).kind, from + Lex(u, rest).size;
    LexedPiece(u, s, from, kind, next - from);
    assert rest[next - from..] == s[next..] && rest[..next - from] == s[from..next];
    ScanFirst(u, rest, Lex(u, rest));
  }

  lemma ReadsMore(u: Unicode, s: string, from: nat, kind: Kind, next: nat, later: seq<(Kind, string)>,
                  pieces: seq<(Kind, string)>)
    requires from < next <= |s| && PieceAt(u, s, from, next, kind) && Reads(u, s, next, later)
    requires pieces == [(kind, s[from..next])] + later
    ensures Reads(u, s, from, pieces)
  {
    assert pieces[1..] == later;
  }

  // The pieces of the tokenizer lie in the text as its modes say.
  lemma {:induction false} PiecesLie(u: Unicode, s: string, from: nat, pieces: seq<(Kind, string)>)
    requires Sane(u) && Stands(u, s, from) && Pieces(u, s[from..]) == pieces
    ensures Reads(u, s, from, pieces)
    decreases |s| - from
  {
    if from < |s| && pieces != [] {
      var kind, next := PieceHere(u, s, from);
      var later := Pieces(u, s[next..]);
      if kind == OpenComment {
        assert s[next..] == "";
      } else {
        PiecesLie(u, s, next, later);
      }
      ReadsMore(u, s, from, kind, next, later, pieces);
    }
  }

  // The tokenizer fails exactly if the text ends within a block comment or a quoted value.
  lemma {:induction false} ScansIff(u: Unicode, s: string, from: nat, scanned: Scanned)
    requires Sane(u) && Stands(u, s, from) && Scan(u, s[from..]) == scanned
    ensures scanned.Tokens? <==> !Unended(At(u, s, |s|))
    decreases |s| - from
  {
    if from == |s| {
      assert s[from..] == "";
    } else if Pieces(u, s[from..]) == [] {
      FailureInText(u, s, from);
    } else {
      var kind, next := PieceHere(u, s, from);
      if kind == OpenComment {
        assert s[next..] == "";
      } else {
        ScansIff(u, s, next, Scan(u, s[next..]));
      }
    }
  }

  // ----- The tokens and where they begin -----

  // Where the pieces that give tokens begin and end.
  function Marks(from: nat, pieces: seq<(Kind, string)>): seq<(nat, nat)>
    decreases |pieces|
  {
    if pieces == [] then []
    else
      var next := from + |pieces[0].1|;
      (if pieces[0].0 == Word || pieces[0].0 == Symbol then [(from, next)] else []) + Marks(next, pieces[1..])
  }

  function TokenAt(u: Unicode, s: string, a: nat, b: nat): string
    requires a < b <= |s|
  {
    if IsWord(u, s, a) then u.upper(s[a..b]) else s[a..b]
  }

  // A token stands from a to b: a word, or one other character.
  ghost predicate Stretch(u: Unicode, s: string, a: nat, b: nat) {
    && a < b <= |s| && Visible(u, s, a)
    && if IsWord(u, s, a) then WordSpan(u, s, a, b) else b == a + Decode(s[a..]).size
  }

  // The tokens are those of the marks, which are in order.
  ghost predicate Marked(u: Unicode, s: string, marks: seq<(nat, nat)>, tokens: seq<string>) {
    && |tokens| == |marks|
    && (forall k :: 0 <= k < |marks| ==>
          Stretch(u, s, marks[k].0, marks[k].1) && tokens[k] == TokenAt(u, s, marks[k].0, marks[k].1))
    && (forall k, l :: 0 <= k < l < |marks| ==> marks[k].1 <= marks[l].0)
  }

  lemma OneMoreMark(u: Unicode, s: string, a: nat, b: nat, marks: seq<(nat, nat)>, tokens: seq<string>)
    requires Marked(u, s, marks, tokens) && Stretch(u, s, a, b)
    requires forall k :: 0 <= k < |marks| ==> b <= marks[k].0
    ensures Marked(u, s, [(a, b)] + marks, [TokenAt(u, s, a, b)] + tokens)
  {
  }

  lemma {:induction false} PiecesAreMarked(u: Unicode, s: string, from: nat, pieces: seq<(Kind, string)>)
    requires Reads(u, s, from, pieces)
    ensures Marked(u, s, Marks(from, pieces), TokensOf(u, pieces))
    ensures forall k :: 0 <= k < |Marks(from, pieces)| ==> from <= Marks(from, pieces)[k].0
    decreases |pieces|
  {
    if pieces != [] {
      var next := from + |pieces[0].1|;
      PiecesAreMarked(u, s, next, pieces[1..]);
      if pieces[0].0 == Word || pieces[0].0 == Symbol {
        OneMoreMark(u, s, from, next, Marks(next, pieces[1..]), TokensOf(u, pieces[1..]));
      }
    }
  }

  ghost predicate MarkedAt(marks: seq<(nat, nat)>, i: nat) {
    exists k :: 0 <= k < |marks| && marks[k].0 == i
  }

  lemma {:induction false} VisibleIsMarked(u: Unicode, s: string, from: nat, pieces: seq<(Kind, string)>, i: nat)
    requires Reads(u, s, from, pieces) && from <= i < from + |Joined(pieces)| && Visible(u, s, i)
    ensures MarkedAt(Marks(from, pieces), i)
    decreases |pieces|
  {
    var next, marks, later := from + |pieces[0].1|, Marks(from, pieces), Marks(from + |pieces[0].1|, pieces[1..]);
    if i < next {
      assert marks[0] == (from, next);
    } else {
      VisibleIsMarked(u, s, next, pieces[1..], i);
      var k :| 0 <= k < |later| && later[k].0 == i;
      assert marks[|marks| - |later| + k] == later[k];
    }
  }

  // A text that scans has one token for each visible beginning, in order.
  lemma TextIsMarked(u: Unicode, s: string) returns (marks: seq<(nat, nat)>)
    requires Sane(u) && Scan(u, s).Tokens?
    ensures Marked(u, s, marks, Scan(u, s).tokens)
    ensures forall i: nat :: Visible(u, s, i) ==> MarkedAt(marks, i)
  {
    var pieces := Pieces(u, s);
    assert s[0..] == s;
    PiecesLie(u, s, 0, pieces);
    PiecesPartitionTheText(u, s);
    PiecesAreMarked(u, s, 0, pieces);
    marks := Marks(0, pieces);
    forall i: nat | Visible(u, s, i) ensures MarkedAt(marks, i) {
      VisibleIsMarked(u, s, 0, pieces, i);
    }
  }

  // ----- The verdict on the text -----

  lemma StretchUnique(u: Unicode, s: string, a: nat, b: nat, c: nat)
    requires Stretch(u, s, a, b) && Stretch(u, s, a, c)
    ensures b == c
  {
    if IsWord(u, s, a) {
      assert b < |s| ==> !InWord(u, s, b, At(u, s, b));
      assert c < |s| ==> !InWord(u, s, c, At(u, s, c));
    }
  }

  lemma SymbolToken(u: Unicode, s: string, a: nat, b: nat, c: char)
    requires Sane(u) && SaneUpper(u) && Stretch(u, s, a, b) && (c == ';' || c == '(')
    ensures TokenAt(u, s, a, b) == [c] <==> s[a] == c
  {
    assert s[a..b][0] == s[a] == s[a..][0];
    if s[a] == c {
      assert Decode(s[a..]) == Rune(c as int, 1);
      assert s[a..b] == [c];
    }
  }

  lemma KeywordsAreWords(w: string)
    requires w in FORBIDDEN + FUNCTIONS + STARTS
    ensures w != "" && 'A' <= w[0] <= 'Z'
  {
  }

  lemma WordToken(u: Unicode, s: string, a: nat, b: nat)
    requires Sane(u) && Stretch(u, s, a, b) && TokenAt(u, s, a, b) in FORBIDDEN + FUNCTIONS + STARTS
    ensures IsWord(u, s, a)
  {
    assert s[a..b][0] == s[a] == s[a..][0];
    if !IsWord(u, s, a) {
      KeywordsAreWords(s[a..b]);
      assert false;
    }
  }

  // The word `w`, in some case, stands from a to b.
  ghost predicate WordAt(u: Unicode, s: string, a: nat, b: nat, w: string) {
    Stretch(u, s, a, b) && IsWord(u, s, a) && u.upper(s[a..b]) == w
  }

  // What is visible next after position a begins at c.
  ghost predicate Next(u: Unicode, s: string, a: nat, c: nat) {
    a < c && Visible(u, s, c) && forall i :: a < i < c ==> !Visible(u, s, i)
  }

  // A semicolon, and something visible after it.
  ghost predicate GoesOn(u: Unicode, s: string) {
    exists i: nat, j: nat :: i < j && Visible(u, s, i) && Visible(u, s, j) && s[i] == ';'
  }

  ghost predicate HasForbiddenWord(u: Unicode, s: string) {
    exists a: nat, b: nat, w: string :: WordAt(u, s, a, b, w) && w in FORBIDDEN
  }

  ghost predicate CallsForbidden(u: Unicode, s: string) {
    exists a: nat, b: nat, c: nat, w: string ::
      WordAt(u, s, a, b, w) && w in FUNCTIONS && Next(u, s, a, c) && s[c] == '('
  }

  ghost predicate StartsWell(u: Unicode, s: string) {
    exists a: nat, b: nat, w: string :: WordAt(u, s, a, b, w) && w in STARTS && NoneBefore(u, s, a)
  }

  ghost predicate NoneBefore(u: Unicode, s: string, a: nat) {
    forall i :: 0 <= i < a ==> !Visible(u, s, i)
  }

  ghost predicate Covers(u: Unicode, s: string, marks: seq<(nat, nat)>) {
    forall i: nat :: Visible(u, s, i) ==> MarkedAt(marks, i)
  }

  lemma MarkOf(u: Unicode, s: string, marks: seq<(nat, nat)>, tokens: seq<string>, i: nat) returns (k: nat)
    requires Marked(u, s, marks, tokens) && Covers(u, s, marks) && Visible(u, s, i)
    ensures k < |marks| && marks[k].0 == i
  {
    assert MarkedAt(marks, i);
    k :| k < |marks| && marks[k].0 == i;
  }

  lemma MarkOfWord(u: Unicode, s: string, marks: seq<(nat, nat)>, tokens: seq<string>, a: nat, b: nat, w: string)
    returns (k: nat)
    requires Marked(u, s, marks, tokens) && Covers(u, s, marks) && WordAt(u, s, a, b, w)
    ensures k < |marks| && marks[k] == (a, b) && tokens[k] == w
  {
    k := MarkOf(u, s, marks, tokens, a);
    StretchUnique(u, s, a, b, marks[k].1);
  }

  lemma GoesOnIff(u: Unicode, s: string, marks: seq<(nat, nat)>, tokens: seq<string>)
    requires Sane(u) && SaneUpper(u) && Marked(u, s, marks, tokens) && Covers(u, s, marks)
    ensures GoesOn(u, s) <==> exists k :: 0 <= k < |tokens| - 1 && tokens[k] == ";"
  {
    if i: nat, j: nat :| i < j && Visible(u, s, i) && Visible(u, s, j) && s[i] == ';' {
      var k := MarkOf(u, s, marks, tokens, i);
      var l := MarkOf(u, s, marks, tokens, j);
      SymbolToken(u, s, i, marks[k].1, ';');
      assert k < l && tokens[k] == ";";
    }
    if k :| 0 <= k < |tokens| - 1 && tokens[k] == ";" {
      SymbolToken(u, s, marks[k].0, marks[k].1, ';');
      assert Stretch(u, s, marks[k + 1].0, marks[k + 1].1) && marks[k].0 < marks[k + 1].0;
    }
  }

  lemma StartsWellIff(u: Unicode, s: string, marks: seq<(nat, nat)>, tokens: seq<string>)
    requires Sane(u) && Marked(u, s, marks, tokens) && Covers(u, s, marks)
    ensures StartsWell(u, s) <==> tokens != [] && tokens[0] in STARTS
  {
    if a: nat, b: nat, w: string :| WordAt(u, s, a, b, w) && w in STARTS && NoneBefore(u, s, a) {
      var k := MarkOfWord(u, s, marks, tokens, a, b, w);
      assert Stretch(u, s, marks[0].0, marks[0].1);
      assert k == 0;
    }
    if tokens != [] && tokens[0] in STARTS {
      var a, b := marks[0].0, marks[0].1;
      assert Stretch(u, s, a, b);
      WordToken(u, s, a, b);
      assert WordAt(u, s, a, b, tokens[0]);
      forall i | 0 <= i < a ensures !Visible(u, s, i) {
        if Visible(u, s, i) {
          var k := MarkOf(u, s, marks, tokens, i);
        }
      }
    }
  }

  lemma ForbiddenWordIff(u: Unicode, s: string, marks: seq<(nat, nat)>, tokens: seq<string>)
    requires Sane(u) && Marked(u, s, marks, tokens) && Covers(u, s, marks)
    ensures HasForbiddenWord(u, s) <==> exists k :: 0 <= k < |tokens| && tokens[k] in FORBIDDEN
  {
    if a: nat, b: nat, w: string :| WordAt(u, s, a, b, w) && w in FORBIDDEN {
      var k := MarkOfWord(u, s, marks, tokens, a, b, w);
      assert tokens[k] in FORBIDDEN;
    }
    if k :| 0 <= k < |tokens| && tokens[k] in FORBIDDEN {
      WordToken(u, s, marks[k].0, marks[k].1);
      assert WordAt(u, s, marks[k].0, marks[k].1, tokens[k]);
    }
  }

  lemma NextMark(u: Unicode, s: string, marks: seq<(nat, nat)>, tokens: seq<string>, k: nat, c: nat)
    requires Marked(u, s, marks, tokens) && Covers(u, s, marks) && k < |marks|
    ensures Next(u, s, marks[k].0, c) <==> k + 1 < |marks| && marks[k + 1].0 == c
  {
    if Next(u, s, marks[k].0, c) {
      var l := MarkOf(u, s, marks, tokens, c);
      assert k < l;
      assert Stretch(u, s, marks[k + 1].0, marks[k + 1].1);
      assert k + 1 == l;
    }
    if k + 1 < |marks| && marks[k + 1].0 == c {
      assert Stretch(u, s, marks[k + 1].0, marks[k + 1].1);
      forall i: nat | marks[k].0 < i < c ensures !Visible(u, s, i) {
        if Visible(u, s, i) {
          var l := MarkOf(u, s, marks, tokens, i);
          assert false;
        }
      }
    }
  }

  lemma CallsForbiddenIff(u: Unicode, s: string, marks: seq<(nat, nat)>, tokens: seq<string>)
    requires Sane(u) && SaneUpper(u) && Marked(u, s, marks, tokens) && Covers(u, s, marks)
    ensures CallsForbidden(u, s) <==>
      exists k :: 0 <= k < |tokens| - 1 && tokens[k] in FUNCTIONS && tokens[k + 1] == "("
  {
    if a: nat, b: nat, c: nat, w: string :| WordAt(u, s, a, b, w) && w in FUNCTIONS && Next(u, s, a, c) && s[c] == '(' {
      var k := MarkOfWord(u, s, marks, tokens, a, b, w);
      NextMark(u, s, marks, tokens, k, c);
      SymbolToken(u, s, c, marks[k + 1].1, '(');
      assert tokens[k] in FUNCTIONS && tokens[k + 1] == "(";
    }
    if k :| 0 <= k < |tokens| - 1 && tokens[k] in FUNCTIONS && tokens[k + 1] == "(" {
      var c := marks[k + 1].0;
      WordToken(u, s, marks[k].0, marks[k].1);
      NextMark(u, s, marks, tokens, k, c);
      SymbolToken(u, s, c, marks[k + 1].1, '(');
      assert WordAt(u, s, marks[k].0, marks[k].1, tokens[k]);
    }
  }

  // The guard accepts exactly a text within the size limit that ends in code or in a line comment,
  // whose first visible word is an allowed one, with nothing visible after a semicolon, without a
  // forbidden word, and without a forbidden function before a parenthesis. Quoted values are not visible.
  lemma AcceptedOnText(u: Unicode, s: string)
    requires Sane(u) && SaneUpper(u)
    ensures Check(u, s) == Accepted <==>
      && |s| <= MAX_BYTES && !Unended(At(u, s, |s|))
      && StartsWell(u, s) && !GoesOn(u, s) && !HasForbiddenWord(u, s) && !CallsForbidden(u, s)
  {
    AcceptedIff(u, s);
    assert s[0..] == s;
    ScansIff(u, s, 0, Scan(u, s));
    if Scan(u, s).Tokens? {
      var tokens := Scan(u, s).tokens;
      var marks := TextIsMarked(u, s);
      GoesOnIff(u, s, marks, tokens);
      StartsWellIff(u, s, marks, tokens);
      ForbiddenWordIff(u, s, marks, tokens);
      CallsForbiddenIff(u, s, marks, tokens);
      AllowedIff(tokens);
    }
  }

  lemma AllowedIff(tokens: seq<string>)
    ensures Allowed(tokens) <==>
      && tokens != [] && tokens[0] in STARTS
      && !(exists k :: 0 <= k < |tokens| - 1 && tokens[k] == ";")
      && !(exists k :: 0 <= k < |tokens| && tokens[k] in FORBIDDEN)
      && !(exists k :: 0 <= k < |tokens| - 1 && tokens[k] in FUNCTIONS && tokens[k + 1] == "(")
  {
    if Allowed(tokens) {
      forall k | 0 <= k < |tokens| ensures tokens[k] !in FORBIDDEN {
        assert !ForbiddenAt(tokens, k);
      }
      forall k | 0 <= k < |tokens| - 1 ensures !(tokens[k] in FUNCTIONS && tokens[k + 1] == "(") {
        assert !ForbiddenAt(tokens, k);
      }
    }
  }

  // ----- For words in ASCII, in any case -----

  predicate WordByte(c: char) {
    c == '_' || 'A' <= c <= 'Z' || 'a' <= c <= 'z' || '0' <= c <= '9'
  }

  // Bytes of a word from a to b, in code and not after a word, with no byte of a word behind them.
  ghost predicate PlainWord(u: Unicode, s: string, a: nat, b: nat) {
    && a < b <= |s| && At(u, s, a) == Code(false) && !('0' <= s[a] <= '9')
    && (forall i :: a <= i < b ==> WordByte(s[i]))
    && (b < |s| ==> s[b] as int < 0x80 && !WordByte(s[b]))
  }

  lemma ByteIsCharacter(s: string, i: nat)
    requires i < |s| && s[i] as int < 0x80
    ensures Decode(s[i..]) == Rune(s[i] as int, 1)
  {
    assert s[i..][0] == s[i];
  }

  lemma {:induction false} PlainModes(u: Unicode, s: string, a: nat, b: nat, i: nat)
    requires Sane(u) && PlainWord(u, s, a, b) && a <= i <= b
    ensures At(u, s, i) == Code(i > a)
  {
    if i > a {
      PlainModes(u, s, a, b, i - 1);
      ByteIsCharacter(s, i - 1);
      PartIsPlain(u, s[i - 1..]);
      assert s[i - 1..][0] == s[i - 1];
    }
  }

  lemma PlainWordStands(u: Unicode, s: string, a: nat, b: nat)
    requires Sane(u) && SaneUpper(u) && PlainWord(u, s, a, b)
    ensures WordAt(u, s, a, b, Upper(s[a..b]))
  {
    forall i | a <= i <= b ensures At(u, s, i) == Code(i > a) {
      PlainModes(u, s, a, b, i);
    }
    forall i | a <= i < b ensures IsIdentifierPart(u, Decode(s[i..]).code) {
      ByteIsCharacter(s, i);
    }
    ByteIsCharacter(s, a);
    PartIsPlain(u, s[a..]);
    assert s[a..][0] == s[a];
    if b < |s| {
      ByteIsCharacter(s, b);
    }
    assert Ascii(s[a..b]);
  }

  // So a forbidden word in any case is never accepted, wherever it stands outside quotes and comments.
  lemma ForbiddenInAnyCase(u: Unicode, s: string, a: nat, b: nat)
    requires Sane(u) && SaneUpper(u) && PlainWord(u, s, a, b) && Upper(s[a..b]) in FORBIDDEN
    ensures Check(u, s) != Accepted
  {
    PlainWordStands(u, s, a, b);
    AcceptedOnText(u, s);
  }

  lemma ForbiddenCallInAnyCase(u: Unicode, s: string, a: nat, b: nat, c: nat)
    requires Sane(u) && SaneUpper(u) && PlainWord(u, s, a, b) && Upper(s[a..b]) in FUNCTIONS
    requires Next(u, s, a, c) && s[c] == '('
    ensures Check(u, s) != Accepted
  {
    PlainWordStands(u, s, a, b);
    AcceptedOnText(u, s);
  }

  // And a text is accepted that starts with one of the three words in any case and has none of these.
  lemma StartsInAnyCase(u: Unicode, s: string, a: nat, b: nat)
    requires Sane(u) && SaneUpper(u) && PlainWord(u, s, a, b) && Upper(s[a..b]) in STARTS
    requires |s| <= MAX_BYTES && !Unended(At(u, s, |s|)) && NoneBefore(u, s, a)
    requires !GoesOn(u, s) && !HasForbiddenWord(u, s) && !CallsForbidden(u, s)
    ensures Check(u, s) == Accepted
  {
    PlainWordStands(u, s, a, b);
    AcceptedOnText(u, s);
  }

  // A quoted value is not visible, even after the semicolon: this text is accepted.
  lemma QuotedAfterSemicolon(u: Unicode)
    requires Sane(u) && SaneUpper(u)
    ensures Check(u, "SELECT" + " 1; 'x'") == Accepted
  {
    var rest := " 1; 'x'";
    ScanRest(u, rest);
    ScanSelect(u, rest);
    AcceptedAs(u, "SELECT" + rest, ["1", ";"], Scan(u, rest));
  }

  lemma AcceptedAs(u: Unicode, s: string, rest: seq<string>, scanned: Scanned)
    requires |s| <= MAX_BYTES && Scan(u, s) == Prepended(["SELECT"], scanned)
    requires scanned == Tokens(rest) && rest == ["1", ";"]
    ensures Check(u, s) == Accepted
  {
    var tokens := ["SELECT"] + rest;
    NoKeyword(tokens[1]);
    NoKeyword(tokens[2]);
    SelectIsNotForbidden();
    forall i | 0 <= i < |tokens| ensures !ForbiddenAt(tokens, i) {
      assert i == 0 || tokens[i] == rest[i - 1];
    }
    WordsAcceptIff(tokens, 0);
  }

  lemma NoKeyword(w: string)
    requires w != "" && !('A' <= w[0] <= 'Z')
    ensures w !in FORBIDDEN && w !in FUNCTIONS && w !in STARTS
  {
    if w in FORBIDDEN + FUNCTIONS + STARTS {
      KeywordsAreWords(w);
    }
  }

  lemma SelectIsNotForbidden()
    ensures "SELECT" in STARTS && "SELECT" !in FORBIDDEN && "SELECT" !in FUNCTIONS
  {
  }

  lemma ScanSelect(u: Unicode, rest: string)
    requires Sane(u) && SaneUpper(u) && rest != "" && rest[0] == ' '
    ensures Scan(u, "SELECT" + rest) == Prepended(["SELECT"], Scan(u, rest))
  {
    var word := "SELECT";
    var s := word + rest;
    SixLetters(u, s);
    ByteIsCharacter(s, 0);
    assert s[0..] == s && s[6..] == rest && s[..6] == word;
    ScanFirst(u, s, Piece(Word, 6));
    assert Ascii(word) && Upper(word) == word;
  }

  lemma ScanRest(u: Unicode, s: string)
    requires Sane(u) && |s| == 7 && s[0] == ' ' && s[1] == '1' && s[2] == ';' && s[3] == ' '
    requires s[4] == '\'' && s[5] == 'x' && s[6] == '\''
    ensures Scan(u, s) == Tokens([[s[1]], [s[2]]])
  {
    ScanByte(u, s, Gap, s[1..]);
    ScanByte(u, s[1..], Symbol, s[2..]);
    ScanByte(u, s[2..], Symbol, s[3..]);
    ScanByte(u, s[3..], Gap, s[4..]);
    ScanQuoted(u, s[4..]);
  }

  lemma SixLetters(u: Unicode, s: string)
    requires Sane(u) && |s| > 6 && (forall i :: 0 <= i < 6 ==> 'A' <= s[i] <= 'Z') && s[6] == ' '
    ensures WordEnd(u, s, 1) == 6
  {
    forall i | 0 <= i <= 6 ensures Decode(s[i..]) == Rune(s[i] as int, 1) {
      ByteIsCharacter(s, i);
    }
    assert WordEnd(u, s, 6) == 6 && WordEnd(u, s, 5) == 6 && WordEnd(u, s, 4) == 6 && WordEnd(u, s, 3) == 6;
  }

  lemma ScanByte(u: Unicode, s: string, kind: Kind, rest: string)
    requires Sane(u) && s != "" && s[1..] == rest
    requires if kind == Gap then s[0] == ' ' else kind == Symbol && (s[0] == '1' || s[0] == ';')
    ensures Scan(u, s) == Prepended(if kind == Gap then [] else [[s[0]]], Scan(u, rest))
  {
    ByteIsCharacter(s, 0);
    assert s[0..] == s && s[..1] == [s[0]];
    ScanFirst(u, s, Piece(kind, 1));
  }

  lemma ScanQuoted(u: Unicode, s: string)
    requires Sane(u) && |s| == 3 && s[0] == '\'' && s[1] == 'x' && s[2] == '\''
    ensures Scan(u, s) == Tokens([])
  {
    ByteIsCharacter(s, 0);
    assert s[0..] == s && CloseFrom(s, 2, '\'') == Some(3);
    ScanFirst(u, s, Piece(Quoted, 3));
    assert s[3..] == "";
  }

  // ----- The case of letters -----

  predicate IsLetter(c: char) {
    'A' <= c <= 'Z' || 'a' <= c <= 'z'
  }

  lemma SameByte(s: string, t: string, i: nat)
    requires SameLetters(s, t) && i < |s|
    ensures s[i] == t[i] || (IsLetter(s[i]) && IsLetter(t[i]))
  {
    assert UpperByte(s[i]) == UpperByte(t[i]);
  }

  lemma SameTail(s: string, t: string, i: nat)
    requires SameLetters(s, t) && i <= |s|
    ensures SameLetters(s[i..], t[i..]) && SameLetters(s[..i], t[..i])
  {
  }

  lemma SameCharacter(s: string, t: string)
    requires SameLetters(s, t) && s != ""
    ensures Decode(s).size == Decode(t).size
    ensures (s[..Decode(s).size] == t[..Decode(s).size] && Decode(s) == Decode(t))
      || (Decode(s) == Rune(s[0] as int, 1) && Decode(t) == Rune(t[0] as int, 1) && IsLetter(s[0]) && IsLetter(t[0]))
  {
    forall i | 0 <= i < |s| ensures s[i] == t[i] || (IsLetter(s[i]) && IsLetter(t[i])) {
      SameByte(s, t, i);
    }
  }

  // Case changes nothing in what the tables say of a character.
  lemma SameClass(u: Unicode, s: string, t: string)
    requires Sane(u) && SameLetters(s, t) && s != ""
    ensures u.space(Decode(s).code) == u.space(Decode(t).code)
    ensures IsIdentifierStart(u, Decode(s).code) == IsIdentifierStart(u, Decode(t).code)
    ensures IsIdentifierPart(u, Decode(s).code) == IsIdentifierPart(u, Decode(t).code)
  {
    SameCharacter(s, t);
  }

  lemma WordBack(u: Unicode, s: string, from: nat, next: nat, end: nat)
    requires from < |s| && next <= |s| && IsIdentifierPart(u, Decode(s[from..]).code)
    requires from + Decode(s[from..]).size == next && WordEnd(u, s, next) == end
    ensures WordEnd(u, s, from) == end
  {
  }

  lemma WordStops(u: Unicode, s: string, from: nat)
    requires from <= |s|
    ensures WordEnd(u, s, from) == from <==> from == |s| || !IsIdentifierPart(u, Decode(s[from..]).code)
  {
  }

  lemma SameCharacterAt(u: Unicode, s: string, t: string, i: nat)
    requires Sane(u) && SameLetters(s, t) && i < |s|
    ensures Decode(s[i..]).size == Decode(t[i..]).size
    ensures IsIdentifierPart(u, Decode(s[i..]).code) == IsIdentifierPart(u, Decode(t[i..]).code)
  {
    SameTail(s, t, i);
    SameClass(u, s[i..], t[i..]);
    SameCharacter(s[i..], t[i..]);
  }

  lemma {:induction false} SameWordEnd(u: Unicode, s: string, t: string, from: nat, end: nat)
    requires Sane(u) && SameLetters(s, t) && from <= end <= |s| && WordEnd(u, s, from) == end
    ensures WordEnd(u, t, from) == end
    decreases end - from
  {
    if from < |s| {
      SameCharacterAt(u, s, t, from);
    }
    if from < end {
      var next := from + Decode(s[from..]).size;
      WordGoesOn(u, s, from, end);
      SameWordEnd(u, s, t, next, end);
      WordBack(u, t, from, next, end);
    } else {
      WordStops(u, s, from);
      WordStops(u, t, from);
    }
  }

  lemma {:induction false} SameByteFrom(s: string, t: string, from: nat, c: char)
    requires SameLetters(s, t) && !IsLetter(c)
    ensures ByteFrom(s, from, c) == ByteFrom(t, from, c)
    decreases |s| - from
  {
    if from < |s| {
      SameByte(s, t, from);
      SameByteFrom(s, t, from + 1, c);
    }
  }

  lemma {:induction false} SameCommentEnd(s: string, t: string, from: nat)
    requires SameLetters(s, t)
    ensures CommentEndFrom(s, from) == CommentEndFrom(t, from)
    decreases |s| - from
  {
    if from < |s| {
      SameByte(s, t, from);
      if from + 1 < |s| {
        SameByte(s, t, from + 1);
      }
      SameCommentEnd(s, t, from + 1);
    }
  }

  lemma {:induction false} SameClose(s: string, t: string, from: nat, end: char)
    requires SameLetters(s, t) && !IsLetter(end)
    ensures CloseFrom(s, from, end) == CloseFrom(t, from, end)
    decreases |s| - from
  {
    if from < |s| {
      SameByte(s, t, from);
      if s[from] != end {
        SameClose(s, t, from + 1, end);
      } else if from + 1 < |s| {
        SameByte(s, t, from + 1);
        SameClose(s, t, from + 2, end);
      }
    }
  }

  lemma SameStart(s: string, t: string, a: char, b: char)
    requires SameLetters(s, t) && !IsLetter(a) && !IsLetter(b)
    ensures StartsWith(s, a, b) == StartsWith(t, a, b)
  {
    if |s| >= 2 {
      SameByte(s, t, 0);
      SameByte(s, t, 1);
    }
  }

  lemma SamePiece(u: Unicode, s: string, t: string)
    requires Sane(u) && SameLetters(s, t) && s != ""
    ensures Lex(u, s) == Lex(u, t)
  {
    SameByte(s, t, 0);
    SameCharacter(s, t);
    SameClass(u, s, t);
    SameStart(s, t, '-', '-');
    SameStart(s, t, '/', '*');
    SameByteFrom(s, t, 2, '\n');
    SameCommentEnd(s, t, 2);
    SameWordEnd(u, s, t, Decode(s).size, WordEnd(u, s, Decode(s).size));
    if !IsLetter(s[0]) {
      SameClose(s, t, 1, s[0]);
      SameClose(s, t, 1, ']');
    }
  }

  lemma SameToken(u: Unicode, s: string, t: string)
    requires Sane(u) && SaneUpper(u) && SameLetters(s, t) && s != "" && Lex(u, s).Piece?
    ensures var move := Lex(u, s); TokenOf(u, move.kind, s[..move.size]) == TokenOf(u, move.kind, t[..move.size])
  {
    SameTail(s, t, Lex(u, s).size);
    SameCharacter(s, t);
  }

  lemma {:induction false} SameScan(u: Unicode, s: string, t: string)
    requires Sane(u) && SaneUpper(u) && SameLetters(s, t)
    ensures Scan(u, s) == Scan(u, t)
    decreases |s|
  {
    if s != "" {
      SamePiece(u, s, t);
      ScanFirst(u, s, Lex(u, s));
      ScanFirst(u, t, Lex(u, s));
      if Lex(u, s).Piece? {
        SameToken(u, s, t);
        SameTail(s, t, Lex(u, s).size);
        SameScan(u, s[Lex(u, s).size..], t[Lex(u, s).size..]);
      }
    }
  }

  // The verdict does not see the case of ASCII letters, in words, quotes or comments.
  lemma VerdictIgnoresCase(u: Unicode, s: string, t: string)
    requires Sane(u) && SaneUpper(u) && SameLetters(s, t)
    ensures Check(u, s) == Check(u, t)
  {
    SameScan(u, s, t);
  }
}
