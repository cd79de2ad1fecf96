// The tokenizer that guards user SQL, and the guard (internal/store/sqlpage.go:35-146).
module SqlTokens {
  import opened Prelude
  import opened Utf8

  // Go's Unicode tables and upper-casing.
  datatype Unicode = Unicode(space: int -> bool, letter: int -> bool, digit: int -> bool, upper: string -> string)

  // What the tokenizer relies on: the ASCII part, and that U+FFFD is a symbol.
  ghost predicate Sane(u: Unicode) {
    && (forall c :: 0 <= c < 0x80 ==> (u.space(c) <==> c == 0x20 || 0x09 <= c <= 0x0D))
    && (forall c :: 0 <= c < 0x80 ==> (u.letter(c) <==> 0x41 <= c <= 0x5A || 0x61 <= c <= 0x7A))
    && (forall c :: 0 <= c < 0x80 ==> (u.digit(c) <==> 0x30 <= c <= 0x39))
    && (forall c :: u.space(c) ==> !u.letter(c) && !u.digit(c))
    && !u.space(INVALID) && !u.letter(INVALID) && !u.digit(INVALID)
  }

  // And that upper-casing is the usual one on ASCII, does not depend on the case of ASCII letters
  // elsewhere, and makes no symbols.
  ghost predicate SaneUpper(u: Unicode) {
    && (forall s :: Ascii(s) ==> u.upper(s) == Upper(s))
    && (forall s, t :: SameLetters(s, t) ==> u.upper(s) == u.upper(t))
    && (forall s :: u.upper(s) == ";" || u.upper(s) == "(" ==> s == u.upper(s))
  }

  predicate Ascii(s: string) {
    forall i :: 0 <= i < |s| ==> s[i] as int < 0x80
  }

  function UpperByte(c: char): char {
    if 'a' <= c <= 'z' then (c as int - 32) as char else c
  }

  // Upper-casing of the ASCII letters.
  function Upper(s: string): string {
    seq(|s|, i requires 0 <= i < |s| => UpperByte(s[i]))
  }

  // The same text but for the case of ASCII letters.
  predicate SameLetters(s: string, t: string) {
    |s| == |t| && forall i :: 0 <= i < |s| ==> UpperByte(s[i]) == UpperByte(t[i])
  }

  const UNDERSCORE := '_' as int

  predicate IsIdentifierStart(u: Unicode, code: int) {
    code == UNDERSCORE || u.letter(code)
  }

  predicate IsIdentifierPart(u: Unicode, code: int) {
    IsIdentifierStart(u, code) || u.digit(code)
  }

  // ----- What the scanner looks for ahead -----

  predicate StartsWith(s: string, a: char, b: char) {
    |s| >= 2 && s[0] == a && s[1] == b
  }

  // strings.IndexByte, from a position on.
  function ByteFrom(s: string, from: nat, c: char): (r: Option<nat>)
    ensures r.Some? ==> from <= r.value < |s|
    decreases |s| - from
  {
    if from >= |s| then None else if s[from] == c then Some(from) else ByteFrom(s, from + 1, c)
  }

  predicate CommentEndsAt(s: string, i: int) {
    0 <= i < |s| - 1 && s[i] == '*' && s[i + 1] == '/'
  }

  // strings.Index of the end of a block comment, from a position on.
  function CommentEndFrom(s: string, from: nat): (r: Option<nat>)
    ensures r.Some? ==> from <= r.value < |s| - 1
    decreases |s| - from
  {
    if from >= |s| then None else if CommentEndsAt(s, from) then Some(from) else CommentEndFrom(s, from + 1)
  }

  lemma {:induction false} ByteFromIff(s: string, from: nat, c: char, at: nat)
    ensures ByteFrom(s, from, c) == Some(at) <==>
      from <= at < |s| && s[at] == c && forall i :: from <= i < at ==> s[i] != c
    decreases |s| - from
  {
    if from < |s| && s[from] != c {
      ByteFromIff(s, from + 1, c, at);
    }
  }

  lemma {:induction false} CommentEndIff(s: string, from: nat, at: nat)
    ensures CommentEndFrom(s, from) == Some(at) <==>
      from <= at && CommentEndsAt(s, at) && forall i :: from <= i < at ==> !CommentEndsAt(s, i)
    decreases |s| - from
  {
    if from < |s| && !CommentEndsAt(s, from) {
      CommentEndIff(s, from + 1, at);
    }
  }

  // The position after the closing quote; a doubled quote is part of the content.
  function CloseFrom(s: string, from: nat, end: char): (r: Option<nat>)
    ensures r.Some? ==> from < r.value <= |s|
    decreases |s| - from
  {
    if from >= |s| then None
    else if s[from] != end then CloseFrom(s, from + 1, end)
    else if from + 1 < |s| && s[from + 1] == end then CloseFrom(s, from + 2, end)
    else Some(from + 1)
  }

  function WordEnd(u: Unicode, s: string, from: nat): (end: nat)
    requires from <= |s|
    ensures from <= end <= |s|
    decreases |s| - from
  {
    if from < |s| && IsIdentifierPart(u, Decode(s[from..]).code) then WordEnd(u, s, from + Decode(s[from..]).size)
      else from
  }

  // ----- One turn of the scanner, on what is left of the text -----

  // OpenComment: a line comment that no newline ends, which stops the scan.
  datatype Kind = Gap | OpenComment | Quoted | Word | Symbol

  datatype Unterminated = Comment | QuotedValue | BracketIdentifier

  datatype Move = Piece(kind: Kind, size: nat) | Fail(what: Unterminated)

  predicate IsQuote(c: char) {
    c == '\'' || c == '"' || c == '`'
  }

  function Lex(u: Unicode, s: string): (move: Move)
    requires s != ""
    ensures move.Piece? ==> 0 < move.size <= |s|
  {
    var rune := Decode(s);
    if u.space(rune.code) then Piece(Gap, rune.size)
    else if StartsWith(s, '-', '-') then LexLine(s)
    else if StartsWith(s, '/', '*') then LexBlock(s)
    else if IsQuote(s[0]) then LexQuoted(s, s[0], QuotedValue)
    else if s[0] == '[' then LexQuoted(s, ']', BracketIdentifier)
    else if IsIdentifierStart(u, rune.code) then Piece(Word, WordEnd(u, s, rune.size))
    else Piece(Symbol, rune.size)
  }

  function LexLine(s: string): Move {
    var end := ByteFrom(s, 2, '\n');
    if end.Some? then Piece(Gap, end.value + 1) else Piece(OpenComment, |s|)
  }

  function LexBlock(s: string): Move {
    var end := CommentEndFrom(s, 2);
    if end.Some? then Piece(Gap, end.value + 2) else Fail(Comment)
  }

  function LexQuoted(s: string, end: char, what: Unterminated): Move {
    var next := CloseFrom(s, 1, end);
    if next.Some? then Piece(Quoted, next.value) else Fail(what)
  }

  datatype Scanned = Tokens(tokens: seq<string>) | Broken(what: Unterminated)

  // The token a piece gives, if any.
  function TokenOf(u: Unicode, kind: Kind, piece: string): seq<string> {
    match kind
    case Word => [u.upper(piece)]
    case Symbol => [piece]
    case _ => []
  }

  function Prepended(tokens: seq<string>, rest: Scanned): Scanned {
    if rest.Tokens? then Tokens(tokens + rest.tokens) else rest
  }

  function Scan(u: Unicode, s: string): Scanned
    decreases |s|
  {
    if s == "" then Tokens([])
    else
      var move := Lex(u, s);
      if move.Fail? then Broken(move.what)
      else Prepended(TokenOf(u, move.kind, s[..move.size]), Scan(u, s[move.size..]))
  }

  // ----- The loops -----

  method QuotedEnd(text: string, start: nat, end: char) returns (next: nat, ok: bool)
    requires start < |text|
    ensures CloseFrom(text, start + 1, end) == if ok then Some(next) else None
    ensures !ok ==> next == 0
  {
    var i := start + 1;
    while i < |text|
      invariant CloseFrom(text, start + 1, end) == CloseFrom(text, i, end)
      decreases |text| - i
    {
      if text[i] != end {
        i := i + 1;
      } else if i + 1 < |text| && text[i + 1] == end {
        i := i + 2;
      } else {
        return i + 1, true;
      }
    }
    return 0, false;
  }

  method Identifier(u: Unicode, text: string, start: nat) returns (i: nat)
    requires start < |text|
    ensures start < i <= |text|
    ensures i - start == WordEnd(u, text[start..], Decode(text[start..]).size)
  {
    ghost var s := text[start..];
    i := start + Decode(text[start..]).size;
    while i < |text|
      invariant start < i <= |text|
      invariant WordEnd(u, s, i - start) == WordEnd(u, s, Decode(s).size)
      decreases |text| - i
    {
      assert s[i - start..] == text[i..];
      var rune := Decode(text[i..]);
      if !IsIdentifierPart(u, rune.code) {
        break;
      }
      i := i + rune.size;
    }
  }

  lemma {:induction false} CloseShift(text: string, start: nat, from: nat, end: char)
    requires start <= |text|
    ensures CloseFrom(text, start + from, end) ==
      (var next := CloseFrom(text[start..], from, end); if next.Some? then Some(start + next.value) else None)
    decreases |text| - from
  {
    if start + from < |text| {
      if text[start + from] != end {
        CloseShift(text, start, from + 1, end);
      } else if start + from + 1 < |text| && text[start + from + 1] == end {
        CloseShift(text, start, from + 2, end);
      }
    }
  }

  lemma ScanFirst(u: Unicode, s: string, move: Move)
    requires s != "" && Lex(u, s) == move
    ensures Scan(u, s) ==
      if move.Fail? then Broken(move.what)
        else Prepended(TokenOf(u, move.kind, s[..move.size]), Scan(u, s[move.size..]))
  {
  }

  lemma ScanNext(u: Unicode, s: string, move: Move, tokens: seq<string>)
    requires s != "" && Lex(u, s) == move
    ensures move.Fail? ==> Prepended(tokens, Scan(u, s)) == Broken(move.what)
    ensures move.Piece? ==>
      Prepended(tokens, Scan(u, s)) ==
        Prepended(tokens + TokenOf(u, move.kind, s[..move.size]), Scan(u, s[move.size..]))
  {
    ScanFirst(u, s, move);
    if move.Piece? {
      PrependedTwice(tokens, TokenOf(u, move.kind, s[..move.size]), Scan(u, s[move.size..]));
    }
  }

  lemma PrependedTwice(tokens: seq<string>, more: seq<string>, rest: Scanned)
    ensures Prepended(tokens, Prepended(more, rest)) == Prepended(tokens + more, rest)
  {
    if rest.Tokens? {
      assert tokens + (more + rest.tokens) == tokens + more + rest.tokens;
    }
  }

  // The body of the scanner's loop.
  method NextPiece(u: Unicode, text: string, i: nat) returns (move: Move)
    requires i < |text|
    ensures move == Lex(u, text[i..])
  {
    var rest := text[i..];
    var rune := Decode(rest);
    if u.space(rune.code) {
      return Piece(Gap, rune.size);
    }
    if StartsWith(rest, '-', '-') {
      var end := ByteFrom(rest, 2, '\n');
      return if end.Some? then Piece(Gap, end.value + 1) else Piece(OpenComment, |rest|);
    }
    if StartsWith(rest, '/', '*') {
      var end := CommentEndFrom(rest, 2);
      return if end.Some? then Piece(Gap, end.value + 2) else Fail(Comment);
    }
    if IsQuote(text[i]) {
      CloseShift(text, i, 1, text[i]);
      var next, ok := QuotedEnd(text, i, text[i]);
      return if ok then Piece(Quoted, next - i) else Fail(QuotedValue);
    }
    if text[i] == '[' {
      CloseShift(text, i, 1, ']');
      var next, ok := QuotedEnd(text, i, ']');
      return if ok then Piece(Quoted, next - i) else Fail(BracketIdentifier);
    }
    if IsIdentifierStart(u, rune.code) {
      var end := Identifier(u, text, i);
      return Piece(Word, end - i);
    }
    return Piece(Symbol, rune.size);
  }

  method SqlTokens(u: Unicode, text: string) returns (result: Scanned)
    ensures result == Scan(u, text)
  {
    var tokens: seq<string> := [];
    var i := 0;
    ghost var rest := text;
    while i < |text|
      invariant i <= |text| && rest == text[i..]
      invariant Scan(u, text) == Prepended(tokens, Scan(u, rest))
      decreases |text| - i
    {
      var move := NextPiece(u, text, i);
      ScanNext(u, rest, move, tokens);
      if move.Fail? {
        return Broken(move.what);
      }
      assert rest[..move.size] == text[i..i + move.size];
      tokens := tokens + TokenOf(u, move.kind, text[i..i + move.size]);
      rest := rest[move.size..];
      i := i + move.size;
    }
    return Tokens(tokens);
  }

  // ----- The pieces partition the text -----

  function Pieces(u: Unicode, s: string): seq<(Kind, string)>
    decreases |s|
  {
    if s == "" || Lex(u, s).Fail? then []
    else [(Lex(u, s).kind, s[..Lex(u, s).size])] + Pieces(u, s[Lex(u, s).size..])
  }

  function Joined(pieces: seq<(Kind, string)>): string {
    if pieces == [] then "" else pieces[0].1 + Joined(pieces[1..])
  }

  function TokensOf(u: Unicode, pieces: seq<(Kind, string)>): seq<string> {
    if pieces == [] then [] else TokenOf(u, pieces[0].0, pieces[0].1) + TokensOf(u, pieces[1..])
  }

  // Every byte of a text that scans lies in exactly one piece, in order, and the tokens are those
  // of the pieces.
  lemma {:induction false} PiecesPartitionTheText(u: Unicode, s: string)
    requires Scan(u, s).Tokens?
    ensures Joined(Pieces(u, s)) == s
    ensures TokensOf(u, Pieces(u, s)) == Scan(u, s).tokens
    ensures forall i :: 0 <= i < |Pieces(u, s)| ==> Pieces(u, s)[i].1 != ""
    decreases |s|
  {
    if s != "" {
      var n := Lex(u, s).size;
      PiecesPartitionTheText(u, s[n..]);
      assert s == s[..n] + s[n..];
    }
  }

  // ----- Quoting by doubling -----

  function Doubled(v: string, q: char): string {
    if v == "" then "" else (if v[0] == q then [q, q] else [v[0]]) + Doubled(v[1..], q)
  }

  // The scanner takes a quoted value for exactly its doubled form: it stops after n bytes if and
  // only if they are some value quoted by doubling and no further quote follows.
  lemma QuotedIff(s: string, q: char, n: nat)
    requires s != ""
    ensures CloseFrom(s, 1, q) == Some(n) <==>
      0 < n <= |s| && (n == |s| || s[n] != q) && exists v :: s[1..n] == Doubled(v, q) + [q]
  {
    if CloseFrom(s, 1, q) == Some(n) {
      var v := Content(s, 1, q);
    }
    if 0 < n <= |s| && (n == |s| || s[n] != q) && exists v :: s[1..n] == Doubled(v, q) + [q] {
      var v :| s[1..n] == Doubled(v, q) + [q];
      Closes(s, 1, q, v, n);
    }
  }

  lemma {:induction false} Content(s: string, from: nat, q: char) returns (v: string)
    requires from <= |s| && CloseFrom(s, from, q).Some?
    ensures var n := CloseFrom(s, from, q).value;
      from < n <= |s| && s[from..n] == Doubled(v, q) + [q] && (n == |s| || s[n] != q)
    decreases |s| - from
  {
    var n := CloseFrom(s, from, q).value;
    if s[from] != q {
      v := Content(s, from + 1, q);
      assert s[from..n] == [s[from]] + s[from + 1..n];
      v := [s[from]] + v;
    } else if from + 1 < |s| && s[from + 1] == q {
      v := Content(s, from + 2, q);
      assert s[from..n] == [q, q] + s[from + 2..n];
      v := [q] + v;
    } else {
      v := "";
    }
  }

  lemma {:induction false} Closes(s: string, from: nat, q: char, v: string, n: nat)
    requires from <= n <= |s| && (n == |s| || s[n] != q) && s[from..n] == Doubled(v, q) + [q]
    ensures CloseFrom(s, from, q) == Some(n)
    decreases |v|
  {
    var body := s[from..n];
    if v == "" {
      assert body[0] == s[from];
    } else if v[0] == q {
      assert body[0] == s[from] && body[1] == s[from + 1];
      assert s[from + 2..n] == body[2..];
      Closes(s, from + 2, q, v[1..], n);
    } else {
      assert body[0] == s[from];
      assert s[from + 1..n] == body[1..];
      Closes(s, from + 1, q, v[1..], n);
    }
  }

  // ----- White space and comments between tokens change nothing -----

  // One white-space character, or one block comment.
  ghost predicate Filler(u: Unicode, g: string) {
    || (g != "" && WellFormed(g) && Decode(g).size == |g| && u.space(Decode(g).code))
    || (|g| >= 4 && StartsWith(g, '/', '*') && CommentEndFrom(g, 2) == Some(|g| - 2))
  }

  // The scanner comes to position b between two pieces.
  predicate Boundary(u: Unicode, s: string, b: nat)
    decreases |s|
  {
    b != 0 ==>
      && s != ""
      && var move := Lex(u, s);
      && move.Piece? && move.kind != OpenComment && move.size <= b && Boundary(u, s[move.size..], b - move.size)
  }

  // What may follow a piece without changing it.
  ghost predicate Separates(u: Unicode, t: string) {
    && t != "" && !Continuation(t[0]) && t[0] != '-' && t[0] != '*' && !IsQuote(t[0]) && t[0] != ']'
    && !IsIdentifierPart(u, Decode(t).code)
  }

  lemma FillerSeparates(u: Unicode, g: string, t: string)
    requires Sane(u) && Filler(u, g)
    ensures Separates(u, g + t)
    ensures Lex(u, g + t) == Piece(Gap, |g|)
  {
    if g != "" && WellFormed(g) && Decode(g).size == |g| && u.space(Decode(g).code) {
      DecodeWhole(g, t);
    } else {
      assert (g + t)[0] == '/' && (g + t)[1] == '*';
      CommentEndIff(g, 2, |g| - 2);
      CommentEndIff(g + t, 2, |g| - 2);
      forall i | 2 <= i < |g| - 2 ensures !CommentEndsAt(g + t, i) {
        assert !CommentEndsAt(g, i);
      }
    }
  }

  lemma {:induction false} CloseStable(s: string, from: nat, q: char, k: nat, t: string)
    requires k <= |s| && t != "" && t[0] != q
    requires CloseFrom(s, from, q).Some? && CloseFrom(s, from, q).value <= k
    ensures CloseFrom(s[..k] + t, from, q) == CloseFrom(s, from, q)
    decreases |s| - from
  {
    var cut := s[..k] + t;
    assert cut[from] == s[from];
    if s[from] != q {
      CloseStable(s, from + 1, q, k, t);
    } else if from + 1 < |s| && s[from + 1] == q {
      CloseStable(s, from + 2, q, k, t);
    } else if from + 1 < k {
      assert cut[from + 1] == s[from + 1];
    } else {
      assert cut[from + 1] == t[0];
    }
  }

  lemma {:induction false} WordStable(u: Unicode, s: string, from: nat, k: nat, t: string)
    requires Sane(u) && Separates(u, t) && from <= |s| && WordEnd(u, s, from) <= k <= |s|
    ensures WordEnd(u, s[..k] + t, from) == WordEnd(u, s, from)
    decreases |s| - from
  {
    var cut := s[..k] + t;
    if from == k {
      assert cut[k..] == t;
    } else {
      assert cut[from..] == s[from..][..k - from] + t;
      DecodeCut(s[from..], k - from, t);
      if IsIdentifierPart(u, Decode(s[from..]).code) {
        WordStable(u, s, from + Decode(s[from..]).size, k, t);
      }
    }
  }

  lemma LineStable(s: string, k: nat, t: string)
    requires ByteFrom(s, 2, '\n').Some? && ByteFrom(s, 2, '\n').value + 1 <= k <= |s|
    ensures ByteFrom(s[..k] + t, 2, '\n') == ByteFrom(s, 2, '\n')
  {
    var end := ByteFrom(s, 2, '\n').value;
    ByteFromIff(s, 2, '\n', end);
    ByteFromIff(s[..k] + t, 2, '\n', end);
    assert (s[..k] + t)[end] == '\n';
    assert forall i :: 2 <= i < end ==> (s[..k] + t)[i] == s[i];
  }

  lemma BlockStable(s: string, k: nat, t: string)
    requires CommentEndFrom(s, 2).Some? && CommentEndFrom(s, 2).value + 2 <= k <= |s|
    ensures CommentEndFrom(s[..k] + t, 2) == CommentEndFrom(s, 2)
  {
    var cut := s[..k] + t;
    var end := CommentEndFrom(s, 2).value;
    CommentEndIff(s, 2, end);
    CommentEndIff(cut, 2, end);
    assert CommentEndsAt(cut, end);
    forall i | 2 <= i < end ensures !CommentEndsAt(cut, i) {
      assert !CommentEndsAt(s, i);
    }
  }

  lemma StartStable(s: string, k: nat, t: string, a: char, b: char)
    requires 0 < k <= |s| && t != "" && t[0] != b
    ensures StartsWith(s[..k] + t, a, b) <==> k >= 2 && StartsWith(s, a, b)
  {
    assert (s[..k] + t)[0] == s[0];
    if k >= 2 {
      assert (s[..k] + t)[1] == s[1];
    } else {
      assert (s[..k] + t)[1] == t[0];
    }
  }

  // A piece that ends within the first k bytes stays when something that separates follows them.
  lemma LexStable(u: Unicode, s: string, k: nat, t: string)
    requires Sane(u) && Separates(u, t) && s != "" && k <= |s|
    requires Lex(u, s).Piece? && Lex(u, s).kind != OpenComment && Lex(u, s).size <= k
    ensures Lex(u, s[..k] + t) == Lex(u, s)
  {
    var cut := s[..k] + t;
    assert cut[0] == s[0];
    DecodeCut(s, k, t);
    StartStable(s, k, t, '-', '-');
    StartStable(s, k, t, '/', '*');
    if u.space(Decode(s).code) {
    } else if StartsWith(s, '-', '-') {
      LineStable(s, k, t);
    } else if StartsWith(s, '/', '*') {
      BlockStable(s, k, t);
    } else if IsQuote(s[0]) {
      CloseStable(s, 1, s[0], k, t);
    } else if s[0] == '[' {
      CloseStable(s, 1, ']', k, t);
    } else if IsIdentifierStart(u, Decode(s).code) {
      WordStable(u, s, Decode(s).size, k, t);
    }
  }

  function Inserted(s: string, b: nat, g: string): string
    requires b <= |s|
  {
    s[..b] + g + s[b..]
  }

  // White space or a block comment between two pieces leaves the tokens, or the failure, as they were.
  lemma FillerFirst(u: Unicode, s: string, g: string)
    requires Sane(u) && Filler(u, g)
    ensures Result(u, Inserted(s, 0, g)) == Result(u, s)
  {
    assert Inserted(s, 0, g) == g + s;
    FillerSeparates(u, g, s);
    GapFirst(u, g + s, |g|, s);
  }

  lemma GapFirst(u: Unicode, s: string, n: nat, rest: string)
    requires s != "" && Lex(u, s) == Piece(Gap, n) && s[n..] == rest
    ensures Result(u, s) == Result(u, rest)
  {
    ScanFirst(u, s, Piece(Gap, n));
  }

  lemma FillerChangesNothing(u: Unicode, s: string, b: nat, g: string)
    requires Sane(u) && Filler(u, g) && Boundary(u, s, b) && b <= |s|
    ensures Scan(u, Inserted(s, b, g)) == Scan(u, s)
  {
    FillerKeeps(u, s, b, g);
  }

  // The result of a scan as a whole.
  function Result(u: Unicode, s: string): Scanned {
    Scan(u, s)
  }

  lemma {:induction false} FillerKeeps(u: Unicode, s: string, b: nat, g: string)
    requires Sane(u) && Filler(u, g) && Boundary(u, s, b) && b <= |s|
    ensures Result(u, Inserted(s, b, g)) == Result(u, s)
    decreases |s|
  {
    if b == 0 {
      FillerFirst(u, s, g);
    } else {
      FillerKeeps(u, s[Size(u, s)..], b - Size(u, s), g);
      FillerLater(u, s, b, g);
    }
  }

  // The size of the first piece.
  function Size(u: Unicode, s: string): (size: nat)
    ensures size <= |s|
  {
    if s != "" && Lex(u, s).Piece? then Lex(u, s).size else 0
  }

  // Texts with the same first piece, and the same tokens behind it, have the same tokens.
  lemma SameFirst(u: Unicode, s: string, t: string, kind: Kind, n: nat)
    requires s != "" && t != "" && Lex(u, s) == Piece(kind, n) && Lex(u, t) == Piece(kind, n)
    requires s[..n] == t[..n] && Result(u, s[n..]) == Result(u, t[n..])
    ensures Result(u, s) == Result(u, t)
  {
    ScanFirst(u, s, Piece(kind, n));
    ScanFirst(u, t, Piece(kind, n));
  }

  lemma FillerLater(u: Unicode, s: string, b: nat, g: string)
    requires Sane(u) && Filler(u, g) && Boundary(u, s, b) && 0 < b <= |s| && Size(u, s) <= b
    requires Result(u, Inserted(s[Size(u, s)..], b - Size(u, s), g)) == Result(u, s[Size(u, s)..])
    ensures Result(u, Inserted(s, b, g)) == Result(u, s)
  {
    FillerBehind(u, s, b, g, Lex(u, s).kind, Size(u, s), Inserted(s, b, g));
  }

  lemma FillerBehind(u: Unicode, s: string, b: nat, g: string, kind: Kind, n: nat, inserted: string)
    requires Sane(u) && Filler(u, g) && n <= b <= |s| && s != "" && Lex(u, s) == Piece(kind, n) && kind != OpenComment
    requires inserted == Inserted(s, b, g) && Result(u, Inserted(s[n..], b - n, g)) == Result(u, s[n..])
    ensures Result(u, inserted) == Result(u, s)
  {
    PieceBeforeFiller(u, s, b, g);
    SameFirst(u, inserted, s, kind, n);
  }

  lemma InsertedTail(s: string, b: nat, g: string, n: nat)
    requires n <= b <= |s|
    ensures Inserted(s, b, g)[..n] == s[..n] && Inserted(s, b, g)[n..] == Inserted(s[n..], b - n, g)
  {
    assert Inserted(s, b, g)[n..] == s[..b][n..] + g + s[b..];
    assert s[n..][..b - n] == s[..b][n..] && s[n..][b - n..] == s[b..];
  }

  lemma PieceBeforeFiller(u: Unicode, s: string, b: nat, g: string)
    requires Sane(u) && Filler(u, g) && b <= |s|
    requires s != "" && Lex(u, s).Piece? && Lex(u, s).kind != OpenComment && Lex(u, s).size <= b
    ensures Inserted(s, b, g) != "" && Lex(u, Inserted(s, b, g)) == Lex(u, s)
    ensures Inserted(s, b, g)[..Lex(u, s).size] == s[..Lex(u, s).size]
    ensures Inserted(s, b, g)[Lex(u, s).size..] == Inserted(s[Lex(u, s).size..], b - Lex(u, s).size, g)
  {
    var inserted, n := Inserted(s, b, g), Lex(u, s).size;
    FillerSeparates(u, g, s[b..]);
    assert inserted == s[..b] + (g + s[b..]);
    LexStable(u, s, b, g + s[b..]);
    InsertedTail(s, b, g, n);
  }

  // ----- The guard -----

  datatype Verdict =
    | Accepted
    | TooLong
    | NotTerminated(what: Unterminated)
    | Empty
    | ManyStatements
    | WrongStart
    | ForbiddenWord(word: string)
    | ForbiddenCall(word: string)

  const MAX_BYTES := 16384

  const STARTS: set<string> := {"SELECT", "WITH", "EXPLAIN"}

  const FORBIDDEN: set<string> := {
    "ATTACH", "DETACH", "PRAGMA", "VACUUM", "REINDEX", "ALTER", "CREATE", "DROP", "INSERT", "UPDATE", "DELETE",
    "REPLACE", "BEGIN", "COMMIT", "ROLLBACK", "SAVEPOINT", "RELEASE"}

  const FUNCTIONS: set<string> := {"LOAD_EXTENSION", "READFILE", "WRITEFILE", "FTS5"}

  predicate ForbiddenAt(tokens: seq<string>, i: nat)
    requires i < |tokens|
  {
    tokens[i] in FORBIDDEN || (tokens[i] in FUNCTIONS && i + 1 < |tokens| && tokens[i + 1] == "(")
  }

  // One statement of an allowed kind, without forbidden words or calls.
  ghost predicate Allowed(tokens: seq<string>) {
    && tokens != []
    && (forall i :: 0 <= i < |tokens| - 1 ==> tokens[i] != ";")
    && tokens[0] in STARTS
    && forall i :: 0 <= i < |tokens| ==> !ForbiddenAt(tokens, i)
  }

  // The verdict on the words: that of the first forbidden one.
  function Words(tokens: seq<string>, i: nat): Verdict
    requires i <= |tokens|
    decreases |tokens| - i
  {
    if i == |tokens| then Accepted
    else if tokens[i] in FORBIDDEN then ForbiddenWord(tokens[i])
    else if ForbiddenAt(tokens, i) then ForbiddenCall(tokens[i])
    else Words(tokens, i + 1)
  }

  ghost function Judge(tokens: seq<string>): Verdict {
    if tokens == [] then Empty
    else if exists i :: 0 <= i < |tokens| - 1 && tokens[i] == ";" then ManyStatements
    else if tokens[0] !in STARTS then WrongStart
    else Words(tokens, 0)
  }

  ghost function Check(u: Unicode, text: string): Verdict {
    if |text| > MAX_BYTES then TooLong
    else
      var scanned := Scan(u, text);
      if scanned.Broken? then NotTerminated(scanned.what) else Judge(scanned.tokens)
  }

  method CheckUserSQL(u: Unicode, text: string) returns (verdict: Verdict)
    ensures verdict == Check(u, text)
  {
    if |text| > MAX_BYTES {
      return TooLong;
    }
    var scanned := SqlTokens(u, text);
    if scanned.Broken? {
      return NotTerminated(scanned.what);
    }
    verdict := JudgeTokens(scanned.tokens);
  }

  method JudgeTokens(tokens: seq<string>) returns (verdict: Verdict)
    ensures verdict == Judge(tokens)
  {
    if |tokens| == 0 {
      return Empty;
    }
    var semicolons := 0;
    for i := 0 to |tokens|
      invariant 0 <= semicolons
      invariant forall j :: 0 <= j < i && j < |tokens| - 1 ==> tokens[j] != ";"
      invariant i < |tokens| ==> semicolons == 0
    {
      if tokens[i] == ";" {
        semicolons := semicolons + 1;
        if i != |tokens| - 1 || semicolons > 1 {
          return ManyStatements;
        }
      }
    }
    if tokens[0] !in STARTS {
      return WrongStart;
    }
    for i := 0 to |tokens|
      invariant Words(tokens, 0) == Words(tokens, i)
    {
      if tokens[i] in FORBIDDEN {
        return ForbiddenWord(tokens[i]);
      }
      if tokens[i] in FUNCTIONS && i + 1 < |tokens| && tokens[i + 1] == "(" {
        return ForbiddenCall(tokens[i]);
      }
    }
    verdict := Accepted;
  }

  lemma {:induction false} WordsAcceptIff(tokens: seq<string>, i: nat)
    requires i <= |tokens|
    ensures Words(tokens, i) == Accepted <==> forall j :: i <= j < |tokens| ==> !ForbiddenAt(tokens, j)
    decreases |tokens| - i
  {
    if i < |tokens| {
      WordsAcceptIff(tokens, i + 1);
    }
  }

  lemma AcceptedIff(u: Unicode, text: string)
    ensures Check(u, text) == Accepted <==>
      |text| <= MAX_BYTES && Scan(u, text).Tokens? && Allowed(Scan(u, text).tokens)
  {
    if Scan(u, text).Tokens? {
      WordsAcceptIff(Scan(u, text).tokens, 0);
    }
  }

  // Within the size limit, the verdict does not see white space or comments between tokens.
  lemma VerdictIgnoresFiller(u: Unicode, text: string, b: nat, g: string)
    requires Sane(u) && Filler(u, g) && Boundary(u, text, b) && b <= |text|
    requires |text| + |g| <= MAX_BYTES
    ensures Check(u, Inserted(text, b, g)) == Check(u, text)
  {
    FillerChangesNothing(u, text, b, g);
  }
}
