/** The character cursor and the scanning state machine (src/scanner.rs).

    The input is an already decoded sequence of Unicode scalar values; the
    cursor counts the UTF-8 bytes each one would occupy, so every position is
    a byte offset into the original text. The scanner's behaviour is first
    given by pure functions over the unconsumed characters (`Analyse`,
    `NextWord`); the classes `CharBumper` and `CSubScanner` are the stateful
    code, and each of their methods is proved against those functions.

    Where the Rust code reaches `todo!()` and panics, the model returns an
    explicit `Err(Panic)` instead. */
module Scanner {
  import opened Prelude
  import opened SourceMap

  datatype Keyword = Else | If | Int | Return | Void | While

  /** The word categories. `Kw` and `Number` exist but are never produced;
      the bracket names are crosswise (`[` is `OpenCurly`, `{` is
      `OpenBracket`). */
  datatype Category =
    | Kw(keyword: Keyword)
    | Plus | Minus | Star | Slash
    | Less | LessEqual | Greater | GreaterEqual
    | EqualEqual | ExclamaEqual | Equal
    | Semicolon | Comma
    | OpenParen | CloseParen | OpenCurly | CloseCurly | OpenBracket | CloseBracket
    | Ident | Number | Eof

  datatype Word = Word(category: Category, lexeme: Span)

  /** `Word::end_of_input`: the `Eof` word, whose span is the empty one at
      byte 0. */
  function EndOfInput(): (w: Word)
    ensures w.category == Eof && w.lexeme.start == w.lexeme.end == BytePos(0)
  {
    Word(Eof, DUMMY_SPAN)
  }

  /** The two places where the scanner gives up with `todo!()`. */
  datatype Panic =
    | NotTested(c: char)          // a character no match arm accepts
    | UnterminatedBlockComment    // end of input inside a block comment

  // ---------------------------------------------------------------------
  // UTF-8 lengths

  /** `char::len_utf8`: the number of bytes of `c` in UTF-8. */
  function Utf8Len(c: char): (n: nat)
    ensures 1 <= n <= 4
    ensures n == 1 <==> c as int < 0x80
  {
    if c as int < 0x80 then 1
    else if c as int < 0x800 then 2
    else if c as int < 0x10000 then 3
    else 4
  }

  /** The number of UTF-8 bytes of the first `n` characters of `s`: the
      byte offset of `s[n]`. */
  function Utf8Prefix(s: seq<char>, n: nat): (b: nat)
    requires n <= |s|
    ensures n <= b <= 4 * n
  {
    if n == 0 then 0 else Utf8Prefix(s, n - 1) + Utf8Len(s[n - 1])
  }

  /** The number of bytes of `s` in UTF-8: between one and four per
      character. */
  function Utf8Length(s: seq<char>): (b: nat)
    ensures |s| <= b <= 4 * |s|
  {
    Utf8Prefix(s, |s|)
  }

  /** The byte offset of `s[n + m]` is that of `s[n]` plus the UTF-8 length
      of the `m` characters in between. */
  lemma {:induction false} Utf8PrefixSplit(s: seq<char>, n: nat, m: nat)
    requires n + m <= |s|
    ensures Utf8Prefix(s, n + m) == Utf8Prefix(s, n) + Utf8Prefix(s[n..], m)
  {
    if m > 0 {
      Utf8PrefixSplit(s, n, m - 1);
      assert s[n..][m - 1] == s[n + m - 1];
    }
  }

  /** The bytes of `s` are those before `s[n]` and those from it on. */
  lemma Utf8LengthSplit(s: seq<char>, n: nat)
    requires n <= |s|
    ensures Utf8Length(s) == Utf8Prefix(s, n) + Utf8Length(s[n..])
  {
    Utf8PrefixSplit(s, n, |s| - n);
  }

  /** The byte offset of `s[n]` depends only on the characters before it. */
  lemma {:induction false} Utf8PrefixAgree(s: seq<char>, t: seq<char>, n: nat)
    requires n <= |s| && n <= |t| && s[..n] == t[..n]
    ensures Utf8Prefix(s, n) == Utf8Prefix(t, n)
  {
    if n > 0 {
      assert s[..n - 1] == s[..n][..n - 1] && t[..n - 1] == t[..n][..n - 1];
      assert s[n - 1] == s[..n][n - 1] && t[n - 1] == t[..n][n - 1];
      Utf8PrefixAgree(s, t, n - 1);
    }
  }

  /** Whether the first `n` characters of `s` are ASCII. */
  predicate AsciiPrefix(s: seq<char>, n: nat) {
    forall k :: 0 <= k < n && k < |s| ==> s[k] as int < 0x80
  }

  /** Pure-ASCII text occupies one byte per character. */
  lemma {:induction false} AsciiUtf8Prefix(s: seq<char>, n: nat)
    requires n <= |s| && AsciiPrefix(s, n)
    ensures Utf8Prefix(s, n) == n
  {
    if n > 0 {
      AsciiUtf8Prefix(s, n - 1);
    }
  }

  // ---------------------------------------------------------------------
  // The character cursor

  /** `CharBumper`: one character of lookahead over the input and the byte
      offset of the next unconsumed character. */
  class CharBumper {
    /** The characters not yet consumed (Rust `Peekable<Chars>`). */
    var stream: seq<char>
    /** The UTF-8 byte offset of `stream`'s first character. */
    var currentPeekPos: BytePos
    /** The whole input the cursor was created over. */
    ghost const text: seq<char>

    /** The number of characters consumed so far. */
    ghost function Offset(): nat
      reads this
      requires |stream| <= |text|
    {
      |text| - |stream|
    }

    /** The stream is what is left of the input, and the position is the
        UTF-8 length of what has been consumed. */
    ghost predicate Valid()
      reads this
    {
      && |stream| <= |text|
      && stream == text[Offset()..]
      && currentPeekPos.n == Utf8Prefix(text, Offset())
    }

    /** `CharBumper::new`. */
    constructor (chars: seq<char>)
      ensures Valid()
      ensures text == chars && stream == chars && currentPeekPos == BytePos(0)
    {
      stream := chars;
      currentPeekPos := BytePos(0);
      text := chars;
    }

    /** `peek`: the next unconsumed character, None exactly at the end.
        Being a function, it changes neither the stream nor the position. */
    function Peek(): (c: Option<char>)
      reads this
      requires Valid()
      ensures c.None? <==> Offset() == |text|
      ensures c.Some? ==> c.value == text[Offset()] && c.value == stream[0]
    {
      if stream == [] then None else Some(stream[0])
    }

    /** `peek_is`. */
    function PeekIs(ch: char): (b: bool)
      reads this
      requires Valid()
      ensures b <==> stream != [] && stream[0] == ch
    {
      Peek() == Some(ch)
    }

    /** `bump`: consume the next character and advance the position by its
        UTF-8 length; at the end nothing changes. */
    method Bump() returns (c: Option<char>)
      requires Valid()
      modifies this
      ensures Valid()
      ensures old(stream) == [] ==> c == None && stream == old(stream) && currentPeekPos == old(currentPeekPos)
      ensures old(stream) != [] ==>
        && c == Some(old(stream)[0])
        && stream == old(stream)[1..]
        && currentPeekPos.n == old(currentPeekPos.n) + Utf8Len(old(stream)[0])
    {
      if stream == [] {
        return None;
      }
      ghost var m := Offset();
      var next := stream[0];
      assert next == text[m];
      stream := stream[1..];
      var byteLengthInUtf8 := FromUsize(Utf8Len(next));
      currentPeekPos := currentPeekPos.Add(byteLengthInUtf8);
      assert Offset() == m + 1;
      return Some(next);
    }

    /** `bump_if`: consume one character exactly when it is `ch`. */
    method BumpIf(ch: char) returns (bumped: bool)
      requires Valid()
      modifies this
      ensures Valid()
      ensures bumped <==> old(stream) != [] && old(stream)[0] == ch
      ensures bumped ==> stream == old(stream)[1..] && currentPeekPos.n == old(currentPeekPos.n) + Utf8Len(ch)
      ensures !bumped ==> stream == old(stream) && currentPeekPos == old(currentPeekPos)
    {
      if PeekIs(ch) {
        var _ := Bump();
        return true;
      } else {
        return false;
      }
    }
  }

  // ---------------------------------------------------------------------
  // The scanner's behaviour, as functions of the unconsumed characters

  predicate IsAsciiLetter(c: char) {
    'a' <= c <= 'z' || 'A' <= c <= 'Z'
  }

  predicate IsIdentChar(c: char) {
    IsAsciiLetter(c) || '0' <= c <= '9'
  }

  predicate IsWhitespace(c: char) {
    c == ' ' || c == '\n' || c == '\t'
  }

  /** Whether `s` has the second character `d`. */
  predicate SecondIs(s: seq<char>, d: char) {
    |s| > 1 && s[1] == d
  }

  /** The length of the longest prefix of `s` made of ASCII letters and
      digits: what `bump_ident` consumes. */
  function IdentRunLength(s: seq<char>): (n: nat)
    ensures n <= |s|
  {
    if s != [] && IsIdentChar(s[0]) then 1 + IdentRunLength(s[1..]) else 0
  }

  /** The run is maximal: all its characters are ASCII letters or digits,
      and the one after it, if any, is not. */
  lemma {:induction false} IdentRunIsMaximal(s: seq<char>)
    ensures var n := IdentRunLength(s);
      && (forall k :: 0 <= k < n ==> IsIdentChar(s[k]))
      && (n == |s| || !IsIdentChar(s[n]))
  {
    if s != [] && IsIdentChar(s[0]) {
      IdentRunIsMaximal(s[1..]);
      var n := IdentRunLength(s);
      forall k | 0 <= k < n ensures IsIdentChar(s[k]) {
        if k > 0 {
          assert s[k] == s[1..][k - 1];
        }
      }
      if n < |s| {
        assert s[n] == s[1..][n - 1];
      }
    }
  }

  /** Whether a star-slash starts at index `k` of `s`. */
  predicate ClosesAt(s: seq<char>, k: int) {
    0 <= k && k + 1 < |s| && s[k] == '*' && s[k + 1] == '/'
  }

  /** How far `skip_block_comment` gets in `s` when it has already passed the
      first `i` characters: just past the first star-slash at or after `i`, or
      None when the input ends first. */
  function CommentEndFrom(s: seq<char>, i: nat): (r: Option<nat>)
    requires i <= |s|
    ensures r.Some? ==> i + 2 <= r.value <= |s|
    decreases |s| - i
  {
    if i == |s| then None
    else if s[i] == '*' && i + 1 < |s| && s[i + 1] == '/' then Some(i + 2)
    else CommentEndFrom(s, i + 1)
  }

  /** The comment ends just after the first star-slash at or after `i`: one
      closes there and none closes before it; without an end, none closes at
      all. */
  lemma {:induction false} CommentEndIsFirstClose(s: seq<char>, i: nat)
    requires i <= |s|
    ensures var r := CommentEndFrom(s, i);
      && (r.Some? ==> ClosesAt(s, r.value - 2))
      && (forall k :: i <= k && (r.None? || k < r.value - 2) ==> !ClosesAt(s, k))
    decreases |s| - i
  {
    if i < |s| && !(s[i] == '*' && i + 1 < |s| && s[i + 1] == '/') {
      CommentEndIsFirstClose(s, i + 1);
    }
  }

  /** The characters a block comment takes up after its opening slash-star:
      at least the closing star-slash, and no more than the stream. */
  function CommentEnd(s: seq<char>): (r: Option<nat>)
    ensures r.Some? ==> 2 <= r.value <= |s|
  {
    CommentEndFrom(s, 0)
  }

  /** `ScanState`. */
  datatype ScanState = Skipped | FoundCategory(category: Category) | ReachedEndOfInput

  /** What one call of `analyse_category_and_bump_chars` decides, and how many
      characters it consumes. */
  datatype Scan = Scan(state: ScanState, length: nat)

  function Found(category: Category, length: nat): Result<Scan, Panic> {
    Ok(Scan(FoundCategory(category), length))
  }

  /** What the first character of a word decides on its own, following the
      arms of the Rust match. */
  datatype Lead =
    | Single(category: Category)                 // one character, one word
    | EqualOptional(short: Category, long: Category)
                                                 // a following `=` makes the longer word
    | Exclama                                    // only `!=` is a word
    | SlashOrComment                             // `/`, or a block comment after `/*`
    | Letter                                     // an identifier
    | Space                                      // whitespace, skipped
    | Unknown                                    // reaches the final `todo!()`

  function LeadOf(c: char): (l: Lead)
    ensures l.Letter? <==> IsAsciiLetter(c)
    ensures l.Space? <==> IsWhitespace(c)
  {
    if c == '+' then Single(Plus)
    else if c == '-' then Single(Minus)
    else if c == '*' then Single(Star)
    else if c == '/' then SlashOrComment
    else if c == '<' then EqualOptional(Less, LessEqual)
    else if c == '>' then EqualOptional(Greater, GreaterEqual)
    else if c == '=' then EqualOptional(Equal, EqualEqual)
    else if c == '!' then Exclama
    else if c == ';' then Single(Semicolon)
    else if c == ',' then Single(Comma)
    else if c == '(' then Single(OpenParen)
    else if c == ')' then Single(CloseParen)
    else if c == '[' then Single(OpenCurly)
    else if c == ']' then Single(CloseCurly)
    else if c == '{' then Single(OpenBracket)
    else if c == '}' then Single(CloseBracket)
    else if IsAsciiLetter(c) then Letter
    else if IsWhitespace(c) then Space
    else Unknown
  }

  /** What `analyse_category_and_bump_chars` decides on the nonempty stream
      `s` whose first character leads with `lead`. The length counts that
      first character. */
  function AnalyseLead(lead: Lead, s: seq<char>): (r: Result<Scan, Panic>)
    requires s != []
    ensures r.Ok? ==> 1 <= r.value.length <= |s| && !r.value.state.ReachedEndOfInput?
  {
    match lead
    case Single(category) => Found(category, 1)
    case EqualOptional(short, long) => if SecondIs(s, '=') then Found(long, 2) else Found(short, 1)
    case Exclama => if SecondIs(s, '=') then Found(ExclamaEqual, 2) else Err(NotTested(s[0]))
    case SlashOrComment =>
      if SecondIs(s, '*') then
        match CommentEnd(s[2..])
        case None => Err(UnterminatedBlockComment)
        case Some(e) => Ok(Scan(Skipped, 2 + e))
      else Found(Slash, 1)
    case Letter => Found(Ident, 1 + IdentRunLength(s[1..]))
    case Space => Ok(Scan(Skipped, 1))
    case Unknown => Err(NotTested(s[0]))
  }

  /** `analyse_category_and_bump_chars` on the unconsumed characters `s`. */
  function Analyse(s: seq<char>): (r: Result<Scan, Panic>)
    ensures r.Ok? ==> r.value.length <= |s|
    ensures r.Ok? && r.value.state.ReachedEndOfInput? <==> s == []
    ensures r.Ok? && !r.value.state.ReachedEndOfInput? ==> r.value.length >= 1
  {
    if s == [] then Ok(Scan(ReachedEndOfInput, 0)) else AnalyseLead(LeadOf(s[0]), s)
  }

  /** A word and the characters left after it. */
  datatype Scanned = Scanned(word: Word, rest: seq<char>)

  /** What every outcome of `scan_next_word` on the unconsumed characters
      `s` at byte `pos` looks like. The characters left are a suffix of `s`;
      a word is never a keyword or a number; the end-of-input word has the
      dummy span and comes only when nothing is left; any other word has a
      nonempty span that starts at or after `pos` and ends where the
      characters left begin, counted in bytes. */
  ghost predicate WellShaped(s: seq<char>, pos: nat, r: Result<Scanned, Panic>) {
    r.Ok? ==>
      var w, rest := r.value.word, r.value.rest;
      && |rest| <= |s| && rest == s[|s| - |rest|..]
      && !w.category.Kw? && w.category != Number
      && (w.category == Eof ==> rest == [] && w.lexeme == DUMMY_SPAN)
      && (w.category != Eof ==>
            && pos <= w.lexeme.start.n < w.lexeme.end.n
            && w.lexeme.end.n + Utf8Length(rest) == pos + Utf8Length(s))
  }

  /** Skipping the first `n` characters keeps an outcome well shaped. */
  lemma SkipKeepsShape(s: seq<char>, pos: nat, n: nat, r: Result<Scanned, Panic>)
    requires n <= |s| && WellShaped(s[n..], pos + Utf8Prefix(s, n), r)
    ensures WellShaped(s, pos, r)
  {
    if r.Ok? {
      var rest := r.value.rest;
      DropDrop(s, n, |s[n..]| - |rest|);
      Utf8LengthSplit(s, n);
    }
  }

  lemma DropDrop(s: seq<char>, n: nat, m: nat)
    requires n + m <= |s|
    ensures s[n..][m..] == s[n + m..]
  {
  }

  /** The categories the first character can decide on its own. */
  lemma LeadCategories(c: char)
    ensures LeadOf(c).Single? ==> var k := LeadOf(c).category; !k.Kw? && k != Number && k != Eof
    ensures LeadOf(c).EqualOptional? ==>
      var k, l := LeadOf(c).short, LeadOf(c).long;
      !k.Kw? && k != Number && k != Eof && !l.Kw? && l != Number && l != Eof
  {
  }

  /** The categories `analyse_category_and_bump_chars` can find: never a
      keyword, a number or the end-of-input marker. */
  lemma AnalyseFindsNoKeyword(s: seq<char>)
    ensures var a := Analyse(s);
      a.Ok? && a.value.state.FoundCategory? ==>
        var c := a.value.state.category;
        !c.Kw? && c != Number && c != Eof
  {
    if s != [] {
      LeadCategories(s[0]);
    }
  }

  /** `scan_next_word` on the unconsumed characters `s` whose first one sits
      at byte offset `pos`: skipped text is passed over until a word, the end
      of input or a panic. */
  function NextWord(s: seq<char>, pos: nat): Result<Scanned, Panic>
    decreases |s|
  {
    match Analyse(s)
    case Err(p) => Err(p)
    case Ok(Scan(Skipped, n)) => NextWord(s[n..], pos + Utf8Prefix(s, n))
    case Ok(Scan(FoundCategory(category), n)) =>
      Ok(Scanned(Word(category, Span(BytePos(pos), BytePos(pos + Utf8Prefix(s, n)))), s[n..]))
    case Ok(Scan(ReachedEndOfInput, _)) => Ok(Scanned(EndOfInput(), s))
  }

  /** Every outcome of `NextWord` is well shaped. */
  lemma {:induction false} NextWordShape(s: seq<char>, pos: nat)
    ensures WellShaped(s, pos, NextWord(s, pos))
    decreases |s|
  {
    AnalyseFindsNoKeyword(s);
    match Analyse(s)
    case Err(p) =>
    case Ok(Scan(Skipped, n)) =>
      NextWordShape(s[n..], pos + Utf8Prefix(s, n));
      SkipKeepsShape(s, pos, n, NextWord(s[n..], pos + Utf8Prefix(s, n)));
    case Ok(Scan(FoundCategory(category), n)) =>
      Utf8LengthSplit(s, n);
    case Ok(Scan(ReachedEndOfInput, _)) =>
  }

  // One round of `scan_next_word`, by what `analyse_category_and_bump_chars`
  // decided about the stream `s` at byte `pos`. Each of the four lemmas below
  // unfolds one case of `NextWord`'s definition; they are steps that
  // `RoundDecides` takes, not properties of their own.

  /** The `Skipped` case of `NextWord`: after a skipped stretch of `n`
      characters, scanning goes on after it. */
  lemma NextWordSkips(s: seq<char>, pos: nat, n: nat)
    requires Analyse(s) == Ok(Scan(Skipped, n))
    ensures n <= |s| && NextWord(s, pos) == NextWord(s[n..], pos + Utf8Prefix(s, n))
  {
  }

  /** The same, for the stream `s'` and position `pos'` the cursor is left
      at. */
  lemma NextWordSkipsTo(s: seq<char>, pos: nat, n: nat, s': seq<char>, pos': nat)
    requires Analyse(s) == Ok(Scan(Skipped, n))
    requires n <= |s| && s' == s[n..] && pos' == pos + Utf8Prefix(s, n)
    ensures NextWord(s', pos') == NextWord(s, pos)
  {
    NextWordSkips(s, pos, n);
  }

  /** The `FoundCategory` case of `NextWord`: a word found in the first `n`
      characters is the outcome. */
  lemma NextWordFinds(s: seq<char>, pos: nat, category: Category, n: nat)
    requires Analyse(s) == Ok(Scan(FoundCategory(category), n))
    ensures n <= |s|
    ensures NextWord(s, pos) == Ok(Scanned(Word(category, Span(BytePos(pos), BytePos(pos + Utf8Prefix(s, n)))), s[n..]))
  {
  }

  /** The `ReachedEndOfInput` case of `NextWord`: the outcome is the
      end-of-input word. */
  lemma NextWordEnds(s: seq<char>, pos: nat)
    requires Analyse(s).Ok? && Analyse(s).value.state == ReachedEndOfInput
    ensures s == [] && NextWord(s, pos) == Ok(Scanned(EndOfInput(), s))
  {
  }

  /** The `Err` case of `NextWord`: a panic ends scanning. */
  lemma NextWordPanics(s: seq<char>, pos: nat, p: Panic)
    requires Analyse(s) == Err(p)
    ensures NextWord(s, pos) == Err(p)
  {
  }

  /** What one round of `scan_next_word` settles: the outcome `r` of
      `analyse_category_and_bump_chars` on the stream `s` at byte `pos`,
      which left the stream `s'` at byte `pos'`. */
  ghost predicate RoundSettles(s: seq<char>, pos: nat, r: Result<ScanState, Panic>, s': seq<char>, pos': nat) {
    && (r == Ok(Skipped) ==> |s'| < |s| && NextWord(s', pos') == NextWord(s, pos))
    && (r == Ok(ReachedEndOfInput) ==> NextWord(s, pos) == Ok(Scanned(EndOfInput(), s)))
    && (r.Ok? && r.value.FoundCategory? ==>
          NextWord(s, pos) == Ok(Scanned(Word(r.value.category, Span(BytePos(pos), BytePos(pos'))), s')))
    && (r.Err? ==> NextWord(s, pos) == Err(r.error))
  }

  /** A round that did what `Analyse` says on the stream `s` at byte `pos`,
      leaving the stream `s'` at byte `pos'`, settles `NextWord` as
      `RoundSettles` states. */
  lemma RoundDecides(s: seq<char>, pos: nat, r: Result<ScanState, Panic>, s': seq<char>, pos': nat)
    requires Analyse(s).Ok? ==> r == Ok(Analyse(s).value.state)
    requires Analyse(s).Ok? && Analyse(s).value.state.ReachedEndOfInput? ==> s' == s
    requires Analyse(s).Ok? && !Analyse(s).value.state.ReachedEndOfInput? ==>
      var n := Analyse(s).value.length;
      s' == s[n..] && pos' == pos + Utf8Prefix(s, n)
    requires Analyse(s).Err? ==> r == Err(Analyse(s).error)
    ensures RoundSettles(s, pos, r, s', pos')
  {
    match Analyse(s)
    case Ok(Scan(ReachedEndOfInput, _)) =>
      NextWordEnds(s, pos);
    case Ok(Scan(Skipped, n)) =>
      NextWordSkipsTo(s, pos, n, s', pos');
    case Ok(Scan(FoundCategory(category), n)) =>
      NextWordFinds(s, pos, category, n);
    case Err(p) => NextWordPanics(s, pos, p);
  }

  /** The same round seen on the whole input `text`: from character `m` at
      byte `pos` to character `m'` at byte `pos'`. */
  lemma RoundOutcome(text: seq<char>, m: nat, s: seq<char>, pos: nat, r: Result<ScanState, Panic>,
                     m': nat, s': seq<char>, pos': nat)
    requires m + |s| == |text| && s == text[m..] && pos == Utf8Prefix(text, m)
    requires m' <= |text| && pos' == Utf8Prefix(text, m')
    requires Analyse(s).Ok? ==> r == Ok(Analyse(s).value.state)
    requires Analyse(s).Ok? && Analyse(s).value.state.ReachedEndOfInput? ==> s' == s && m' == m
    requires Analyse(s).Ok? && !Analyse(s).value.state.ReachedEndOfInput? ==>
      var n := Analyse(s).value.length;
      s' == s[n..] && m' == m + n
    requires Analyse(s).Err? ==> r == Err(Analyse(s).error)
    ensures RoundSettles(s, pos, r, s', pos')
  {
    if Analyse(s).Ok? && !Analyse(s).value.state.ReachedEndOfInput? {
      Utf8PrefixSplit(text, m, Analyse(s).value.length);
    }
    RoundDecides(s, pos, r, s', pos');
  }

  // ---------------------------------------------------------------------
  // The scanner

  /** `CSubScanner`: the scanning state machine over a `CharBumper`. The
      Rust wrappers `peek`, `peek_is`, `bump` and `bump_if` only forward to
      the cursor; the methods below call the cursor directly. */
  class CSubScanner {
    const charStream: CharBumper

    ghost predicate Valid()
      reads this, charStream
    {
      charStream.Valid()
    }

    /** `CSubScanner::with_chars`. */
    constructor WithChars(chars: seq<char>)
      ensures Valid() && fresh(charStream)
      ensures charStream.text == chars && charStream.stream == chars
      ensures charStream.currentPeekPos == BytePos(0)
    {
      charStream := new CharBumper(chars);
    }

    /** `scan_next_word`. The Rust recursion after a skipped stretch is the
        loop here; each round consumes at least one character. */
    method ScanNextWord() returns (r: Result<Word, Panic>)
      requires Valid()
      modifies charStream
      ensures Valid()
      ensures var expected := NextWord(old(charStream.stream), old(charStream.currentPeekPos.n));
        && (expected.Ok? ==> r == Ok(expected.value.word) && charStream.stream == expected.value.rest)
        && (expected.Err? ==> r == Err(expected.error))
      ensures r.Ok? && r.value.category != Eof ==> r.value.lexeme.end == charStream.currentPeekPos
    {
      ghost var expected := NextWord(charStream.stream, charStream.currentPeekPos.n);
      while true
        invariant Valid()
        invariant NextWord(charStream.stream, charStream.currentPeekPos.n) == expected
        decreases |charStream.stream|
      {
        ghost var s, m := charStream.stream, charStream.Offset();
        var lexemeStart := charStream.currentPeekPos;
        var scanState := AnalyseCategoryAndBumpChars();
        RoundOutcome(charStream.text, m, s, lexemeStart.n, scanState,
                     charStream.Offset(), charStream.stream, charStream.currentPeekPos.n);
        match scanState {
          case Ok(FoundCategory(category)) =>
            var lexeme := Span(lexemeStart, charStream.currentPeekPos);
            return Ok(Word(category, lexeme));
          case Ok(Skipped) =>
          case Ok(ReachedEndOfInput) =>
            return Ok(EndOfInput());
          case Err(p) =>
            return Err(p);
        }
      }
    }

    /** `analyse_category_and_bump_chars`. The arms of the Rust match on the
        first character are grouped by `LeadOf`; the match guards call
        `bump_if`, so a guard that holds consumes its character, and `!` not
        followed by `=` falls through to the final `todo!()`. */
    method AnalyseCategoryAndBumpChars() returns (r: Result<ScanState, Panic>)
      requires Valid()
      modifies charStream
      ensures Valid()
      ensures Analysed(old(charStream.stream), r)
    {
      ghost var s := charStream.stream;
      var c := charStream.Bump();
      match c {
        case None =>
          r := Ok(ReachedEndOfInput);
        case Some(ch) =>
          r := AnalyseLeadAndBumpChars(ch, LeadOf(ch), s);
      }
    }

    /** The arms of the match in `analyse_category_and_bump_chars` once its
        first character `ch`, the head of the stream `s`, is consumed. The
        caller passes `LeadOf(ch)`, the group of arms that `ch` selects; the
        match guards call `bump_if`, so a guard that holds consumes its
        character, and `!` not followed by `=` falls through to the final
        `todo!()`. */
    method AnalyseLeadAndBumpChars(ch: char, lead: Lead, ghost s: seq<char>) returns (r: Result<ScanState, Panic>)
      requires Valid()
      requires s != [] && s[0] == ch && charStream.stream == s[1..]
      modifies charStream
      ensures Valid()
      ensures ScannedAs(AnalyseLead(lead, s), s, r)
    {
      match lead {
        case Single(category) =>
          r := Ok(FoundCategory(category));
        case EqualOptional(short, long) =>
          var equal := charStream.BumpIf('=');
          r := Ok(FoundCategory(if equal then long else short));
        case Exclama =>
          var equal := charStream.BumpIf('=');
          r := if equal then Ok(FoundCategory(ExclamaEqual)) else Err(NotTested(ch));
        case SlashOrComment =>
          r := SlashOrCommentAndBumpChars(s);
        case Letter =>
          r := IdentAndBumpChars(s);
        case Space =>
          r := Ok(Skipped);
        case Unknown =>
          r := Err(NotTested(ch));
      }
    }

    /** The two arms for `/`: a following star opens a block comment, which
        is skipped; otherwise the slash is a word. */
    method SlashOrCommentAndBumpChars(ghost s: seq<char>) returns (r: Result<ScanState, Panic>)
      requires Valid()
      requires s != [] && charStream.stream == s[1..]
      modifies charStream
      ensures Valid()
      ensures ScannedAs(AnalyseLead(SlashOrComment, s), s, r)
    {
      var opensComment := charStream.BumpIf('*');
      if opensComment {
        DropDrop(s, 1, 1);
        ghost var e := CommentEnd(s[2..]);
        var terminated := SkipBlockComment();
        if terminated {
          DropDrop(s, 2, e.value);
        }
        r := if terminated then Ok(Skipped) else Err(UnterminatedBlockComment);
      } else {
        r := Ok(FoundCategory(Slash));
      }
    }

    /** The arm for an ASCII letter: the identifier runs on over letters and
        digits. */
    method IdentAndBumpChars(ghost s: seq<char>) returns (r: Result<ScanState, Panic>)
      requires Valid()
      requires s != [] && charStream.stream == s[1..]
      modifies charStream
      ensures Valid()
      ensures ScannedAs(AnalyseLead(Letter, s), s, r)
    {
      BumpIdent();
      DropDrop(s, 1, IdentRunLength(s[1..]));
      r := Ok(FoundCategory(Ident));
    }

    /** The outcome `r` of `analyse_category_and_bump_chars` on the stream
        `s` is what `Analyse(s)` says, and the cursor has moved on
        by the length it gives. */
    ghost predicate Analysed(s: seq<char>, r: Result<ScanState, Panic>)
      reads this, charStream
    {
      ScannedAs(Analyse(s), s, r)
    }

    /** The outcome `r` and the cursor agree with the decision `a` about the
        stream `s`. */
    ghost predicate ScannedAs(a: Result<Scan, Panic>, s: seq<char>, r: Result<ScanState, Panic>)
      reads this, charStream
    {
      && (a.Ok? ==> r == Ok(a.value.state))
      && (a.Ok? && a.value.state.ReachedEndOfInput? ==> charStream.stream == s)
      && (a.Ok? && !a.value.state.ReachedEndOfInput? ==> Advanced(s, a.value.length))
      && (a.Err? ==> r == Err(a.error))
    }

    /** The cursor has moved `n` characters on from the stream `s`. Where
        `Valid()` holds, the byte position is then fixed too: it is the UTF-8
        length of everything consumed. */
    ghost predicate Advanced(s: seq<char>, n: nat)
      reads this, charStream
    {
      n <= |s| && charStream.stream == s[n..]
    }

    /** `skip_block_comment`, entered just after the opening slash-star: consume
        up to and including the first star-slash. Returns false where the Rust
        code panics because the input ended first. */
    method SkipBlockComment() returns (terminated: bool)
      requires Valid()
      modifies charStream
      ensures Valid()
      ensures var e := CommentEnd(old(charStream.stream));
        && (terminated <==> e.Some?)
        && (terminated ==> Advanced(old(charStream.stream), e.value))
    {
      ghost var s := charStream.stream;
      ghost var i := 0;
      while true
        invariant Valid()
        invariant i <= |s| && charStream.stream == s[i..]
        invariant CommentEndFrom(s, i) == CommentEnd(s)
        decreases |s| - i
      {
        var c := charStream.Bump();
        if c.Some? {
          i := i + 1;
        }
        if c == Some('*') && charStream.PeekIs('/') {
          var _ := charStream.Bump();
          i := i + 1;
          break;
        } else if c == None {
          return false;
        }
      }
      return true;
    }

    /** `bump_ident`: consume the maximal run of ASCII letters and digits. */
    method BumpIdent()
      requires Valid()
      modifies charStream
      ensures Valid()
      ensures Advanced(old(charStream.stream), IdentRunLength(old(charStream.stream)))
    {
      ghost var s := charStream.stream;
      ghost var i := 0;
      while charStream.Peek().Some? && IsIdentChar(charStream.Peek().value)
        invariant Valid()
        invariant i <= |s| && charStream.stream == s[i..]
        invariant IdentRunLength(s) == i + IdentRunLength(s[i..])
        decreases |s| - i
      {
        var _ := charStream.Bump();
        i := i + 1;
      }
    }
  }
}
