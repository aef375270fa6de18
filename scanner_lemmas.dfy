/** What the scanner of src/scanner.rs promises, proved about the functions
    `Analyse` and `NextWord` that the `CSubScanner` methods are verified
    against: the word table (with its crosswise bracket names), maximal
    munch, identifiers, skipped text, non-nesting comments, the two panics,
    and how the spans of successive words line up. */
module ScannerProperties {
  import opened Prelude
  import opened SourceMap
  import opened Scanner

  // ---------------------------------------------------------------------
  // The word table, as the tests give it

  /** The characters that are always a word of their own. */
  const PUNCTUATION: map<char, Category> := map[
    '+' := Plus, '-' := Minus, '*' := Star, ';' := Semicolon, ',' := Comma,
    '(' := OpenParen, ')' := CloseParen,
    '[' := OpenCurly, ']' := CloseCurly, '{' := OpenBracket, '}' := CloseBracket
  ]

  /** The two-character operators, by their first character; the second is `=`. */
  const TWO_CHAR_OPERATORS: map<char, Category> := map[
    '<' := LessEqual, '>' := GreaterEqual, '=' := EqualEqual, '!' := ExclamaEqual
  ]

  /** The characters that are a one-character word unless a longer word
      starts with them: `<`, `>` and `=` before an `=`, `/` before a `*`. */
  const ONE_CHAR_PREFIXES: map<char, Category> := map[
    '<' := Less, '>' := Greater, '=' := Equal, '/' := Slash
  ]

  /** The character that turns the prefix `c` into something longer. */
  function Extension(c: char): char {
    if c == '/' then '*' else '='
  }

  /** The word made of the first `n` ASCII characters after byte `pos`. */
  function AsciiWord(category: Category, pos: nat, n: nat): Word {
    Word(category, Span(BytePos(pos), BytePos(pos + n)))
  }

  /** Each punctuation character is a one-byte word of its fixed category,
      whatever follows it. */
  lemma {:induction false} PunctuationWord(c: char, rest: seq<char>, pos: nat)
    requires c in PUNCTUATION
    ensures NextWord([c] + rest, pos) == Ok(Scanned(AsciiWord(PUNCTUATION[c], pos, 1), rest))
  {
    var s := [c] + rest;
    assert s[0] == c && s[1..] == rest;
    assert LeadOf(c) == Single(PUNCTUATION[c]);
    AsciiUtf8Prefix(s, 1);
  }

  /** `<=`, `>=`, `==` and `!=` are single two-byte words: the longer word
      wins over its one-character prefix. */
  lemma {:induction false} TwoCharOperatorWord(c: char, rest: seq<char>, pos: nat)
    requires c in TWO_CHAR_OPERATORS
    ensures NextWord([c, '='] + rest, pos) == Ok(Scanned(AsciiWord(TWO_CHAR_OPERATORS[c], pos, 2), rest))
  {
    var s := [c, '='] + rest;
    assert s[0] == c && s[1] == '=' && s[2..] == rest;
    AsciiUtf8Prefix(s, 2);
  }

  /** `<`, `>`, `=` and `/` not followed by what would lengthen them are
      one-byte words. */
  lemma {:induction false} OneCharPrefixWord(c: char, rest: seq<char>, pos: nat)
    requires c in ONE_CHAR_PREFIXES
    requires rest == [] || rest[0] != Extension(c)
    ensures NextWord([c] + rest, pos) == Ok(Scanned(AsciiWord(ONE_CHAR_PREFIXES[c], pos, 1), rest))
  {
    var s := [c] + rest;
    assert s[0] == c && s[1..] == rest;
    assert !SecondIs(s, Extension(c));
    AsciiUtf8Prefix(s, 1);
  }

  /** A `!` without a following `=` reaches the final `todo!()`. */
  lemma {:induction false} LoneExclamaPanics(rest: seq<char>, pos: nat)
    requires rest == [] || rest[0] != '='
    ensures NextWord(['!'] + rest, pos) == Err(NotTested('!'))
  {
    var s := ['!'] + rest;
    assert s[0] == '!' && !SecondIs(s, '=');
  }

  /** Any character that starts no word and is not whitespace, digits among
      them, reaches the final `todo!()`. */
  lemma {:induction false} UnknownCharacterPanics(c: char, rest: seq<char>, pos: nat)
    requires c !in PUNCTUATION && c !in ONE_CHAR_PREFIXES && c != '!'
    requires !IsAsciiLetter(c) && !IsWhitespace(c)
    ensures NextWord([c] + rest, pos) == Err(NotTested(c))
  {
    var s := [c] + rest;
    assert s[0] == c;
    assert LeadOf(c) == Unknown;
  }

  lemma DigitsPanic(c: char, rest: seq<char>, pos: nat)
    requires '0' <= c <= '9'
    ensures NextWord([c] + rest, pos) == Err(NotTested(c))
  {
    UnknownCharacterPanics(c, rest, pos);
  }

  // ---------------------------------------------------------------------
  // Identifiers

  /** An ASCII letter starts an identifier spanning the maximal run of ASCII
      letters and digits; the character that ends the run is not consumed. */
  lemma {:induction false} IdentWord(s: seq<char>, pos: nat)
    requires s != [] && IsAsciiLetter(s[0])
    ensures var n := IdentRunLength(s);
      && 1 <= n <= |s|
      && (forall k :: 0 <= k < n ==> IsIdentChar(s[k]))
      && (n == |s| || !IsIdentChar(s[n]))
      && NextWord(s, pos) == Ok(Scanned(AsciiWord(Ident, pos, n), s[n..]))
  {
    var n := IdentRunLength(s);
    assert n == 1 + IdentRunLength(s[1..]);
    IdentRunIsMaximal(s);
    assert AsciiPrefix(s, n) by {
      forall k | 0 <= k < n && k < |s| ensures s[k] as int < 0x80 {
        assert IsIdentChar(s[k]);
      }
    }
    AsciiUtf8Prefix(s, n);
  }

  /** `hello` followed by any character that is not an ASCII letter or
      digit scans as the identifier spanning bytes 0 to 5. */
  lemma HelloStopsAtNonIdentChar(c: char, rest: seq<char>)
    requires !IsIdentChar(c)
    ensures var r := NextWord("hello" + [c] + rest, 0);
      r.Ok? && r.value.word == Word(Ident, Span(BytePos(0), BytePos(5)))
  {
    var s := "hello" + [c] + rest;
    IdentWord(s, 0);
    assert IdentRunLength(s) == 5 by {
      assert s[5..][0] == c;
      assert s[4..][1..] == s[5..] && s[3..][1..] == s[4..] && s[2..][1..] == s[3..] && s[1..][1..] == s[2..];
    }
  }

  // ---------------------------------------------------------------------
  // Skipped text

  /** A space, tab or newline produces no word: scanning goes on one byte
      further. */
  lemma {:induction false} WhitespaceSkipped(w: char, rest: seq<char>, pos: nat)
    requires IsWhitespace(w)
    ensures NextWord([w] + rest, pos) == NextWord(rest, pos + 1)
  {
    var s := [w] + rest;
    assert s[0] == w && s[1..] == rest;
    AsciiUtf8Prefix(s, 1);
  }

  /** Whether `body` holds no star-slash, even one completed by a star-slash
      placed right after it. */
  predicate OpenCommentBody(body: seq<char>) {
    forall k :: 0 <= k < |body| ==> !ClosesAt(body + ['*', '/'], k)
  }

  /** In a comment whose text is `body` and then a star-slash, the comment
      ends after that star-slash. */
  lemma {:induction false} CommentEndAfterBody(body: seq<char>, rest: seq<char>, i: nat)
    requires OpenCommentBody(body) && i <= |body|
    ensures CommentEndFrom(body + ['*', '/'] + rest, i) == Some(|body| + 2)
    decreases |body| - i
  {
    var t := body + ['*', '/'] + rest;
    assert t[..|body| + 2] == body + ['*', '/'];
    if i < |body| {
      assert !ClosesAt(body + ['*', '/'], i);
      assert t[i] == (body + ['*', '/'])[i] && t[i + 1] == (body + ['*', '/'])[i + 1];
      CommentEndAfterBody(body, rest, i + 1);
    } else {
      assert t[i] == '*' && t[i + 1] == '/';
    }
  }

  /** A complete block comment is one skipped stretch running to the end of
      its closing star-slash. */
  lemma BlockCommentAnalysed(body: seq<char>, rest: seq<char>)
    requires OpenCommentBody(body)
    ensures var s := ['/', '*'] + body + ['*', '/'] + rest;
      Analyse(s) == Ok(Scan(Skipped, |body| + 4)) && s[|body| + 4..] == rest
  {
    var s := ['/', '*'] + body + ['*', '/'] + rest;
    assert s[0] == '/' && s[1] == '*';
    assert s[2..] == body + ['*', '/'] + rest;
    CommentEndAfterBody(body, rest, 0);
  }

  /** The bytes of a block comment: four for its delimiters and the UTF-8
      length of its text. */
  lemma BlockCommentBytes(body: seq<char>, rest: seq<char>)
    ensures var s := ['/', '*'] + body + ['*', '/'] + rest;
      |body| + 4 <= |s| && Utf8Prefix(s, |body| + 4) == 4 + Utf8Length(body)
  {
    var s := ['/', '*'] + body + ['*', '/'] + rest;
    var t := s[2..];
    Utf8PrefixSplit(s, 2, |body| + 2);
    AsciiUtf8Prefix(s, 2);
    Utf8PrefixSplit(t, |body|, 2);
    assert t[..|body|] == body[..|body|];
    Utf8PrefixAgree(t, body, |body|);
    assert t[|body|..][..2] == ['*', '/'];
    AsciiUtf8Prefix(t[|body|..], 2);
  }

  /** A complete block comment produces no word: scanning goes on after its
      closing star-slash, which is the first one after the opening. */
  lemma BlockCommentSkipped(body: seq<char>, rest: seq<char>, pos: nat)
    requires OpenCommentBody(body)
    ensures NextWord(['/', '*'] + body + ['*', '/'] + rest, pos)
         == NextWord(rest, pos + 4 + Utf8Length(body))
  {
    var s := ['/', '*'] + body + ['*', '/'] + rest;
    BlockCommentAnalysed(body, rest);
    BlockCommentBytes(body, rest);
    NextWordSkips(s, pos, |body| + 4);
  }

  /** Once past the opening slash-star, without a star-slash in `body` the
      comment never ends. */
  lemma {:induction false} CommentNeverEnds(body: seq<char>, i: nat)
    requires i <= |body| && forall k :: 0 <= k < |body| ==> !ClosesAt(body, k)
    ensures CommentEndFrom(body, i) == None
    decreases |body| - i
  {
    if i < |body| {
      assert !ClosesAt(body, i);
      CommentNeverEnds(body, i + 1);
    }
  }

  /** Reaching the end of input inside a block comment is the panic of
      `skip_block_comment`, not a word. */
  lemma UnterminatedCommentPanics(body: seq<char>, pos: nat)
    requires forall k :: 0 <= k < |body| ==> !ClosesAt(body, k)
    ensures NextWord(['/', '*'] + body, pos) == Err(UnterminatedBlockComment)
  {
    var s := ['/', '*'] + body;
    assert s[0] == '/' && s[1] == '*' && s[2..] == body;
    CommentNeverEnds(body, 0);
  }

  /** Input made only of whitespace yields the end-of-input word with the
      dummy span and nothing left. */
  lemma {:induction false} BlankInputIsEof(s: seq<char>, pos: nat)
    requires forall k :: 0 <= k < |s| ==> IsWhitespace(s[k])
    ensures NextWord(s, pos) == Ok(Scanned(Word(Eof, DUMMY_SPAN), []))
    decreases |s|
  {
    if s != [] {
      assert [s[0]] + s[1..] == s;
      WhitespaceSkipped(s[0], s[1..], pos);
      BlankInputIsEof(s[1..], pos + 1);
    }
  }

  // ---------------------------------------------------------------------
  // The shape of every outcome

  /** A word found directly, with no skipped text before it, starts exactly
      at `pos`: successive words with nothing between them have adjacent
      spans. */
  lemma {:induction false} WordStartsAtPosition(s: seq<char>, pos: nat)
    requires Analyse(s).Ok? && Analyse(s).value.state.FoundCategory?
    ensures NextWord(s, pos).Ok? && NextWord(s, pos).value.word.lexeme.start.n == pos
  {
  }

  // ---------------------------------------------------------------------
  // The scenarios of the tests

  /** `+-`: the second word's span starts where the first one's ends. */
  lemma PlusMinusSpans(pos: nat)
    ensures NextWord("+-", pos) == Ok(Scanned(AsciiWord(Plus, pos, 1), "-"))
    ensures NextWord("-", pos + 1) == Ok(Scanned(AsciiWord(Minus, pos + 1, 1), ""))
  {
    assert "+-" == ['+'] + "-";
    PunctuationWord('+', "-", pos);
    assert "-" == ['-'] + "";
    PunctuationWord('-', "", pos + 1);
  }

  /** The empty block comment, slash-star-star-slash, is skipped whole,
      leaving the end of input. */
  lemma EmptyCommentIsEof(pos: nat)
    ensures NextWord("/**/", pos) == Ok(Scanned(Word(Eof, DUMMY_SPAN), []))
  {
    assert "/**/" == ['/', '*'] + [] + ['*', '/'] + [];
    BlockCommentSkipped([], [], pos);
  }

  /** The comment text of `dont_nest_comment_blocks` holds a second
      slash-star but no star-slash. */
  lemma NestedOpenerIsCommentText()
    ensures OpenCommentBody("+/*-")
  {
    var t := "+/*-" + ['*', '/'];
    assert t == "+/*-*/";
    forall k | 0 <= k < 4 ensures !ClosesAt(t, k) {
    }
  }

  /** The input of `dont_nest_comment_blocks`: the first star-slash closes
      the comment in spite of the slash-star inside it, so what follows
      scans as `=`, with the star-slash after it left over. */
  lemma CommentsDoNotNest(pos: nat)
    ensures NextWord("/*+/*-*/=*/", pos) == Ok(Scanned(AsciiWord(Equal, pos + 8, 1), "*/"))
  {
    NestedOpenerIsCommentText();
    NestedCommentParts();
    BlockCommentSkipped("+/*-", "=*/", pos);
    EqualBeforeStarSlash(pos + 8);
  }

  /** The parts of the input of `dont_nest_comment_blocks`. */
  lemma NestedCommentParts()
    ensures "/*+/*-*/=*/" == ['/', '*'] + "+/*-" + ['*', '/'] + "=*/"
    ensures Utf8Length("+/*-") == 4
  {
  }

  /** What follows the comment in `dont_nest_comment_blocks`. */
  lemma EqualBeforeStarSlash(pos: nat)
    ensures NextWord("=*/", pos) == Ok(Scanned(AsciiWord(Equal, pos, 1), "*/"))
  {
    assert "=*/" == ['='] + "*/";
    OneCharPrefixWord('=', "*/", pos);
  }

  /** The star-slash left over after that comment is not a comment end but
      the two words `*` and `/`. */
  lemma LeftoverStarSlash(pos: nat)
    ensures NextWord("*/", pos) == Ok(Scanned(AsciiWord(Star, pos, 1), "/"))
    ensures NextWord("/", pos + 1) == Ok(Scanned(AsciiWord(Slash, pos + 1, 1), ""))
  {
    assert "*/" == ['*'] + "/";
    PunctuationWord('*', "/", pos);
    assert "/" == ['/'] + "";
    OneCharPrefixWord('/', "", pos + 1);
  }

  /** A lone slash-star panics. */
  lemma MissingEndOfBlockComment(pos: nat)
    ensures NextWord("/*", pos) == Err(UnterminatedBlockComment)
  {
    assert "/*" == ['/', '*'] + [];
    UnterminatedCommentPanics([], pos);
  }
}
