/**
 * The lexer of akhamoth/src/lexer.rs.
 *
 * `Lex` states, as a function of the unconsumed text, what one `next_token` call returns and how many
 * characters it consumes; `TokenStream` does the same for `tokenize`.  The class `Cursor` is the
 * source's cursor: it keeps the unconsumed characters and a byte count, consumes them one `Bump` at a
 * time, measures tokens in bytes and slices its text by byte offsets, as the source does; each of its
 * methods is proved to do what `Lex` and its helpers say.
 */
module Lexer {
  import opened Options
  import opened Utf8

  datatype DelimKind = Paren | Bracket | Brace

  datatype Operator = Dot | Arrow | FatArrow | Equals | Plus | Minus | Div | Mul | Percent

  /** `Empty` and `Overflow` exist in the source but no code path constructs them. */
  datatype ParseIntError = Empty | Overflow | InvalidDigit(digit: char, base: nat)

  /**
   * The tokens.  The text a token carries is the characters the source borrows from its input;
   * an integer literal's value is an unbounded integer.
   */
  datatype Token =
    | StringLiteral(text: seq<char>)
    | IntLiteral(value: Result<int, ParseIntError>)
    | Identifier(text: seq<char>)
    | OpenDelim(open: DelimKind)
    | CloseDelim(close: DelimKind)
    | Pipe
    | Comma
    | Colon
    | Semicolon
    | Whitespace
    | Operator(op: Operator)
    | Comment(text: seq<char>)
    | Unrecognized(text: seq<char>)

  // ---------------------------------------------------------------------------------------------
  // Character classes

  predicate IsAsciiDigit(c: char) { '0' <= c <= '9' }

  predicate IsAsciiLetter(c: char) { 'a' <= c <= 'z' || 'A' <= c <= 'Z' }

  /** `char::is_whitespace`: the characters with the Unicode White_Space property. */
  predicate IsWhitespace(c: char)
  {
    c == ' ' || '\t' <= c <= '\r' || c == '\U{85}' || c == '\U{A0}' || c == '\U{1680}'
    || '\U{2000}' <= c <= '\U{200A}' || c == '\U{2028}' || c == '\U{2029}' || c == '\U{202F}'
    || c == '\U{205F}' || c == '\U{3000}'
  }

  /**
   * The Unicode XID_Start and XID_Continue tables of the `unicode_xid` crate.  They are a parameter of
   * the model; `WellFormed` records what they say about ASCII, which is all the proofs need.
   */
  datatype Xid = Xid(isXidStart: char -> bool, isXidContinue: char -> bool)
  {
    ghost predicate WellFormed()
    {
      (forall c: char :: c as int < 0x80 ==> (isXidStart(c) <==> IsAsciiLetter(c)))
      && (forall c: char :: c as int < 0x80 ==>
            (isXidContinue(c) <==> IsAsciiLetter(c) || IsAsciiDigit(c) || c == '_'))
    }
  }

  predicate IsIdStart(x: Xid, c: char) { c == '_' || x.isXidStart(c) }

  predicate IsIdContinue(x: Xid, c: char) { x.isXidContinue(c) }

  /** The characters that neither start another token nor belong to an identifier or a number. */
  predicate IsUnknown(x: Xid, c: char)
  {
    !(IsWhitespace(c) || x.isXidContinue(c)
      || c in {'"', '/', '|', ':', ';', '(', '[', '{', ')', ']', '}', '+', '-', '*', '=', '.', '%', '<', '>'})
  }

  function Unknown(x: Xid): char -> bool { c => IsUnknown(x, c) }

  predicate NotNewline(c: char) { c != '\n' }

  /** `char::to_digit(base)` for a base of at most 36. */
  function ToDigit(c: char, base: nat): (r: Option<nat>)
    ensures r.Some? ==> r.value < base
    ensures IsAsciiDigit(c) && c as int - '0' as int < base ==> r == Some(c as int - '0' as int)
  {
    if IsAsciiDigit(c) && c as int - '0' as int < base then Some(c as int - '0' as int)
    else if 'a' <= c <= 'z' && c as int - 'a' as int + 10 < base then Some(c as int - 'a' as int + 10)
    else if 'A' <= c <= 'Z' && c as int - 'A' as int + 10 < base then Some(c as int - 'A' as int + 10)
    else None
  }

  /** What the digit loop of `number` accepts: the separator or a digit of the base. */
  predicate IsDigitOrSeparator(c: char, base: nat) { c == '_' || ToDigit(c, base).Some? }

  function DigitOrSeparator(base: nat): char -> bool { c => IsDigitOrSeparator(c, base) }

  /** `unescape`: escapes are kept as written. */
  function Unescape(s: seq<char>): seq<char> { s }

  // ---------------------------------------------------------------------------------------------
  // Scanning, as functions of the unconsumed text

  /** `peek`: the next character, or NUL at the end of the text. */
  function First(s: seq<char>): char { if s == [] then '\0' else s[0] }

  /** The length of the longest prefix of `s` whose characters all satisfy `p`. */
  function RunLen(s: seq<char>, p: char -> bool): (n: nat)
    ensures n <= |s|
    ensures n < |s| ==> !p(s[n])
  {
    if s == [] || !p(s[0]) then 0 else 1 + RunLen(s[1..], p)
  }

  /**
   * The prefix length and base of a number literal whose first digit is `s[0]`: a leading `0`
   * followed by `b`, `o` or `x` is a two-character prefix.
   */
  function Radix(s: seq<char>): (r: (nat, nat))
    requires s != []
    ensures r == (0, 10) || (r.0 == 2 && s[0] == '0' && |s| >= 2 && s[1] in "box" && r.1 in {2, 8, 16})
  {
    if s[0] == '0' && First(s[1..]) == 'b' then (2, 2)
    else if s[0] == '0' && First(s[1..]) == 'o' then (2, 8)
    else if s[0] == '0' && First(s[1..]) == 'x' then (2, 16)
    else (0, 10)
  }

  /** The value the fold of `number` adds for one digit. */
  function DigitByte(d: char): int
  {
    if 'a' <= d <= 'f' then d as int + 0xA - 'a' as int
    else if 'A' <= d <= 'F' then d as int + 0xA - 'A' as int
    else d as int - '0' as int
  }

  /** One step of the fold of `number`: skip `_`, otherwise multiply by the base and add the digit. */
  function FoldStep(acc: int, base: nat, d: char): int
  {
    if d == '_' then acc else acc * base + DigitByte(d)
  }

  /** The fold of `number` over `ds`, from `seed`. */
  function Fold(seed: int, base: nat, ds: seq<char>): (r: int)
    ensures (forall i :: 0 <= i < |ds| ==> ds[i] == '_') ==> r == seed
  {
    if ds == [] then seed else FoldStep(Fold(seed, base, ds[..|ds| - 1]), base, ds[|ds| - 1])
  }

  /** What one call to `next_token` does with the unconsumed text. */
  datatype Scan =
    | AtEof                               // returns None and consumes nothing
    | Scanned(token: Token, used: nat)    // returns the token and consumes `used` characters
    | OutOfBounds                         // slices past the end of its text and panics

  /** `number`, for a literal whose first digit is `s[0]`. */
  function LexNumber(s: seq<char>, x: Xid): (r: Scan)
    requires s != [] && IsAsciiDigit(s[0])
    ensures r.Scanned? && 1 <= r.used <= |s|
    ensures r.token.IntLiteral?
  {
    var (lo, base) := Radix(s);
    var start := if lo == 0 then 1 else 2;
    var k := start + RunLen(s[start..], DigitOrSeparator(base));
    var c := First(s[k..]);
    if IsIdContinue(x, c) then
      Scanned(IntLiteral(Err(InvalidDigit(c, base))), k + RunLen(s[k..], x.isXidContinue))
    else
      Scanned(IntLiteral(Ok(Fold(ToDigit(s[0], base).value, base, s[lo..k]))), k)
  }

  lemma SuffixOfSuffix<T>(s: seq<T>, k: nat, r: nat)
    requires k + r <= |s|
    ensures s[k..][r..] == s[k + r..]
  {
  }

  /** `LexNumber` when the digit run that starts at `start` ends at `k`. */
  lemma LexNumberAt(s: seq<char>, x: Xid, lo: nat, base: nat, start: nat, k: nat)
    requires s != [] && IsAsciiDigit(s[0]) && (lo, base) == Radix(s) && start == (if lo == 0 then 1 else 2)
    requires start <= |s| && k == start + RunLen(s[start..], DigitOrSeparator(base))
    ensures lo <= k <= |s|
    ensures IsIdContinue(x, First(s[k..])) ==>
      LexNumber(s, x) == Scanned(IntLiteral(Err(InvalidDigit(First(s[k..]), base))), k + RunLen(s[k..], x.isXidContinue))
    ensures !IsIdContinue(x, First(s[k..])) ==>
      ToDigit(s[0], base).Some? && LexNumber(s, x) == Scanned(IntLiteral(Ok(Fold(ToDigit(s[0], base).value, base, s[lo..k]))), k)
  {
  }

  /**
   * Where the string literal whose text starts at `s[0]` is closed, scanning from `i`: the index of the
   * first `"` that is not the second character of a `\\` or `\"` escape.
   */
  function CloseQuote(s: seq<char>, i: nat): (r: Option<nat>)
    requires i <= |s|
    decreases |s| - i
    ensures r.Some? ==> i <= r.value < |s| && s[r.value] == '"'
  {
    if i == |s| then None
    else if s[i] == '"' then Some(i)
    else if s[i] == '\\' && (First(s[i + 1..]) == '\\' || First(s[i + 1..]) == '"') then CloseQuote(s, i + 2)
    else CloseQuote(s, i + 1)
  }

  /** `string_literal`, for a literal whose opening quote is `s[0]`. */
  function LexString(s: seq<char>): (r: Scan)
    requires s != [] && s[0] == '"'
    ensures r.Scanned? ==> 1 <= r.used <= |s| && r.token.StringLiteral?
    ensures r.Scanned? || r.OutOfBounds?
  {
    var body := s[1..];
    match CloseQuote(body, 0)
    case Some(j) => Scanned(StringLiteral(Unescape(body[..j])), j + 2)
    case None =>
      var m := RunLen(body, NotNewline);
      if m < |body| then Scanned(StringLiteral(body[..m + 1]), m + 1) else OutOfBounds
  }

  /**
   * The punctuation arms of `next_token`: the token that starts with `c` when `next` follows it, and
   * its length, or `None` when `c` starts no punctuation token.
   */
  function Punctuation(c: char, next: char): (r: Option<(Token, nat)>)
    ensures r.Some? ==> 1 <= r.value.1 <= 2 && (r.value.1 == 2 ==> next == '>')
  {
    if c == '|' then Some((Pipe, 1))
    else if c == ',' then Some((Comma, 1))
    else if c == ':' then Some((Colon, 1))
    else if c == ';' then Some((Semicolon, 1))
    else if c == '(' then Some((OpenDelim(Paren), 1))
    else if c == '[' then Some((OpenDelim(Bracket), 1))
    else if c == '{' then Some((OpenDelim(Brace), 1))
    else if c == ')' then Some((CloseDelim(Paren), 1))
    else if c == ']' then Some((CloseDelim(Bracket), 1))
    else if c == '}' then Some((CloseDelim(Brace), 1))
    else if c == '+' then Some((Operator(Plus), 1))
    else if c == '-' then
      if next == '>' then Some((Operator(Arrow), 2)) else Some((Operator(Minus), 1))
    else if c == '*' then Some((Operator(Mul), 1))
    else if c == '=' then
      if next == '>' then Some((Operator(FatArrow), 2)) else Some((Operator(Equals), 1))
    else if c == '.' then Some((Operator(Dot), 1))
    else if c == '%' then Some((Operator(Percent), 1))
    else None
  }

  // The arms of `next_token`, one function each, in the order of the source's match; each is
  // applied to the unconsumed text `s`, whose first character selects the arm.

  /** A run of whitespace. */
  function LexWhitespace(s: seq<char>): (r: Scan)
    requires s != []
    ensures r.Scanned? && 1 <= r.used <= |s| && r.token == Whitespace
  {
    Scanned(Whitespace, 1 + RunLen(s[1..], IsWhitespace))
  }

  /** An identifier: its first character and every identifier character after it. */
  function LexIdentifier(s: seq<char>, x: Xid): (r: Scan)
    requires s != []
    ensures r.Scanned? && 1 <= r.used <= |s| && r.token == Identifier(s[..r.used])
  {
    var n := 1 + RunLen(s[1..], x.isXidContinue);
    Scanned(Identifier(s[..n]), n)
  }

  /** A line comment after `//`, or the division operator. */
  function LexSlash(s: seq<char>): (r: Scan)
    requires s != []
    ensures r.Scanned? && 1 <= r.used <= |s|
    ensures r.token.Comment? <==> First(s[1..]) == '/'
    ensures !r.token.Comment? ==> r == Scanned(Operator(Div), 1)
  {
    if First(s[1..]) == '/' then
      var n := 1 + RunLen(s[1..], NotNewline);
      Scanned(Comment(s[2..n]), n)
    else Scanned(Operator(Div), 1)
  }

  /** Punctuation, or else a run of unrecognised characters. */
  function LexOther(s: seq<char>, x: Xid): (r: Scan)
    requires s != []
    ensures r.Scanned? && 1 <= r.used <= |s|
    ensures Punctuation(s[0], First(s[1..])).Some? ==> r.used <= 2 && !r.token.Unrecognized?
    ensures Punctuation(s[0], First(s[1..])).None? ==> r.token == Unrecognized(s[..r.used])
  {
    var p := Punctuation(s[0], First(s[1..]));
    if p.Some? then Scanned(p.value.0, p.value.1) else LexUnrecognized(s, x)
  }

  /** A character that starts no token, and the unknown characters after it. */
  function LexUnrecognized(s: seq<char>, x: Xid): (r: Scan)
    requires s != []
    ensures r.Scanned? && 1 <= r.used <= |s| && r.token == Unrecognized(s[..r.used])
  {
    var n := 1 + RunLen(s[1..], Unknown(x));
    Scanned(Unrecognized(s[..n]), n)
  }

  /** `next_token`: what one call does with the unconsumed text `s`. */
  function Lex(s: seq<char>, x: Xid): (r: Scan)
    ensures r.AtEof? <==> s == []
    ensures r.Scanned? ==> 1 <= r.used <= |s|
  {
    if s == [] then AtEof
    else if IsWhitespace(s[0]) then LexWhitespace(s)
    else if IsIdStart(x, s[0]) then LexIdentifier(s, x)
    else if IsAsciiDigit(s[0]) then LexNumber(s, x)
    else if s[0] == '"' then LexString(s)
    else if s[0] == '/' then LexSlash(s)
    else LexOther(s, x)
  }

  // ---------------------------------------------------------------------------------------------
  // Token streams

  /** A finite token stream, and whether producing it ended in a panic. */
  datatype Stream<T> = Stream(items: seq<T>, panicked: bool)

  function Cons<T>(t: T, rest: Stream<T>): Stream<T> { Stream([t] + rest.items, rest.panicked) }

  /** What one call of the closure of `tokenize` does with the unconsumed text `s`. */
  datatype Step =
    | Stop(panicked: bool)                        // returns None, or panics
    | Yield(item: (Token, bool), rest: seq<char>) // returns the item and leaves `rest` unconsumed

  /**
   * The closure of `tokenize`: a token that is not whitespace is returned as not preceded by whitespace;
   * after whitespace, the next token is returned as preceded by it, or the stream ends.
   */
  function NextItem(s: seq<char>, x: Xid): (r: Step)
    ensures r.Yield? ==> |r.rest| < |s|
  {
    match Lex(s, x)
    case AtEof => Stop(false)
    case OutOfBounds => Stop(true)
    case Scanned(t, n) =>
      if t.Whitespace? then
        match Lex(s[n..], x)
        case AtEof => Stop(false)
        case OutOfBounds => Stop(true)
        case Scanned(t2, n2) => Yield((t2, true), s[n..][n2..])
      else Yield((t, false), s[n..])
  }

  /** `tokenize`, run to the end of `s`. */
  function TokenStream(s: seq<char>, x: Xid): (r: Stream<(Token, bool)>)
    decreases |s|
    ensures |r.items| <= |s|
    ensures s == [] ==> r == Stream([], false)
  {
    match NextItem(s, x)
    case Stop(panicked) => Stream([], panicked)
    case Yield(item, rest) => Cons(item, TokenStream(rest, x))
  }

  /** `rest` with `items` in front. */
  function Extend<T>(items: seq<T>, rest: Stream<T>): Stream<T> { Stream(items + rest.items, rest.panicked) }

  lemma ExtendCons<T>(items: seq<T>, t: T, rest: Stream<T>)
    ensures Extend(items, Cons(t, rest)) == Extend(items + [t], rest)
  {
    assert items + ([t] + rest.items) == items + [t] + rest.items;
  }

  // ---------------------------------------------------------------------------------------------
  // The cursor

  /** The result of `Cursor.NextToken`: the source's `Option<Token>`, or the panic of a bad slice. */
  datatype Next = End | Emit(token: Token) | Panicked

  class Cursor {
    /** Bytes left at the start of the current token. */
    var lenRemaining: nat
    /** The unconsumed characters. */
    var chars: seq<char>
    const xid: Xid
    /** The unconsumed characters at the start of the current token. */
    ghost var tokenStart: seq<char>

    ghost predicate Valid()
      reads this
    {
      |chars| <= |tokenStart| && chars == tokenStart[|tokenStart| - |chars|..]
      && lenRemaining == ByteLen(tokenStart)
    }

    /** The characters of the current token consumed so far. */
    ghost function Consumed(): seq<char>
      reads this
      requires Valid()
    {
      tokenStart[..|tokenStart| - |chars|]
    }

    constructor (input: seq<char>, xid: Xid)
      ensures Valid() && this.xid == xid
      ensures chars == input && tokenStart == input
    {
      lenRemaining := ByteLen(input);
      chars := input;
      this.xid := xid;
      tokenStart := input;
    }

    function Peek(): char
      reads this
    {
      First(chars)
    }

    method Bump() returns (c: Option<char>)
      requires Valid()
      modifies this`chars
      ensures Valid()
      ensures old(chars) == [] ==> c == None && chars == []
      ensures old(chars) != [] ==> c == Some(old(chars)[0]) && chars == old(chars)[1..]
    {
      if chars == [] {
        c := None;
      } else {
        c := Some(chars[0]);
        chars := chars[1..];
      }
    }

    predicate IsEof()
      reads this
    {
      chars == []
    }

    /** Consumes characters while they satisfy `p`, stopping at the end of the text. */
    method EatWhile(p: char -> bool)
      requires Valid()
      modifies this`chars
      ensures Valid()
      ensures chars == old(chars)[RunLen(old(chars), p)..]
    {
      ghost var k := 0;
      while p(Peek()) && !IsEof()
        invariant Valid()
        invariant k <= |old(chars)| && chars == old(chars)[k..]
        invariant RunLen(old(chars), p) == k + RunLen(chars, p)
        decreases |chars|
      {
        var _ := Bump();
        k := k + 1;
      }
    }

    /** The length in bytes of the current token so far. */
    function TokenLength(): (n: nat)
      reads this
      requires Valid()
      ensures n == ByteLen(Consumed())
    {
      assert tokenStart == Consumed() + chars;
      ByteLenAppend(Consumed(), chars);
      lenRemaining - ByteLen(chars)
    }

    method ResetToken()
      requires Valid()
      modifies this`lenRemaining, this`tokenStart
      ensures Valid() && tokenStart == chars && lenRemaining == ByteLen(chars)
    {
      lenRemaining := ByteLen(chars);
      tokenStart := chars;
    }

    /** Slices the current token's text `source` up to the current position, at byte `lo`. */
    method SliceFrom(source: seq<char>, lo: nat) returns (text: seq<char>)
      requires Valid() && source == tokenStart && |Consumed()| >= lo
      requires forall i :: 0 <= i < lo ==> source[i] as int < 0x80
      ensures text == source[lo..|Consumed()|]
    {
      var len := TokenLength();
      assert source[..lo] == Consumed()[..lo];
      ByteLenAtLeastLength(source[..lo]);
      ByteSliceChars(source, lo, |Consumed()|);
      text := ByteSlice(source, lo, len).value;
    }

    method NextToken() returns (r: Next)
      requires Valid() && chars == tokenStart
      modifies this`chars, this`lenRemaining, this`tokenStart
      ensures Valid()
      ensures match Lex(old(chars), xid)
              case AtEof => r == End && chars == old(chars) && tokenStart == chars
              case Scanned(t, n) => r == Emit(t) && chars == old(chars)[n..] && tokenStart == chars
              case OutOfBounds => r == Panicked
    {
      var source := chars;
      var first := Bump();
      if first.None? {
        return End;
      }
      r := ScanToken(source, first.value);
      if r.Emit? {
        ResetToken();
      }
    }

    /** The match of `next_token` on the first character `c` of `source`, which was consumed. */
    method ScanToken(source: seq<char>, c: char) returns (r: Next)
      requires Valid() && source == tokenStart && source != [] && chars == source[1..] && c == source[0]
      modifies this`chars
      ensures Valid() && tokenStart == source
      ensures match Lex(source, xid)
              case Scanned(t, n) => r == Emit(t) && chars == source[n..]
              case _ => r == Panicked
    {
      if IsWhitespace(c) || IsIdStart(xid, c) || IsAsciiDigit(c) {
        var token := ScanLeading(source, c);
        r := Emit(token);
        assert chars == source[|source| - |chars|..];
      } else {
        r := ScanRest(source, c);
        assert r.Emit? ==> chars == source[|source| - |chars|..];
      }
    }

    /** The first three arms of `next_token`: whitespace, identifiers and numbers. */
    method ScanLeading(source: seq<char>, c: char) returns (t: Token)
      requires Valid() && source == tokenStart && source != [] && chars == source[1..] && c == source[0]
      requires IsWhitespace(c) || IsIdStart(xid, c) || IsAsciiDigit(c)
      modifies this`chars
      ensures Valid() && tokenStart == source
      ensures Lex(source, xid) == Scanned(t, |source| - |chars|)
    {
      if IsWhitespace(c) {
        t := WhitespaceToken(source);
      } else if IsIdStart(xid, c) {
        t := IdentifierToken(source);
      } else {
        t := Number(source, c);
      }
    }

    /** The arms of `next_token` after the digit arm. */
    method ScanRest(source: seq<char>, c: char) returns (r: Next)
      requires Valid() && source == tokenStart && source != [] && chars == source[1..] && c == source[0]
      requires !IsWhitespace(c) && !IsIdStart(xid, c) && !IsAsciiDigit(c)
      modifies this`chars
      ensures Valid() && tokenStart == source && !r.End?
      ensures r.Emit? ==> Lex(source, xid) == Scanned(r.token, |source| - |chars|)
      ensures r.Panicked? ==> Lex(source, xid).OutOfBounds?
    {
      var token: Token;
      if c == '"' {
        r := StringLiteral();
        return;
      } else if c == '/' {
        token := SlashToken(source);
      } else {
        token := OtherToken(source, c);
      }
      r := Emit(token);
    }

    /** The closure of `tokenize`; `panicked` is set where `next_token` panics. */
    method Pull() returns (item: Option<(Token, bool)>, panicked: bool)
      requires Valid() && chars == tokenStart
      modifies this`chars, this`lenRemaining, this`tokenStart
      ensures Valid()
      ensures match NextItem(old(chars), xid)
              case Stop(p) => item == None && panicked == p
              case Yield(it, rest) => item == Some(it) && !panicked && chars == rest && tokenStart == chars
    {
      ghost var before := chars;
      var t := NextToken();
      if !t.Emit? {
        assert NextItem(before, xid) == Stop(t.Panicked?);
        return None, t.Panicked?;
      }
      if t.token.Whitespace? {
        ghost var afterSpace := chars;
        assert afterSpace == before[Lex(before, xid).used..];
        var t2 := NextToken();
        if !t2.Emit? {
          assert Lex(afterSpace, xid).OutOfBounds? == t2.Panicked?;
          assert NextItem(before, xid) == Stop(t2.Panicked?);
          return None, t2.Panicked?;
        }
        return Some((t2.token, true)), false;
      }
      return Some((t.token, false)), false;
    }

    /** The whitespace arm of `next_token`, called after the first character of `source` was consumed. */
    method WhitespaceToken(source: seq<char>) returns (t: Token)
      requires Valid() && source == tokenStart && source != [] && chars == source[1..]
      modifies this`chars
      ensures Valid() && tokenStart == source
      ensures LexWhitespace(source) == Scanned(t, |source| - |chars|)
    {
      EatWhile(IsWhitespace);
      SuffixOfSuffix(source, 1, RunLen(source[1..], IsWhitespace));
      t := Whitespace;
    }

    /** The identifier arm of `next_token`. */
    method IdentifierToken(source: seq<char>) returns (t: Token)
      requires Valid() && source == tokenStart && source != [] && chars == source[1..]
      modifies this`chars
      ensures Valid() && tokenStart == source
      ensures LexIdentifier(source, xid) == Scanned(t, |source| - |chars|)
    {
      EatWhile(xid.isXidContinue);
      SuffixOfSuffix(source, 1, RunLen(source[1..], xid.isXidContinue));
      var text := SliceFrom(source, 0);
      t := Identifier(text);
    }

    /** The `/` arm of `next_token`: a comment or the division operator. */
    method SlashToken(source: seq<char>) returns (t: Token)
      requires Valid() && source == tokenStart && source != [] && chars == source[1..] && source[0] == '/'
      modifies this`chars
      ensures Valid() && tokenStart == source
      ensures LexSlash(source) == Scanned(t, |source| - |chars|)
    {
      if Peek() == '/' {
        t := CommentToken(source);
      } else {
        t := Operator(Div);
      }
    }

    /** A `//` comment: its text runs from after the slashes up to the next newline, which it leaves. */
    method CommentToken(source: seq<char>) returns (t: Token)
      requires Valid() && source == tokenStart && |source| >= 2 && source[..2] == "//" && chars == source[1..]
      modifies this`chars
      ensures Valid() && tokenStart == source
      ensures var n := 1 + RunLen(source[1..], NotNewline);
              t == Comment(source[2..n]) && chars == source[n..]
    {
      EatWhile(NotNewline);
      SuffixOfSuffix(source, 1, RunLen(source[1..], NotNewline));
      var text := SliceFrom(source, 2);
      t := Comment(text);
    }

    /** The remaining arms of `next_token`: punctuation, or a run of unrecognised characters. */
    method OtherToken(source: seq<char>, c: char) returns (t: Token)
      requires Valid() && source == tokenStart && source != [] && chars == source[1..] && c == source[0]
      modifies this`chars
      ensures Valid() && tokenStart == source
      ensures LexOther(source, xid) == Scanned(t, |source| - |chars|)
    {
      var p := PunctuationToken(c);
      if p.Some? {
        return p.value;
      }
      t := UnrecognizedToken(source);
    }

    /** The fallback arm of `next_token`. */
    method UnrecognizedToken(source: seq<char>) returns (t: Token)
      requires Valid() && source == tokenStart && source != [] && chars == source[1..]
      modifies this`chars
      ensures Valid() && tokenStart == source
      ensures LexUnrecognized(source, xid) == Scanned(t, |source| - |chars|)
    {
      EatWhile(Unknown(xid));
      SuffixOfSuffix(source, 1, RunLen(source[1..], Unknown(xid)));
      var text := SliceFrom(source, 0);
      t := Unrecognized(text);
    }

    /** The punctuation arms of `next_token`, called after `c` was consumed. */
    method PunctuationToken(c: char) returns (t: Option<Token>)
      requires Valid()
      modifies this`chars
      ensures Valid()
      ensures Punctuation(c, First(old(chars))).None? ==> t == None && chars == old(chars)
      ensures Punctuation(c, First(old(chars))).Some? ==>
                var (tok, n) := Punctuation(c, First(old(chars))).value;
                t == Some(tok) && 1 <= n <= |old(chars)| + 1 && chars == old(chars)[n - 1..]
    {
      if c == '|' {
        t := Some(Pipe);
      } else if c == ',' {
        t := Some(Comma);
      } else if c == ':' {
        t := Some(Colon);
      } else if c == ';' {
        t := Some(Semicolon);
      } else if c == '(' {
        t := Some(OpenDelim(Paren));
      } else if c == '[' {
        t := Some(OpenDelim(Bracket));
      } else if c == '{' {
        t := Some(OpenDelim(Brace));
      } else if c == ')' {
        t := Some(CloseDelim(Paren));
      } else if c == ']' {
        t := Some(CloseDelim(Bracket));
      } else if c == '}' {
        t := Some(CloseDelim(Brace));
      } else if c == '+' {
        t := Some(Operator(Plus));
      } else if c == '-' {
        if Peek() == '>' {
          var _ := Bump();
          t := Some(Operator(Arrow));
        } else {
          t := Some(Operator(Minus));
        }
      } else if c == '*' {
        t := Some(Operator(Mul));
      } else if c == '=' {
        if Peek() == '>' {
          var _ := Bump();
          t := Some(Operator(FatArrow));
        } else {
          t := Some(Operator(Equals));
        }
      } else if c == '.' {
        t := Some(Operator(Dot));
      } else if c == '%' {
        t := Some(Operator(Percent));
      } else {
        t := None;
      }
    }

    /** `number`, called after the first digit `first` of the token's text `source` was consumed. */
    method Number(source: seq<char>, first: char) returns (t: Token)
      requires Valid() && source == tokenStart && source != [] && first == source[0]
      requires IsAsciiDigit(first) && chars == source[1..]
      modifies this`chars
      ensures Valid() && tokenStart == source
      ensures LexNumber(source, xid) == Scanned(t, |source| - |chars|)
    {
      var lo, base := ScanRadix(source, first);
      ghost var start: nat := if lo == 0 then 1 else 2;
      EatDigits(base);
      ghost var k := start + RunLen(source[start..], DigitOrSeparator(base));
      SuffixOfSuffix(source, start, RunLen(source[start..], DigitOrSeparator(base)));
      t := NumberEnd(source, lo, base, start, k);
    }

    /** The end of `number`, once the digits of `base` up to `source[k]` were consumed. */
    method NumberEnd(source: seq<char>, lo: nat, base: nat, ghost start: nat, ghost k: nat) returns (t: Token)
      requires Valid() && source == tokenStart && source != [] && IsAsciiDigit(source[0])
      requires (lo, base) == Radix(source) && start == (if lo == 0 then 1 else 2) && start <= |source|
      requires k == start + RunLen(source[start..], DigitOrSeparator(base)) && chars == source[k..]
      modifies this`chars
      ensures Valid() && tokenStart == source
      ensures LexNumber(source, xid) == Scanned(t, |source| - |chars|)
    {
      LexNumberAt(source, xid, lo, base, start, k);
      var c := Peek();
      if IsIdContinue(xid, c) {
        EatIdContinueFrom(source, k);
        return IntLiteral(Err(InvalidDigit(c, base)));
      }
      t := NumberValue(source, lo, base, k);
    }

    /** Consumes the identifier characters that follow `source[..k]`. */
    method EatIdContinueFrom(source: seq<char>, ghost k: nat)
      requires Valid() && source == tokenStart && k <= |source| && chars == source[k..]
      modifies this`chars
      ensures Valid() && tokenStart == source
      ensures chars == source[k + RunLen(source[k..], xid.isXidContinue)..]
    {
      EatWhile(xid.isXidContinue);
      SuffixOfSuffix(source, k, RunLen(source[k..], xid.isXidContinue));
    }

    /** The literal whose digits, in `base`, are `source[lo..k]`, read when the cursor stands after them. */
    method NumberValue(source: seq<char>, lo: nat, base: nat, ghost k: nat) returns (t: Token)
      requires Valid() && source == tokenStart && lo <= k <= |source| && chars == source[k..]
      requires forall i :: 0 <= i < lo ==> source[i] as int < 0x80
      requires source != [] && ToDigit(source[0], base).Some?
      ensures t == IntLiteral(Ok(Fold(ToDigit(source[0], base).value, base, source[lo..k])))
    {
      var digits := SliceFrom(source, lo);
      var val := FoldDigits(ToDigit(source[0], base).value, base, digits);
      t := IntLiteral(Ok(val));
    }

    /** The start of `number`: picks the base and consumes a `0b`, `0o` or `0x` prefix. */
    method ScanRadix(source: seq<char>, first: char) returns (lo: nat, base: nat)
      requires Valid() && source != [] && first == source[0] && chars == source[1..]
      modifies this`chars
      ensures Valid() && (lo, base) == Radix(source)
      ensures chars == source[if lo == 0 then 1 else 2..]
    {
      lo, base := 0, 10;
      if first == '0' {
        var p := Peek();
        if p == 'b' {
          lo, base := 2, 2;
        } else if p == 'o' {
          lo, base := 2, 8;
        } else if p == 'x' {
          lo, base := 2, 16;
        }
      }
      if lo != 0 {
        var _ := Bump();
      }
    }

    /** The digit branch of the loop in `number`: consumes separators and digits of `base`. */
    method EatDigits(base: nat)
      requires Valid()
      modifies this`chars
      ensures Valid()
      ensures chars == old(chars)[RunLen(old(chars), DigitOrSeparator(base))..]
    {
      assert !IsDigitOrSeparator('\0', base);
      ghost var k := 0;
      while IsDigitOrSeparator(Peek(), base)
        invariant Valid()
        invariant k <= |old(chars)| && chars == old(chars)[k..]
        invariant RunLen(old(chars), DigitOrSeparator(base)) == k + RunLen(chars, DigitOrSeparator(base))
        decreases |chars|
      {
        var _ := Bump();
        k := k + 1;
      }
    }

    /** `string_literal`, called after the opening quote was consumed. */
    method StringLiteral() returns (r: Next)
      requires Valid() && tokenStart != [] && tokenStart[0] == '"' && chars == tokenStart[1..]
      modifies this`chars
      ensures Valid()
      ensures match LexString(tokenStart)
              case Scanned(t, n) => r == Emit(t) && chars == tokenStart[n..]
              case _ => r == Panicked
    {
      var source := chars;
      var found, j := SeekCloseQuote(source);
      if found {
        r := ClosedToken(source, j);
        return;
      }
      r := UnclosedRecovery(source);
    }

    /**
     * The loop of `string_literal`: consumes the literal's text `source` up to and including its
     * closing quote, stepping over the escapes `\\` and `\"`, or all of it when it has none.
     */
    method SeekCloseQuote(ghost source: seq<char>) returns (found: bool, ghost j: nat)
      requires Valid() && chars == source
      modifies this`chars
      ensures Valid()
      ensures found ==> CloseQuote(source, 0) == Some(j) && j < |source| && chars == source[j + 1..]
      ensures !found ==> CloseQuote(source, 0) == None && chars == []
    {
      ghost var i := 0;
      while chars != []
        invariant Valid() && i <= |source| && chars == source[i..]
        invariant CloseQuote(source, 0) == CloseQuote(source, i)
        decreases |source| - i
      {
        var c := Bump();
        SuffixOfSuffix(source, i, 1);
        if c.value == '"' {
          return true, i;
        } else if c.value == '\\' && (Peek() == '\\' || Peek() == '"') {
          var _ := Bump();
          SuffixOfSuffix(source, i + 1, 1);
          i := i + 2;
        } else {
          i := i + 1;
        }
      }
      return false, 0;
    }

    /** The end of `string_literal` at the closing quote `source[j]`, just consumed. */
    method ClosedToken(source: seq<char>, ghost j: nat) returns (r: Next)
      requires Valid() && tokenStart != [] && tokenStart[0] == '"' && source == tokenStart[1..]
      requires CloseQuote(source, 0) == Some(j) && chars == source[j + 1..]
      ensures match LexString(tokenStart)
              case Scanned(t, n) => r == Emit(t) && chars == tokenStart[n..]
              case _ => r == Panicked
    {
      var len := TokenLength() - 2;
      ClosedLiteral(tokenStart, j);
      r := Emit(Token.StringLiteral(Unescape(ByteSlice(source, 0, len).value)));
      assert tokenStart[j + 2..] == source[j + 1..];
    }

    /**
     * The end of `string_literal` when no closing quote was found: back to the start of the text
     * `source` after the opening quote, and on to the next newline.
     */
    method UnclosedRecovery(source: seq<char>) returns (r: Next)
      requires Valid() && tokenStart != [] && tokenStart[0] == '"' && source == tokenStart[1..]
      requires CloseQuote(source, 0) == None
      modifies this`chars
      ensures Valid()
      ensures match LexString(tokenStart)
              case Scanned(t, n) => r == Emit(t) && chars == tokenStart[n..]
              case _ => r == Panicked
    {
      chars := source;
      EatWhile(NotNewline);
      var len := TokenLength();
      UnclosedLiteral(tokenStart);
      var text := ByteSlice(source, 0, len);
      if text.None? {
        return Panicked;
      }
      r := Emit(Token.StringLiteral(text.value));
    }
  }

  /** The closing quote of the literal `s` is `s[j + 1]`: the bytes and the slice `string_literal` takes. */
  lemma ClosedLiteral(s: seq<char>, j: nat)
    requires s != [] && s[0] == '"' && j + 1 < |s| && s[j + 1] == '"' && CloseQuote(s[1..], 0) == Some(j)
    ensures ByteLen(s[..j + 2]) - 2 == ByteLen(s[1..][..j])
    ensures ByteSlice(s[1..], 0, ByteLen(s[1..][..j])) == Some(s[1..][..j])
    ensures s[1..][j + 1..] == s[j + 2..]
    ensures LexString(s) == Scanned(StringLiteral(Unescape(s[1..][..j])), j + 2)
  {
    assert s[..j + 2] == ['"'] + s[1..][..j] + ['"'];
    ByteLenAppend(['"'] + s[1..][..j], ['"']);
    ByteLenAppend(['"'], s[1..][..j]);
    ByteSliceChars(s[1..], 0, j);
  }

  /**
   * The recovery of `string_literal` for the unclosed literal `s`: the byte length of the quote and the
   * characters before the first newline, and the slice of that length, which takes the newline too.
   */
  lemma UnclosedLiteral(s: seq<char>)
    requires s != [] && s[0] == '"'
    ensures var m := RunLen(s[1..], NotNewline);
            ByteLen(s[..m + 1]) == 1 + ByteLen(s[1..][..m])
            && (m < |s| - 1 ==> ByteSlice(s[1..], 0, ByteLen(s[..m + 1])) == Some(s[1..][..m + 1]))
            && (m == |s| - 1 ==> ByteSlice(s[1..], 0, ByteLen(s[..m + 1])) == None)
  {
    var body, m := s[1..], RunLen(s[1..], NotNewline);
    assert s[..m + 1] == ['"'] + body[..m];
    ByteLenAppend(['"'], body[..m]);
    if m < |body| {
      assert body[..m + 1] == body[..m] + ['\n'];
      ByteLenAppend(body[..m], ['\n']);
      ByteSliceChars(body, 0, m + 1);
    } else {
      assert body[..m] == body;
      ByteSlicePastEnd(body, 0, ByteLen(s[..m + 1]));
    }
  }

  /** The digit loop at the end of `number`: folds `digits` into `seed`, skipping `_`. */
  method FoldDigits(seed: int, base: nat, digits: seq<char>) returns (val: int)
    ensures val == Fold(seed, base, digits)
  {
    val := seed;
    for i := 0 to |digits|
      invariant val == Fold(seed, base, digits[..i])
    {
      assert digits[..i + 1][..i] == digits[..i];
      ghost var acc := val;
      var d := digits[i];
      if d == '_' {
        continue;
      }
      val := val * base;
      val := val + DigitByte(d);
      assert val == FoldStep(acc, base, d);
    }
    assert digits[..|digits|] == digits;
  }

  /** `tokenize`, run to the end of its input. */
  method Tokenize(input: seq<char>, xid: Xid) returns (s: Stream<(Token, bool)>)
    ensures s == TokenStream(input, xid)
  {
    var cursor := new Cursor(input, xid);
    var items: seq<(Token, bool)> := [];
    while true
      invariant cursor.Valid() && cursor.xid == xid && cursor.chars == cursor.tokenStart
      invariant TokenStream(input, xid) == Extend(items, TokenStream(cursor.chars, xid))
      decreases |cursor.chars|
    {
      var item, panicked := cursor.Pull();
      if item.None? {
        assert items + [] == items;
        return Stream(items, panicked);
      }
      ExtendCons(items, item.value, TokenStream(cursor.chars, xid));
      items := items + [item.value];
    }
  }
}
