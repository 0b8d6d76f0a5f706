/**
 * What the lexer of akhamoth/src/lexer.rs promises, proved of the functions of module `Lexer`: maximal
 * runs, greedy two-character operators, the radix and the value of integer literals, escapes and the
 * recovery of string literals, and what `tokenize` does with whitespace.  The methods of `Lexer.Cursor`
 * are proved equal to those functions, so everything here holds of them too.
 */
module LexerProofs {
  import opened Options
  import opened Utf8
  import opened Lexer

  // ---------------------------------------------------------------------------------------------
  // Runs

  /** `eat_while` consumes exactly a maximal run: every character before `RunLen` satisfies `p`. */
  lemma {:induction false} RunLenAll(s: seq<char>, p: char -> bool)
    ensures forall i :: 0 <= i < RunLen(s, p) ==> p(s[i])
  {
    if s != [] && p(s[0]) {
      RunLenAll(s[1..], p);
      forall i | 0 <= i < RunLen(s, p) ensures p(s[i]) {
        if i > 0 { assert s[i] == s[1..][i - 1]; }
      }
    }
  }

  /** A run is as long as any prefix whose characters all satisfy `p`, and no longer than the first failure. */
  lemma {:induction false} RunLenAfterPrefix(s: seq<char>, p: char -> bool, j: nat)
    requires j <= |s| && forall i :: 0 <= i < j ==> p(s[i])
    ensures RunLen(s, p) == j + RunLen(s[j..], p)
  {
    if j > 0 {
      assert p(s[0]);
      forall i | 0 <= i < j - 1 ensures p(s[1..][i]) {
        assert s[1..][i] == s[i + 1];
      }
      RunLenAfterPrefix(s[1..], p, j - 1);
      assert s[1..][j - 1..] == s[j..];
    }
  }

  // ---------------------------------------------------------------------------------------------
  // One call to `next_token`

  /**
   * An identifier starts with `_` or an XID_Start character and runs over the maximal XID_Continue run
   * after it; its text is the characters it consumes.
   */
  lemma IdentifierMaximal(s: seq<char>, x: Xid)
    requires s != [] && !IsWhitespace(s[0]) && IsIdStart(x, s[0])
    ensures Lex(s, x).Scanned? && Lex(s, x).token == Identifier(s[..Lex(s, x).used])
    ensures forall i :: 1 <= i < Lex(s, x).used ==> IsIdContinue(x, s[i])
    ensures Lex(s, x).used < |s| ==> !IsIdContinue(x, s[Lex(s, x).used])
  {
    var n := Lex(s, x).used;
    RunLenAll(s[1..], x.isXidContinue);
    forall i | 1 <= i < n ensures IsIdContinue(x, s[i]) {
      assert s[i] == s[1..][i - 1];
    }
    if n < |s| {
      assert s[n] == s[1..][n - 1];
    }
  }

  /**
   * An unrecognised token is its first character and the maximal run of `is_unknown` characters after
   * it; its text is the characters it consumes.
   */
  lemma UnrecognizedMaximal(s: seq<char>, x: Xid)
    requires s != [] && !IsWhitespace(s[0]) && !IsIdStart(x, s[0]) && !IsAsciiDigit(s[0])
    requires s[0] != '"' && s[0] != '/' && Punctuation(s[0], First(s[1..])).None?
    ensures Lex(s, x).Scanned? && Lex(s, x).token == Unrecognized(s[..Lex(s, x).used])
    ensures forall i :: 1 <= i < Lex(s, x).used ==> IsUnknown(x, s[i])
    ensures Lex(s, x).used < |s| ==> !IsUnknown(x, s[Lex(s, x).used])
  {
    var n := Lex(s, x).used;
    RunLenAll(s[1..], Unknown(x));
    forall i | 1 <= i < n ensures IsUnknown(x, s[i]) {
      assert s[i] == s[1..][i - 1];
    }
    if n < |s| {
      assert s[n] == s[1..][n - 1];
    }
  }

  /**
   * The operators that look one character ahead resolve greedily: `->` and `=>` take two characters;
   * `-` or `=` not followed by `>`, and `/` not followed by `/`, take one.
   */
  lemma LexLookahead(s: seq<char>, x: Xid)
    requires x.WellFormed() && s != []
    ensures s[0] == '-' ==> Lex(s, x) == if First(s[1..]) == '>' then Scanned(Operator(Arrow), 2)
                                         else Scanned(Operator(Minus), 1)
    ensures s[0] == '=' ==> Lex(s, x) == if First(s[1..]) == '>' then Scanned(Operator(FatArrow), 2)
                                         else Scanned(Operator(Equals), 1)
    ensures s[0] == '/' && First(s[1..]) != '/' ==> Lex(s, x) == Scanned(Operator(Div), 1)
  {
    assert !x.isXidStart('-') && !x.isXidStart('=') && !x.isXidStart('/');
  }

  /**
   * A comment starts with `//` and runs up to, not including, the next newline or the end of the text;
   * its text leaves out the `//`.
   */
  lemma LexComment(s: seq<char>, x: Xid)
    requires x.WellFormed() && |s| >= 2 && s[0] == '/' && s[1] == '/'
    ensures Lex(s, x).Scanned? && 2 <= Lex(s, x).used
    ensures Lex(s, x).token == Comment(s[2..Lex(s, x).used])
    ensures forall i :: 2 <= i < Lex(s, x).used ==> s[i] != '\n'
    ensures Lex(s, x).used == |s| || s[Lex(s, x).used] == '\n'
  {
    assert !x.isXidStart('/');
    var n := Lex(s, x).used;
    RunLenAll(s[1..], NotNewline);
    forall i | 2 <= i < n ensures s[i] != '\n' {
      assert s[i] == s[1..][i - 1];
    }
    if n < |s| {
      assert s[n] == s[1..][n - 1];
    }
  }

  // ---------------------------------------------------------------------------------------------
  // Integer literals

  /**
   * `0b`, `0o` and `0x` select base 2, 8 and 16 and are consumed; any other literal is decimal and has no
   * prefix.  A literal consumes at least its prefix and the digit that starts it.
   */
  lemma NumberRadix(s: seq<char>, x: Xid)
    requires s != [] && IsAsciiDigit(s[0])
    ensures Radix(s) == (2, 2) <==> |s| >= 2 && s[0] == '0' && s[1] == 'b'
    ensures Radix(s) == (2, 8) <==> |s| >= 2 && s[0] == '0' && s[1] == 'o'
    ensures Radix(s) == (2, 16) <==> |s| >= 2 && s[0] == '0' && s[1] == 'x'
    ensures Radix(s) == (0, 10) <==> !(|s| >= 2 && s[0] == '0' && s[1] in {'b', 'o', 'x'})
    ensures Radix(s).0 <= LexNumber(s, x).used
  {
  }

  /** Under the ASCII facts of the XID tables, a digit of a base up to 16, or `_`, continues an identifier. */
  lemma DigitsContinueIdentifiers(x: Xid, base: nat)
    requires x.WellFormed() && base <= 16
    ensures forall c :: IsDigitOrSeparator(c, base) ==> x.isXidContinue(c)
  {
    forall c | IsDigitOrSeparator(c, base) ensures x.isXidContinue(c) {
      assert c as int < 0x80;
    }
  }

  /**
   * The digit loop of `number` stops at `k`; everything before it after the prefix continues an
   * identifier, so the XID_Continue run after the prefix reaches at least to `k`.
   */
  lemma DigitRun(s: seq<char>, x: Xid, lo: nat, base: nat, start: nat, k: nat)
    requires x.WellFormed() && s != [] && IsAsciiDigit(s[0]) && (lo, base) == Radix(s)
    requires start == (if lo == 0 then 1 else 2) && start <= |s|
    requires k == start + RunLen(s[start..], DigitOrSeparator(base))
    ensures k <= |s| && (k < |s| ==> !IsDigitOrSeparator(s[k], base))
    ensures RunLen(s[start..], x.isXidContinue) == k - start + RunLen(s[k..], x.isXidContinue)
  {
    var run := s[start..];
    DigitsContinueIdentifiers(x, base);
    RunLenAll(run, DigitOrSeparator(base));
    RunLenAfterPrefix(run, x.isXidContinue, k - start);
    assert run[k - start..] == s[k..];
    if k < |s| {
      assert s[k] == run[k - start];
    }
  }

  /**
   * A literal consumes exactly the maximal XID_Continue run after its prefix, whether its digits are
   * valid or not.
   */
  lemma NumberExtent(s: seq<char>, x: Xid)
    requires x.WellFormed() && s != [] && IsAsciiDigit(s[0])
    ensures var start := if Radix(s).0 == 0 then 1 else 2;
            LexNumber(s, x).used == start + RunLen(s[start..], x.isXidContinue)
  {
    var (lo, base) := Radix(s);
    var start := if lo == 0 then 1 else 2;
    var k := start + RunLen(s[start..], DigitOrSeparator(base));
    LexNumberAt(s, x, lo, base, start, k);
    DigitRun(s, x, lo, base, start, k);
    assert !x.isXidContinue('\0');
    assert k < |s| ==> s[k..][0] == s[k];
  }

  /**
   * A literal is an error exactly when the first character after its digits continues an identifier;
   * the error names that character and the base.
   */
  lemma NumberInvalidDigit(s: seq<char>, x: Xid)
    requires x.WellFormed() && s != [] && IsAsciiDigit(s[0])
    ensures var (lo, base) := Radix(s);
            var start := if lo == 0 then 1 else 2;
            var k := start + RunLen(s[start..], DigitOrSeparator(base));
            (LexNumber(s, x).token.value.Err? <==> k < |s| && x.isXidContinue(s[k]))
            && (LexNumber(s, x).token.value.Err? ==> LexNumber(s, x).token.value.error == InvalidDigit(s[k], base))
  {
    var (lo, base) := Radix(s);
    var start := if lo == 0 then 1 else 2;
    var k := start + RunLen(s[start..], DigitOrSeparator(base));
    LexNumberAt(s, x, lo, base, start, k);
    assert !x.isXidContinue('\0');
    assert k < |s| ==> s[k..][0] == s[k];
  }

  function Pow(b: int, n: nat): int
  {
    if n == 0 then 1 else b * Pow(b, n - 1)
  }

  /** The digits of `ds`, separators not counted. */
  function DigitCount(ds: seq<char>): nat
  {
    if ds == [] then 0 else (if ds[0] == '_' then 0 else 1) + DigitCount(ds[1..])
  }

  predicate AllDigits(ds: seq<char>, base: nat)
  {
    forall i :: 0 <= i < |ds| ==> IsDigitOrSeparator(ds[i], base)
  }

  /** What `to_digit(base)` makes of `d`, or 0 for a separator. */
  function DigitValue(d: char, base: nat): nat
  {
    match ToDigit(d, base)
    case Some(v) => v
    case None => 0
  }

  /**
   * The value of the digits `ds` in positional notation, read from the most significant digit: each
   * digit is worth its `to_digit` value times the base raised to the number of digits after it, and
   * separators are worth nothing.
   */
  function Positional(base: nat, ds: seq<char>): int
  {
    if ds == [] then 0
    else if ds[0] == '_' then Positional(base, ds[1..])
    else DigitValue(ds[0], base) * Pow(base, DigitCount(ds[1..])) + Positional(base, ds[1..])
  }

  /** In the bases `number` uses, the fold's byte arithmetic gives each digit its `to_digit` value. */
  lemma DigitByteIsDigitValue(d: char, base: nat)
    requires base <= 16 && d != '_' && IsDigitOrSeparator(d, base)
    ensures DigitByte(d) == DigitValue(d, base)
  {
  }

  lemma {:induction false} DigitCountSnoc(ds: seq<char>, d: char)
    ensures DigitCount(ds + [d]) == DigitCount(ds) + (if d == '_' then 0 else 1)
  {
    if ds != [] {
      assert (ds + [d])[1..] == ds[1..] + [d];
      DigitCountSnoc(ds[1..], d);
    } else {
      assert (ds + [d])[1..] == [];
    }
  }

  /** Appending a digit multiplies the value by the base and adds the digit; a separator changes nothing. */
  lemma {:induction false} PositionalSnoc(base: nat, ds: seq<char>, d: char)
    ensures Positional(base, ds + [d])
            == if d == '_' then Positional(base, ds) else Positional(base, ds) * base + DigitValue(d, base)
  {
    var t := ds + [d];
    if ds == [] {
      assert t == [d] && t[1..] == [];
    } else {
      assert t[0] == ds[0] && t[1..] == ds[1..] + [d];
      PositionalSnoc(base, ds[1..], d);
      DigitCountSnoc(ds[1..], d);
      if ds[0] != '_' && d != '_' {
        var v, c, p := DigitValue(ds[0], base), DigitCount(ds[1..]), Positional(base, ds[1..]);
        assert Positional(base, t) == v * Pow(base, c + 1) + (p * base + DigitValue(d, base));
        assert Pow(base, c + 1) == base * Pow(base, c);
        ShiftDigit(v, Pow(base, c), p, base);
      }
    }
  }

  /** The arithmetic of one more digit: `v·(b·w) + p·b == (v·w + p)·b`. */
  lemma ShiftDigit(v: int, w: int, p: int, b: int)
    ensures v * (b * w) + p * b == (v * w + p) * b
  {
    calc {
      v * (b * w) + p * b;
      (v * w) * b + p * b;
      (v * w + p) * b;
    }
  }

  /**
   * The fold of `number` from `seed` over the digits `ds` is the positional value of `ds` plus `seed`
   * shifted left by one place per digit.
   */
  lemma {:induction false} FoldIsPositional(seed: int, base: nat, ds: seq<char>)
    requires base <= 16 && AllDigits(ds, base)
    ensures Fold(seed, base, ds) == seed * Pow(base, DigitCount(ds)) + Positional(base, ds)
  {
    if ds != [] {
      var init, d := ds[..|ds| - 1], ds[|ds| - 1];
      assert ds == init + [d];
      assert AllDigits(init, base) by {
        forall i | 0 <= i < |init| ensures IsDigitOrSeparator(init[i], base) {
          assert init[i] == ds[i];
        }
      }
      PositionalSnoc(base, init, d);
      DigitCountSnoc(init, d);
      FoldIsPositional(seed, base, init);
      if d != '_' {
        DigitByteIsDigitValue(d, base);
        var c, p := DigitCount(init), Positional(base, init);
        assert Fold(seed, base, ds) == (seed * Pow(base, c) + p) * base + DigitValue(d, base);
        assert Pow(base, c + 1) == base * Pow(base, c);
        ShiftDigit(seed, Pow(base, c), p, base);
      }
    }
  }

  /** The digits the loop of `number` accepted are digits of the base or separators. */
  lemma DigitsAccepted(s: seq<char>, lo: nat, base: nat, start: nat, k: nat)
    requires lo <= start <= |s| && k == start + RunLen(s[start..], DigitOrSeparator(base))
    requires forall i :: lo <= i < start ==> IsDigitOrSeparator(s[i], base)
    ensures AllDigits(s[lo..k], base)
  {
    RunLenAll(s[start..], DigitOrSeparator(base));
    forall i | 0 <= i < k - lo ensures IsDigitOrSeparator(s[lo..k][i], base) {
      if lo + i >= start {
        assert s[lo..k][i] == s[start..][lo + i - start];
      }
    }
  }

  /** A prefixed literal that is valid has the positional value of the digits after its prefix. */
  lemma PrefixedValue(s: seq<char>, x: Xid)
    requires s != [] && IsAsciiDigit(s[0]) && Radix(s).0 == 2 && LexNumber(s, x).token.value.Ok?
    ensures LexNumber(s, x).token.value.value == Positional(Radix(s).1, s[2..LexNumber(s, x).used])
  {
    var (lo, base) := Radix(s);
    var k := 2 + RunLen(s[2..], DigitOrSeparator(base));
    LexNumberAt(s, x, lo, base, 2, k);
    DigitsAccepted(s, 2, base, 2, k);
    FoldIsPositional(0, base, s[2..k]);
  }

  /**
   * A valid decimal literal is seeded with its first digit and then folds all its digits, that one
   * included: its value is the positional value of its text plus the first digit shifted past all of them.
   */
  lemma DecimalValue(s: seq<char>, x: Xid)
    requires s != [] && IsAsciiDigit(s[0]) && Radix(s).0 == 0 && LexNumber(s, x).token.value.Ok?
    ensures var digits := s[..LexNumber(s, x).used];
            LexNumber(s, x).token.value.value
            == Positional(10, digits) + DigitValue(s[0], 10) * Pow(10, DigitCount(digits))
  {
    var k := 1 + RunLen(s[1..], DigitOrSeparator(10));
    LexNumberAt(s, x, 0, 10, 1, k);
    DigitsAccepted(s, 0, 10, 1, k);
    assert s[0..k] == s[..k];
    FoldIsPositional(DigitValue(s[0], 10), 10, s[..k]);
  }

  /** So the literal `5` has the value 55. */
  lemma DecimalFiveIsFiftyFive(x: Xid)
    requires x.WellFormed()
    ensures Lex("5", x) == Scanned(IntLiteral(Ok(55)), 1)
  {
    assert !x.isXidStart('5') && !x.isXidContinue('\0');
    var s := "5";
    assert s[1..] == [];
    LexNumberAt(s, x, 0, 10, 1, 1);
  }

  /** A prefix with no digits after it is the value 0. */
  lemma BarePrefix(s: seq<char>, x: Xid)
    requires x.WellFormed() && |s| >= 2 && s[0] == '0' && s[1] in {'b', 'o', 'x'}
    requires |s| == 2 || !x.isXidContinue(s[2])
    ensures Lex(s, x) == Scanned(IntLiteral(Ok(0)), 2)
  {
    assert !x.isXidStart('0') && !x.isXidContinue('\0');
    var base := Radix(s).1;
    DigitsContinueIdentifiers(x, base);
    assert RunLen(s[2..], DigitOrSeparator(base)) == 0;
    LexNumberAt(s, x, 2, base, 2, 2);
  }

  /** `number` never reports `Empty` or `Overflow`: its only error is an invalid digit. */
  lemma OnlyInvalidDigitErrors(s: seq<char>, x: Xid)
    requires Lex(s, x).Scanned? && Lex(s, x).token.IntLiteral? && Lex(s, x).token.value.Err?
    ensures Lex(s, x).token.value.error.InvalidDigit?
  {
  }

  // ---------------------------------------------------------------------------------------------
  // String literals

  /** Every quote before the closing one is the second character of an escape `\"`. */
  lemma {:induction false} CloseQuoteSkipsEscaped(s: seq<char>, i: nat)
    requires i <= |s| && CloseQuote(s, i).Some?
    decreases |s| - i
    ensures forall k :: i <= k < CloseQuote(s, i).value && s[k] == '"' ==> i < k && s[k - 1] == '\\'
  {
    if s[i] != '"' {
      if s[i] == '\\' && (First(s[i + 1..]) == '\\' || First(s[i + 1..]) == '"') {
        CloseQuoteSkipsEscaped(s, i + 2);
        assert s[i + 1] == First(s[i + 1..]);
      } else {
        CloseQuoteSkipsEscaped(s, i + 1);
      }
    }
  }

  /** Text without a quote has no closing quote. */
  lemma {:induction false} NoQuoteNoClose(s: seq<char>, i: nat)
    requires i <= |s| && forall k :: i <= k < |s| ==> s[k] != '"'
    decreases |s| - i
    ensures CloseQuote(s, i) == None
  {
    if i < |s| {
      if s[i] == '\\' && (First(s[i + 1..]) == '\\' || First(s[i + 1..]) == '"') {
        NoQuoteNoClose(s, i + 2);
      } else {
        NoQuoteNoClose(s, i + 1);
      }
    }
  }

  /** The number of backslashes immediately before index `j` of `s`. */
  function BackslashesBefore(s: seq<char>, j: nat): nat
    requires j <= |s|
  {
    if j == 0 || s[j - 1] != '\\' then 0 else 1 + BackslashesBefore(s, j - 1)
  }

  /**
   * A quote that ends a literal: one preceded by an even number of backslashes, which all pair up as
   * escaped backslashes `\\`.  After an odd run the last backslash escapes the quote itself.
   */
  predicate UnescapedQuote(s: seq<char>, j: nat)
  {
    j < |s| && s[j] == '"' && BackslashesBefore(s, j) % 2 == 0
  }

  /** `j` is the first unescaped quote of `s`. */
  predicate FirstUnescapedQuote(s: seq<char>, j: nat)
  {
    UnescapedQuote(s, j) && forall k :: 0 <= k < j ==> !UnescapedQuote(s, k)
  }

  /**
   * Where the scan for the closing quote may stand at `i`: the backslashes before `i` have all been
   * consumed in pairs, or `i` holds a character that neither escapes nor closes (the scan stepped over
   * a lone backslash).
   */
  predicate ScanPoint(s: seq<char>, i: nat)
    requires i <= |s|
  {
    i == |s| || BackslashesBefore(s, i) % 2 == 0 || (s[i] != '\\' && s[i] != '"')
  }

  /** From a scan point, the scan finds the first unescaped quote at or after it, or reports none. */
  lemma {:induction false} CloseQuoteFromScanPoint(s: seq<char>, i: nat)
    requires i <= |s| && ScanPoint(s, i)
    decreases |s| - i
    ensures CloseQuote(s, i) == None ==> forall k :: i <= k < |s| ==> !UnescapedQuote(s, k)
    ensures CloseQuote(s, i).Some? ==>
              var j := CloseQuote(s, i).value;
              i <= j && UnescapedQuote(s, j) && forall k :: i <= k < j ==> !UnescapedQuote(s, k)
  {
    if i < |s| && s[i] != '"' {
      if s[i] == '\\' && (First(s[i + 1..]) == '\\' || First(s[i + 1..]) == '"') {
        assert s[i + 1] == First(s[i + 1..]);
        assert BackslashesBefore(s, i + 1) == 1 + BackslashesBefore(s, i);
        CloseQuoteFromScanPoint(s, i + 2);
      } else {
        CloseQuoteFromScanPoint(s, i + 1);
      }
    }
  }

  /**
   * The scan for the closing quote is exactly a search for the first unescaped quote: it finds `j`
   * if and only if `j` is the first quote preceded by an even run of backslashes, and finds nothing if
   * and only if there is no such quote.
   */
  lemma CloseQuoteIsFirstUnescaped(s: seq<char>)
    ensures CloseQuote(s, 0) == None <==> forall k :: 0 <= k < |s| ==> !UnescapedQuote(s, k)
    ensures forall j: nat :: CloseQuote(s, 0) == Some(j) <==> FirstUnescapedQuote(s, j)
  {
    CloseQuoteFromScanPoint(s, 0);
    forall j: nat | FirstUnescapedQuote(s, j) ensures CloseQuote(s, 0) == Some(j) {
      var r := CloseQuote(s, 0).value;
      assert UnescapedQuote(s, j);
      assert !(r < j) && !(j < r);
    }
  }

  /** An escaped quote does not close a literal: after `\"` the scan goes on in the rest of the text. */
  lemma EscapedQuoteSkipped(t: seq<char>)
    ensures CloseQuote(['\\', '"'] + t, 0) == Shift(CloseQuote(t, 0), 2)
  {
    var s := ['\\', '"'] + t;
    assert First(s[1..]) == '"';
    CloseQuoteShifted(['\\', '"'], t, 0);
  }

  /** An escaped backslash does not escape the quote after it: `\\"` closes at its quote. */
  lemma EscapedBackslashThenQuote(t: seq<char>)
    ensures CloseQuote(['\\', '\\', '"'] + t, 0) == Some(2)
  {
    var s := ['\\', '\\', '"'] + t;
    assert First(s[1..]) == '\\';
    assert CloseQuote(s, 2) == Some(2);
  }

  /** `o` with its index moved `d` places on. */
  function Shift(o: Option<nat>, d: nat): (r: Option<nat>)
    ensures r.Some? <==> o.Some?
  {
    if o.Some? then Some(o.value + d) else None
  }

  /** Scanning text behind a prefix finds what scanning the text alone finds, moved past the prefix. */
  lemma {:induction false} CloseQuoteShifted(p: seq<char>, t: seq<char>, i: nat)
    requires i <= |t|
    decreases |t| - i
    ensures CloseQuote(p + t, |p| + i) == Shift(CloseQuote(t, i), |p|)
  {
    var s := p + t;
    if i < |t| {
      assert s[|p| + i] == t[i];
      assert s[|p| + i + 1..] == t[i + 1..];
      if t[i] == '"' {
      } else if t[i] == '\\' && (First(t[i + 1..]) == '\\' || First(t[i + 1..]) == '"') {
        CloseQuoteShifted(p, t, i + 2);
      } else {
        CloseQuoteShifted(p, t, i + 1);
      }
    }
  }

  /**
   * A closed literal's text is exactly what lies between its quotes, escapes kept as written; its
   * closing quote is the first quote after the opening one that is not escaped.
   */
  lemma LexClosedString(s: seq<char>, x: Xid, j: nat)
    requires x.WellFormed() && s != [] && s[0] == '"' && CloseQuote(s[1..], 0) == Some(j)
    ensures j + 2 <= |s| && s[j + 1] == '"'
    ensures Lex(s, x) == Scanned(StringLiteral(s[1..j + 1]), j + 2)
    ensures FirstUnescapedQuote(s[1..], j)
  {
    assert !x.isXidStart('"');
    CloseQuoteIsFirstUnescaped(s[1..]);
    assert s[1..][..j] == s[1..j + 1];
    assert s[j + 1] == s[1..][j];
  }

  /**
   * An unclosed literal is re-read from just after its quote up to the first newline.  Its text is the
   * characters up to and including that newline, and the next token starts at the newline; with no
   * newline before the end, the slice runs one byte past the end of the text and panics.
   */
  lemma LexUnclosedString(s: seq<char>, x: Xid)
    requires x.WellFormed() && s != [] && s[0] == '"' && CloseQuote(s[1..], 0) == None
    ensures var m := RunLen(s[1..], NotNewline);
            && (forall i :: 1 <= i < m + 1 ==> s[i] != '\n')
            && (m + 1 < |s| ==> s[m + 1] == '\n' && Lex(s, x) == Scanned(StringLiteral(s[1..m + 2]), m + 1))
            && (m + 1 == |s| ==> Lex(s, x) == OutOfBounds)
  {
    assert !x.isXidStart('"');
    var m := RunLen(s[1..], NotNewline);
    RunLenAll(s[1..], NotNewline);
    forall i | 1 <= i < m + 1 ensures s[i] != '\n' {
      assert s[i] == s[1..][i - 1];
    }
    if m + 1 < |s| {
      assert s[m + 1] == s[1..][m];
      assert s[1..][..m + 1] == s[1..m + 2];
    }
  }

  /** A literal with no further quote in its text is unclosed, however it uses backslashes. */
  lemma LexUnterminatedAtEnd(s: seq<char>, x: Xid)
    requires x.WellFormed() && s != [] && s[0] == '"'
    requires forall i :: 1 <= i < |s| ==> s[i] != '"' && s[i] != '\n'
    ensures Lex(s, x) == OutOfBounds
  {
    NoQuoteNoClose(s[1..], 0);
    LexUnclosedString(s, x);
    RunLenAfterPrefix(s[1..], NotNewline, |s| - 1);
  }

  // ---------------------------------------------------------------------------------------------
  // Successive tokens

  /** The tokens of successive `next_token` calls on `s`, whitespace included, and whether they end in a panic. */
  function Raw(s: seq<char>, x: Xid): Stream<Token>
    decreases |s|
  {
    match Lex(s, x)
    case AtEof => Stream([], false)
    case OutOfBounds => Stream([], true)
    case Scanned(t, n) => Cons(t, Raw(s[n..], x))
  }

  /** The text each of those calls consumed: each `token_length` is its byte length. */
  function Pieces(s: seq<char>, x: Xid): seq<seq<char>>
    decreases |s|
  {
    match Lex(s, x)
    case Scanned(_, n) => [s[..n]] + Pieces(s[n..], x)
    case _ => []
  }

  function Concat(ps: seq<seq<char>>): seq<char>
  {
    if ps == [] then [] else ps[0] + Concat(ps[1..])
  }

  function SumBytes(ps: seq<seq<char>>): nat
  {
    if ps == [] then 0 else ByteLen(ps[0]) + SumBytes(ps[1..])
  }

  /**
   * Unless lexing panics, the texts of the tokens follow each other with nothing left out and make up the
   * whole input; so the token lengths, in bytes, add up to the input's length.
   */
  lemma {:induction false} PiecesCoverInput(s: seq<char>, x: Xid)
    requires !Raw(s, x).panicked
    ensures |Pieces(s, x)| == |Raw(s, x).items|
    ensures Concat(Pieces(s, x)) == s
    ensures SumBytes(Pieces(s, x)) == ByteLen(s)
    decreases |s|
  {
    match Lex(s, x)
    case AtEof =>
    case Scanned(t, n) =>
      var ps := Pieces(s, x);
      PiecesCoverInput(s[n..], x);
      assert ps[1..] == Pieces(s[n..], x);
      assert s == s[..n] + s[n..];
      ByteLenAppend(s[..n], s[n..]);
  }

  /**
   * The items of `tokenize` from raw tokens: whitespace is dropped and the token after it flagged as
   * preceded by whitespace; whitespace with nothing after it ends the stream.
   */
  function Attach(ts: seq<Token>): seq<(Token, bool)>
  {
    if ts == [] then []
    else if ts[0].Whitespace? then (if |ts| == 1 then [] else [(ts[1], true)] + Attach(ts[2..]))
    else [(ts[0], false)] + Attach(ts[1..])
  }

  /** `tokenize` is the raw token stream with whitespace attached to the token after it. */
  lemma {:induction false} TokenStreamAttaches(s: seq<char>, x: Xid)
    ensures TokenStream(s, x) == Stream(Attach(Raw(s, x).items), Raw(s, x).panicked)
    decreases |s|
  {
    match NextItem(s, x)
    case Stop(_) =>
      RawAtStop(s, x);
    case Yield(_, rest) =>
      TokenStreamAttaches(rest, x);
      RawAtYield(s, x);
  }

  /** Where the closure of `tokenize` stops, the raw tokens left contribute no item. */
  lemma RawAtStop(s: seq<char>, x: Xid)
    requires NextItem(s, x).Stop?
    ensures Attach(Raw(s, x).items) == [] && Raw(s, x).panicked == NextItem(s, x).panicked
  {
    match Lex(s, x)
    case AtEof =>
    case OutOfBounds =>
    case Scanned(t, n) =>
      assert Raw(s[n..], x).items == [];
  }

  /** Where the closure of `tokenize` yields an item, it is the first item attached from the raw tokens. */
  lemma RawAtYield(s: seq<char>, x: Xid)
    requires NextItem(s, x).Yield?
    ensures var rest := NextItem(s, x).rest;
            Attach(Raw(s, x).items) == [NextItem(s, x).item] + Attach(Raw(rest, x).items)
            && Raw(s, x).panicked == Raw(rest, x).panicked
  {
    var n := Lex(s, x).used;
    if Lex(s, x).token.Whitespace? {
      var n2 := Lex(s[n..], x).used;
      var ts := Raw(s[n..][n2..], x).items;
      assert Raw(s, x).items == [Whitespace, Lex(s[n..], x).token] + ts;
      assert ([Whitespace, Lex(s[n..], x).token] + ts)[2..] == ts;
    } else {
      var ts := Raw(s[n..], x).items;
      assert ([Lex(s, x).token] + ts)[1..] == ts;
    }
  }

  /** A whitespace token takes the whole run, so the token after it is not whitespace. */
  lemma WhitespaceMaximal(s: seq<char>, x: Xid)
    requires Lex(s, x).Scanned? && Lex(s, x).token.Whitespace?
    ensures !(Lex(s[Lex(s, x).used..], x).Scanned? && Lex(s[Lex(s, x).used..], x).token.Whitespace?)
  {
    var n := Lex(s, x).used;
    if n < |s| {
      assert s[n..][0] == s[1..][n - 1];
    }
  }

  /** `tokenize` never yields whitespace. */
  lemma {:induction false} NoWhitespaceInStream(s: seq<char>, x: Xid)
    ensures forall i :: 0 <= i < |TokenStream(s, x).items| ==> !TokenStream(s, x).items[i].0.Whitespace?
    decreases |s|
  {
    match NextItem(s, x)
    case Stop(_) =>
    case Yield(item, rest) =>
      NoWhitespaceInStream(rest, x);
      YieldNotWhitespace(s, x);
      var tail := TokenStream(rest, x).items;
      assert TokenStream(s, x).items == [item] + tail;
      forall i | 0 <= i < 1 + |tail| ensures !([item] + tail)[i].0.Whitespace? {
        if i > 0 {
          assert ([item] + tail)[i] == tail[i - 1];
        }
      }
  }

  /** One step of `tokenize` yields no whitespace: the token after a whitespace run is not whitespace. */
  lemma YieldNotWhitespace(s: seq<char>, x: Xid)
    requires NextItem(s, x).Yield?
    ensures !NextItem(s, x).item.0.Whitespace?
  {
    if Lex(s, x).token.Whitespace? {
      WhitespaceMaximal(s, x);
    }
  }

  /** Trailing whitespace ends the stream: text that is all whitespace yields nothing. */
  lemma OnlyWhitespace(s: seq<char>, x: Xid)
    requires s != [] && forall i :: 0 <= i < |s| ==> IsWhitespace(s[i])
    ensures TokenStream(s, x) == Stream([], false)
  {
    assert forall i :: 0 <= i < |s| - 1 ==> IsWhitespace(s[1..][i]) by {
      forall i | 0 <= i < |s| - 1 ensures IsWhitespace(s[1..][i]) {
        assert s[1..][i] == s[i + 1];
      }
    }
    RunLenAfterPrefix(s[1..], IsWhitespace, |s| - 1);
    assert s[|s|..] == [];
  }
}
