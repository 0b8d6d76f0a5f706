/**
 * The byte view of Rust's `str`: text is a sequence of Unicode scalar values, each encoded in UTF-8
 * with one to four bytes.  `str::len`, and every index used to slice a `str`, count bytes; slicing at an
 * index past the end or inside a character panics.
 */
module Utf8 {
  import opened Options

  /** Bytes UTF-8 needs for `c` (`char::len_utf8`). */
  function Width(c: char): (w: nat)
    ensures 1 <= w <= 4
    ensures w == 1 <==> c as int < 0x80
  {
    if c as int < 0x80 then 1
    else if c as int < 0x800 then 2
    else if c as int < 0x1_0000 then 3
    else 4
  }

  /** Length in bytes of the UTF-8 encoding of `s` (`str::len`). */
  function ByteLen(s: seq<char>): nat
  {
    if s == [] then 0 else Width(s[0]) + ByteLen(s[1..])
  }

  lemma {:induction false} ByteLenAppend(a: seq<char>, b: seq<char>)
    ensures ByteLen(a + b) == ByteLen(a) + ByteLen(b)
  {
    if a != [] {
      assert (a + b)[1..] == a[1..] + b;
      ByteLenAppend(a[1..], b);
    } else {
      assert a + b == b;
    }
  }

  /** Text that is not empty takes at least one byte per character. */
  lemma {:induction false} ByteLenAtLeastLength(s: seq<char>)
    ensures |s| <= ByteLen(s)
    ensures ByteLen(s) == |s| <==> forall i :: 0 <= i < |s| ==> s[i] as int < 0x80
  {
    if s != [] {
      ByteLenAtLeastLength(s[1..]);
      if ByteLen(s) == |s| {
        forall i | 0 <= i < |s| ensures s[i] as int < 0x80 {
          if i > 0 { assert s[i] == s[1..][i - 1]; }
        }
      }
      if forall i :: 0 <= i < |s| ==> s[i] as int < 0x80 {
        forall i | 0 <= i < |s| - 1 ensures s[1..][i] as int < 0x80 {
          assert s[1..][i] == s[i + 1];
        }
      }
    }
  }

  /** Longer prefixes take strictly more bytes. */
  lemma PrefixByteLenGrows(s: seq<char>, i: nat, j: nat)
    requires i < j <= |s|
    ensures ByteLen(s[..i]) < ByteLen(s[..j])
  {
    assert s[..j] == s[..i] + s[i..j];
    ByteLenAppend(s[..i], s[i..j]);
    ByteLenAtLeastLength(s[i..j]);
  }

  /** Character positions are ordered as their byte offsets are. */
  lemma BoundariesInOrder(s: seq<char>, i: nat, j: nat)
    requires i <= |s| && j <= |s| && ByteLen(s[..i]) <= ByteLen(s[..j])
    ensures i <= j
  {
    if j < i { PrefixByteLenGrows(s, j, i); }
  }

  /**
   * The number of characters of `s` whose encoding is exactly the first `b` bytes of `s`, or None when
   * byte `b` is past the end of `s` or inside a character (where Rust's slicing panics).
   */
  function CharsBefore(s: seq<char>, b: nat): (r: Option<nat>)
    ensures r.Some? ==> r.value <= |s| && ByteLen(s[..r.value]) == b
  {
    if b == 0 then Some(0)
    else if s == [] || b < Width(s[0]) then None
    else
      match CharsBefore(s[1..], b - Width(s[0]))
      case None => None
      case Some(k) =>
        assert s[..k + 1][1..] == s[1..][..k];
        Some(k + 1)
  }

  /** Every character boundary is found: the bytes of the first `k` characters end at character `k`. */
  lemma {:induction false} CharsBeforeBoundary(s: seq<char>, k: nat)
    requires k <= |s|
    ensures CharsBefore(s, ByteLen(s[..k])) == Some(k)
  {
    if k > 0 {
      assert s[..k][1..] == s[1..][..k - 1];
      CharsBeforeBoundary(s[1..], k - 1);
    }
  }

  /** A byte index past the end of the text is not a boundary. */
  lemma {:induction false} CharsBeforePastEnd(s: seq<char>, b: nat)
    requires b > ByteLen(s)
    ensures CharsBefore(s, b) == None
  {
    if s != [] && b >= Width(s[0]) {
      CharsBeforePastEnd(s[1..], b - Width(s[0]));
    }
  }

  /** Rust's `&s[lo..hi]` with byte indices: None where Rust panics. */
  function ByteSlice(s: seq<char>, lo: nat, hi: nat): (r: Option<seq<char>>)
    ensures r.Some? <==> lo <= hi && CharsBefore(s, lo).Some? && CharsBefore(s, hi).Some?
  {
    if lo <= hi && CharsBefore(s, lo).Some? && CharsBefore(s, hi).Some? then
      var i, j := CharsBefore(s, lo).value, CharsBefore(s, hi).value;
      BoundariesInOrder(s, i, j);
      Some(s[i..j])
    else None
  }

  /** Slicing at the byte offsets of two character positions yields the characters between them. */
  lemma ByteSliceChars(s: seq<char>, i: nat, j: nat)
    requires i <= j <= |s|
    ensures ByteSlice(s, ByteLen(s[..i]), ByteLen(s[..j])) == Some(s[i..j])
  {
    CharsBeforeBoundary(s, i);
    CharsBeforeBoundary(s, j);
    if i < j { PrefixByteLenGrows(s, i, j); }
  }

  /** Slicing past the end of the text panics. */
  lemma ByteSlicePastEnd(s: seq<char>, lo: nat, hi: nat)
    requires hi > ByteLen(s)
    ensures ByteSlice(s, lo, hi) == None
  {
    CharsBeforePastEnd(s, hi);
  }
}
