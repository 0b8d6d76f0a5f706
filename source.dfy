/**
 * The source map: loaded files laid out one after another in a single 32-bit address space, with a
 * one-byte gap after each file, and the lookups that turn a global position back into a file, a
 * slice of its text, or a line and column.
 */
module Source {
  import opened Options
  import opened Partition

  const U32_LIMIT: int := 0x1_0000_0000

  type U32 = x: int | 0 <= x < 0x1_0000_0000

  type Byte = b: int | 0 <= b < 0x100

  const NEWLINE: Byte := 0x0A

  /** `n as u32`: the low 32 bits of `n`. */
  function AsU32(n: nat): (r: U32)
    ensures n < U32_LIMIT ==> r == n
  {
    n % U32_LIMIT
  }

  /** `str::is_char_boundary` on the UTF-8 bytes of a string. */
  predicate IsCharBoundary(src: seq<Byte>, i: nat)
    ensures IsCharBoundary(src, i) ==> i <= |src|
    ensures 0 < i < |src| && 0x80 <= src[i] < 0xC0 ==> !IsCharBoundary(src, i)
  {
    i == 0 || i == |src| || (i < |src| && (src[i] < 0x80 || 0xC0 <= src[i]))
  }

  // ---------------------------------------------------------------------------------------------
  // Source files

  /** A loaded file: its path, the UTF-8 bytes of its text, its global start, and its newline offsets. */
  datatype SourceFile = SourceFile(path: seq<char>, src: seq<Byte>, startPos: U32, lines: seq<U32>)

  /** The line table of `SourceFile::new`: the offset of every newline byte of `src`, in order, as u32. */
  function NewlineOffsets(src: seq<Byte>): (r: seq<U32>)
    ensures |r| <= |src|
  {
    if src == [] then []
    else NewlineOffsets(src[..|src| - 1]) + (if src[|src| - 1] == NEWLINE then [AsU32(|src| - 1)] else [])
  }

  /** `SourceFile::new`, once the file's text was read. */
  function NewSourceFile(path: seq<char>, src: seq<Byte>, startPos: U32): (f: SourceFile)
    ensures f.path == path && f.src == src && f.startPos == startPos
    ensures |src| <= U32_LIMIT ==> Increasing(f.lines) && NewlinesAt(src, f.lines)
  {
    var f := SourceFile(path, src, startPos, NewlineOffsets(src));
    if |src| <= U32_LIMIT then LinesAreNewlines(src); f else f
  }

  ghost predicate Increasing(s: seq<int>)
  {
    forall i, j :: 0 <= i < j < |s| ==> s[i] < s[j]
  }

  /** `lines` holds exactly the offsets of the newline bytes of `src`. */
  ghost predicate NewlinesAt(src: seq<Byte>, lines: seq<U32>)
  {
    (forall k :: 0 <= k < |lines| ==> lines[k] < |src| && src[lines[k]] == NEWLINE)
    && (forall i :: 0 <= i < |src| && src[i] == NEWLINE ==> i in lines)
  }

  /** While offsets fit in 32 bits, the line table is increasing and lists exactly the newline bytes. */
  lemma LinesAreNewlines(src: seq<Byte>)
    requires |src| <= U32_LIMIT
    ensures Increasing(NewlineOffsets(src)) && NewlinesAt(src, NewlineOffsets(src))
  {
    LinesIncreasing(src);
    LinesComplete(src);
  }

  /** Each entry of the line table is the offset of a newline, and the entries increase. */
  lemma {:induction false} LinesIncreasing(src: seq<Byte>)
    requires |src| <= U32_LIMIT
    ensures var r := NewlineOffsets(src);
            Increasing(r) && forall k :: 0 <= k < |r| ==> r[k] < |src| && src[r[k]] == NEWLINE
    decreases |src|
  {
    if src != [] {
      var front := src[..|src| - 1];
      LinesIncreasing(front);
      var r0 := NewlineOffsets(front);
      var r := NewlineOffsets(src);
      assert r == r0 + (if src[|src| - 1] == NEWLINE then [AsU32(|src| - 1)] else []);
      forall k | 0 <= k < |r0|
        ensures r[k] == r0[k] && r0[k] < |src| - 1 && src[r0[k]] == NEWLINE
      {
        assert src[r0[k]] == front[r0[k]];
      }
      forall i, j | 0 <= i < j < |r| ensures r[i] < r[j] {
        if j == |r0| {
          assert r[j] == |src| - 1;
        }
      }
    }
  }

  /** Every newline of `src` is in the line table. */
  lemma {:induction false} LinesComplete(src: seq<Byte>)
    requires |src| <= U32_LIMIT
    ensures forall i :: 0 <= i < |src| && src[i] == NEWLINE ==> i in NewlineOffsets(src)
    decreases |src|
  {
    if src != [] {
      var front := src[..|src| - 1];
      LinesComplete(front);
      forall i | 0 <= i < |src| - 1 && src[i] == NEWLINE ensures i in NewlineOffsets(src) {
        assert front[i] == src[i];
      }
    }
  }

  /** `x => x < off`, the predicate `line_number` searches with. */
  function Below(off: int): U32 -> bool
  {
    x => x < off
  }

  /** `line_number`: one more than the number of newlines before `off`. */
  function LineNumber(f: SourceFile, off: U32): (n: nat)
    ensures 1 <= n <= |f.lines| + 1
  {
    PartitionPoint(f.lines, Below(off)) + 1
  }

  /** How many of `lines` lie before `off`. */
  function CountBelow(lines: seq<U32>, off: int): (n: nat)
    ensures n <= |lines|
  {
    if lines == [] then 0 else (if lines[0] < off then 1 else 0) + CountBelow(lines[1..], off)
  }

  /** An increasing sequence splits at `off` after the elements below it. */
  lemma {:induction false} IncreasingSplits(lines: seq<U32>, off: int)
    requires Increasing(lines)
    ensures SplitsAt(lines, Below(off), CountBelow(lines, off))
    decreases |lines|
  {
    if lines != [] {
      IncreasingSplits(lines[1..], off);
      var k := CountBelow(lines[1..], off);
      if lines[0] < off {
        forall i | 0 <= i < k + 1 ensures Below(off)(lines[i]) {
          if i > 0 {
            assert lines[i] == lines[1..][i - 1];
          }
        }
        forall i | k + 1 <= i < |lines| ensures !Below(off)(lines[i]) {
          assert lines[i] == lines[1..][i - 1];
        }
      } else {
        forall i | 0 <= i < |lines| ensures !Below(off)(lines[i]) {
          if i > 0 {
            assert lines[i] > lines[0];
          }
        }
        assert |lines| > 1 ==> lines[1..][0] == lines[1];
        assert k == 0;
      }
    }
  }

  /** With an increasing line table, `line_number` counts the newlines strictly before `off`, plus one. */
  lemma LineNumberCounts(f: SourceFile, off: U32)
    requires Increasing(f.lines)
    ensures LineNumber(f, off) == 1 + CountBelow(f.lines, off)
    ensures LineNumber(f, off) >= 2 ==> f.lines[LineNumber(f, off) - 2] < off
    ensures LineNumber(f, off) <= |f.lines| ==> off <= f.lines[LineNumber(f, off) - 1]
  {
    IncreasingSplits(f.lines, off);
    PartitionPointIsSplit(f.lines, Below(off), CountBelow(f.lines, off));
  }

  /** `line_number` never decreases as the offset grows. */
  lemma LineNumberMonotone(f: SourceFile, a: U32, b: U32)
    requires Increasing(f.lines) && a <= b
    ensures LineNumber(f, a) <= LineNumber(f, b)
  {
    LineNumberCounts(f, a);
    LineNumberCounts(f, b);
  }

  /** `end_position`, when `start_pos + len` does not overflow. */
  function EndPosition(f: SourceFile): (r: U32)
    requires f.startPos + |f.src| < U32_LIMIT
    ensures r == f.startPos + |f.src|
  {
    f.startPos + AsU32(|f.src|)
  }

  datatype LoadError = Io | OffsetOverflowError

  // ---------------------------------------------------------------------------------------------
  // Spans

  /** A range of `len` bytes at global position `lo`. */
  datatype Span = Span(lo: U32, len: U32)

  datatype Ordering = Less | Equal | Greater

  /** The derived `Ord` of `Span`: by `lo`, then by `len`. */
  function Cmp(a: Span, b: Span): (r: Ordering)
    ensures r == Equal <==> a == b
  {
    if a.lo < b.lo then Less
    else if a.lo > b.lo then Greater
    else if a.len < b.len then Less
    else if a.len > b.len then Greater
    else Equal
  }

  /** `Cmp` is a total order that agrees with equality. */
  lemma CmpIsTotalOrder(a: Span, b: Span, c: Span)
    ensures Cmp(a, b) == Equal <==> a == b
    ensures Cmp(a, b) == Less <==> Cmp(b, a) == Greater
    ensures Cmp(a, b) == Less && Cmp(b, c) == Less ==> Cmp(a, c) == Less
    ensures Cmp(a, b) == Less <==> a.lo < b.lo || (a.lo == b.lo && a.len < b.len)
  {
  }

  // ---------------------------------------------------------------------------------------------
  // The map

  /**
   * The layout `load_file` builds: each file's line table is its newline offsets, the first file
   * starts at 0, and each later one starts one byte past the end of the one before.
   */
  ghost predicate Laid(files: seq<SourceFile>)
  {
    (forall i :: 0 <= i < |files| ==> files[i].lines == NewlineOffsets(files[i].src))
    && (files != [] ==> files[0].startPos == 0)
    && (forall i :: 0 < i < |files| ==> files[i].startPos == files[i - 1].startPos + |files[i - 1].src| + 1)
  }

  /** Every file ends before the start of every later file: starts increase, with a gap between files. */
  lemma {:induction false} LaidGapped(files: seq<SourceFile>, i: nat, j: nat)
    requires Laid(files) && i < j < |files|
    ensures files[i].startPos + |files[i].src| < files[j].startPos
    decreases j - i
  {
    if i + 1 < j {
      LaidGapped(files, i + 1, j);
    }
  }

  /** The start position `load_file` gives the next file, or `None` where `checked_add` fails. */
  function NextStart(files: seq<SourceFile>): (r: Option<U32>)
    requires files != [] ==> files[|files| - 1].startPos + |files[|files| - 1].src| < U32_LIMIT
    ensures files == [] ==> r == Some(0)
    ensures files != [] ==>
      var last := files[|files| - 1];
      (r.Some? <==> last.startPos + |last.src| + 1 < U32_LIMIT)
      && (r.Some? ==> r.value == last.startPos + |last.src| + 1)
  {
    if files == [] then Some(0)
    else
      var end := EndPosition(files[|files| - 1]);
      if end + 1 < U32_LIMIT then Some(end + 1) else None
  }

  /** The result of `span_to_location`. */
  datatype Location = Location(file: SourceFile, line: nat, col: int)

  class SourceMap {
    var files: seq<SourceFile>

    ghost predicate Valid()
      reads this
    {
      Laid(files)
    }

    /** `SourceMap::default()`: no files. */
    constructor ()
      ensures Valid() && files == []
    {
      files := [];
    }

    /**
     * `load_file`. Reading the file is outside the model: `contents` is the text it read, or `None`
     * when the read failed.
     */
    method LoadFile(path: seq<char>, contents: Option<seq<Byte>>) returns (r: Result<SourceFile, LoadError>)
      requires Valid()
      requires files != [] ==> files[|files| - 1].startPos + |files[|files| - 1].src| < U32_LIMIT
      modifies this
      ensures Valid()
      ensures NextStart(old(files)).None? ==> r == Err(OffsetOverflowError) && files == old(files)
      ensures NextStart(old(files)).Some? && contents.None? ==> r == Err(Io) && files == old(files)
      ensures NextStart(old(files)).Some? && contents.Some? ==>
        r == Ok(NewSourceFile(path, contents.value, NextStart(old(files)).value)) && files == old(files) + [r.value]
    {
      var startPos: U32;
      if files == [] {
        startPos := 0;
      } else {
        var end := EndPosition(files[|files| - 1]);
        if end + 1 >= U32_LIMIT {
          return Err(OffsetOverflowError);
        }
        startPos := end + 1;
      }
      if contents.None? {
        return Err(Io);
      }
      var file := NewSourceFile(path, contents.value, startPos);
      files := files + [file];
      r := Ok(file);
    }

    /** `|f| f.start_pos <= pos`, the predicate `lookup_source_file_idx` searches with. */
    static function StartsBy(pos: U32): SourceFile -> bool
    {
      (f: SourceFile) => f.startPos <= pos
    }

    /** `lookup_source_file_idx`; `None` where `partition_point(..) - 1` underflows. */
    function LookupSourceFileIdx(pos: U32): (r: Option<nat>)
      reads this
      ensures r.Some? ==> r.value < |files|
    {
      var k := PartitionPoint(files, StartsBy(pos));
      if k == 0 then None else Some(k - 1)
    }

    /** `lookup_source_file`; `None` where the lookup panics. */
    function LookupSourceFile(pos: U32): (r: Option<SourceFile>)
      reads this
      ensures r.Some? ==> r.value in files
    {
      match LookupSourceFileIdx(pos)
      case None => None
      case Some(i) => Some(files[i])
    }

    /**
     * `span_to_string`: the bytes of the span, read in the file found for its start; `None` where the
     * subtraction underflows or the string slice panics (past the end, or not on a character boundary).
     */
    function SpanToString(span: Span): (r: Option<seq<Byte>>)
      reads this
      ensures r.Some? ==> |r.value| == span.len
      ensures r.Some? ==> LookupSourceFile(span.lo).Some? && span.len <= |LookupSourceFile(span.lo).value.src|
    {
      match LookupSourceFile(span.lo)
      case None => None
      case Some(file) =>
        if span.lo < file.startPos then None
        else
          var lo := span.lo - file.startPos;
          var hi := lo + span.len;
          if hi <= |file.src| && IsCharBoundary(file.src, lo) && IsCharBoundary(file.src, hi)
          then Some(file.src[lo..hi])
          else None
    }

    /** `span_to_location`: the location of the span's start, within the file that holds it. */
    function SpanToLocation(span: Span): (r: Option<Location>)
      reads this
      ensures r.Some? ==> LookupSourceFile(span.lo) == Some(r.value.file)
    {
      match LookupSourceFile(span.lo)
      case None => None
      case Some(file) => LocationIn(file, span.lo)
    }

    /** The location `span_to_location` is meant to give, within the file that holds the span's start. */
    function Locate(span: Span): (r: Option<Location>)
      reads this
      ensures r.Some? ==> LookupSourceFile(span.lo) == Some(r.value.file)
    {
      match LookupSourceFile(span.lo)
      case None => None
      case Some(file) => IntendedLocationIn(file, span.lo)
    }
  }

  /**
   * The body of `span_to_location` once `file` is found, as written: the line of the global position
   * `lo` within `file`, and as column `lo` minus the offset of the newline before it. `None` where it
   * panics: where `lo - start_pos` underflows, and on line 1, where `lines[line - 2]` is out of range.
   */
  function LocationIn(file: SourceFile, lo: U32): (r: Option<Location>)
    ensures r.Some? ==> r.value.file == file && r.value.line >= 2
  {
    if lo < file.startPos then None
    else
      var line := LineNumber(file, lo - file.startPos);
      if line < 2 || lo < file.lines[line - 2] then None
      else Some(Location(file, line, lo - file.lines[line - 2]))
  }

  /**
   * The location meant: the line, and the 1-based column counted from the newline before the
   * position within its own file, or from the file's start on line 1.
   */
  function IntendedLocationIn(file: SourceFile, lo: U32): (r: Option<Location>)
    ensures r.Some? <==> file.startPos <= lo
    ensures r.Some? ==> r.value.file == file
  {
    if lo < file.startPos then None
    else
      var offset := lo - file.startPos;
      var line := LineNumber(file, offset);
      Some(Location(file, line, offset - LineStart(file, line) + 1))
  }

  /** The offset of the first byte of `line`: just past the newline before it, or 0 on line 1. */
  function LineStart(f: SourceFile, line: nat): (r: int)
    requires 1 <= line <= |f.lines| + 1
  {
    if line == 1 then 0 else f.lines[line - 2] as int + 1
  }
}
