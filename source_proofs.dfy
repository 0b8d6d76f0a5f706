/** What the source map's lookups compute, on a map that `load_file` built. */
module SourceProofs {
  import opened Options
  import opened Partition
  import opened Source

  // ---------------------------------------------------------------------------------------------
  // Finding the file of a position

  /** Start positions increase, so "starts at or before `pos`" holds of a prefix of the files. */
  lemma StartsPartitioned(files: seq<SourceFile>, pos: U32)
    requires Laid(files)
    ensures Partitioned(files, SourceMap.StartsBy(pos))
  {
    forall i, j | 0 <= i < j < |files| && SourceMap.StartsBy(pos)(files[j])
      ensures SourceMap.StartsBy(pos)(files[i])
    {
      LaidGapped(files, i, j);
    }
  }

  /**
   * `lookup_source_file_idx` fails only on an empty map; otherwise it finds the last file that starts
   * at or before `pos`.
   */
  lemma LookupFindsOwner(m: SourceMap, pos: U32)
    requires m.Valid()
    ensures m.LookupSourceFileIdx(pos).Some? <==> m.files != []
    ensures m.LookupSourceFileIdx(pos).Some? ==>
      var i := m.LookupSourceFileIdx(pos).value;
      m.files[i].startPos <= pos && (i + 1 < |m.files| ==> pos < m.files[i + 1].startPos)
  {
    StartsPartitioned(m.files, pos);
    PartitionPointSplits(m.files, SourceMap.StartsBy(pos));
  }

  /** Conversely, the file that starts at or before `pos`, followed by none that does, is the one found. */
  lemma LookupIsOwner(m: SourceMap, pos: U32, i: nat)
    requires m.Valid() && i < |m.files| && m.files[i].startPos <= pos
    requires i + 1 < |m.files| ==> pos < m.files[i + 1].startPos
    ensures m.LookupSourceFileIdx(pos) == Some(i)
  {
    var files := m.files;
    forall k | 0 <= k < i ensures SourceMap.StartsBy(pos)(files[k]) {
      LaidGapped(files, k, i);
    }
    forall k | i + 1 < k < |files| ensures !SourceMap.StartsBy(pos)(files[k]) {
      LaidGapped(files, i + 1, k);
    }
    PartitionPointIsSplit(files, SourceMap.StartsBy(pos), i + 1);
  }

  /**
   * With files of 10 and 20 bytes, the second starts at 11: position 10, one past the end of the first
   * file, still resolves to the first, and position 11 to the second.
   */
  lemma LookupTwoFiles(m: SourceMap)
    requires m.Valid() && |m.files| == 2 && |m.files[0].src| == 10 && |m.files[1].src| == 20
    ensures m.files[1].startPos == 11
    ensures m.LookupSourceFileIdx(10) == Some(0) && m.LookupSourceFileIdx(11) == Some(1)
  {
    LookupIsOwner(m, 10, 0);
    LookupIsOwner(m, 11, 1);
  }

  /** Every position from a file's start to one past its end resolves to that file. */
  lemma LookupWithinFile(m: SourceMap, i: nat, pos: U32)
    requires m.Valid() && i < |m.files|
    requires m.files[i].startPos <= pos <= m.files[i].startPos + |m.files[i].src|
    ensures m.LookupSourceFileIdx(pos) == Some(i)
  {
    if i + 1 < |m.files| {
      LaidGapped(m.files, i, i + 1);
    }
    LookupIsOwner(m, pos, i);
  }

  /** A file just loaded is found at its start position. */
  lemma LoadedFileFound(m: SourceMap)
    requires m.Valid() && m.files != []
    ensures m.LookupSourceFile(m.files[|m.files| - 1].startPos) == Some(m.files[|m.files| - 1])
  {
    LookupIsOwner(m, m.files[|m.files| - 1].startPos, |m.files| - 1);
  }

  // ---------------------------------------------------------------------------------------------
  // The text of a span

  /**
   * A span that lies within one file gives exactly the file's bytes from the span's local offset on,
   * unless an end of it falls inside a character.
   */
  lemma SpanToStringInFile(m: SourceMap, span: Span, i: nat)
    requires m.Valid() && i < |m.files| && m.files[i].startPos <= span.lo
    requires span.lo - m.files[i].startPos + span.len <= |m.files[i].src|
    ensures var src := m.files[i].src;
            var lo := span.lo - m.files[i].startPos;
            m.SpanToString(span) ==
              if IsCharBoundary(src, lo) && IsCharBoundary(src, lo + span.len)
              then Some(src[lo..lo + span.len]) else None
  {
    LookupWithinFile(m, i, span.lo);
  }

  /** The span of a whole file gives back its whole text. */
  lemma SpanToStringWholeFile(m: SourceMap, i: nat)
    requires m.Valid() && i < |m.files| && |m.files[i].src| < U32_LIMIT
    ensures m.SpanToString(Span(m.files[i].startPos, |m.files[i].src|)) == Some(m.files[i].src)
  {
    SpanToStringInFile(m, Span(m.files[i].startPos, |m.files[i].src|), i);
    assert m.files[i].src[0..|m.files[i].src|] == m.files[i].src;
  }

  // ---------------------------------------------------------------------------------------------
  // Lines and columns

  /** The line table of a laid-out file (whose offsets fit in 32 bits) lists exactly its newlines. */
  lemma LaidLines(files: seq<SourceFile>, i: nat)
    requires Laid(files) && i < |files| && |files[i].src| <= U32_LIMIT
    ensures Increasing(files[i].lines) && NewlinesAt(files[i].src, files[i].lines)
  {
    LinesAreNewlines(files[i].src);
  }

  /**
   * The line of `off` starts at `LineStart`: just past a newline, or at the file's start on line 1,
   * with no newline from there up to `off`.
   */
  lemma LineStartBeforeOffset(f: SourceFile, off: U32)
    requires Increasing(f.lines) && NewlinesAt(f.src, f.lines)
    ensures var start := LineStart(f, LineNumber(f, off));
            start <= off
            && (LineNumber(f, off) >= 2 ==> start - 1 < |f.src| && f.src[start - 1] == NEWLINE)
            && (forall j :: start <= j < off && j < |f.src| ==> f.src[j] != NEWLINE)
  {
    LineNumberCounts(f, off);
    var line := LineNumber(f, off);
    var start := LineStart(f, line);
    IncreasingSplits(f.lines, off);
    PartitionPointIsSplit(f.lines, Below(off), CountBelow(f.lines, off));
    forall j | start <= j < off && j < |f.src| ensures f.src[j] != NEWLINE {
      forall k | 0 <= k < |f.lines| ensures f.lines[k] != j {
        if k < line - 1 {
          assert f.lines[k] <= f.lines[line - 2];
        } else {
          assert !Below(off)(f.lines[k]);
        }
      }
    }
  }

  /**
   * `span_to_location` as written: it panics exactly when no newline comes before the position in its
   * file (line 1); otherwise the line counts the newlines before it, and the column is the GLOBAL
   * position minus the local offset of the newline before it: the 1-based column plus the file's start.
   */
  lemma SpanToLocationAsWritten(m: SourceMap, span: Span, i: nat)
    requires m.Valid() && m.LookupSourceFileIdx(span.lo) == Some(i) && |m.files[i].src| <= U32_LIMIT
    ensures var f := m.files[i];
            var offset := span.lo - f.startPos;
            var line := 1 + CountBelow(f.lines, offset);
            m.SpanToLocation(span) ==
              if line == 1 then None else Some(Location(f, line, f.startPos + (offset - LineStart(f, line) + 1)))
  {
    LookupFindsOwner(m, span.lo);
    LaidIncreasing(m.files, i);
    GlobalColumn(m.files[i], span.lo);
  }

  /** The location `span_to_location` computes for global position `lo` in `f`, in terms of counts. */
  lemma GlobalColumn(f: SourceFile, lo: U32)
    requires Increasing(f.lines) && f.startPos <= lo
    ensures var offset := lo - f.startPos;
            var line := 1 + CountBelow(f.lines, offset);
            LocationIn(f, lo) ==
              if line == 1 then None else Some(Location(f, line, f.startPos + (offset - LineStart(f, line) + 1)))
  {
    LineNumberCounts(f, lo - f.startPos);
  }

  /** The line table of a laid-out file (whose offsets fit in 32 bits) increases. */
  lemma LaidIncreasing(files: seq<SourceFile>, i: nat)
    requires Laid(files) && i < |files| && |files[i].src| <= U32_LIMIT
    ensures Increasing(files[i].lines)
  {
    LinesIncreasing(files[i].src);
  }

  /** A one-file map whose text has no newline: position 0 is on line 1, where `span_to_location` panics. */
  lemma SpanToLocationPanicsOnLineOne(m: SourceMap)
    requires m.files == [SourceFile("a", [0x61], 0, [])]
    ensures m.SpanToLocation(Span(0, 1)) == None
    ensures m.Locate(Span(0, 1)) == Some(Location(m.files[0], 1, 1))
  {
    assert m.LookupSourceFileIdx(0) == Some(0);
  }

  /**
   * A second file "\nb" starts at 2, after the one-byte file "a" and the gap: `b` is at global position
   * 3, on line 2 in column 1, but `span_to_location` reports column 3.
   */
  lemma SpanToLocationShiftsColumn(m: SourceMap)
    requires m.files == [SourceFile("a", [0x61], 0, []), SourceFile("b", [NEWLINE, 0x62], 2, [0])]
    ensures m.SpanToLocation(Span(3, 1)) == Some(Location(m.files[1], 2, 3))
    ensures m.Locate(Span(3, 1)) == Some(Location(m.files[1], 2, 1))
  {
    assert m.LookupSourceFileIdx(3) == Some(1);
  }

  /**
   * The intended location: on a non-empty map it always exists; the line counts the newlines before
   * the position in its file, and the 1-based column counts from the start of that line.
   */
  lemma LocateFindsLineStart(m: SourceMap, span: Span, i: nat)
    requires m.Valid() && m.LookupSourceFileIdx(span.lo) == Some(i) && |m.files[i].src| <= U32_LIMIT
    ensures m.Locate(span).Some?
    ensures var f := m.files[i];
            var offset := span.lo - f.startPos;
            var loc := m.Locate(span).value;
            var start := offset - loc.col + 1;
            loc.file == f && loc.line == 1 + CountBelow(f.lines, offset) && loc.col >= 1
            && (start == 0 || (start - 1 < |f.src| && f.src[start - 1] == NEWLINE))
            && (forall j :: start <= j < offset && j < |f.src| ==> f.src[j] != NEWLINE)
  {
    LookupFindsOwner(m, span.lo);
    LaidLines(m.files, i);
    LineColumn(m.files[i], span.lo - m.files[i].startPos);
  }

  /** The line of `offset` in `f` and its 1-based column, counted from the start of that line. */
  lemma LineColumn(f: SourceFile, offset: U32)
    requires Increasing(f.lines) && NewlinesAt(f.src, f.lines)
    ensures var line := LineNumber(f, offset);
            var col := offset - LineStart(f, line) + 1;
            var start := offset - col + 1;
            line == 1 + CountBelow(f.lines, offset) && col >= 1
            && (start == 0 || (start - 1 < |f.src| && f.src[start - 1] == NEWLINE))
            && (forall j :: start <= j < offset && j < |f.src| ==> f.src[j] != NEWLINE)
  {
    LineNumberCounts(f, offset);
    LineStartBeforeOffset(f, offset);
  }

  /**
   * Within one file, a later position is on the same line or a later one, and on the same line in a
   * later column.
   */
  lemma LocateMonotone(m: SourceMap, a: Span, b: Span, i: nat)
    requires m.Valid() && m.LookupSourceFileIdx(a.lo) == Some(i) && m.LookupSourceFileIdx(b.lo) == Some(i)
    requires |m.files[i].src| <= U32_LIMIT && a.lo < b.lo
    ensures m.Locate(a).Some? && m.Locate(b).Some?
    ensures m.Locate(a).value.line <= m.Locate(b).value.line
    ensures m.Locate(a).value.line == m.Locate(b).value.line ==> m.Locate(a).value.col < m.Locate(b).value.col
  {
    LookupFindsOwner(m, a.lo);
    LookupFindsOwner(m, b.lo);
    LaidLines(m.files, i);
    LineNumberMonotone(m.files[i], a.lo - m.files[i].startPos, b.lo - m.files[i].startPos);
  }
}
