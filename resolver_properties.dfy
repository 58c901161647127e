/** What the marker resolver promises: the ranges it computes, how the single
    open marker behaves, and which inputs make it raise. */
module ResolverProperties {

  import opened Results
  import opened PyText
  import opened Markers
  import opened Resolver

  // ---------------------------------------------------------------------
  // Ranges
  // ---------------------------------------------------------------------

  /** With trimming, only blank lines of `lines[start:end]` are cut off. */
  lemma TrimmedLinesAreBlank(lines: seq<string>, start: int, end: int)
    requires 0 <= start <= end <= |lines|
    ensures var r := BlockRange(lines, start, end, true);
      && (forall k :: start <= k < r.0 ==> IsBlank(lines[k]))
      && (forall k :: r.1 < k < end ==> IsBlank(lines[k]))
  {
    assert PySlice(lines, start, end) == lines[start..end];
    SliceRunsSatisfy(lines, start, end, IsBlank);
  }

  /** With trimming, a block that holds a non-blank line `k` keeps it, and the
      range starts and ends on non-blank lines. */
  lemma TrimmedRangeEndsOnNonBlankLines(lines: seq<string>, start: int, end: int, k: int)
    requires 0 <= start <= k < end <= |lines|
    requires !IsBlank(lines[k])
    ensures var r := BlockRange(lines, start, end, true);
      r.0 <= k <= r.1 && !IsBlank(lines[r.0]) && !IsBlank(lines[r.1])
  {
    assert PySlice(lines, start, end) == lines[start..end];
    SliceRunsStop(lines, start, end, IsBlank, k);
  }

  /** With trimming, a block of blank lines only comes out as
      `(end, start - 1)`, whose end is before its begin. */
  lemma AllBlankBlockIsEmpty(lines: seq<string>, start: int, end: int)
    requires 0 <= start <= end <= |lines|
    requires forall k :: start <= k < end ==> IsBlank(lines[k])
    ensures BlockRange(lines, start, end, true) == (end, start - 1)
  {
    assert PySlice(lines, start, end) == lines[start..end];
    SliceAllSatisfy(lines, start, end, IsBlank);
  }

  /** The runs at the ends of `xs[start..end]`, read on `xs`. */
  lemma SliceRunsSatisfy<T>(xs: seq<T>, start: int, end: int, p: T -> bool)
    requires 0 <= start <= end <= |xs|
    ensures var block := xs[start..end];
      && (forall k :: start <= k < start + PrefixRun(block, p) ==> p(xs[k]))
      && (forall k :: end - 1 - SuffixRun(block, p) < k < end ==> p(xs[k]))
  {
    var block := xs[start..end];
    forall k | start <= k < end ensures xs[k] == block[k - start] {
    }
  }

  /** An element of `xs[start..end]` that fails `p` bounds both runs, and
      the elements right after them fail `p`. */
  lemma SliceRunsStop<T>(xs: seq<T>, start: int, end: int, p: T -> bool, k: int)
    requires 0 <= start <= k < end <= |xs| && !p(xs[k])
    ensures var block := xs[start..end];
      var lead, trail := PrefixRun(block, p), SuffixRun(block, p);
      && lead <= k - start && trail <= end - 1 - k
      && !p(xs[start + lead]) && !p(xs[end - 1 - trail])
  {
    var block := xs[start..end];
    var lead, trail := PrefixRun(block, p), SuffixRun(block, p);
    assert block[k - start] == xs[k];
    assert block[lead] == xs[start + lead];
    assert block[|block| - 1 - trail] == xs[end - 1 - trail];
  }

  /** When every element of `xs[start..end]` satisfies `p`, both runs are all of it. */
  lemma SliceAllSatisfy<T>(xs: seq<T>, start: int, end: int, p: T -> bool)
    requires 0 <= start <= end <= |xs|
    requires forall k :: start <= k < end ==> p(xs[k])
    ensures PrefixRun(xs[start..end], p) == end - start
    ensures SuffixRun(xs[start..end], p) == end - start
  {
    var block := xs[start..end];
    forall i | 0 <= i < |block| ensures p(block[i]) {
      assert block[i] == xs[start + i];
    }
    PrefixRunUnique(block, p, |block|);
    SuffixRunUnique(block, p, |block|);
  }

  /** Trimming changes nothing when the first and the last line of
      `lines[start:end]` are not blank. */
  lemma TrimmingIsNoOpOnTightBlock(lines: seq<string>, start: int, end: int)
    requires 0 <= start < end <= |lines|
    requires !IsBlank(lines[start]) && !IsBlank(lines[end - 1])
    ensures BlockRange(lines, start, end, true) == BlockRange(lines, start, end, false) == (start, end - 1)
  {
    var block := lines[start..end];
    assert PySlice(lines, start, end) == block;
    assert block[0] == lines[start];
    assert block[|block| - 1] == lines[end - 1];
  }

  /** Under 1-based comment line numbers `lines[end - 1]` is the END comment's
      own line: when it is not blank, no trailing line is ever trimmed. */
  lemma NoTrailingTrimAtEndMarker(lines: seq<string>, start: int, end: int)
    requires 0 <= start < end <= |lines|
    requires !IsBlank(lines[end - 1])
    ensures BlockRange(lines, start, end, true).1 == end - 1
  {
    var block := lines[start..end];
    assert PySlice(lines, start, end) == block;
    assert block[|block| - 1] == lines[end - 1];
  }

  // ---------------------------------------------------------------------
  // One comment
  // ---------------------------------------------------------------------

  /** An END comment whose name differs from the open marker's raises the
      unbalanced-markers error, which reports the BEGIN line as 0. */
  lemma EndWithOtherNameRaises(f: SourceFile, full: string, stripEmpty: bool, st: ScanState, c: Comment)
    requires IsEnd(Strip(c.text))
    requires EndName(Strip(c.text)) != st.pending.name
    ensures Step(f, full, stripEmpty, st, c)
         == Err(UnbalancedMarkers(f.path, st.pending.name, 0, EndName(Strip(c.text)), c.line))
  {
    MarkerKindsExclusive(Strip(c.text));
  }

  /** A BEGIN comment replaces the open marker, whatever it was, and touches
      nothing else. */
  lemma BeginOverwritesPending(f: SourceFile, full: string, stripEmpty: bool, st: ScanState, c: Comment)
    requires IsBegin(Strip(c.text))
    ensures Step(f, full, stripEmpty, st, c)
         == Ok(ScanState(Pending(BeginName(Strip(c.text)), c.line), st.mapping))
  {
    MarkerKindsExclusive(Strip(c.text));
  }

  /** A successful close leaves the open marker as it was, so a second END
      with the same name closes the same BEGIN again. */
  lemma CloseKeepsPending(f: SourceFile, full: string, stripEmpty: bool, st: ScanState, c: Comment)
    requires IsEnd(Strip(c.text))
    requires Step(f, full, stripEmpty, st, c).Ok?
    ensures Step(f, full, stripEmpty, st, c).value.pending == st.pending
    ensures EndName(Strip(c.text)) == st.pending.name
  {
    MarkerKindsExclusive(Strip(c.text));
  }

  // ---------------------------------------------------------------------
  // One file
  // ---------------------------------------------------------------------

  lemma {:induction false} FoldAppend(f: SourceFile, full: string, stripEmpty: bool, st: ScanState, a: seq<Comment>, b: seq<Comment>)
    ensures Fold(f, full, stripEmpty, st, a + b)
         == (var r := Fold(f, full, stripEmpty, st, a);
             if r.Err? then Err(r.error) else Fold(f, full, stripEmpty, r.value, b))
    decreases |a|
  {
    if a == [] {
      assert a + b == b;
    } else {
      assert a + b == [a[0]] + (a[1..] + b);
      assert a == [a[0]] + a[1..];
      FoldCons(f, full, stripEmpty, st, a[0], a[1..] + b);
      FoldCons(f, full, stripEmpty, st, a[0], a[1..]);
      var step := Step(f, full, stripEmpty, st, a[0]);
      if step.Ok? {
        FoldAppend(f, full, stripEmpty, step.value, a[1..], b);
      }
    }
  }

  /** Comments that are not markers change neither the open marker nor the mapping. */
  lemma {:induction false} PlainCommentsChangeNothing(f: SourceFile, full: string, stripEmpty: bool, st: ScanState, cs: seq<Comment>)
    requires forall i :: 0 <= i < |cs| ==> IsPlain(cs[i])
    ensures Fold(f, full, stripEmpty, st, cs) == Ok(st)
    decreases |cs|
  {
    if cs != [] {
      assert cs == [cs[0]] + cs[1..];
      FoldCons(f, full, stripEmpty, st, cs[0], cs[1..]);
      PlainCommentsChangeNothing(f, full, stripEmpty, st, cs[1..]);
    }
  }

  /** A BEGIN comment sets the open marker and the scan goes on from there. */
  lemma OpenThen(f: SourceFile, full: string, stripEmpty: bool, st: ScanState, c: Comment, rest: seq<Comment>)
    requires IsBegin(Strip(c.text))
    ensures Fold(f, full, stripEmpty, st, [c] + rest)
         == Fold(f, full, stripEmpty, ScanState(Pending(BeginName(Strip(c.text)), c.line), st.mapping), rest)
  {
    FoldCons(f, full, stripEmpty, st, c, rest);
    BeginOverwritesPending(f, full, stripEmpty, st, c);
  }

  /** Plain comments in front of `rest` are skipped. */
  lemma PlainThen(f: SourceFile, full: string, stripEmpty: bool, st: ScanState, mid: seq<Comment>, rest: seq<Comment>)
    requires forall i :: 0 <= i < |mid| ==> IsPlain(mid[i])
    ensures Fold(f, full, stripEmpty, st, mid + rest) == Fold(f, full, stripEmpty, st, rest)
  {
    FoldAppend(f, full, stripEmpty, st, mid, rest);
    PlainCommentsChangeNothing(f, full, stripEmpty, st, mid);
  }

  /** An END comment naming another marker stops the scan with the
      unbalanced-markers error. */
  lemma EndMismatchThen(f: SourceFile, full: string, stripEmpty: bool, st: ScanState, c: Comment, rest: seq<Comment>)
    requires IsEnd(Strip(c.text))
    requires EndName(Strip(c.text)) != st.pending.name
    ensures Fold(f, full, stripEmpty, st, [c] + rest)
         == Err(UnbalancedMarkers(f.path, st.pending.name, 0, EndName(Strip(c.text)), c.line))
  {
    FoldCons(f, full, stripEmpty, st, c, rest);
    EndWithOtherNameRaises(f, full, stripEmpty, st, c);
  }

  /** An END comment naming the open marker closes it. */
  lemma EndMatchThen(f: SourceFile, full: string, stripEmpty: bool, st: ScanState, c: Comment, rest: seq<Comment>)
    requires IsEnd(Strip(c.text))
    requires EndName(Strip(c.text)) == st.pending.name
    ensures var range := BlockRange(f.lines, st.pending.line, c.line, stripEmpty);
      Fold(f, full, stripEmpty, st, [c] + rest)
      == if range.1 <= range.0 then Err(IncorrectLineNumbers)
         else Fold(f, full, stripEmpty,
                   ScanState(st.pending, Record(st.mapping, full, st.pending.name, Descriptor(range.0, range.1))), rest)
  {
    FoldCons(f, full, stripEmpty, st, c, rest);
    MarkerKindsExclusive(Strip(c.text));
  }

  /** A BEGIN_x at line s and an END_x at line e, with only plain comments
      between them, record `x -> lines=b-e'` for the range `take_block`
      computes from `lines[s:e]`, or raise when that range is empty. */
  lemma PairedMarkersRecordRange(f: SourceFile, full: string, stripEmpty: bool, st: ScanState,
                                 x: string, beginText: string, s: int, mid: seq<Comment>, endText: string, e: int)
    requires Strip(beginText) == MarkerBegin + "_" + x
    requires Strip(endText) == MarkerEnd + "_" + x
    requires forall i :: 0 <= i < |mid| ==> IsPlain(mid[i])
    ensures var range := BlockRange(f.lines, s, e, stripEmpty);
      Fold(f, full, stripEmpty, st, [Comment(beginText, s)] + mid + [Comment(endText, e)])
      == if range.1 <= range.0 then Err(IncorrectLineNumbers)
         else Ok(ScanState(Pending(x, s), Record(st.mapping, full, x, Descriptor(range.0, range.1))))
  {
    NamesOfMarkers(x);
    var b, c := Comment(beginText, s), Comment(endText, e);
    var openSt := ScanState(Pending(x, s), st.mapping);
    assert [b] + mid + [c] == [b] + (mid + [c]);
    OpenThen(f, full, stripEmpty, st, b, mid + [c]);
    PlainThen(f, full, stripEmpty, openSt, mid, [c]);
    EndMatchThen(f, full, stripEmpty, openSt, c, []);
    assert [c] + [] == [c];
  }

  /** A BEGIN_a followed, after plain comments, by an END_b with b != a raises
      the unbalanced-markers error and records nothing. */
  lemma MismatchedMarkersRaise(f: SourceFile, full: string, stripEmpty: bool, st: ScanState,
                               a: string, beginText: string, s: int, mid: seq<Comment>,
                               b: string, endText: string, e: int, rest: seq<Comment>)
    requires Strip(beginText) == MarkerBegin + "_" + a
    requires Strip(endText) == MarkerEnd + "_" + b
    requires a != b
    requires forall i :: 0 <= i < |mid| ==> IsPlain(mid[i])
    ensures Fold(f, full, stripEmpty, st, [Comment(beginText, s)] + mid + [Comment(endText, e)] + rest)
         == Err(UnbalancedMarkers(f.path, a, 0, b, e))
  {
    NamesOfMarkers(a);
    NamesOfMarkers(b);
    var bc, ec := Comment(beginText, s), Comment(endText, e);
    var openSt := ScanState(Pending(a, s), st.mapping);
    assert [bc] + mid + [ec] + rest == [bc] + (mid + ([ec] + rest));
    OpenThen(f, full, stripEmpty, st, bc, mid + ([ec] + rest));
    PlainThen(f, full, stripEmpty, openSt, mid, [ec] + rest);
    EndMismatchThen(f, full, stripEmpty, openSt, ec, rest);
  }

  /** Of two BEGIN comments in a row the second wins: there is no nesting. */
  lemma LastBeginWins(f: SourceFile, full: string, stripEmpty: bool, st: ScanState,
                      c1: Comment, c2: Comment, rest: seq<Comment>)
    requires IsBegin(Strip(c1.text)) && IsBegin(Strip(c2.text))
    ensures Fold(f, full, stripEmpty, st, [c1, c2] + rest) == Fold(f, full, stripEmpty, st, [c2] + rest)
  {
    BeginOverwritesPending(f, full, stripEmpty, st, c1);
    var st1 := Step(f, full, stripEmpty, st, c1).value;
    BeginOverwritesPending(f, full, stripEmpty, st1, c2);
    BeginOverwritesPending(f, full, stripEmpty, st, c2);
    assert [c1, c2] + rest == [c1] + ([c2] + rest);
    FoldCons(f, full, stripEmpty, st, c1, [c2] + rest);
    FoldCons(f, full, stripEmpty, st1, c2, rest);
    FoldCons(f, full, stripEmpty, st, c2, rest);
  }

  /** An END comment reading exactly `SOURCE_MARKER_END_` before any BEGIN
      matches the initial empty name and, untrimmed, records a range that
      starts at line -1. */
  lemma StrayEndMatchesInitialState(f: SourceFile, full: string, m: Mapping, c: Comment, rest: seq<Comment>)
    requires Strip(c.text) == MarkerEnd + "_"
    requires c.line >= 1
    ensures Fold(f, full, false, ScanState(NoPending, m), [c] + rest)
         == Fold(f, full, false, ScanState(NoPending, Record(m, full, "", Descriptor(-1, c.line - 1))), rest)
  {
    NamesOfMarkers("");
    assert MarkerEnd + "_" + "" == MarkerEnd + "_";
    EndMatchThen(f, full, false, ScanState(NoPending, m), c, rest);
  }

  // ---------------------------------------------------------------------
  // All files
  // ---------------------------------------------------------------------

  /** A file the extractor refuses (not text, or an unsupported type) is
      skipped: scanning with it or without it gives the same result, and the
      files after it are still scanned. */
  lemma {:induction false} SkippedFileIsIgnored(files: seq<SourceFile>, i: nat, stripEmpty: bool,
                                                extract: (string, string) -> Extraction,
                                                absPath: string -> string, m: Mapping)
    requires i < |files|
    requires Skipped(extract, files[i])
    ensures ScanFiles(files, stripEmpty, extract, absPath, m)
         == ScanFiles(files[..i] + files[i + 1..], stripEmpty, extract, absPath, m)
    decreases i
  {
    if i == 0 {
      assert files[..0] + files[1..] == files[1..];
    } else {
      var tail := files[1..];
      assert files[..i] + files[i + 1..] == [files[0]] + (tail[..i - 1] + tail[i..]);
      ScanFilesCons(files[0], tail[..i - 1] + tail[i..], stripEmpty, extract, absPath, m);
      assert files == [files[0]] + tail;
      ScanFilesCons(files[0], tail, stripEmpty, extract, absPath, m);
      var one := ScanOne(files[0], stripEmpty, extract, absPath, m);
      if one.Ok? {
        SkippedFileIsIgnored(tail, i - 1, stripEmpty, extract, absPath, one.value);
      }
    }
  }
}
