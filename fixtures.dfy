/** Worked examples: the marker files under `source/` and one placeholder
    line, evaluated through the model. Comment texts are what the comment
    parser returns for `# ...`: the text after the `#`. Line numbers are
    1-based, as the parser reports them. */
module Fixtures {

  import opened Results
  import opened PyText
  import opened Markers
  import opened Resolver
  import opened ResolverProperties
  import opened Rewriter
  import opened RewriterProperties

  /** The first 32 lines of source/tagger.py, abridged: the non-blank lines
      12-31 are replaced by a placeholder line, and the blank lines 13, 18,
      23, 26, 30 and 31 are kept. Only blankness and the first and last line
      of each block matter to the ranges. */
  const TaggerLines: seq<string> := [
    "# SOURCE_MARKER_BEGIN_import\n",
    "import nltk\n",
    "from forte.processors.base import PackProcessor\n",
    "from forte.data.data_pack import DataPack\n",
    "from ft.onto.base_ontology import Token\n",
    "\n",
    "# SOURCE_MARKER_END_import\n",
    "\n",
    "\n",
    "# SOURCE_MARKER_BEGIN_class\n",
    "class NLTKPOSTagger(PackProcessor):\n"
  ] + seq(20, i => if i in {1, 6, 11, 14, 18, 19} then "\n" else "    body\n")
    + ["# SOURCE_MARKER_END_class\n"]

  /** A line that starts with a character other than whitespace is not blank. */
  lemma NotBlank(s: string)
    requires s != [] && !IsSpace(s[0])
    ensures !IsBlank(s)
  {
  }

  /** `import` in source/tagger.py: BEGIN at line 1, END at line 7. */
  lemma TaggerImportRange()
    ensures BlockRange(TaggerLines, 1, 7, true) == (1, 6)
  {
    NotBlank(TaggerLines[1]);
    NotBlank(TaggerLines[6]);
    TrimmingIsNoOpOnTightBlock(TaggerLines, 1, 7);
  }

  /** `class` in source/tagger.py: BEGIN at line 10, END at line 32. */
  lemma TaggerClassRange()
    ensures BlockRange(TaggerLines, 10, 32, true) == (10, 31)
  {
    NotBlank(TaggerLines[10]);
    NotBlank(TaggerLines[31]);
    TrimmingIsNoOpOnTightBlock(TaggerLines, 10, 32);
  }

  lemma FixtureDescriptors()
    ensures Descriptor(1, 6) == "lines=1-6"
    ensures Descriptor(10, 31) == "lines=10-31"
    ensures Descriptor(9, 22) == "lines=9-22"
  {
  }

  /** The first 23 lines of source/pipeline.py, abridged as for tagger.py. */
  const PipelineLines: seq<string> := [
    "# SOURCE_MARKER_BEGIN_import\n",
    "from forte import Pipeline\n",
    "\n",
    "from forte.data.readers import StringReader\n",
    "from fortex.spacy import SpacyProcessor\n",
    "\n",
    "# SOURCE_MARKER_END_import\n",
    "\n",
    "# SOURCE_MARKER_BEGIN_pipeline\n",
    "pipeline: Pipeline = Pipeline[DataPack]()\n"
  ] + seq(12, _ => "    body\n") + ["# SOURCE_MARKER_END_pipeline\n"]

  const PipelineFile := SourceFile("source/pipeline.py", Some("text/x-python"), PipelineLines)

  /** The comments of source/pipeline.py: its four markers, as
      `" SOURCE_MARKER_BEGIN_import"` and so on. */
  const PipelineComments: seq<Comment> := [
    Comment(" " + (MarkerBegin + "_" + "import"), 1),
    Comment(" " + (MarkerEnd + "_" + "import"), 7),
    Comment(" " + (MarkerBegin + "_" + "pipeline"), 9),
    Comment(" " + (MarkerEnd + "_" + "pipeline"), 23)
  ]

  /** The parser leaves the space after `#`; stripping removes it. */
  lemma StripOneSpace(x: string)
    requires x != [] && !IsSpace(x[0]) && !IsSpace(x[|x| - 1])
    ensures Strip(" " + x) == x
  {
    var s := " " + x;
    PrefixRunUnique(s, IsSpace, 1);
    assert s[1..] == x;
    SuffixRunUnique(x, IsSpace, 0);
  }

  /** The text the parser returns for `# SOURCE_MARKER_BEGIN_x`, stripped. */
  lemma BeginComment(x: string)
    requires x != [] && !IsSpace(x[|x| - 1])
    ensures Strip(" " + (MarkerBegin + "_" + x)) == MarkerBegin + "_" + x
  {
    var m := MarkerBegin + "_" + x;
    assert m[0] == 'S' && m[|m| - 1] == x[|x| - 1];
    StripOneSpace(m);
  }

  /** The text the parser returns for `# SOURCE_MARKER_END_x`, stripped. */
  lemma EndComment(x: string)
    requires x != [] && !IsSpace(x[|x| - 1])
    ensures Strip(" " + (MarkerEnd + "_" + x)) == MarkerEnd + "_" + x
  {
    var m := MarkerEnd + "_" + x;
    assert m[0] == 'S' && m[|m| - 1] == x[|x| - 1];
    StripOneSpace(m);
  }

  lemma PipelineLinesNotBlank()
    ensures |PipelineLines| >= 23
    ensures !IsBlank(PipelineLines[1]) && !IsBlank(PipelineLines[6])
    ensures !IsBlank(PipelineLines[9]) && !IsBlank(PipelineLines[22])
  {
    NotBlank(PipelineLines[1]);
    NotBlank(PipelineLines[6]);
    NotBlank(PipelineLines[9]);
    NotBlank(PipelineLines[22]);
  }

  /** Two marker pairs in a row: the second runs from the state the first
      leaves. */
  lemma TwoBlocks(f: SourceFile, full: string, stripEmpty: bool, st: ScanState, b1: Comment, e1: Comment,
                  b2: Comment, e2: Comment, r1: ScanState)
    requires Fold(f, full, stripEmpty, st, [b1] + [] + [e1]) == Ok(r1)
    ensures Fold(f, full, stripEmpty, st, [b1, e1, b2, e2]) == Fold(f, full, stripEmpty, r1, [b2] + [] + [e2])
  {
    assert [b1] + [] + [e1] == [b1, e1];
    assert [b2] + [] + [e2] == [b2, e2];
    assert [b1, e1, b2, e2] == [b1, e1] + [b2, e2];
    FoldAppend(f, full, stripEmpty, st, [b1, e1], [b2, e2]);
  }

  /** A marker pair whose block needs no trimming, from any state. */
  lemma PairRecorded(f: SourceFile, full: string, st: ScanState, x: string,
                     beginText: string, s: int, endText: string, e: int, d: string)
    requires Strip(beginText) == MarkerBegin + "_" + x && Strip(endText) == MarkerEnd + "_" + x
    requires s < e - 1 && BlockRange(f.lines, s, e, true) == (s, e - 1)
    requires Descriptor(s, e - 1) == d
    ensures Fold(f, full, true, st, [Comment(beginText, s)] + [] + [Comment(endText, e)])
         == Ok(ScanState(Pending(x, s), Record(st.mapping, full, x, d)))
  {
    PairedMarkersRecordRange(f, full, true, st, x, beginText, s, [], endText, e);
  }

  /** Two such pairs in a row record both blocks under `full`. */
  lemma TwoPairsScan(f: SourceFile, full: string, x1: string, bt1: string, s1: int, et1: string, e1: int, d1: string,
                     x2: string, bt2: string, s2: int, et2: string, e2: int, d2: string)
    requires Strip(bt1) == MarkerBegin + "_" + x1 && Strip(et1) == MarkerEnd + "_" + x1
    requires s1 < e1 - 1 && BlockRange(f.lines, s1, e1, true) == (s1, e1 - 1)
    requires Descriptor(s1, e1 - 1) == d1
    requires Strip(bt2) == MarkerBegin + "_" + x2 && Strip(et2) == MarkerEnd + "_" + x2
    requires s2 < e2 - 1 && BlockRange(f.lines, s2, e2, true) == (s2, e2 - 1)
    requires Descriptor(s2, e2 - 1) == d2
    ensures ScanComments(f, full, true, [Comment(bt1, s1), Comment(et1, e1), Comment(bt2, s2), Comment(et2, e2)], map[])
         == Ok(map[full := map[x1 := d1, x2 := d2]])
  {
    var st0 := ScanState(NoPending, map[]);
    var st1 := ScanState(Pending(x1, s1), Record(map[], full, x1, d1));
    PairRecorded(f, full, st0, x1, bt1, s1, et1, e1, d1);
    PairRecorded(f, full, st1, x2, bt2, s2, et2, e2, d2);
    TwoBlocks(f, full, true, st0, Comment(bt1, s1), Comment(et1, e1), Comment(bt2, s2), Comment(et2, e2), st1);
    RecordTwice(full, x1, d1, x2, d2);
  }

  lemma RecordTwice(full: string, x1: string, d1: string, x2: string, d2: string)
    ensures Record(Record(map[], full, x1, d1), full, x2, d2) == map[full := map[x1 := d1, x2 := d2]]
  {
    var m1 := Record(map[], full, x1, d1);
    assert m1 == map[full := map[x1 := d1]];
  }

  /** The four markers of source/pipeline.py, in any file whose lines
      around them are as in source/pipeline.py (not blank), record
      `import -> lines=1-6` and `pipeline -> lines=9-22`. */
  lemma PipelineCommentsScan(f: SourceFile, full: string)
    requires |f.lines| >= 23
    requires !IsBlank(f.lines[1]) && !IsBlank(f.lines[6]) && !IsBlank(f.lines[9]) && !IsBlank(f.lines[22])
    ensures ScanComments(f, full, true, PipelineComments, map[])
         == Ok(map[full := map["import" := "lines=1-6", "pipeline" := "lines=9-22"]])
  {
    BeginComment("import");
    EndComment("import");
    BeginComment("pipeline");
    EndComment("pipeline");
    TrimmingIsNoOpOnTightBlock(f.lines, 1, 7);
    TrimmingIsNoOpOnTightBlock(f.lines, 9, 23);
    FixtureDescriptors();
    TwoPairsScan(f, full, "import", " " + (MarkerBegin + "_" + "import"), 1, " " + (MarkerEnd + "_" + "import"), 7,
                 "lines=1-6", "pipeline", " " + (MarkerBegin + "_" + "pipeline"), 9,
                 " " + (MarkerEnd + "_" + "pipeline"), 23, "lines=9-22");
  }

  /** Scanning source/pipeline.py (absolute path `full`) with trimming on
      records `import -> lines=1-6` and `pipeline -> lines=9-22`. */
  lemma PipelineScan(full: string)
    ensures ScanComments(PipelineFile, full, true, PipelineComments, map[])
         == Ok(map[full := map["import" := "lines=1-6", "pipeline" := "lines=9-22"]])
  {
    PipelineLinesNotBlank();
    PipelineCommentsScan(PipelineFile, full);
  }

  /** A placeholder for the `import` block of source/pipeline.py, in a
      markdown file whose directory resolves `./source/pipeline.py` to the
      absolute path `full`, comes out as `...src=./source/pipeline.py&lines=1-6) -->`. */
  lemma PipelineImportPlaceholder(markdownPath: string, resolve: (string, string) -> string, full: string)
    requires resolve(markdownPath, "./source/pipeline.py") == full
    ensures var markers := map[full := map["import" := "lines=1-6", "pipeline" := "lines=9-22"]];
      RewriteLine(markdownPath, markers, resolve, AutodocPrefix + "./source/pipeline.py" + LabelKey + "import" + Closer)
      == Ok(Some(AutodocPrefix + "./source/pipeline.py" + ("&" + "lines=1-6") + Closer))
  {
    var markers := map[full := map["import" := "lines=1-6", "pipeline" := "lines=9-22"]];
    var lab := "import";
    assert forall i :: 0 <= i < |lab| ==> IsWordChar(lab[i]);
    CanonicalPlaceholderRewrite(markdownPath, markers, resolve, "./source/pipeline.py", lab);
  }

  /** A block whose BEGIN comment sits on line 5, with content lines 6 and 7
      and the END comment on line 8: the slice `lines[5:8]` runs from line 6
      through the END line, so the descriptor is `lines=5-7`. */
  lemma DemoBlock(lines: seq<string>)
    requires |lines| >= 8
    requires !IsBlank(lines[5]) && !IsBlank(lines[7])
    ensures BlockRange(lines, 5, 8, true) == (5, 7)
  {
    TrimmingIsNoOpOnTightBlock(lines, 5, 8);
  }

  lemma DemoDescriptor()
    ensures Descriptor(5, 7) == "lines=5-7"
  {
  }
}
