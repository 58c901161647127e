/** The marker resolver of code_block.py (`scan_sources` and its inner
    `take_block`): pairs SOURCE_MARKER_BEGIN_<name> / SOURCE_MARKER_END_<name>
    comments file by file and records the enclosed line range of each block. */
module Resolver {

  import opened Results
  import opened PyText
  import opened Markers

  /** One comment as the comment extractor reports it: its text and its
      1-based line number. */
  datatype Comment = Comment(text: string, line: int)

  /** What the comment extractor does with one file: the comments in file
      order, or one of the two exceptions the scan catches. */
  datatype Extraction =
    | Comments(comments: seq<Comment>)
    | NotText       // UnicodeDecodeError
    | Unsupported   // comment_parser.UnsupportedError

  /** A file met by the directory walk: the path as walked, the MIME type the
      `mimetypes` module guesses for it, and its lines as `readlines()` gives them. */
  datatype SourceFile = SourceFile(path: string, guessedMime: Option<string>, lines: seq<string>)

  /** The two `RuntimeError`s the scan raises. */
  datatype ScanError =
    | IncorrectLineNumbers
    | UnbalancedMarkers(file: string, beginName: string, beginLine: int, endName: string, endLine: int)

  /** The single open marker: its name and the line of its BEGIN comment. */
  datatype Pending = Pending(name: string, line: int)

  /** The state before the first comment of every file. */
  const NoPending := Pending("", -1)

  datatype ScanState = ScanState(pending: Pending, mapping: Mapping)

  /** Files whose type cannot be guessed are read as shell scripts. */
  function MimeOrDefault(guess: Option<string>): (mime: string)
    ensures guess.Some? ==> mime == guess.value
    ensures guess.None? ==> mime == "text/x-shellscript"
  {
    match guess
    case Some(m) => m
    case None => "text/x-shellscript"
  }

  predicate IsBegin(ctext: string) {
    StartsWith(ctext, MarkerBegin)
  }

  predicate IsEnd(ctext: string) {
    StartsWith(ctext, MarkerEnd)
  }

  /** A comment that is neither kind of marker. */
  predicate IsPlain(c: Comment) {
    !IsBegin(Strip(c.text)) && !IsEnd(Strip(c.text))
  }

  function BeginName(ctext: string): string {
    RemovePrefix(ctext, MarkerBegin + "_")
  }

  function EndName(ctext: string): string {
    RemovePrefix(ctext, MarkerEnd + "_")
  }

  /** No comment is both a BEGIN and an END marker, so the two tests of the
      loop body never both fire. */
  lemma MarkerKindsExclusive(ctext: string)
    ensures !(IsBegin(ctext) && IsEnd(ctext))
  {
    if IsBegin(ctext) {
      assert ctext[..|MarkerBegin|][14] == 'B';
      assert ctext[..|MarkerEnd|][14] == 'B';
    }
  }

  lemma NamesOfMarkers(x: string)
    ensures IsBegin(MarkerBegin + "_" + x) && BeginName(MarkerBegin + "_" + x) == x
    ensures !IsEnd(MarkerBegin + "_" + x)
    ensures IsEnd(MarkerEnd + "_" + x) && EndName(MarkerEnd + "_" + x) == x
    ensures !IsBegin(MarkerEnd + "_" + x)
  {
    var b, e := MarkerBegin + "_" + x, MarkerEnd + "_" + x;
    assert b[..|MarkerBegin|] == MarkerBegin;
    assert b[..|MarkerBegin + "_"|] == MarkerBegin + "_";
    assert e[..|MarkerEnd|] == MarkerEnd;
    assert e[..|MarkerEnd + "_"|] == MarkerEnd + "_";
    MarkerKindsExclusive(b);
    MarkerKindsExclusive(e);
  }

  // ---------------------------------------------------------------------
  // take_block
  // ---------------------------------------------------------------------

  /** The range `take_block` returns for a BEGIN comment at `start` and an END
      comment at `end`: `lines[start:end]` with the blank lines at its front
      and back counted off, or no trimming at all. */
  function BlockRange(lines: seq<string>, start: int, end: int, stripEmpty: bool): (r: (int, int))
    ensures start <= r.0 && r.1 <= end - 1
  {
    if stripEmpty then
      var block := PySlice(lines, start, end);
      (start + PrefixRun(block, IsBlank), end - 1 - SuffixRun(block, IsBlank))
    else (start, end - 1)
  }

  /** The first counting loop of `take_block`: blank lines from the front,
      up to the first non-blank one. */
  method CountLeadingBlanks(allLines: seq<string>) returns (emptyBegins: nat)
    ensures emptyBegins == PrefixRun(allLines, IsBlank)
  {
    emptyBegins := 0;
    var i := 0;
    while i < |allLines|
      invariant 0 <= i <= |allLines|
      invariant emptyBegins == i
      invariant forall k :: 0 <= k < i ==> IsBlank(allLines[k])
    {
      if IsBlank(allLines[i]) {
        emptyBegins := emptyBegins + 1;
      } else {
        break;
      }
      i := i + 1;
    }
    PrefixRunUnique(allLines, IsBlank, emptyBegins);
  }

  /** The second counting loop of `take_block`, over `reversed(all_lines)`. */
  method CountTrailingBlanks(allLines: seq<string>) returns (emptyEnds: nat)
    ensures emptyEnds == SuffixRun(allLines, IsBlank)
  {
    emptyEnds := 0;
    var j := 0;
    while j < |allLines|
      invariant 0 <= j <= |allLines|
      invariant emptyEnds == j
      invariant forall k :: |allLines| - j <= k < |allLines| ==> IsBlank(allLines[k])
    {
      if IsBlank(allLines[|allLines| - 1 - j]) {
        emptyEnds := emptyEnds + 1;
      } else {
        break;
      }
      j := j + 1;
    }
    SuffixRunUnique(allLines, IsBlank, emptyEnds);
  }

  /** `take_block`, with the file's lines already read. */
  method TakeBlock(lines: seq<string>, startLineno: int, endLineno: int, stripEmpty: bool)
    returns (begin: int, end: int)
    ensures (begin, end) == BlockRange(lines, startLineno, endLineno, stripEmpty)
  {
    var emptyBegins, emptyEnds := 0, 0;
    if stripEmpty {
      var allLines := PySlice(lines, startLineno, endLineno);
      emptyBegins := CountLeadingBlanks(allLines);
      emptyEnds := CountTrailingBlanks(allLines);
    }
    return startLineno + emptyBegins, endLineno - 1 - emptyEnds;
  }

  // ---------------------------------------------------------------------
  // One comment, one file
  // ---------------------------------------------------------------------

  /** One iteration of the comment loop of `scan_sources`, on file `f` whose
      absolute path is `full`. */
  function Step(f: SourceFile, full: string, stripEmpty: bool, st: ScanState, c: Comment): Result<ScanState, ScanError> {
    var ctext := Strip(c.text);
    var st1 := if IsBegin(ctext) then st.(pending := Pending(BeginName(ctext), c.line)) else st;
    if !IsEnd(ctext) then Ok(st1)
    else
      var nameEnd := EndName(ctext);
      if nameEnd != st1.pending.name then
        Err(UnbalancedMarkers(f.path, st1.pending.name, 0, nameEnd, c.line))
      else
        var range := BlockRange(f.lines, st1.pending.line, c.line, stripEmpty);
        if range.1 <= range.0 then Err(IncorrectLineNumbers)
        else Ok(st1.(mapping := Record(st1.mapping, full, st1.pending.name, Descriptor(range.0, range.1))))
  }

  /** The comment loop over a whole file, from state `st`. */
  function Fold(f: SourceFile, full: string, stripEmpty: bool, st: ScanState, cs: seq<Comment>): Result<ScanState, ScanError>
    decreases |cs|
  {
    if cs == [] then Ok(st)
    else
      match Step(f, full, stripEmpty, st, cs[0])
      case Err(e) => Err(e)
      case Ok(stNext) => Fold(f, full, stripEmpty, stNext, cs[1..])
  }

  /** The mapping after scanning the comments `cs` of one file into `m`. */
  function ScanComments(f: SourceFile, full: string, stripEmpty: bool, cs: seq<Comment>, m: Mapping): Result<Mapping, ScanError> {
    match Fold(f, full, stripEmpty, ScanState(NoPending, m), cs)
    case Ok(st) => Ok(st.mapping)
    case Err(e) => Err(e)
  }

  /** Unfolds the comment loop by one iteration. */
  lemma FoldCons(f: SourceFile, full: string, stripEmpty: bool, st: ScanState, c: Comment, cs: seq<Comment>)
    ensures Fold(f, full, stripEmpty, st, [c] + cs)
         == (var step := Step(f, full, stripEmpty, st, c);
             if step.Err? then Err(step.error) else Fold(f, full, stripEmpty, step.value, cs))
  {
    assert ([c] + cs)[1..] == cs;
  }

  /** One step keeps the mapping well formed and leaves other files alone. */
  lemma StepKeeps(f: SourceFile, full: string, stripEmpty: bool, st: ScanState, c: Comment)
    ensures Step(f, full, stripEmpty, st, c).Ok? ==> SameExcept(st.mapping, Step(f, full, stripEmpty, st, c).value.mapping, full)
    ensures Step(f, full, stripEmpty, st, c).Ok? && WellFormed(st.mapping) ==> WellFormed(Step(f, full, stripEmpty, st, c).value.mapping)
  {
    var ctext := Strip(c.text);
    var st1 := if IsBegin(ctext) then st.(pending := Pending(BeginName(ctext), c.line)) else st;
    if IsEnd(ctext) && EndName(ctext) == st1.pending.name {
      var range := BlockRange(f.lines, st1.pending.line, c.line, stripEmpty);
      if range.0 < range.1 && WellFormed(st.mapping) {
        RecordKeepsWellFormed(st1.mapping, full, st1.pending.name, range.0, range.1);
      }
    }
  }

  /** The two statements the source uses to record an entry amount to `Record`. */
  lemma SetDefaultThenAssign(m: Mapping, m1: Mapping, path: string, name: string, v: string)
    requires m1 == if path in m then m else m[path := map[]]
    ensures m1[path := m1[path][name := v]] == Record(m, path, name, v)
  {
  }

  /** The body of the comment loop of `scan_sources`: updates the open
      marker and the mapping for one comment, or raises. */
  method ScanComment(f: SourceFile, full: string, stripEmpty: bool, blockName: string, lineno: int,
                     markerMapping: Mapping, comment: Comment)
    returns (r: Result<ScanState, ScanError>)
    ensures r == Step(f, full, stripEmpty, ScanState(Pending(blockName, lineno), markerMapping), comment)
  {
    var name, line, mapping := blockName, lineno, markerMapping;
    var ctext := Strip(comment.text);
    if StartsWith(ctext, MarkerBegin) {
      name := RemovePrefix(ctext, MarkerBegin + "_");
      line := comment.line;
    }
    if StartsWith(ctext, MarkerEnd) {
      var blockNameEnd := RemovePrefix(ctext, MarkerEnd + "_");
      if blockNameEnd == name {
        var blockBegin, blockEnd := TakeBlock(f.lines, line, comment.line, stripEmpty);
        if blockEnd <= blockBegin {
          return Err(IncorrectLineNumbers);
        }
        ghost var before := mapping;
        if full !in mapping {
          mapping := mapping[full := map[]];
        }
        SetDefaultThenAssign(before, mapping, full, name, Descriptor(blockBegin, blockEnd));
        mapping := mapping[full := mapping[full][name := Descriptor(blockBegin, blockEnd)]];
      } else {
        return Err(UnbalancedMarkers(f.path, name, 0, blockNameEnd, comment.line));
      }
    }
    return Ok(ScanState(Pending(name, line), mapping));
  }

  /** The body of the `try` block of `scan_sources` for one file: the comment
      loop, with `block_name` and `lineno` reset for the file. */
  method ScanFile(f: SourceFile, full: string, stripEmpty: bool, comments: seq<Comment>, m: Mapping)
    returns (r: Result<Mapping, ScanError>)
    ensures r == ScanComments(f, full, stripEmpty, comments, m)
    ensures WellFormed(m) && r.Ok? ==> WellFormed(r.value)
    ensures r.Ok? ==> SameExcept(m, r.value, full)
  {
    var markerMapping := m;
    var blockName := "";
    var lineno := -1;
    ghost var total := Fold(f, full, stripEmpty, ScanState(NoPending, m), comments);
    var i := 0;
    while i < |comments|
      invariant 0 <= i <= |comments|
      invariant Fold(f, full, stripEmpty, ScanState(Pending(blockName, lineno), markerMapping), comments[i..]) == total
    {
      assert comments[i..] == [comments[i]] + comments[i + 1..];
      FoldCons(f, full, stripEmpty, ScanState(Pending(blockName, lineno), markerMapping), comments[i], comments[i + 1..]);
      var res := ScanComment(f, full, stripEmpty, blockName, lineno, markerMapping, comments[i]);
      if res.Err? {
        return Err(res.error);
      }
      blockName, lineno, markerMapping := res.value.pending.name, res.value.pending.line, res.value.mapping;
      i := i + 1;
    }
    assert comments[i..] == [];
    FoldKeeps(f, full, stripEmpty, ScanState(NoPending, m), comments);
    return Ok(markerMapping);
  }

  /** The comment loop keeps the mapping well formed and touches no other file. */
  lemma {:induction false} FoldKeeps(f: SourceFile, full: string, stripEmpty: bool, st: ScanState, cs: seq<Comment>)
    ensures Fold(f, full, stripEmpty, st, cs).Ok? ==> SameExcept(st.mapping, Fold(f, full, stripEmpty, st, cs).value.mapping, full)
    ensures Fold(f, full, stripEmpty, st, cs).Ok? && WellFormed(st.mapping) ==> WellFormed(Fold(f, full, stripEmpty, st, cs).value.mapping)
    decreases |cs|
  {
    if cs != [] {
      StepKeeps(f, full, stripEmpty, st, cs[0]);
      var step := Step(f, full, stripEmpty, st, cs[0]);
      if step.Ok? {
        FoldKeeps(f, full, stripEmpty, step.value, cs[1..]);
      }
    }
  }

  // ---------------------------------------------------------------------
  // All files
  // ---------------------------------------------------------------------

  /** A file that the extractor refuses is skipped. */
  predicate Skipped(extract: (string, string) -> Extraction, f: SourceFile) {
    !extract(f.path, MimeOrDefault(f.guessedMime)).Comments?
  }

  /** One iteration of the file loop of `scan_sources`. */
  function ScanOne(f: SourceFile, stripEmpty: bool, extract: (string, string) -> Extraction,
                   absPath: string -> string, m: Mapping): Result<Mapping, ScanError> {
    match extract(f.path, MimeOrDefault(f.guessedMime))
    case Comments(cs) => ScanComments(f, absPath(f.path), stripEmpty, cs, m)
    case NotText => Ok(m)
    case Unsupported => Ok(m)
  }

  /** A per-file scan: the mapping after one more file, or the error it raises. */
  type FileScan = (SourceFile, Mapping) -> Result<Mapping, ScanError>

  /** The file loop over `files` with the per-file scan `scan`, from mapping
      `m`: the first error stops it. */
  function ScanAll(scan: FileScan, files: seq<SourceFile>, m: Mapping): Result<Mapping, ScanError>
    decreases |files|
  {
    if files == [] then Ok(m)
    else
      match scan(files[0], m)
      case Err(e) => Err(e)
      case Ok(mNext) => ScanAll(scan, files[1..], mNext)
  }

  /** The per-file scan of `scan_sources`. */
  function FileScanner(stripEmpty: bool, extract: (string, string) -> Extraction, absPath: string -> string): FileScan {
    (f: SourceFile, m: Mapping) => ScanOne(f, stripEmpty, extract, absPath, m)
  }

  /** The file loop of `scan_sources` over `files`, from mapping `m`. */
  function ScanFiles(files: seq<SourceFile>, stripEmpty: bool, extract: (string, string) -> Extraction,
                     absPath: string -> string, m: Mapping): Result<Mapping, ScanError>
  {
    ScanAll(FileScanner(stripEmpty, extract, absPath), files, m)
  }

  /** The files of all source directories, directory by directory. */
  function Flatten(dirs: seq<seq<SourceFile>>): seq<SourceFile>
    decreases |dirs|
  {
    if dirs == [] then [] else dirs[0] + Flatten(dirs[1..])
  }

  /** Unfolds the file loop by one iteration. */
  lemma ScanAllCons(scan: FileScan, f: SourceFile, rest: seq<SourceFile>, m: Mapping)
    ensures ScanAll(scan, [f] + rest, m)
         == (var one := scan(f, m); if one.Err? then Err(one.error) else ScanAll(scan, rest, one.value))
  {
    assert ([f] + rest)[1..] == rest;
  }

  /** The file loop over `files + later` is the loop over `files`, then,
      unless it raised, the loop over `later`. */
  lemma {:induction false} ScanAllAppend(scan: FileScan, files: seq<SourceFile>, later: seq<SourceFile>, m: Mapping)
    ensures ScanAll(scan, files + later, m)
         == (var r := ScanAll(scan, files, m); if r.Err? then r else ScanAll(scan, later, r.value))
    decreases |files|
  {
    if files == [] {
      assert files + later == later;
    } else {
      var f := files[0];
      assert files + later == [f] + (files[1..] + later);
      assert files == [f] + files[1..];
      ScanAllCons(scan, f, files[1..] + later, m);
      ScanAllCons(scan, f, files[1..], m);
      var one := scan(f, m);
      if one.Ok? {
        ScanAllAppend(scan, files[1..], later, one.value);
      }
    }
  }

  lemma ScanFilesCons(f: SourceFile, rest: seq<SourceFile>, stripEmpty: bool, extract: (string, string) -> Extraction,
                      absPath: string -> string, m: Mapping)
    ensures ScanFiles([f] + rest, stripEmpty, extract, absPath, m)
         == (var one := ScanOne(f, stripEmpty, extract, absPath, m);
             if one.Err? then Err(one.error) else ScanFiles(rest, stripEmpty, extract, absPath, one.value))
  {
    ScanAllCons(FileScanner(stripEmpty, extract, absPath), f, rest, m);
  }

  /** Every mapping the scan returns holds only ranges with begin < end. */
  lemma {:induction false} ScanFilesKeepsWellFormed(files: seq<SourceFile>, stripEmpty: bool,
                                                    extract: (string, string) -> Extraction,
                                                    absPath: string -> string, m: Mapping)
    requires WellFormed(m)
    ensures ScanFiles(files, stripEmpty, extract, absPath, m).Ok? ==> WellFormed(ScanFiles(files, stripEmpty, extract, absPath, m).value)
    decreases |files|
  {
    if files != [] {
      var f := files[0];
      var one := ScanOne(f, stripEmpty, extract, absPath, m);
      if extract(f.path, MimeOrDefault(f.guessedMime)).Comments? {
        FoldKeeps(f, absPath(f.path), stripEmpty, ScanState(NoPending, m), extract(f.path, MimeOrDefault(f.guessedMime)).comments);
      }
      if one.Ok? {
        ScanFilesKeepsWellFormed(files[1..], stripEmpty, extract, absPath, one.value);
      }
    }
  }

  /** The body of the file loop of `scan_sources`: guess the MIME type,
      extract the comments and scan them; skip files the extractor refuses. */
  method ScanOneFile(f: SourceFile, stripEmptyLine: bool, extract: (string, string) -> Extraction,
                     absPath: string -> string, markerMapping: Mapping)
    returns (res: Result<Mapping, ScanError>)
    ensures res == ScanOne(f, stripEmptyLine, extract, absPath, markerMapping)
  {
    var mimeType := MimeOrDefault(f.guessedMime);
    match extract(f.path, mimeType) {
      case Comments(cs) =>
        res := ScanFile(f, absPath(f.path), stripEmptyLine, cs, markerMapping);
      case NotText =>
        res := Ok(markerMapping);
      case Unsupported =>
        res := Ok(markerMapping);
    }
  }

  /** The inner loop of `scan_sources`: the files one source directory's
      walk yields, in order, from mapping `markerMapping`. */
  method ScanDirectory(files: seq<SourceFile>, stripEmptyLine: bool, extract: (string, string) -> Extraction,
                       absPath: string -> string, markerMapping: Mapping)
    returns (r: Result<Mapping, ScanError>)
    ensures r == ScanAll(FileScanner(stripEmptyLine, extract, absPath), files, markerMapping)
  {
    ghost var scan := FileScanner(stripEmptyLine, extract, absPath);
    var m := markerMapping;
    var j := 0;
    while j < |files|
      invariant 0 <= j <= |files|
      invariant ScanAll(scan, files[j..], m) == ScanAll(scan, files, markerMapping)
    {
      var f := files[j];
      assert files[j..] == [f] + files[j + 1..];
      ScanAllCons(scan, f, files[j + 1..], m);
      var res := ScanOneFile(f, stripEmptyLine, extract, absPath, m);
      assert res == scan(f, m);
      if res.Err? {
        return Err(res.error);
      }
      m := res.value;
      j := j + 1;
    }
    return Ok(m);
  }

  /** `scan_sources`: each source directory is given as the files its walk
      yields; `extract` is the comment extractor and `absPath` is
      `os.path.abspath`. */
  method ScanSources(sourceDirs: seq<seq<SourceFile>>, stripEmptyLine: bool,
                     extract: (string, string) -> Extraction, absPath: string -> string)
    returns (r: Result<Mapping, ScanError>)
    ensures r == ScanFiles(Flatten(sourceDirs), stripEmptyLine, extract, absPath, map[])
    ensures r.Ok? ==> WellFormed(r.value)
  {
    var markerMapping: Mapping := map[];
    ghost var scan := FileScanner(stripEmptyLine, extract, absPath);
    ghost var total := ScanAll(scan, Flatten(sourceDirs), map[]);
    ScanFilesKeepsWellFormed(Flatten(sourceDirs), stripEmptyLine, extract, absPath, map[]);
    var d := 0;
    while d < |sourceDirs|
      invariant 0 <= d <= |sourceDirs|
      invariant ScanAll(scan, Flatten(sourceDirs[d..]), markerMapping) == total
    {
      var files := sourceDirs[d];
      assert sourceDirs[d..] == [files] + sourceDirs[d + 1..];
      ScanAllAppend(scan, files, Flatten(sourceDirs[d + 1..]), markerMapping);
      var res := ScanDirectory(files, stripEmptyLine, extract, absPath, markerMapping);
      if res.Err? {
        return Err(res.error);
      }
      markerMapping := res.value;
      d := d + 1;
    }
    return Ok(markerMapping);
  }
}
