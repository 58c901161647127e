# autodoc code blocks, modelled in Dafny

`code_block.py` prepares markdown files for a code-block renderer in two
passes.

1. **Marker resolver** (`scan_sources` with its inner `take_block`). It walks
   every comment of every source file. It pairs a `SOURCE_MARKER_BEGIN_<name>`
   comment with the next `SOURCE_MARKER_END_<name>`. It computes the block's
   line range, optionally trimming blank lines at both ends. It records the
   range as `lines=<begin>-<end>` in a nested map from absolute file path to
   block name.
2. **Placeholder rewriter** (`prepare_markdown`). It copies a markdown file line
   by line. A line whose stripped text matches
   `<!-- MARKDOWN-AUTO-DOCS:START (CODE:src=<src>&label=<name> ... ) -->` gets
   every `&label=<name>` replaced by `&` followed by the recorded descriptor.
   A placeholder whose file or label was never recorded is fatal. The function
   reports whether anything was replaced.

The project models both passes and proves what they promise.

Files:
- `results.dfy`: `Option` and `Result`.
- `pytext.dfy`: the Python string and list operations the code relies on, each
  stated with Python's semantics. These are `str.strip` and `str.isspace`
  (Unicode whitespace), `startswith`, `re.sub("^p", "")`, list slicing with
  clamped and negative bounds, `str.replace` (proved equal to
  `rep.join(s.split(pat))`) and `str(int)` (with a parser proved to invert it).
- `markers.dfy`: the marker map, the `lines=b-e` descriptor with its round
  trip, and `setdefault(path, {})[name] = v`.
- `resolver.dfy`: the resolver.
  - `take_block` is a method with the source's two counting loops, proved
    equal to the range function `BlockRange`.
  - The comment loop of one file is a method, proved equal to a fold.
  - `scan_sources` is a method over the directories' file lists, proved equal
    to a fold over all files.
- `resolver_properties.dfy`: ranges, the single pending marker, error cases,
  and skipped files.
- `rewriter.dfy`: a hand-written matcher for the pattern, the per-line rewrite,
  and `prepare_markdown` as a method proved equal to a fold over the lines.
- `rewriter_properties.dfy`: the matcher finds exactly the match the pattern
  defines, dangling references are fatal, lines are otherwise copied unchanged,
  and canonical placeholders are rewritten as intended.
- `fixtures.dfy`: worked examples on `source/tagger.py` and `source/pipeline.py`.

The rest of the system enters as parameters:
- The comment extractor (`comment_parser`) is a function from a path and a
  MIME type to the file's comments, or to one of the two exceptions the scan
  catches.
- `os.path.abspath` is `absPath`.
- The markdown-side path resolution (`abspath(join(dirname(md), src))`) is
  `resolve`.
- File contents are passed in as sequences of lines.

Comment line numbers are taken as the extractor reports them.

### Behaviour of the code that the model keeps

- The pending marker starts as `("", -1)`. It is overwritten by every BEGIN
  and never cleared by a successful END. A second END with the same name
  closes the same BEGIN again. An END reading `SOURCE_MARKER_END_` before any
  BEGIN matches the empty initial name.
- The unbalanced-markers error reports the BEGIN line as the literal `0`
  (code_block.py:176).
- The `len(groups) > 2` check (code_block.py:234) cannot fire: the pattern
  has two groups. `Placeholder` has exactly two fields, so the model has no
  such branch.
- `marker_dict` is typed `Dict[str, str]` but is a map of maps
  (code_block.py:163-168). The model uses `map<string, map<string, string>>`.
- The replacement runs on the unstripped line and replaces every occurrence
  of `&label=<name>`. That includes an occurrence outside the placeholder, or
  one that is the start of a longer label.
- The docstrings (code_block.py:80-97, 214-216) show `SOURCE_MARKER_START`
  and `path&3-4`. The code uses `SOURCE_MARKER_BEGIN` and `lines=b-e`, and
  the model follows the code.

### Two consequences of the code worth spelling out

- A block with BEGIN on line 5, content on lines 6-7 and END on line 8 gives
  `lines=5-7`. The code slices `lines[5:8]`. With the
  extractor's 1-based comment numbers, that slice runs up to and includes
  the END comment's line (`Fixtures.DemoBlock`).
- An unbalanced-markers or bad-line-numbers `RuntimeError` propagates out of
  `scan_sources`, so no mapping is returned at all. The model returns `Err`
  alone.

## Model

| member | source | states |
|---|---|---|
| PyText.Strip | code_block.py:144 | `str.strip()`: the result is empty exactly when every character is whitespace, and otherwise begins and ends with a non-whitespace character |
| PyText.StripCutsOnlyWhitespace | code_block.py:144 | `str.strip()` returns a stretch `s[a:b]` of its argument with only whitespace before `a` and after `b`; with `Strip`'s ends this fixes the result |
| PyText.BlankIsStripEmpty | code_block.py:119 | the blank-line test used for trimming agrees with `l.strip() == ""` |
| PyText.RemovePrefix | code_block.py:146 | `re.sub("^p", "", s)`: when `s` starts with `p` the result is what follows `p`, otherwise `s` unchanged |
| PyText.PySlice | code_block.py:116 | list slicing `xs[i:j]` agrees with the plain subsequence whenever the bounds are in range |
| PyText.SplitPiecesAreFree | code_block.py:254 | `s.split(sep)` cuts at every occurrence: no piece contains `sep` |
| PyText.ReplaceIsJoinOfSplit | code_block.py:254 | `s.replace(pat, rep)` equals `rep.join(s.split(pat))`; with `SplitPiecesAreFree` and `JoinSplitIdentity`, every occurrence is replaced and the text between occurrences is kept |
| PyText.JoinSplitIdentity | code_block.py:254 | joining the split of `s` back with `pat` gives `s` |
| PyText.NatToStringRoundTrip | code_block.py:168 | the decimal digits `str(n)` writes denote `n` |
| PyText.ParseIntOfIntToString | code_block.py:168 | reading back `str(n)`, followed by a non-digit or nothing, gives `n` and its length |
| Markers.DescriptorRoundTrip | code_block.py:168 | the recorded `lines=b-e` text reads back as exactly `(b, e)`, for any integers including negative ones |
| Markers.Record | code_block.py:161-168 | `setdefault(fullpath, {})[name] = v`: the entry is added or overwritten, the path's other names and all other paths are unchanged |
| Markers.RecordKeepsWellFormed | code_block.py:158-168 | recording a range with `begin < end` keeps every descriptor in the map a valid range with begin before end |
| Resolver.MarkerKindsExclusive | code_block.py:145-149 | no comment is both a BEGIN and an END marker |
| Resolver.NamesOfMarkers | code_block.py:145-152 | `SOURCE_MARKER_BEGIN_x` and `SOURCE_MARKER_END_x` are recognised as their own kind only, with name `x` |
| Resolver.BlockRange | code_block.py:109-130 | the range lies within `start .. end-1` |
| Resolver.CountLeadingBlanks | code_block.py:118-122 | the first loop counts exactly the leading blank lines of the slice |
| Resolver.CountTrailingBlanks | code_block.py:124-128 | the loop over the reversed slice counts exactly the trailing blank lines |
| Resolver.TakeBlock | code_block.py:109-130 | `take_block` returns `(s+lead, e-1-trail)` trimmed, `(s, e-1)` untrimmed, as `BlockRange` defines |
| Resolver.StepKeeps | code_block.py:153-168 | one comment changes the map only under the current file's path, and keeps every descriptor valid |
| Resolver.ScanComment | code_block.py:144-180 | one iteration of the comment loop, equal to the step function: BEGIN, END closing, END mismatching, plain |
| Resolver.ScanFile | code_block.py:140-180 | the comment loop over one file equals the fold, keeps the map well formed and changes only this file's entry |
| Resolver.FoldKeeps | code_block.py:141-180 | over any comment sequence only this file's entry changes and every recorded range keeps begin before end |
| Resolver.ScanFilesKeepsWellFormed | code_block.py:132-187 | every mapping a successful scan returns holds only ranges with begin before end |
| Resolver.ScanOneFile | code_block.py:134-185 | one iteration of the file loop: the MIME default, then the comment scan of a text file or the skip of a rejected one, equal to the per-file step |
| Resolver.ScanDirectory | code_block.py:133-185 | the loop over one directory's files equals the fold of the per-file step over them |
| Resolver.ScanAllAppend | code_block.py:132-187 | scanning two file lists in sequence is the same as scanning their concatenation, and an error in the first stops the scan |
| Resolver.ScanSources | code_block.py:63-187 | `scan_sources` over all directories equals the fold over all their files, and a returned map holds only ranges with begin before end |
| ResolverProperties.TrimmedLinesAreBlank | code_block.py:118-130 | with trimming, only blank lines are cut from both ends of `lines[s:e]` |
| ResolverProperties.TrimmedRangeEndsOnNonBlankLines | code_block.py:118-130 | with trimming, a block holding a non-blank line keeps it, and starts and ends on non-blank lines |
| ResolverProperties.AllBlankBlockIsEmpty | code_block.py:112-130 | a block of blank lines only comes out as `(e, s-1)`, which the caller rejects |
| ResolverProperties.TrimmingIsNoOpOnTightBlock | code_block.py:112-130 | when the first and last lines of `lines[s:e]` are not blank, trimmed and untrimmed both give `(s, e-1)` |
| ResolverProperties.NoTrailingTrimAtEndMarker | code_block.py:124-130 | when `lines[e-1]` (the END comment's line under 1-based numbering) is not blank, the range ends at `e-1` |
| ResolverProperties.EndWithOtherNameRaises | code_block.py:169-180 | an END whose name differs from the pending one raises the unbalanced-markers error, naming both markers and the BEGIN line as 0 |
| ResolverProperties.BeginOverwritesPending | code_block.py:145-147 | a BEGIN replaces the pending name and line, whatever they were, and leaves the map alone |
| ResolverProperties.CloseKeepsPending | code_block.py:153-168 | a successful END has the pending name and leaves the pending marker unchanged |
| ResolverProperties.FoldAppend | code_block.py:143-180 | scanning two comment runs in sequence is the same as scanning their concatenation, and an error in the first stops the scan |
| ResolverProperties.PlainCommentsChangeNothing | code_block.py:143-153 | comments that are neither marker change neither the pending marker nor the map |
| ResolverProperties.PairedMarkersRecordRange | code_block.py:145-168 | BEGIN_x at s, plain comments, END_x at e record `x -> lines=b-e` from `take_block`'s range, or raise "Incorrect code block line numbers" when that range is empty |
| ResolverProperties.MismatchedMarkersRaise | code_block.py:149-180 | BEGIN_a followed by END_b with b ≠ a raises the unbalanced-markers error and the rest of the file is not scanned |
| ResolverProperties.LastBeginWins | code_block.py:141-147 | of two BEGINs in a row the later one wins: there is no nesting |
| ResolverProperties.StrayEndMatchesInitialState | code_block.py:141-168 | an END `SOURCE_MARKER_END_` before any BEGIN matches the initial empty name and, untrimmed, records a range from -1 |
| ResolverProperties.SkippedFileIsIgnored | code_block.py:182-185 | a file the extractor rejects as non-text or unsupported is skipped: scanning with or without it gives the same result |
| Rewriter.FirstLabel | code_block.py:50 | the lazy `(.*?)`: the first position up to the end of the line where `&label=(\w+).*?\) -->` matches, with no earlier such position, and none when no position on the line matches |
| Rewriter.Match | code_block.py:232 | `re.match` of the pattern: a result is the match the pattern defines, and no result means the pattern matches at no position |
| Rewriter.RewriteLine | code_block.py:232-254 | a line is changed exactly when its stripped text matches |
| Rewriter.RewriteOk | code_block.py:226-256 | a rewrite succeeds exactly when every line does; it then copies every line, in order, changed or not, and reports a replacement exactly when some line changed |
| Rewriter.RewriteErr | code_block.py:246-252 | a failed rewrite stops at the first line that raises and fails with that line's error |
| Rewriter.PrepareMarkdown | code_block.py:208-261 | `prepare_markdown`: succeeds exactly when every placeholder resolves; then the copy has the same number of lines, each the per-line output, and `is_replaced` holds exactly when some line matched; otherwise it fails with the first dangling reference's error |
| Rewriter.PrepareAllSpec | code_block.py:226-261 | the same facts for the whole-file fold |
| RewriterProperties.CloserFromOccurrence | code_block.py:50 | `.*?\) -->` matches from position j exactly when `) -->` starts somewhere between j and the end of j's line |
| RewriterProperties.MatchShape | code_block.py:50 | a match is the prefix, the source, `&label=` and a non-empty run of word characters that the next character does not extend, followed later on the line by `) -->` |
| RewriterProperties.MatchIsUnique | code_block.py:50 | the pattern captures at most one (source, label) pair per line |
| RewriterProperties.MatchIsTheMatch | code_block.py:232 | the matcher returns a pair exactly when it is the pattern's match, and nothing exactly when the pattern does not match |
| RewriterProperties.NonMatchingLineIsCopied | code_block.py:255-256 | a line the pattern does not match is written unchanged |
| RewriterProperties.DanglingReferenceIsFatal | code_block.py:246-252 | for a matching line, an unknown source path raises the RuntimeError, a known path without the label raises the KeyError, and only a line with both keys succeeds, always as a rewritten line |
| RewriterProperties.RewrittenLineDiffersOnlyAtLabel | code_block.py:247-254 | the rewritten line is the original split into pieces that hold no `&label=<name>` and re-joined with `&<descriptor>`, and re-joining with the label gives the original back; in a well-formed map the descriptor is a valid `lines=b-e` |
| RewriterProperties.ReplaceAfter | code_block.py:254 | `str.replace` keeps a stretch that cannot start an occurrence and replaces the occurrence after it |
| RewriterProperties.ReplaceAbsent | code_block.py:254 | `str.replace` leaves a string without the pattern's first character unchanged |
| RewriterProperties.NewlineFreeUpTo | code_block.py:50 | `.` does not cross a newline: `t[i:n]` is newline-free exactly when n is at most the end of i's line |
| RewriterProperties.CanonicalPlaceholderMatches | code_block.py:50 | `<!-- MARKDOWN-AUTO-DOCS:START (CODE:src=<src>&label=<lab>) -->` with a source free of `&` and newlines and a word label matches with exactly (src, lab) |
| RewriterProperties.CanonicalPlaceholderRewrite | code_block.py:232-254 | such a placeholder is written as `<!-- ...src=<src>&<descriptor>) -->`, with nothing else on the line changed |
| RewriterProperties.PlaceholderFreeFileIsUnchanged | code_block.py:226-261 | a markdown file without placeholders is copied unchanged and `is_replaced` is false |
| RewriterProperties.FileFailsOnDanglingReference | code_block.py:246-252 | one dangling reference anywhere in a file makes the whole file fail |
| Fixtures.TaggerImportRange | source/tagger.py:1-7 | BEGIN at 1 and END at 7, trimmed, give the range (1, 6) |
| Fixtures.TaggerClassRange | source/tagger.py:10-32 | BEGIN at 10 and END at 32, trimmed, give the range (10, 31) |
| Fixtures.PipelineScan | source/pipeline.py:1-23 | scanning the file with trimming records exactly `import -> lines=1-6` and `pipeline -> lines=9-22` under its absolute path |
| Fixtures.PipelineImportPlaceholder | code_block.py:254 | a placeholder for `./source/pipeline.py&label=import` becomes `...&lines=1-6) -->` |
| Fixtures.DemoBlock | code_block.py:116-130 | BEGIN at 5 and END at 8, with line 6 and the END line not blank, give the range (5, 7), that is `lines=5-7` |

## Left out

- `list_files`, `prepare_all_markdowns` and the `__main__` block (code_block.py:57-60, 264-315): directory walking, directory creation, file copying, argument handling and logging. The model takes each directory's files as a given sequence, in walk order.
- `run_autodoc` (code_block.py:190-205): it runs an external docker command. The model returns the `is_replaced` flag that decides whether it would run.
- `comment_parser.extract_comments`, the MIME map registration and `mimetypes.guess_type` (code_block.py:42-44, 54, 134, 143): foreign libraries. The guessed type is a field of each file and the extractor is a parameter; its `UnicodeDecodeError` and `UnsupportedError` are the `NotText` and `Unsupported` outcomes.
- File reading and writing, in `take_block`'s re-read and in `prepare_markdown`: lines are passed in, and the copy is returned instead of written, so a partly written copy left on disk after a failure is not modelled. `take_block`'s own read of the file is assumed to succeed and to return the same lines.
- `os.path.abspath`, `os.path.join` and `os.path.dirname` (code_block.py:161, 241-244): these depend on the working directory and the file system. They are the uninterpreted parameters `absPath` and `resolve`. The absolute path of a file is taken once per file rather than at each closed block, which gives the same value.
- Logging calls (code_block.py:181-185): no effect on results.
- Rewriter.IsWordChar: `\w` is restricted to ASCII letters, digits and `_`. Python's default Unicode `\w` is not modelled; code_block.py:31 requires ASCII tag names.
- The exceptions' message texts: the errors carry the values the messages interpolate, not the formatted strings.
