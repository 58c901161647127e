/** The placeholder rewriter of code_block.py (`prepare_markdown`): every
    markdown line that matches the autodoc pattern has its `&label=<name>`
    replaced by `&lines=<begin>-<end>` taken from the marker mapping. */
module Rewriter {

  import opened Results
  import opened PyText
  import opened Markers

  /** The literal text the pattern at code_block.py:50 starts with. */
  const AutodocPrefix := "<!-- MARKDOWN-AUTO-DOCS:START (CODE:src="
  const LabelKey := "&label="
  const Closer := ") -->"

  /** `\w`, restricted to ASCII. */
  predicate IsWordChar(c: char) {
    'a' <= c <= 'z' || 'A' <= c <= 'Z' || '0' <= c <= '9' || c == '_'
  }

  /** Length of the run of word characters at `t[j..]`: what the greedy `(\w+)` takes. */
  function WordRun(t: string, j: nat): (w: nat)
    requires j <= |t|
    ensures j + w <= |t|
    ensures forall m :: j <= m < j + w ==> IsWordChar(t[m])
    ensures j + w < |t| ==> !IsWordChar(t[j + w])
    decreases |t| - j
  {
    if j < |t| && IsWordChar(t[j]) then 1 + WordRun(t, j + 1) else 0
  }

  /** Where the line holding position `i` ends: the first newline at or
      after `i`, or the end of `t`. `.` reaches exactly the positions up to it. */
  function LineEnd(t: string, i: nat): (e: nat)
    requires i <= |t|
    ensures i <= e <= |t|
    ensures forall m :: i <= m < e ==> t[m] != '\n'
    ensures e < |t| ==> t[e] == '\n'
    decreases |t| - i
  {
    if i < |t| && t[i] != '\n' then LineEnd(t, i + 1) else i
  }

  /** `.*?\) -->` matches at `j`: `) -->` occurs at or after `j`, with no
      newline before it (`.` does not match a newline). */
  predicate CloserFrom(t: string, j: nat)
    decreases |t| - j
  {
    if j > |t| then false
    else if CloserAt(t, j) then true
    else j < |t| && t[j] != '\n' && CloserFrom(t, j + 1)
  }

  /** `) -->` occurs at position `k` of `t`. */
  predicate CloserAt(t: string, k: nat) {
    k + |Closer| <= |t| && t[k..k + |Closer|] == Closer
  }

  /** `&label=(\w+).*?\) -->` matches at position `i` of `t`. */
  predicate LabelAt(t: string, i: nat) {
    var j := i + |LabelKey|;
    j <= |t| && t[i..j] == LabelKey && WordRun(t, j) > 0 && CloserFrom(t, j + WordRun(t, j))
  }

  /** The lazy `(.*?)`: the first position from `i` on, reachable without
      crossing a newline, where the rest of the pattern matches. */
  function FirstLabel(t: string, i: nat): (r: Option<nat>)
    requires i <= |t|
    ensures r.Some? ==> i <= r.value <= LineEnd(t, i) && LabelAt(t, r.value)
    ensures r.Some? ==> forall k :: i <= k < r.value ==> !LabelAt(t, k)
    ensures r.None? ==> forall k :: i <= k <= LineEnd(t, i) ==> !LabelAt(t, k)
    decreases |t| - i
  {
    if LabelAt(t, i) then Some(i)
    else if i < |t| && t[i] != '\n' then FirstLabel(t, i + 1)
    else None
  }

  /** The two groups of a match: the source reference and the label. */
  datatype Placeholder = Placeholder(src: string, labelName: string)

  /** What follows the literal prefix. */
  function Body(s: string): string
    requires StartsWith(s, AutodocPrefix)
  {
    s[|AutodocPrefix|..]
  }

  /** The label word that `LabelAt(t, i)` found. */
  function LabelText(t: string, i: nat): string
    requires LabelAt(t, i)
  {
    var j := i + |LabelKey|;
    t[j..j + WordRun(t, j)]
  }

  /** `p` is what the pattern captures when it matches at the start of `s`:
      `src` is the shortest newline-free stretch after the prefix that is
      followed by the rest of the pattern. */
  ghost predicate IsMatch(s: string, p: Placeholder) {
    && StartsWith(s, AutodocPrefix)
    && |p.src| <= |Body(s)|
    && Body(s)[..|p.src|] == p.src
    && |p.src| <= LineEnd(Body(s), 0)
    && LabelAt(Body(s), |p.src|)
    && p.labelName == LabelText(Body(s), |p.src|)
    && forall k :: 0 <= k < |p.src| ==> !LabelAt(Body(s), k)
  }

  /** The pattern matches nowhere at the start of `s`. */
  ghost predicate NoMatch(s: string) {
    || !StartsWith(s, AutodocPrefix)
    || forall k :: 0 <= k <= LineEnd(Body(s), 0) ==> !LabelAt(Body(s), k)
  }

  /** `re.match(COMMENT_AUTODOC_BEGIN_PATTERN, s)`: the pattern must match at
      the start of `s`, and may be followed by anything. */
  function Match(s: string): (r: Option<Placeholder>)
    ensures r.Some? ==> IsMatch(s, r.value)
    ensures r.None? ==> NoMatch(s)
  {
    if !StartsWith(s, AutodocPrefix) then None
    else
      var t := Body(s);
      match FirstLabel(t, 0)
      case None => None
      case Some(i) => Some(Placeholder(t[..i], LabelText(t, i)))
  }

  /** The exceptions `prepare_markdown` raises for a dangling reference. */
  datatype RewriteError =
    | UnknownSource(labelName: string, fullPath: string, markdownPath: string)  // RuntimeError
    | UnknownLabel(labelName: string)                                            // KeyError

  /** One line of the markdown file: `None` when it is copied as it is, or
      the rewritten line. `resolve(markdownPath, src)` is
      `os.path.abspath(os.path.join(os.path.dirname(markdownPath), src))`. */
  function RewriteLine(markdownPath: string, markers: Mapping, resolve: (string, string) -> string,
                       line: string): (r: Result<Option<string>, RewriteError>)
    ensures r.Ok? ==> (r.value.Some? <==> Match(Strip(line)).Some?)
  {
    match Match(Strip(line))
    case None => Ok(None)
    case Some(p) =>
      var fullSrcPath := resolve(markdownPath, p.src);
      if fullSrcPath !in markers then Err(UnknownSource(p.labelName, fullSrcPath, markdownPath))
      else if p.labelName !in markers[fullSrcPath] then Err(UnknownLabel(p.labelName))
      else Ok(Some(ReplaceAll(line, LabelKey + p.labelName, "&" + markers[fullSrcPath][p.labelName])))
  }

  /** What is written to the copy for `line`. */
  function OutputLine(line: string, change: Option<string>): string {
    match change
    case None => line
    case Some(l) => l
  }

  /** The lines of the copy and `is_replaced`. */
  datatype Rewritten = Rewritten(lines: seq<string>, replaced: bool)

  /** One iteration of the loop of `prepare_markdown`. */
  method RewriteStep(markdownPath: string, markers: Mapping, resolve: (string, string) -> string,
                     line: string)
    returns (res: Result<Option<string>, RewriteError>)
    ensures res == RewriteLine(markdownPath, markers, resolve, line)
    ensures res.Ok? ==> (res.value.Some? <==> Match(Strip(line)).Some?)
  {
    var matched := Match(Strip(line));
    if matched.None? {
      return Ok(None);
    }
    var p := matched.value;
    var fullSrcPath := resolve(markdownPath, p.src);
    if fullSrcPath !in markers {
      return Err(UnknownSource(p.labelName, fullSrcPath, markdownPath));
    }
    if p.labelName !in markers[fullSrcPath] {
      return Err(UnknownLabel(p.labelName));
    }
    var replaceLabel := markers[fullSrcPath][p.labelName];
    return Ok(Some(ReplaceAll(line, LabelKey + p.labelName, "&" + replaceLabel)));
  }

  /** What one line turns into: its change, or the error it raises. */
  type LineChange = string -> Result<Option<string>, RewriteError>

  /** The rest of the loop of `prepare_markdown` over `lines`, with the copy
      so far and `is_replaced` so far in `acc`. */
  function Rewrite(change: LineChange, acc: Rewritten, lines: seq<string>): Result<Rewritten, RewriteError>
    decreases |lines|
  {
    if lines == [] then Ok(acc)
    else
      match change(lines[0])
      case Err(e) => Err(e)
      case Ok(c) =>
        Rewrite(change, Rewritten(acc.lines + [OutputLine(lines[0], c)], acc.replaced || c.Some?), lines[1..])
  }

  /** The per-line change of a markdown file. */
  function LineRewriter(markdownPath: string, markers: Mapping, resolve: (string, string) -> string): LineChange {
    line => RewriteLine(markdownPath, markers, resolve, line)
  }

  /** The whole file, from an empty copy. */
  function PrepareAll(markdownPath: string, markers: Mapping, resolve: (string, string) -> string,
                      lines: seq<string>): Result<Rewritten, RewriteError>
  {
    Rewrite(LineRewriter(markdownPath, markers, resolve), Rewritten([], false), lines)
  }

  /** A successful rewrite copies every line, changed or not, in order, and
      reports a replacement exactly when some line changed. */
  lemma RewriteOk(change: LineChange, acc: Rewritten, lines: seq<string>)
    ensures Rewrite(change, acc, lines).Ok? <==> forall k :: 0 <= k < |lines| ==> change(lines[k]).Ok?
    ensures Rewrite(change, acc, lines).Ok? ==>
      var w := Rewrite(change, acc, lines).value;
      && |w.lines| == |acc.lines| + |lines|
      && w.lines[..|acc.lines|] == acc.lines
      && (forall k :: 0 <= k < |lines| ==> w.lines[|acc.lines| + k] == OutputLine(lines[k], change(lines[k]).value))
      && (w.replaced <==> acc.replaced || exists k :: 0 <= k < |lines| && change(lines[k]).value.Some?)
  {
    RewriteOkExactly(change, acc, lines);
    if forall k :: 0 <= k < |lines| ==> change(lines[k]).Ok? {
      RewriteCopiesLines(change, acc, lines);
      RewriteReportsReplacement(change, acc, lines);
    }
  }

  lemma {:induction false} RewriteOkExactly(change: LineChange, acc: Rewritten, lines: seq<string>)
    ensures Rewrite(change, acc, lines).Ok? <==> forall k :: 0 <= k < |lines| ==> change(lines[k]).Ok?
    decreases |lines|
  {
    if lines != [] {
      var c := change(lines[0]);
      if c.Ok? {
        var acc1 := Rewritten(acc.lines + [OutputLine(lines[0], c.value)], acc.replaced || c.value.Some?);
        RewriteOkExactly(change, acc1, lines[1..]);
        assert forall k :: 1 <= k < |lines| ==> lines[1..][k - 1] == lines[k];
      }
    }
  }

  lemma {:induction false} RewriteCopiesLines(change: LineChange, acc: Rewritten, lines: seq<string>)
    requires forall k :: 0 <= k < |lines| ==> change(lines[k]).Ok?
    ensures Rewrite(change, acc, lines).Ok?
    ensures var w := Rewrite(change, acc, lines).value;
      && |w.lines| == |acc.lines| + |lines|
      && w.lines[..|acc.lines|] == acc.lines
      && (forall k :: 0 <= k < |lines| ==> w.lines[|acc.lines| + k] == OutputLine(lines[k], change(lines[k]).value))
    decreases |lines|
  {
    if lines != [] {
      var c := change(lines[0]);
      var acc1 := Rewritten(acc.lines + [OutputLine(lines[0], c.value)], acc.replaced || c.value.Some?);
      assert forall k :: 1 <= k < |lines| ==> lines[1..][k - 1] == lines[k];
      RewriteCopiesLines(change, acc1, lines[1..]);
      var w := Rewrite(change, acc, lines).value;
      assert w.lines[..|acc1.lines|] == acc1.lines;
      assert w.lines[..|acc.lines|] == acc1.lines[..|acc.lines|];
    }
  }

  lemma {:induction false} RewriteReportsReplacement(change: LineChange, acc: Rewritten, lines: seq<string>)
    requires forall k :: 0 <= k < |lines| ==> change(lines[k]).Ok?
    ensures Rewrite(change, acc, lines).Ok?
    ensures Rewrite(change, acc, lines).value.replaced
        <==> acc.replaced || exists k :: 0 <= k < |lines| && change(lines[k]).value.Some?
    decreases |lines|
  {
    if lines != [] {
      var c := change(lines[0]);
      var acc1 := Rewritten(acc.lines + [OutputLine(lines[0], c.value)], acc.replaced || c.value.Some?);
      assert forall k :: 1 <= k < |lines| ==> lines[1..][k - 1] == lines[k];
      RewriteReportsReplacement(change, acc1, lines[1..]);
      if exists k :: 0 <= k < |lines| && change(lines[k]).value.Some? {
        var k :| 0 <= k < |lines| && change(lines[k]).value.Some?;
        if k > 0 {
          assert change(lines[1..][k - 1]).value.Some?;
        }
      }
    }
  }

  /** A failed rewrite stops at the first line that raises, and fails with
      that line's error. */
  lemma {:induction false} RewriteErr(change: LineChange, acc: Rewritten, lines: seq<string>)
    ensures Rewrite(change, acc, lines).Err? ==> exists k :: (
      && 0 <= k < |lines|
      && change(lines[k]) == Err(Rewrite(change, acc, lines).error)
      && forall j :: 0 <= j < k ==> change(lines[j]).Ok?)
    decreases |lines|
  {
    if lines != [] {
      var c := change(lines[0]);
      if c.Ok? {
        var acc1 := Rewritten(acc.lines + [OutputLine(lines[0], c.value)], acc.replaced || c.value.Some?);
        RewriteErr(change, acc1, lines[1..]);
        if Rewrite(change, acc, lines).Err? {
          var k :| && 0 <= k < |lines[1..]|
                   && change(lines[1..][k]) == Err(Rewrite(change, acc, lines).error)
                   && forall j :: 0 <= j < k ==> change(lines[1..][j]).Ok?;
          assert forall j :: 1 <= j < k + 1 ==> lines[j] == lines[1..][j - 1];
          assert lines[k + 1] == lines[1..][k];
        }
      }
    }
  }

  /** `prepare_markdown`, with the markdown file's lines already read and the
      copy returned instead of written: the first dangling reference aborts
      the whole file. */
  method PrepareMarkdown(markdownPath: string, lines: seq<string>, markers: Mapping,
                         resolve: (string, string) -> string)
    returns (r: Result<Rewritten, RewriteError>)
    ensures r == PrepareAll(markdownPath, markers, resolve, lines)
    ensures r.Ok? <==> forall k :: 0 <= k < |lines| ==> RewriteLine(markdownPath, markers, resolve, lines[k]).Ok?
    ensures r.Ok? ==> |r.value.lines| == |lines|
    ensures r.Ok? ==> forall k :: 0 <= k < |lines| ==>
      r.value.lines[k] == OutputLine(lines[k], RewriteLine(markdownPath, markers, resolve, lines[k]).value)
    ensures r.Ok? ==> (r.value.replaced <==> exists k :: 0 <= k < |lines| && Match(Strip(lines[k])).Some?)
    ensures r.Err? ==> exists k :: (
      && 0 <= k < |lines|
      && RewriteLine(markdownPath, markers, resolve, lines[k]) == Err(r.error)
      && forall j :: 0 <= j < k ==> RewriteLine(markdownPath, markers, resolve, lines[j]).Ok?)
  {
    ghost var change := LineRewriter(markdownPath, markers, resolve);
    var out: seq<string> := [];
    var isReplaced := false;
    var i := 0;
    while i < |lines|
      invariant 0 <= i <= |lines|
      invariant Rewrite(change, Rewritten(out, isReplaced), lines[i..]) == PrepareAll(markdownPath, markers, resolve, lines)
    {
      var res := RewriteStep(markdownPath, markers, resolve, lines[i]);
      assert change(lines[i]) == res;
      if res.Err? {
        r := Err(res.error);
        PrepareAllSpec(markdownPath, markers, resolve, lines);
        return;
      }
      if res.value.Some? {
        isReplaced := true;
      }
      out := out + [OutputLine(lines[i], res.value)];
      assert lines[i..][1..] == lines[i + 1..];
      i := i + 1;
    }
    r := Ok(Rewritten(out, isReplaced));
    PrepareAllSpec(markdownPath, markers, resolve, lines);
  }

  /** `RewriteOk` and `RewriteErr` for a whole markdown file. */
  lemma PrepareAllSpec(markdownPath: string, markers: Mapping, resolve: (string, string) -> string,
                       lines: seq<string>)
    ensures var r := PrepareAll(markdownPath, markers, resolve, lines);
      && (r.Ok? <==> forall k :: 0 <= k < |lines| ==> RewriteLine(markdownPath, markers, resolve, lines[k]).Ok?)
      && (r.Ok? ==> |r.value.lines| == |lines|)
      && (r.Ok? ==> forall k :: 0 <= k < |lines| ==>
            r.value.lines[k] == OutputLine(lines[k], RewriteLine(markdownPath, markers, resolve, lines[k]).value))
      && (r.Ok? ==> (r.value.replaced <==> exists k :: 0 <= k < |lines| && Match(Strip(lines[k])).Some?))
      && (r.Err? ==> exists k :: (
            && 0 <= k < |lines|
            && RewriteLine(markdownPath, markers, resolve, lines[k]) == Err(r.error)
            && forall j :: 0 <= j < k ==> RewriteLine(markdownPath, markers, resolve, lines[j]).Ok?))
  {
    var change := LineRewriter(markdownPath, markers, resolve);
    RewriteOk(change, Rewritten([], false), lines);
    RewriteErr(change, Rewritten([], false), lines);
    assert forall k :: 0 <= k < |lines| ==> change(lines[k]) == RewriteLine(markdownPath, markers, resolve, lines[k]);
  }
}
