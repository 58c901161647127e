/** What the placeholder rewriter promises: the matcher finds the one match
    the pattern defines, dangling references are fatal, and every line other
    than the label occurrences is copied unchanged. */
module RewriterProperties {

  import opened Results
  import opened PyText
  import opened Markers
  import opened Rewriter

  // ---------------------------------------------------------------------
  // The matcher
  // ---------------------------------------------------------------------

  /** The recursive `CloserFrom` agrees with its direct reading: `) -->`
      occurs at some `k >= j` that is still on the line holding `j`. */
  lemma {:induction false} CloserFromOccurrence(t: string, j: nat)
    requires j <= |t|
    ensures CloserFrom(t, j) <==> exists k :: j <= k <= LineEnd(t, j) && CloserAt(t, k)
    decreases |t| - j
  {
    if !CloserAt(t, j) && j < |t| && t[j] != '\n' {
      CloserFromOccurrence(t, j + 1);
    }
  }

  /** The stretch `t[i..n]` holds no newline exactly when `n` is still on
      the line holding `i`. */
  lemma NewlineFreeUpTo(t: string, i: nat, n: nat)
    requires i <= n <= |t|
    ensures '\n' !in t[i..n] <==> n <= LineEnd(t, i)
  {
    var e := LineEnd(t, i);
    if n <= e {
      forall d | 0 <= d < n - i ensures t[i..n][d] != '\n' {
        assert t[i..n][d] == t[i + d];
      }
    } else {
      assert t[i..n][e - i] == '\n';
    }
  }

  /** What a match spells out: the line starts with the prefix, the source,
      `&label=` and the label, which is a non-empty run of word characters
      that the next character does not extend, and `) -->` follows later on
      the same line. */
  lemma MatchShape(s: string, p: Placeholder)
    requires IsMatch(s, p)
    ensures StartsWith(s, AutodocPrefix + p.src + LabelKey + p.labelName)
    ensures |p.labelName| > 0 && forall i :: 0 <= i < |p.labelName| ==> IsWordChar(p.labelName[i])
    ensures var n := |AutodocPrefix + p.src + LabelKey + p.labelName|;
      && (n < |s| ==> !IsWordChar(s[n]))
      && CloserFrom(s, n)
  {
    var t := Body(s);
    PrefixSplit(s, AutodocPrefix);
    LabelPrefix(t, p.src, p.labelName);
    LabelRun(t, |p.src|, p.labelName, |p.src + LabelKey + p.labelName|);
    Spelled(AutodocPrefix, t, p.src, LabelKey, p.labelName, s);
  }

  /** A string that starts with `a` is `a` followed by the rest. */
  lemma PrefixSplit(s: string, a: string)
    requires StartsWith(s, a)
    ensures s == a + s[|a|..]
  {
    assert s == s[..|a|] + s[|a|..];
  }

  /** `LabelAt(t, |src|)`, with `src` in front and `lab` the label found:
      `t` starts with `src + "&label=" + lab`. */
  lemma LabelPrefix(t: string, src: string, lab: string)
    requires |src| <= |t| && t[..|src|] == src
    requires LabelAt(t, |src|) && lab == LabelText(t, |src|)
    ensures |src + LabelKey + lab| <= |t| && t[..|src + LabelKey + lab|] == src + LabelKey + lab
  {
    LabelSlices(t, |src|, lab);
    ConcatPrefix(t, src, LabelKey, lab);
  }

  /** `t` starts with `x + y + z` when it holds `x`, `y` and `z` one after the other. */
  lemma ConcatPrefix(t: string, x: string, y: string, z: string)
    requires |x| + |y| + |z| <= |t|
    requires t[..|x|] == x && t[|x|..|x| + |y|] == y && t[|x| + |y|..|x| + |y| + |z|] == z
    ensures |x + y + z| <= |t| && t[..|x + y + z|] == x + y + z
  {
    assert t[..|x + y + z|] == t[..|x|] + t[|x|..|x| + |y|] + t[|x| + |y|..|x| + |y| + |z|];
  }

  /** A line `a + t` whose `t` starts with `x + y + z`, followed by no word
      character, and where `) -->` is reachable after that, starts with
      `a + x + y + z`, is not followed by a word character either, and
      reaches `) -->` after it. */
  lemma Spelled(a: string, t: string, x: string, y: string, z: string, s: string)
    requires s == a + t
    requires |x + y + z| <= |t| && t[..|x + y + z|] == x + y + z
    requires |x + y + z| < |t| ==> !IsWordChar(t[|x + y + z|])
    requires CloserFrom(t, |x + y + z|)
    ensures StartsWith(s, a + x + y + z)
    ensures |a + x + y + z| < |s| ==> !IsWordChar(s[|a + x + y + z|])
    ensures CloserFrom(s, |a + x + y + z|)
  {
    assert a + x + y + z == a + (x + y + z);
    assert s[..|a + x + y + z|] == a + t[..|x + y + z|];
    if |a + x + y + z| < |s| {
      assert s[|a + x + y + z|] == t[|x + y + z|];
    }
    CloserShift(a, t, |x + y + z|);
  }

  /** The label `LabelAt` finds: a non-empty greedy run of word characters. */
  lemma LabelSlices(t: string, i: nat, lab: string)
    requires LabelAt(t, i) && lab == LabelText(t, i)
    ensures i + |LabelKey| + |lab| <= |t|
    ensures t[i..i + |LabelKey|] == LabelKey
    ensures t[i + |LabelKey|..i + |LabelKey| + |lab|] == lab
  {
  }

  /** The label `LabelAt` finds: a non-empty greedy run of word characters,
      after which `) -->` is reachable. */
  lemma LabelRun(t: string, i: nat, lab: string, n: nat)
    requires LabelAt(t, i) && lab == LabelText(t, i)
    requires n == i + |LabelKey| + |lab|
    ensures |lab| > 0 && forall m :: 0 <= m < |lab| ==> IsWordChar(lab[m])
    ensures n < |t| ==> !IsWordChar(t[n])
    ensures CloserFrom(t, n)
  {
    var j := i + |LabelKey|;
    forall m | 0 <= m < |lab| ensures IsWordChar(lab[m]) {
      assert lab[m] == t[j + m];
    }
  }

  /** `CloserFrom` reads the same after a prefix is put in front. */
  lemma {:induction false} CloserShift(a: string, t: string, j: nat)
    ensures CloserFrom(a + t, |a| + j) == CloserFrom(t, j)
    decreases |t| - j
  {
    if j <= |t| {
      if j + |Closer| <= |t| {
        assert (a + t)[|a| + j..|a| + j + |Closer|] == t[j..j + |Closer|];
      }
      if j < |t| {
        assert (a + t)[|a| + j] == t[j];
        CloserShift(a, t, j + 1);
      }
    }
  }

  /** The pattern captures at most one placeholder per line. */
  lemma MatchIsUnique(s: string, p: Placeholder, q: Placeholder)
    requires IsMatch(s, p) && IsMatch(s, q)
    ensures p == q
  {
    var t := Body(s);
    assert |p.src| == |q.src|;
    assert p.src == t[..|p.src|] == q.src;
  }

  /** `Match` finds exactly the placeholder the pattern captures, and finds
      none exactly when the pattern does not match. */
  lemma MatchIsTheMatch(s: string, p: Placeholder)
    ensures Match(s) == Some(p) <==> IsMatch(s, p)
    ensures Match(s).None? <==> NoMatch(s)
  {
    if IsMatch(s, p) {
      NotBoth(s, p);
      if Match(s).Some? {
        MatchIsUnique(s, p, Match(s).value);
      }
    }
    if Match(s).Some? {
      NotBoth(s, Match(s).value);
    }
  }

  lemma NotBoth(s: string, p: Placeholder)
    requires IsMatch(s, p)
    ensures !NoMatch(s)
  {
    var t := Body(s);
    assert t[..|p.src|] == p.src;
  }

  // ---------------------------------------------------------------------
  // One line
  // ---------------------------------------------------------------------

  /** A line the pattern does not match is copied as it is. */
  lemma NonMatchingLineIsCopied(markdownPath: string, markers: Mapping, resolve: (string, string) -> string,
                                line: string)
    requires NoMatch(Strip(line))
    ensures RewriteLine(markdownPath, markers, resolve, line) == Ok(None)
  {
    MatchIsTheMatch(Strip(line), Placeholder("", ""));
  }

  /** A placeholder whose source is not in the mapping raises the
      RuntimeError, one whose label is not in its source's entry raises the
      KeyError, and only a placeholder with both is rewritten. */
  lemma DanglingReferenceIsFatal(markdownPath: string, markers: Mapping, resolve: (string, string) -> string,
                                 line: string, p: Placeholder)
    requires IsMatch(Strip(line), p)
    ensures var full := resolve(markdownPath, p.src);
      && (full !in markers ==>
            RewriteLine(markdownPath, markers, resolve, line) == Err(UnknownSource(p.labelName, full, markdownPath)))
      && (full in markers && p.labelName !in markers[full] ==>
            RewriteLine(markdownPath, markers, resolve, line) == Err(UnknownLabel(p.labelName)))
      && (RewriteLine(markdownPath, markers, resolve, line).Ok? <==> full in markers && p.labelName in markers[full])
      && (RewriteLine(markdownPath, markers, resolve, line).Ok? ==> RewriteLine(markdownPath, markers, resolve, line).value.Some?)
  {
    MatchIsTheMatch(Strip(line), p);
  }

  /** A rewritten line is the original with every occurrence of
      `&label=<label>` swapped for `&` and the recorded descriptor: the same
      split of the line, whose pieces hold no occurrence, joined back with
      the occurrence it came from, gives the original. When the mapping is well formed the inserted descriptor
      reads `lines=b-e` with `b < e`. */
  lemma RewrittenLineDiffersOnlyAtLabel(markdownPath: string, markers: Mapping, resolve: (string, string) -> string,
                                        line: string, p: Placeholder)
    requires IsMatch(Strip(line), p)
    requires resolve(markdownPath, p.src) in markers && p.labelName in markers[resolve(markdownPath, p.src)]
    ensures var v := markers[resolve(markdownPath, p.src)][p.labelName];
      var pieces := Split(line, LabelKey + p.labelName);
      && RewriteLine(markdownPath, markers, resolve, line) == Ok(Some(Join(pieces, "&" + v)))
      && Join(pieces, LabelKey + p.labelName) == line
      && (forall k :: 0 <= k < |pieces| ==> Free(pieces[k], LabelKey + p.labelName))
      && (WellFormed(markers) ==> ValidDescriptor(v))
  {
    MatchIsTheMatch(Strip(line), p);
    var pat := LabelKey + p.labelName;
    SplitPiecesAreFree(line, pat);
    ReplaceIsJoinOfSplit(line, pat, "&" + markers[resolve(markdownPath, p.src)][p.labelName]);
    JoinSplitIdentity(line, pat);
  }

  /** `str.replace` skips a stretch that cannot start an occurrence and
      then replaces the occurrence that follows it. */
  lemma {:induction false} ReplaceAfter(x: string, pat: string, y: string, rep: string)
    requires pat != [] && pat[0] !in x
    ensures ReplaceAll(x + pat + y, pat, rep) == x + rep + ReplaceAll(y, pat, rep)
    decreases |x|
  {
    if x == [] {
      ReplaceAtOccurrence(pat, y, rep);
      assert x + pat + y == pat + y;
    } else {
      var s := x + pat + y;
      ReplaceSkipsChar(s, pat, rep);
      assert s[1..] == x[1..] + pat + y;
      ReplaceAfter(x[1..], pat, y, rep);
      assert [s[0]] + (x[1..] + rep + ReplaceAll(y, pat, rep)) == x + rep + ReplaceAll(y, pat, rep);
    }
  }

  lemma ReplaceAtOccurrence(pat: string, y: string, rep: string)
    requires pat != []
    ensures ReplaceAll(pat + y, pat, rep) == rep + ReplaceAll(y, pat, rep)
  {
    var s := pat + y;
    assert s[..|pat|] == pat;
    assert s[|pat|..] == y;
  }

  lemma ReplaceSkipsChar(s: string, pat: string, rep: string)
    requires pat != [] && s != [] && s[0] != pat[0]
    ensures ReplaceAll(s, pat, rep) == [s[0]] + ReplaceAll(s[1..], pat, rep)
  {
    if |s| >= |pat| {
      assert s[..|pat|][0] == s[0];
    }
  }

  /** `str.replace` leaves a string without the pattern's first character unchanged. */
  lemma {:induction false} ReplaceAbsent(y: string, pat: string, rep: string)
    requires pat != [] && pat[0] !in y
    ensures ReplaceAll(y, pat, rep) == y
    decreases |y|
  {
    if y != [] {
      assert y[0] in y;
      ReplaceSkipsChar(y, pat, rep);
      assert forall c :: c in y[1..] ==> c in y;
      ReplaceAbsent(y[1..], pat, rep);
      assert y == [y[0]] + y[1..];
    }
  }

  /** The placeholder as documentation writers put it,
      `<!-- MARKDOWN-AUTO-DOCS:START (CODE:src=<src>&label=<lab>) -->`, with a
      source free of `&` and newlines and a word label, is matched with
      exactly those two groups. */
  lemma CanonicalPlaceholderMatches(src: string, lab: string)
    requires '&' !in src && '\n' !in src
    requires lab != [] && forall i :: 0 <= i < |lab| ==> IsWordChar(lab[i])
    ensures Match(AutodocPrefix + src + LabelKey + lab + Closer) == Some(Placeholder(src, lab))
  {
    var s := AutodocPrefix + src + LabelKey + lab + Closer;
    var t := src + LabelKey + lab + Closer;
    assert s == AutodocPrefix + t;
    assert StartsWith(s, AutodocPrefix);
    assert Body(s) == t;
    assert t[..|src|] == src;
    NewlineFreeUpTo(t, 0, |src|);
    CanonicalLabel(src, lab);
    CanonicalLeftmost(src, lab);
    assert IsMatch(s, Placeholder(src, lab));
    MatchIsTheMatch(s, Placeholder(src, lab));
  }

  /** In `src + "&label=" + lab + ") -->"` the label is found after `src`. */
  lemma CanonicalLabel(src: string, lab: string)
    requires lab != [] && forall i :: 0 <= i < |lab| ==> IsWordChar(lab[i])
    ensures var t := src + LabelKey + lab + Closer;
      LabelAt(t, |src|) && LabelText(t, |src|) == lab
  {
    var t := src + LabelKey + lab + Closer;
    var j := |src| + |LabelKey|;
    assert t[|src|..j] == LabelKey;
    var rest := t[j..];
    assert rest == lab + Closer;
    assert rest[|lab|] == ')';
    WordRunUnique(t, j, |lab|);
    assert t[j + |lab|..] == Closer;
    assert CloserFrom(t, j + |lab|);
  }

  /** The greedy run at `j` is the run of word characters that the next
      character does not extend. */
  lemma WordRunUnique(t: string, j: nat, k: nat)
    requires j + k <= |t|
    requires forall m :: j <= m < j + k ==> IsWordChar(t[m])
    requires j + k < |t| ==> !IsWordChar(t[j + k])
    ensures WordRun(t, j) == k
  {
  }

  /** ... and nowhere before it, since `src` holds no `&`. */
  lemma CanonicalLeftmost(src: string, lab: string)
    requires '&' !in src
    ensures var t := src + LabelKey + lab + Closer;
      forall k :: 0 <= k < |src| ==> !LabelAt(t, k)
  {
    var t := src + LabelKey + lab + Closer;
    forall k | 0 <= k < |src| ensures !LabelAt(t, k) {
      assert t[k] == src[k];
      assert src[k] in src;
      if k + |LabelKey| <= |t| {
        assert t[k..k + |LabelKey|][0] == t[k];
      }
    }
  }

  /** Such a placeholder, read from a line that carries nothing else, is
      rewritten to `<!-- ...src=<src>&<descriptor>) -->` and all the rest
      of the line is kept. */
  lemma CanonicalPlaceholderRewrite(markdownPath: string, markers: Mapping, resolve: (string, string) -> string,
                                    src: string, lab: string)
    requires '&' !in src && '\n' !in src
    requires lab != [] && forall i :: 0 <= i < |lab| ==> IsWordChar(lab[i])
    requires resolve(markdownPath, src) in markers && lab in markers[resolve(markdownPath, src)]
    ensures RewriteLine(markdownPath, markers, resolve, AutodocPrefix + src + LabelKey + lab + Closer)
         == Ok(Some(AutodocPrefix + src + ("&" + markers[resolve(markdownPath, src)][lab]) + Closer))
  {
    var line := AutodocPrefix + src + LabelKey + lab + Closer;
    var pat := LabelKey + lab;
    var rep := "&" + markers[resolve(markdownPath, src)][lab];
    StripOfTag(line);
    CanonicalPlaceholderMatches(src, lab);
    CanonicalReplace(src, lab, rep);
    MatchedLineIsReplaced(markdownPath, markers, resolve, line, Placeholder(src, lab));
  }

  /** A line whose stripped text matches, with both keys present, is the
      replacement of its label occurrences. */
  lemma MatchedLineIsReplaced(markdownPath: string, markers: Mapping, resolve: (string, string) -> string,
                              line: string, p: Placeholder)
    requires Match(Strip(line)) == Some(p)
    requires resolve(markdownPath, p.src) in markers && p.labelName in markers[resolve(markdownPath, p.src)]
    ensures RewriteLine(markdownPath, markers, resolve, line)
         == Ok(Some(ReplaceAll(line, LabelKey + p.labelName, "&" + markers[resolve(markdownPath, p.src)][p.labelName])))
  {
  }

  /** Only the label is replaced in the canonical placeholder. */
  lemma CanonicalReplace(src: string, lab: string, rep: string)
    requires '&' !in src
    ensures ReplaceAll(AutodocPrefix + src + LabelKey + lab + Closer, LabelKey + lab, rep)
         == AutodocPrefix + src + rep + Closer
  {
    PrefixHasNoAmpersand();
    assert LabelKey[0] == '&';
    ReplaceOnlyOccurrence(AutodocPrefix, src, LabelKey, lab, Closer, rep);
  }

  /** In `a + src + y + z + tail`, where only `y + z` holds the first
      character of `y`, `str.replace` swaps that one occurrence. */
  lemma ReplaceOnlyOccurrence(a: string, src: string, y: string, z: string, tail: string, rep: string)
    requires y != [] && y[0] !in a && y[0] !in src && y[0] !in tail
    ensures ReplaceAll(a + src + y + z + tail, y + z, rep) == a + src + rep + tail
  {
    var x := a + src;
    var pat := y + z;
    assert pat[0] == y[0];
    assert y[0] !in x by {
      forall c | c in x ensures c in a || c in src { }
    }
    assert a + src + y + z + tail == x + pat + tail;
    ReplaceAfter(x, pat, tail, rep);
    ReplaceAbsent(tail, pat, rep);
  }

  lemma PrefixHasNoAmpersand()
    ensures '&' !in AutodocPrefix && '&' !in Closer
  {
  }

  /** A line that begins with `<` and ends with `>` has nothing to strip. */
  lemma StripOfTag(line: string)
    requires line != [] && line[0] == '<' && line[|line| - 1] == '>'
    ensures Strip(line) == line
  {
    PrefixRunUnique(line, IsSpace, 0);
    SuffixRunUnique(line, IsSpace, 0);
  }

  // ---------------------------------------------------------------------
  // One file
  // ---------------------------------------------------------------------

  /** A markdown file with no placeholder comes back unchanged, and is not
      reported as replaced. */
  lemma PlaceholderFreeFileIsUnchanged(markdownPath: string, markers: Mapping, resolve: (string, string) -> string,
                                       lines: seq<string>)
    requires forall k :: 0 <= k < |lines| ==> NoMatch(Strip(lines[k]))
    ensures PrepareAll(markdownPath, markers, resolve, lines) == Ok(Rewritten(lines, false))
  {
    forall k | 0 <= k < |lines| ensures RewriteLine(markdownPath, markers, resolve, lines[k]) == Ok(None) {
      NonMatchingLineIsCopied(markdownPath, markers, resolve, lines[k]);
    }
    PrepareAllSpec(markdownPath, markers, resolve, lines);
    var w := PrepareAll(markdownPath, markers, resolve, lines).value;
    assert w.lines == lines;
    assert !exists k :: 0 <= k < |lines| && Match(Strip(lines[k])).Some?;
  }

  /** A file is rewritten exactly when every placeholder in it resolves to a
      recorded source and label. */
  lemma FileFailsOnDanglingReference(markdownPath: string, markers: Mapping, resolve: (string, string) -> string,
                                     lines: seq<string>, k: nat, p: Placeholder)
    requires k < |lines|
    requires IsMatch(Strip(lines[k]), p)
    requires resolve(markdownPath, p.src) !in markers || p.labelName !in markers[resolve(markdownPath, p.src)]
    ensures PrepareAll(markdownPath, markers, resolve, lines).Err?
  {
    DanglingReferenceIsFatal(markdownPath, markers, resolve, lines[k], p);
    PrepareAllSpec(markdownPath, markers, resolve, lines);
  }
}
