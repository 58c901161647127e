/** The constants of code_block.py and the marker mapping shared by the
    scanning and the rewriting phase: absolute source path, then block name,
    then a location descriptor `lines=<begin>-<end>`. */
module Markers {

  import opened Results
  import opened PyText

  const MarkerBegin := "SOURCE_MARKER_BEGIN"
  const MarkerEnd := "SOURCE_MARKER_END"

  /** The key the descriptor starts with. */
  const LinesKey := "lines="

  /** absolute path -> block name -> descriptor. */
  type Mapping = map<string, map<string, string>>

  /** `f"lines={begin}-{end}"`. */
  function Descriptor(begin: int, end: int): string {
    LinesKey + IntToString(begin) + "-" + IntToString(end)
  }

  /** Reads a descriptor back into its two line numbers. */
  function ParseDescriptor(v: string): Option<(int, int)> {
    if StartsWith(v, LinesKey) then ParseRange(v[|LinesKey|..]) else None
  }

  /** Reads `<begin>-<end>`, each an optionally negative integer. */
  function ParseRange(t: string): Option<(int, int)> {
    var first := ParseInt(t);
    if first.None? then None
    else
      var k := first.value.1;
      if k < |t| && t[k] == '-' then
        var second := ParseInt(t[k + 1..]);
        if second.Some? && k + 1 + second.value.1 == |t| then Some((first.value.0, second.value.0))
        else None
      else None
  }

  /** A descriptor determines the range it was written from. */
  lemma DescriptorRoundTrip(begin: int, end: int)
    ensures ParseDescriptor(Descriptor(begin, end)) == Some((begin, end))
  {
    var b, e := IntToString(begin), IntToString(end);
    var t := b + "-" + e;
    assert Descriptor(begin, end) == LinesKey + t;
    assert Descriptor(begin, end)[|LinesKey|..] == t;
    RangeRoundTrip(begin, end);
  }

  lemma RangeRoundTrip(begin: int, end: int)
    ensures ParseRange(IntToString(begin) + "-" + IntToString(end)) == Some((begin, end))
  {
    var b, e := IntToString(begin), IntToString(end);
    var t := b + "-" + e;
    assert t == b + ("-" + e);
    ParseIntOfIntToString(begin, "-" + e);
    assert ParseInt(t) == Some((begin, |b|));
    assert t[|b|] == '-';
    assert t[|b| + 1..] == e + "";
    ParseIntOfIntToString(end, "");
    assert ParseInt(t[|b| + 1..]) == Some((end, |e|));
  }

  /** A descriptor of a non-empty range: begin strictly before end. */
  predicate ValidDescriptor(v: string) {
    var r := ParseDescriptor(v);
    r.Some? && r.value.0 < r.value.1
  }

  /** Every entry of the mapping describes a range with begin < end. */
  predicate WellFormed(m: Mapping) {
    forall p, n :: p in m && n in m[p] ==> ValidDescriptor(m[p][n])
  }

  /** Mappings that agree on every path except `path`. */
  ghost predicate SameExcept(m: Mapping, m': Mapping, path: string) {
    forall q :: q != path ==> (q in m <==> q in m') && (q in m ==> m[q] == m'[q])
  }

  /** `marker_mapping.setdefault(path, {})[name] = v`: the entry is added or
      overwritten and nothing else changes. */
  function Record(m: Mapping, path: string, name: string, v: string): (r: Mapping)
    ensures r.Keys == m.Keys + {path}
    ensures name in r[path] && r[path][name] == v
    ensures r[path].Keys == (if path in m then m[path].Keys else {}) + {name}
    ensures forall n :: n in r[path] && n != name ==> path in m && n in m[path] && r[path][n] == m[path][n]
    ensures SameExcept(m, r, path)
  {
    if path in m then m[path := m[path][name := v]] else m[path := map[name := v]]
  }

  lemma RecordKeepsWellFormed(m: Mapping, path: string, name: string, begin: int, end: int)
    requires WellFormed(m)
    requires begin < end
    ensures WellFormed(Record(m, path, name, Descriptor(begin, end)))
  {
    DescriptorRoundTrip(begin, end);
  }
}
