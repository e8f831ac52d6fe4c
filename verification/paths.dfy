/** The parts of POSIX `os.path` the directory resolver uses, with `/` as
    the separator. */
module Paths {
  import Text

  const Sep: char := '/'

  function LastSep(p: string): (i: int)
    ensures -1 <= i < |p|
  {
    Text.LastIndex(p, Sep)
  }

  /** Everything up to and including the last separator. */
  function Head(p: string): string {
    p[..LastSep(p) + 1]
  }

  /** `p.split('/')[-1]`: the text after the last separator. */
  function LastSegment(p: string): string {
    p[LastSep(p) + 1..]
  }

  lemma SplitAtLastSep(p: string)
    ensures Head(p) + LastSegment(p) == p
    ensures forall k :: 0 <= k < |LastSegment(p)| ==> LastSegment(p)[k] != Sep
    ensures Head(p) == [] || Head(p)[|Head(p)| - 1] == Sep
  {
  }

  predicate EndsWithSep(p: string) {
    |p| > 0 && p[|p| - 1] == Sep
  }

  predicate AllSeps(p: string) {
    forall k :: 0 <= k < |p| ==> p[k] == Sep
  }

  /** `p.rstrip('/')`. */
  function StripTrailingSeps(p: string): (r: string)
    ensures r <= p
    ensures !EndsWithSep(r)
    ensures AllSeps(p[|r|..])
  {
    if EndsWithSep(p) then StripTrailingSeps(p[..|p| - 1]) else p
  }

  /** `posixpath.dirname`: the head, with trailing separators removed
      unless the head consists of separators only (the root). */
  function Dirname(p: string): (d: string)
    ensures d <= p
  {
    var head := Head(p);
    if head != [] && !AllSeps(head) then StripTrailingSeps(head) else head
  }

  /** A path without any separator has the empty directory name. */
  lemma DirnameWithoutSep(p: string)
    requires forall k :: 0 <= k < |p| ==> p[k] != Sep
    ensures Dirname(p) == ""
  {
    assert LastSep(p) == -1;
  }

  /** `posixpath.join(base, name)` for two components. */
  function Join(base: string, name: string): (r: string)
    ensures |name| > 0 && name[0] == Sep ==> r == name
    ensures !(|name| > 0 && name[0] == Sep) ==> base <= r
    ensures |name| <= |r| && r[|r| - |name|..] == name
  {
    if |name| > 0 && name[0] == Sep then name
    else if base == [] || EndsWithSep(base) then base + name
    else base + [Sep] + name
  }

  /** Joining a directory entry name (which never holds a separator) to
      any base leaves that name as the last path segment. */
  lemma JoinKeepsName(base: string, name: string)
    requires forall k :: 0 <= k < |name| ==> name[k] != Sep
    ensures LastSegment(Join(base, name)) == name
  {
    var prefix := if base == [] || EndsWithSep(base) then base else base + [Sep];
    assert Join(base, name) == prefix + name;
    Text.LastIndexIgnoresPlainSuffix(prefix, name, Sep);
    assert LastSep(prefix) == |prefix| - 1;
  }

  /** `dirname(join(base, name))` gives back a base written without a
      trailing separator. */
  lemma DirnameOfJoin(base: string, name: string)
    requires |base| > 0 && !EndsWithSep(base)
    requires forall k :: 0 <= k < |name| ==> name[k] != Sep
    ensures Dirname(Join(base, name)) == base
  {
    var p := Join(base, name);
    assert p == base + [Sep] + name;
    Text.SplitAtLastIndex(base, Sep, name);
    assert Head(p) == base + [Sep];
    assert Head(p)[|base| - 1] != Sep;
    assert StripTrailingSeps(Head(p)) == StripTrailingSeps(base);
  }
}
