/** The first half of `get_all_datasets`: expanding the log-directory
    arguments into concrete directories, applying the `select` and
    `exclude` substring rules, and checking the legend length. */
module Resolver {
  import opened Wrappers
  import opened Errors
  import Text
  import Seqs
  import Paths

  /** What the resolver can observe of the filesystem: which paths are
      directories (`os.path.isdir`) and, for each directory that can be
      listed, its entries in `os.listdir` order. */
  datatype FileSystem = FileSystem(dirs: set<string>, listing: map<string, seq<string>>)

  /** `os.listdir(path)`. The empty path names no directory, so listing
      it always raises, whatever `listing` holds. */
  function ListDir(fs: FileSystem, path: string): (r: Result<seq<string>, Error>)
    ensures r.Success? <==> path != "" && path in fs.listing
    ensures r.Success? ==> r.value == fs.listing[path]
    ensures r.Failure? ==> r.error == ListDirFailed(path)
  {
    if path != "" && path in fs.listing then Success(fs.listing[path]) else Failure(ListDirFailed(path))
  }

  /** A spec naming an existing directory and ending in the separator is
      taken as is. */
  predicate IsVerbatim(fs: FileSystem, spec: string) {
    spec in fs.dirs && Paths.EndsWithSep(spec)
  }

  /** Entry names containing `prefix`, in listing order. */
  function Matching(names: seq<string>, prefix: string): seq<string> {
    Seqs.Filter(names, x => Text.Contains(x, prefix))
  }

  function JoinAll(base: string, names: seq<string>): (r: seq<string>)
    ensures |r| == |names|
    ensures forall k :: 0 <= k < |names| ==> r[k] == Paths.Join(base, names[k])
  {
    if |names| == 0 then [] else [Paths.Join(base, names[0])] + JoinAll(base, names[1..])
  }

  /** The directories one spec contributes. */
  function ResolveSpec(fs: FileSystem, spec: string): (r: Result<seq<string>, Error>)
    ensures IsVerbatim(fs, spec) ==> r == Success([spec])
    ensures !IsVerbatim(fs, spec) ==>
      (r.Success? <==> Paths.Dirname(spec) != "" && Paths.Dirname(spec) in fs.listing)
    ensures !IsVerbatim(fs, spec) && r.Failure? ==> r.error == ListDirFailed(Paths.Dirname(spec))
    ensures !IsVerbatim(fs, spec) && r.Success? ==>
      var base := Paths.Dirname(spec);
      var children := fs.listing[base];
      var prefix := Paths.LastSegment(spec);
      && Seqs.Sorted(r.value)
      && multiset(r.value) == multiset(JoinAll(base, Matching(children, prefix)))
      && (forall p :: p in r.value <==>
            exists k :: 0 <= k < |children| && Text.Contains(children[k], prefix)
                          && p == Paths.Join(base, children[k]))
  {
    if IsVerbatim(fs, spec) then
      Success([spec])
    else
      var base := Paths.Dirname(spec);
      var prefix := Paths.LastSegment(spec);
      var names :- ListDir(fs, base);
      var found := Seqs.Sort(JoinAll(base, Matching(names, prefix)));
      MatchingJoined(base, names, prefix, found);
      Success(found)
  }

  lemma MatchingJoined(base: string, names: seq<string>, prefix: string, found: seq<string>)
    requires multiset(found) == multiset(JoinAll(base, Matching(names, prefix)))
    ensures forall p :: p in found <==>
      exists k :: 0 <= k < |names| && Text.Contains(names[k], prefix)
                    && p == Paths.Join(base, names[k])
  {
    var m := Matching(names, prefix);
    Seqs.FilterMembers(names, x => Text.Contains(x, prefix));
    var joined := JoinAll(base, m);
    forall p
      ensures p in found <==>
        exists k :: 0 <= k < |names| && Text.Contains(names[k], prefix)
                      && p == Paths.Join(base, names[k])
    {
      assert p in found <==> p in multiset(joined);
      if p in joined {
        var j :| 0 <= j < |joined| && joined[j] == p;
        assert m[j] in names;
        var k :| 0 <= k < |names| && names[k] == m[j];
        assert Text.Contains(names[k], prefix) && p == Paths.Join(base, names[k]);
      }
      if k :| 0 <= k < |names| && Text.Contains(names[k], prefix) && p == Paths.Join(base, names[k]) {
        assert names[k] in m;
        var j :| 0 <= j < |m| && m[j] == names[k];
        assert joined[j] == p;
      }
    }
  }

  /** A spec that is not taken verbatim and holds no separator has the
      empty base directory, which cannot be listed: it always fails. */
  lemma BarePrefixFails(fs: FileSystem, spec: string)
    requires !IsVerbatim(fs, spec)
    requires forall k :: 0 <= k < |spec| ==> spec[k] != Paths.Sep
    ensures ResolveSpec(fs, spec) == Failure(ListDirFailed(""))
  {
    Paths.DirnameWithoutSep(spec);
  }

  /** `ResolveSpec` as a value, for the loop over all specs. */
  function SpecResolver(fs: FileSystem): string -> Result<seq<string>, Error> {
    spec => ResolveSpec(fs, spec)
  }

  /** The loop over all specs: concatenation in input order; the first
      spec whose base directory cannot be listed aborts. */
  function ResolveAll(fs: FileSystem, specs: seq<string>): (r: Result<seq<string>, Error>)
    ensures r.Success? <==> forall k :: 0 <= k < |specs| ==> ResolveSpec(fs, specs[k]).Success?
    ensures r.Failure? ==>
      exists j :: 0 <= j < |specs| && ResolveSpec(fs, specs[j]) == Failure(r.error)
                  && forall i :: 0 <= i < j ==> ResolveSpec(fs, specs[i]).Success?
  {
    TryConcat(specs, SpecResolver(fs))
  }

  /** Resolving two groups of specs is resolving the first group and,
      unless it failed, then the second, concatenating the results. */
  lemma ResolveAllAppend(fs: FileSystem, a: seq<string>, b: seq<string>)
    ensures ResolveAll(fs, a).Failure? ==> ResolveAll(fs, a + b) == Failure(ResolveAll(fs, a).error)
    ensures ResolveAll(fs, a).Success? && ResolveAll(fs, b).Failure? ==>
      ResolveAll(fs, a + b) == Failure(ResolveAll(fs, b).error)
    ensures ResolveAll(fs, a).Success? && ResolveAll(fs, b).Success? ==>
      ResolveAll(fs, a + b) == Success(ResolveAll(fs, a).value + ResolveAll(fs, b).value)
  {
    TryConcatAppend(a, b, SpecResolver(fs));
  }

  /** A single spec resolves on its own. */
  lemma ResolveAllOne(fs: FileSystem, spec: string)
    ensures ResolveAll(fs, [spec]) == ResolveSpec(fs, spec)
  {
    TryConcatOne(spec, SpecResolver(fs));
  }

  // ---------------------------------------------------------------
  // Selection rules

  /** `all(x in log for x in select)`. */
  predicate HasAll(log: string, subs: seq<string>) {
    forall k :: 0 <= k < |subs| ==> Text.Contains(log, subs[k])
  }

  /** `all(not(x in log) for x in exclude)`. */
  predicate HasNone(log: string, subs: seq<string>) {
    forall k :: 0 <= k < |subs| ==> !Text.Contains(log, subs[k])
  }

  /** Whether a directory survives both rules; an absent rule admits all. */
  predicate Survives(log: string, select: Option<seq<string>>, exclude: Option<seq<string>>) {
    (select.None? || HasAll(log, select.value)) && (exclude.None? || HasNone(log, exclude.value))
  }

  function KeepSelected(select: Option<seq<string>>): string -> bool {
    log => select.None? || HasAll(log, select.value)
  }

  function KeepUnexcluded(exclude: Option<seq<string>>): string -> bool {
    log => exclude.None? || HasNone(log, exclude.value)
  }

  function KeepBoth(select: Option<seq<string>>, exclude: Option<seq<string>>): string -> bool {
    log => Survives(log, select, exclude)
  }

  /** The `select` comprehension followed by the `exclude` comprehension. */
  function ApplyRules(logdirs: seq<string>, select: Option<seq<string>>, exclude: Option<seq<string>>)
    : (r: seq<string>)
    ensures select.None? && exclude.None? ==> r == logdirs
    ensures forall k :: 0 <= k < |r| ==> Survives(r[k], select, exclude)
    ensures forall k :: 0 <= k < |logdirs| && Survives(logdirs[k], select, exclude) ==> logdirs[k] in r
  {
    var selected := if select.Some? then Seqs.Filter(logdirs, KeepSelected(select)) else logdirs;
    Seqs.FilterMembers(logdirs, KeepSelected(select));
    Seqs.FilterMembers(selected, KeepUnexcluded(exclude));
    if exclude.Some? then Seqs.Filter(selected, KeepUnexcluded(exclude)) else selected
  }

  /** The two comprehensions are one order-preserving filter by
      `Survives`, so the result is a subsequence of the input. */
  lemma ApplyRulesIsFilter(logdirs: seq<string>, select: Option<seq<string>>, exclude: Option<seq<string>>)
    ensures ApplyRules(logdirs, select, exclude) == Seqs.Filter(logdirs, KeepBoth(select, exclude))
    ensures Seqs.IsSubsequence(ApplyRules(logdirs, select, exclude), logdirs)
  {
    var keep := KeepBoth(select, exclude);
    var p := KeepSelected(select);
    var q := KeepUnexcluded(exclude);
    var selected := if select.Some? then Seqs.Filter(logdirs, p) else logdirs;
    assert selected == Seqs.Filter(logdirs, p) by {
      if select.None? {
        Seqs.FilterAllTrue(logdirs, p);
      }
    }
    assert ApplyRules(logdirs, select, exclude) == Seqs.Filter(selected, q) by {
      if exclude.None? {
        Seqs.FilterAllTrue(selected, q);
      }
    }
    Seqs.FilterTwice(logdirs, p, q);
    Seqs.FilterExtensional(logdirs, x => p(x) && q(x), keep);
    Seqs.FilterIsSubsequence(logdirs, keep);
  }

  // ---------------------------------------------------------------
  // Legend check

  /** `not(legend) or len(legend) == len(logdirs)`: an absent or empty
      legend is always acceptable. */
  predicate LegendFits(legend: Option<seq<string>>, count: nat) {
    legend.None? || |legend.value| == 0 || |legend.value| == count
  }

  /** Lines 219-249: resolve, filter, then enforce the legend assertion
      before any run is loaded. */
  function ResolveLogdirs(fs: FileSystem, specs: seq<string>, legend: Option<seq<string>>,
                          select: Option<seq<string>>, exclude: Option<seq<string>>)
    : (r: Result<seq<string>, Error>)
    ensures ResolveAll(fs, specs).Failure? ==> r == Failure(ResolveAll(fs, specs).error)
    ensures ResolveAll(fs, specs).Success? ==>
      var kept := ApplyRules(ResolveAll(fs, specs).value, select, exclude);
      && (r.Success? <==> LegendFits(legend, |kept|))
      && (r.Success? ==> r.value == kept)
      && (r.Failure? ==> r.error == LegendMismatch(|legend.value|, |kept|))
  {
    var all :- ResolveAll(fs, specs);
    var kept := ApplyRules(all, select, exclude);
    if LegendFits(legend, |kept|) then Success(kept)
    else Failure(LegendMismatch(|legend.value|, |kept|))
  }
}
