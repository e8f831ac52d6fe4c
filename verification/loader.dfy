/** `get_datasets` and `get_all_datasets` put together: discovery, label
    and unit assignment, loading and tagging, for every resolved log
    directory in turn, with one registry threaded through all of them. */
module Loader {
  import opened Wrappers
  import opened Errors
  import Seqs
  import Resolver
  import Collector
  import Labels
  import Frames

  /** The contents of `progress.txt` per run directory, for the reads
      that succeed; a directory missing here fails to read. */
  type Progress = map<string, Frames.Frame>

  predicate ProgressWellFormed(progress: Progress) {
    forall root :: root in progress ==> Frames.WellFormed(progress[root])
  }

  /** Line 150 for each collected run, in processing order. */
  function LabelsOf(condition: Option<string>, runs: seq<Collector.Run>): (labels: seq<string>)
    ensures |labels| == |runs|
    ensures forall i :: 0 <= i < |runs| ==> labels[i] == Labels.Condition1(condition, runs[i].name)
  {
    seq(|runs|, i requires 0 <= i < |runs| => Labels.Condition1(condition, runs[i].name))
  }

  /** Each collected run with the tag drawn for it. */
  function Zip(runs: seq<Collector.Run>, tags: seq<Labels.Tag>): (pairs: seq<(Collector.Run, Labels.Tag)>)
    requires |tags| == |runs|
    ensures |pairs| == |runs|
    ensures forall i :: 0 <= i < |runs| ==> pairs[i] == (runs[i], tags[i])
  {
    seq(|runs|, i requires 0 <= i < |runs| => (runs[i], tags[i]))
  }

  function CanRead(progress: Progress): ((Collector.Run, Labels.Tag)) -> bool {
    (p: (Collector.Run, Labels.Tag)) => p.0.root in progress
  }

  /** The runs whose `progress.txt` can be read, with their tags, in
      processing order: the runs that reach line 166. */
  function Readable(runs: seq<Collector.Run>, tags: seq<Labels.Tag>, progress: Progress)
    : (ready: seq<(Collector.Run, Labels.Tag)>)
    requires |tags| == |runs|
    ensures forall j :: 0 <= j < |ready| ==> ready[j].0.root in progress
  {
    Seqs.FilterMembers(Zip(runs, tags), CanRead(progress));
    Seqs.Filter(Zip(runs, tags), CanRead(progress))
  }

  /** Readable runs are collected runs with their own tags, in collected
      order, and every collected run that can be read is among them. */
  lemma ReadableMembers(runs: seq<Collector.Run>, tags: seq<Labels.Tag>, progress: Progress)
    requires |tags| == |runs|
    ensures Seqs.IsSubsequence(Readable(runs, tags, progress), Zip(runs, tags))
    ensures forall j :: 0 <= j < |Readable(runs, tags, progress)| ==>
      exists k :: 0 <= k < |runs| && Readable(runs, tags, progress)[j] == (runs[k], tags[k])
    ensures forall k :: 0 <= k < |runs| && runs[k].root in progress ==>
      (runs[k], tags[k]) in Readable(runs, tags, progress)
  {
    var pairs := Zip(runs, tags);
    Seqs.FilterIsSubsequence(pairs, CanRead(progress));
    Seqs.FilterMembers(pairs, CanRead(progress));
    var ready := Readable(runs, tags, progress);
    forall j | 0 <= j < |ready| ensures exists k :: 0 <= k < |runs| && ready[j] == (runs[k], tags[k]) {
      var k :| 0 <= k < |pairs| && pairs[k] == ready[j];
      assert ready[j] == (runs[k], tags[k]);
    }
    forall k | 0 <= k < |runs| && runs[k].root in progress ensures (runs[k], tags[k]) in ready {
      assert CanRead(progress)(pairs[k]);
    }
  }

  lemma ReadableStep(runs: seq<Collector.Run>, tags: seq<Labels.Tag>, progress: Progress)
    requires |tags| == |runs| && |runs| > 0
    ensures Readable(runs, tags, progress) ==
      (if runs[0].root in progress then [(runs[0], tags[0])] else []) + Readable(runs[1..], tags[1..], progress)
  {
    assert Zip(runs, tags)[1..] == Zip(runs[1..], tags[1..]);
    assert Zip(runs, tags)[0] == (runs[0], tags[0]);
  }

  /** Lines 166-170 applied to one readable run. */
  function Attempt(progress: Progress, p: (Collector.Run, Labels.Tag)): Result<Frames.Frame, Error>
    requires ProgressWellFormed(progress) && p.0.root in progress
  {
    Frames.Decorate(progress[p.0.root], p.1)
  }

  /** Lines 166-170 over the readable runs in order: every frame is its
      run's decorated table, and the first run that cannot be decorated
      raises. */
  function DecorateAll(progress: Progress, ready: seq<(Collector.Run, Labels.Tag)>)
    : (r: Result<seq<Frames.Frame>, Error>)
    requires ProgressWellFormed(progress)
    requires forall j :: 0 <= j < |ready| ==> ready[j].0.root in progress
    ensures r.Success? <==> forall j :: 0 <= j < |ready| ==> Attempt(progress, ready[j]).Success?
    ensures r.Success? ==>
      && |r.value| == |ready|
      && forall j :: 0 <= j < |ready| ==> r.value[j] == Attempt(progress, ready[j]).value
    ensures r.Failure? ==>
      exists j :: 0 <= j < |ready| && Attempt(progress, ready[j]) == Failure(r.error)
                  && forall i :: 0 <= i < j ==> Attempt(progress, ready[i]).Success?
  {
    TryMap(ready, (p: (Collector.Run, Labels.Tag)) requires ProgressWellFormed(progress) && p.0.root in progress =>
                    Attempt(progress, p))
  }

  /** Lines 158-171: read and tag each run in turn. A run whose
      `progress.txt` cannot be read is skipped, after its tag was already
      drawn; the others are decorated in processing order, and the first
      that cannot be raises. */
  function LoadTagged(runs: seq<Collector.Run>, tags: seq<Labels.Tag>, progress: Progress)
    : (r: Result<seq<Frames.Frame>, Error>)
    requires |tags| == |runs| && ProgressWellFormed(progress)
    ensures r == DecorateAll(progress, Readable(runs, tags, progress))
    ensures r.Success? ==> |r.value| == |Seqs.Filter(runs, (run: Collector.Run) => run.root in progress)|
    ensures r.Success? ==> forall i :: 0 <= i < |r.value| ==> Frames.WellFormed(r.value[i])
  {
    if |runs| == 0 then Success([])
    else
      ReadableStep(runs, tags, progress);
      var later := Readable(runs[1..], tags[1..], progress);
      var rest := LoadTagged(runs[1..], tags[1..], progress);
      if runs[0].root in progress then
        var frame := Frames.Decorate(progress[runs[0].root], tags[0]);
        assert ([(runs[0], tags[0])] + later)[1..] == later;
        if frame.Failure? then Failure(frame.error)
        else if rest.Failure? then Failure(rest.error)
        else Success([frame.value] + rest.value)
      else
        assert [] + later == later;
        rest
  }

  /** The frames `get_datasets` yields for collected `runs`: tags drawn
      for every run, then the readable runs decorated in order. */
  function Expected(reg: Labels.Registry, runs: seq<Collector.Run>, condition: Option<string>, progress: Progress)
    : Result<seq<Frames.Frame>, Error>
    requires ProgressWellFormed(progress)
  {
    DecorateAll(progress, Readable(runs, Labels.AssignAll(reg, LabelsOf(condition, runs)).0, progress))
  }

  /** One call of `get_datasets(logdir, condition)`. */
  function GetDatasets(reg: Labels.Registry, walk: seq<Collector.WalkEntry>, condition: Option<string>,
                       progress: Progress)
    : (r: Result<(seq<Frames.Frame>, Labels.Registry), Error>)
    requires ProgressWellFormed(progress)
    ensures Collector.Collect(walk).Failure? ==> r == Failure(UnorderableNames)
    ensures r.Success? ==>
      && Collector.Collect(walk).Success?
      && var runs := Collector.Collect(walk).value;
         && r.value.1.expIdx == reg.expIdx + |runs|
         && r.value.1 == Labels.AssignAll(reg, LabelsOf(condition, runs)).1
         && |r.value.0| <= |runs|
         && forall i :: 0 <= i < |r.value.0| ==> Frames.WellFormed(r.value.0[i])
    ensures Collector.Collect(walk).Success? ==>
      var loaded := Expected(reg, Collector.Collect(walk).value, condition, progress);
      && (r.Success? <==> loaded.Success?)
      && (r.Success? ==> r.value.0 == loaded.value)
      && (r.Failure? ==> r.error == loaded.error)
  {
    var collected := Collector.Collect(walk);
    if collected.Failure? then Failure(collected.error)
    else
      var runs := collected.value;
      var drawn := Labels.AssignAll(reg, LabelsOf(condition, runs));
      Labels.AssignAllSpec(reg, LabelsOf(condition, runs));
      var frames := LoadTagged(runs, drawn.0, progress);
      if frames.Failure? then Failure(frames.error) else Success((frames.value, drawn.1))
  }

  /** Frame `j` is the `progress.txt` table of a collected run `k` that
      could be read, decorated with the label of line 150, the counter
      `exp_idx + k` and the next unit of that label. */
  lemma ExpectedTags(reg: Labels.Registry, runs: seq<Collector.Run>, condition: Option<string>,
                     progress: Progress, j: int)
    requires ProgressWellFormed(progress)
    requires Expected(reg, runs, condition, progress).Success?
    requires 0 <= j < |Expected(reg, runs, condition, progress).value|
    ensures var labels := LabelsOf(condition, runs);
      exists k :: 0 <= k < |runs| && runs[k].root in progress
        && Frames.Decorate(progress[runs[k].root], RunTag(reg, labels, k))
             == Success(Expected(reg, runs, condition, progress).value[j])
  {
    var labels := LabelsOf(condition, runs);
    var tags := Labels.AssignAll(reg, labels).0;
    var ready := Readable(runs, tags, progress);
    var k := ReadableOrigin(runs, tags, progress, j);
    TagOfRun(reg, labels, k);
    assert Expected(reg, runs, condition, progress).value[j] == Attempt(progress, ready[j]).value;
    assert runs[k].root in progress;
  }

  /** The collected run behind readable entry `j`. */
  lemma ReadableOrigin(runs: seq<Collector.Run>, tags: seq<Labels.Tag>, progress: Progress, j: int)
    returns (k: int)
    requires |tags| == |runs| && 0 <= j < |Readable(runs, tags, progress)|
    ensures 0 <= k < |runs| && Readable(runs, tags, progress)[j] == (runs[k], tags[k])
  {
    var pairs := Zip(runs, tags);
    Seqs.FilterMembers(pairs, CanRead(progress));
    k :| 0 <= k < |pairs| && pairs[k] == Readable(runs, tags, progress)[j];
  }

  /** The tag run `k` of a label sequence gets, in closed form. */
  function RunTag(reg: Labels.Registry, labels: seq<string>, k: int): Labels.Tag
    requires 0 <= k < |labels|
  {
    Labels.Tag(Labels.NextUnit(reg, labels[k]) + Seqs.Count(labels[..k], labels[k]),
               labels[k], Labels.Condition2(labels[k], reg.expIdx + k))
  }

  lemma TagOfRun(reg: Labels.Registry, labels: seq<string>, k: int)
    requires 0 <= k < |labels|
    ensures Labels.AssignAll(reg, labels).0[k] == RunTag(reg, labels, k)
  {
    Labels.AssignAllSpec(reg, labels);
  }

  /** The `os.walk` result of each log directory; a directory that does
      not exist walks to nothing. */
  function WalkOf(walks: map<string, seq<Collector.WalkEntry>>, logdir: string): seq<Collector.WalkEntry> {
    if logdir in walks then walks[logdir] else []
  }

  /** Lines 252-258: call `get_datasets` for each directory, with its
      legend entry as the condition when a legend is given, threading the
      registry and concatenating the frames. */
  function LoadAll(reg: Labels.Registry, logdirs: seq<string>, conditions: seq<Option<string>>,
                   walks: map<string, seq<Collector.WalkEntry>>, progress: Progress)
    : (r: Result<(seq<Frames.Frame>, Labels.Registry), Error>)
    requires |conditions| == |logdirs| && ProgressWellFormed(progress)
    decreases |logdirs|
    ensures r.Success? ==> Trace(logdirs, conditions, walks).Success?
    ensures r.Success? ==> r.value.1 == Labels.AssignAll(reg, Trace(logdirs, conditions, walks).value).1
  {
    if |logdirs| == 0 then Success(([], reg))
    else
      var first := GetDatasets(reg, WalkOf(walks, logdirs[0]), conditions[0], progress);
      if first.Failure? then Failure(first.error)
      else
        var rest := LoadAll(first.value.1, logdirs[1..], conditions[1..], walks, progress);
        if rest.Failure? then Failure(rest.error)
        else
          LoadAllStep(reg, logdirs, conditions, walks, first.value.1, rest.value.1);
          Success((first.value.0 + rest.value.0, rest.value.1))
  }

  /** One directory is one call of `get_datasets`. */
  lemma LoadAllOne(reg: Labels.Registry, logdir: string, condition: Option<string>,
                   walks: map<string, seq<Collector.WalkEntry>>, progress: Progress)
    requires ProgressWellFormed(progress)
    ensures LoadAll(reg, [logdir], [condition], walks, progress) ==
            GetDatasets(reg, WalkOf(walks, logdir), condition, progress)
  {
    assert [logdir][1..] == [] && [condition][1..] == [];
    var first := GetDatasets(reg, WalkOf(walks, logdir), condition, progress);
    if first.Success? {
      assert first.value.0 + [] == first.value.0;
    }
  }

  /** Frames loaded earlier, put in front of an outcome. */
  function Prefix(pre: seq<Frames.Frame>, so: Result<(seq<Frames.Frame>, Labels.Registry), Error>)
    : Result<(seq<Frames.Frame>, Labels.Registry), Error>
  {
    if so.Failure? then Failure(so.error) else Success((pre + so.value.0, so.value.1))
  }

  /** Continue from the outcome of the directories so far with the
      directories `ds`: a failure stays, otherwise the registry is carried
      on and the frames are concatenated. */
  function AndThen(so: Result<(seq<Frames.Frame>, Labels.Registry), Error>, ds: seq<string>,
                   cs: seq<Option<string>>, walks: map<string, seq<Collector.WalkEntry>>, progress: Progress)
    : Result<(seq<Frames.Frame>, Labels.Registry), Error>
    requires |cs| == |ds| && ProgressWellFormed(progress)
  {
    if so.Failure? then Failure(so.error)
    else Prefix(so.value.0, LoadAll(so.value.1, ds, cs, walks, progress))
  }

  /** The directories are processed in order, with the registry carried
      from one group to the next and the frames concatenated; the first
      failure ends the call. */
  lemma {:induction false} LoadAllAppend(reg: Labels.Registry, a: seq<string>, ca: seq<Option<string>>,
                                         b: seq<string>, cb: seq<Option<string>>,
                                         walks: map<string, seq<Collector.WalkEntry>>, progress: Progress)
    requires |ca| == |a| && |cb| == |b| && ProgressWellFormed(progress)
    ensures LoadAll(reg, a + b, ca + cb, walks, progress) == AndThen(LoadAll(reg, a, ca, walks, progress), b, cb, walks, progress)
    decreases |a|
  {
    if |a| == 0 {
      assert a + b == b && ca + cb == cb;
      var second := LoadAll(reg, b, cb, walks, progress);
      if second.Success? {
        assert [] + second.value.0 == second.value.0;
      }
    } else {
      var head := GetDatasets(reg, WalkOf(walks, a[0]), ca[0], progress);
      assert (a + b)[0] == a[0] && (ca + cb)[0] == ca[0];
      assert (a + b)[1..] == a[1..] + b && (ca + cb)[1..] == ca[1..] + cb;
      LoadAllUnfold(reg, a + b, ca + cb, walks, progress);
      LoadAllUnfold(reg, a, ca, walks, progress);
      if head.Success? {
        LoadAllAppend(head.value.1, a[1..], ca[1..], b, cb, walks, progress);
        PrefixAndThen(head.value.0, LoadAll(head.value.1, a[1..], ca[1..], walks, progress), b, cb, walks, progress);
      }
    }
  }

  lemma LoadAllUnfold(reg: Labels.Registry, ds: seq<string>, cs: seq<Option<string>>,
                      walks: map<string, seq<Collector.WalkEntry>>, progress: Progress)
    requires |cs| == |ds| && |ds| > 0 && ProgressWellFormed(progress)
    ensures var head := GetDatasets(reg, WalkOf(walks, ds[0]), cs[0], progress);
      LoadAll(reg, ds, cs, walks, progress) ==
        if head.Failure? then Failure(head.error)
        else Prefix(head.value.0, LoadAll(head.value.1, ds[1..], cs[1..], walks, progress))
  {
  }

  /** Putting earlier frames in front commutes with continuing. */
  lemma PrefixAndThen(pre: seq<Frames.Frame>, so: Result<(seq<Frames.Frame>, Labels.Registry), Error>,
                      ds: seq<string>, cs: seq<Option<string>>,
                      walks: map<string, seq<Collector.WalkEntry>>, progress: Progress)
    requires |cs| == |ds| && ProgressWellFormed(progress)
    ensures Prefix(pre, AndThen(so, ds, cs, walks, progress)) == AndThen(Prefix(pre, so), ds, cs, walks, progress)
  {
    if so.Success? {
      var next := LoadAll(so.value.1, ds, cs, walks, progress);
      if next.Success? {
        assert pre + (so.value.0 + next.value.0) == (pre + so.value.0) + next.value.0;
      }
    }
  }

  lemma LoadAllStep(reg: Labels.Registry, logdirs: seq<string>, conditions: seq<Option<string>>,
                    walks: map<string, seq<Collector.WalkEntry>>, mid: Labels.Registry, last: Labels.Registry)
    requires |logdirs| > 0 && |conditions| == |logdirs|
    requires Collector.Collect(WalkOf(walks, logdirs[0])).Success?
    requires mid == Labels.AssignAll(reg, LabelsOf(conditions[0], Collector.Collect(WalkOf(walks, logdirs[0])).value)).1
    requires Trace(logdirs[1..], conditions[1..], walks).Success?
    requires last == Labels.AssignAll(mid, Trace(logdirs[1..], conditions[1..], walks).value).1
    ensures Trace(logdirs, conditions, walks).Success?
    ensures last == Labels.AssignAll(reg, Trace(logdirs, conditions, walks).value).1
  {
    var here := LabelsOf(conditions[0], Collector.Collect(WalkOf(walks, logdirs[0])).value);
    var later := Trace(logdirs[1..], conditions[1..], walks).value;
    assert Trace(logdirs, conditions, walks) == Success(here + later);
    Labels.AssignAllAppend(reg, here, later);
  }

  /** The labels of all runs of an invocation, in the order they are
      processed. */
  function Trace(logdirs: seq<string>, conditions: seq<Option<string>>,
                 walks: map<string, seq<Collector.WalkEntry>>): Result<seq<string>, Error>
    requires |conditions| == |logdirs|
  {
    if |logdirs| == 0 then Success([])
    else
      var runs :- Collector.Collect(WalkOf(walks, logdirs[0]));
      var rest :- Trace(logdirs[1..], conditions[1..], walks);
      Success(LabelsOf(conditions[0], runs) + rest)
  }

  /** Line 253: legend entries become the conditions when the legend is
      non-empty; otherwise every directory keeps its own names. */
  function Conditions(legend: Option<seq<string>>, count: nat): (c: seq<Option<string>>)
    requires Resolver.LegendFits(legend, count)
    ensures |c| == count
    ensures legend.Some? && |legend.value| > 0 ==> forall i :: 0 <= i < count ==> c[i] == Some(legend.value[i])
    ensures legend.None? || |legend.value| == 0 ==> forall i :: 0 <= i < count ==> c[i] == None
  {
    if legend.Some? && |legend.value| > 0 then seq(count, i requires 0 <= i < count => Some(legend.value[i]))
    else seq(count, _ => None)
  }

  /** `get_all_datasets`, from a given registry state. */
  function GetAllDatasets(fs: Resolver.FileSystem, specs: seq<string>, legend: Option<seq<string>>,
                          select: Option<seq<string>>, exclude: Option<seq<string>>,
                          walks: map<string, seq<Collector.WalkEntry>>, progress: Progress,
                          reg: Labels.Registry)
    : (r: Result<(seq<Frames.Frame>, Labels.Registry), Error>)
    requires ProgressWellFormed(progress)
    ensures Resolver.ResolveLogdirs(fs, specs, legend, select, exclude).Failure? ==>
      r == Failure(Resolver.ResolveLogdirs(fs, specs, legend, select, exclude).error)
    ensures r.Success? ==>
      var logdirs := Resolver.ResolveLogdirs(fs, specs, legend, select, exclude).value;
      var trace := Trace(logdirs, Conditions(legend, |logdirs|), walks);
      && trace.Success?
      && r.value.1.expIdx == reg.expIdx + |trace.value|
      && forall l :: Labels.NextUnit(r.value.1, l) == Labels.NextUnit(reg, l) + Seqs.Count(trace.value, l)
    ensures Resolver.ResolveLogdirs(fs, specs, legend, select, exclude).Success? ==>
      var logdirs := Resolver.ResolveLogdirs(fs, specs, legend, select, exclude).value;
      r == LoadAll(reg, logdirs, Conditions(legend, |logdirs|), walks, progress)
  {
    var logdirs :- Resolver.ResolveLogdirs(fs, specs, legend, select, exclude);
    var conditions := Conditions(legend, |logdirs|);
    var result :- LoadAll(reg, logdirs, conditions, walks, progress);
    Labels.AssignAllSpec(reg, Trace(logdirs, conditions, walks).value);
    Success(result)
  }
}
