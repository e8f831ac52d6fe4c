/** The discovery half of `get_datasets`: which directories of an
    `os.walk` become runs, how runs sharing an experiment name collapse,
    and the name order they are emitted in. */
module Collector {
  import opened Wrappers
  import opened Errors
  import Text
  import Seqs

  /** One directory yielded by `os.walk`. `config` is `None` when
      `config.json` could not be opened or parsed; otherwise it holds the
      `exp_name` entry, itself `None` when the key is missing or null. */
  datatype WalkEntry = WalkEntry(root: string, hasProgress: bool, config: Option<Option<string>>)

  /** A discovered run: its experiment name and directory. */
  datatype Run = Run(name: Option<string>, root: string)

  /** Lines 128-136: a directory is recorded only when it holds
      `progress.txt` and its `config.json` loads. */
  predicate Recorded(w: WalkEntry) {
    w.hasProgress && w.config.Some?
  }

  function RunOf(w: WalkEntry): Run
    requires Recorded(w)
  {
    Run(w.config.value, w.root)
  }

  function RunsOf(ws: seq<WalkEntry>): (runs: seq<Run>)
    requires forall i :: 0 <= i < |ws| ==> Recorded(ws[i])
    ensures |runs| == |ws|
    ensures forall i :: 0 <= i < |ws| ==> runs[i] == RunOf(ws[i])
  {
    if |ws| == 0 then [] else [RunOf(ws[0])] + RunsOf(ws[1..])
  }

  /** The `(exp_name, root)` pairs appended while walking, in walk order. */
  function Discover(walk: seq<WalkEntry>): (runs: seq<Run>)
    ensures |runs| <= |walk|
    ensures forall i :: 0 <= i < |runs| ==>
      exists k :: 0 <= k < |walk| && Recorded(walk[k]) && runs[i] == RunOf(walk[k])
  {
    var kept := Seqs.Filter(walk, Recorded);
    Seqs.FilterMembers(walk, Recorded);
    var runs := RunsOf(kept);
    assert forall i :: 0 <= i < |runs| ==> kept[i] in walk;
    runs
  }

  /** Every recorded directory of the walk yields a run. */
  lemma DiscoverComplete(walk: seq<WalkEntry>, k: int)
    requires 0 <= k < |walk| && Recorded(walk[k])
    ensures RunOf(walk[k]) in Discover(walk)
  {
    var kept := Seqs.Filter(walk, Recorded);
    Seqs.FilterMembers(walk, Recorded);
    var i :| 0 <= i < |kept| && kept[i] == walk[k];
    assert Discover(walk)[i] == RunOf(walk[k]);
  }

  /** Walking one more directory first puts its run, if any, in front. */
  lemma DiscoverStep(walk: seq<WalkEntry>)
    requires |walk| > 0
    ensures Discover(walk) == (if Recorded(walk[0]) then [RunOf(walk[0])] else []) + Discover(walk[1..])
  {
    var tail := Seqs.Filter(walk[1..], Recorded);
    Seqs.FilterMembers(walk[1..], Recorded);
    if Recorded(walk[0]) {
      assert Seqs.Filter(walk, Recorded) == [walk[0]] + tail;
      assert RunsOf([walk[0]] + tail)[1..] == RunsOf(tail);
    } else {
      assert Seqs.Filter(walk, Recorded) == tail;
    }
  }

  /** Directory `k` of the walk is recorded as `run`, and no later
      recorded directory carries the same name. */
  predicate LastRecordedAt(walk: seq<WalkEntry>, k: int, run: Run) {
    && 0 <= k < |walk| && Recorded(walk[k]) && RunOf(walk[k]) == run
    && forall j :: k < j < |walk| && Recorded(walk[j]) ==> walk[j].config.value != run.name
  }

  /** Walk order is kept: the run that is last of its name among the
      discovered runs comes from the last recorded directory of the walk
      carrying that name. */
  lemma {:induction false} DiscoverKeepsWalkOrder(walk: seq<WalkEntry>, run: Run)
    requires IsLastOfName(Discover(walk), run)
    ensures exists k :: LastRecordedAt(walk, k, run)
  {
    if |walk| > 0 {
      DiscoverStep(walk);
      var head := if Recorded(walk[0]) then [RunOf(walk[0])] else [];
      var rest := Discover(walk[1..]);
      LastOfNameSplit(head, rest, run);
      if IsLastOfName(rest, run) {
        DiscoverKeepsWalkOrder(walk[1..], run);
        var k :| LastRecordedAt(walk[1..], k, run);
        ShiftLastRecorded(walk, k, run);
      } else {
        FirstWalkedIsLast(walk, run);
      }
    }
  }

  /** The last run of a name in `head + rest`, with at most one run in
      `head`, is either the last of its name in `rest` or the head run
      with no namesake in `rest`. */
  lemma LastOfNameSplit(head: seq<Run>, rest: seq<Run>, run: Run)
    requires |head| <= 1 && IsLastOfName(head + rest, run)
    ensures IsLastOfName(rest, run)
            || (|head| == 1 && head[0] == run && forall j :: 0 <= j < |rest| ==> rest[j].name != run.name)
  {
    var runs := head + rest;
    var i :| 0 <= i < |runs| && runs[i] == run && forall j :: i < j < |runs| ==> runs[j].name != run.name;
    if i >= |head| {
      var m := i - |head|;
      assert rest[m] == runs[i];
      forall j | m < j < |rest| ensures rest[j].name != run.name {
        assert rest[j] == runs[j + |head|];
      }
      assert 0 <= m < |rest| && rest[m] == run && forall j :: m < j < |rest| ==> rest[j].name != run.name;
    } else {
      forall j | 0 <= j < |rest| ensures rest[j].name != run.name {
        assert rest[j] == runs[j + 1];
      }
    }
  }

  lemma ShiftLastRecorded(walk: seq<WalkEntry>, k: int, run: Run)
    requires |walk| > 0 && LastRecordedAt(walk[1..], k, run)
    ensures LastRecordedAt(walk, k + 1, run)
  {
    assert walk[k + 1] == walk[1..][k];
    forall j | k + 1 < j < |walk| && Recorded(walk[j]) ensures walk[j].config.value != run.name {
      assert walk[j] == walk[1..][j - 1];
    }
  }

  /** The first directory's run, when no later discovered run shares its
      name, has no later recorded directory of that name either. */
  lemma FirstWalkedIsLast(walk: seq<WalkEntry>, run: Run)
    requires |walk| > 0 && Recorded(walk[0]) && run == RunOf(walk[0])
    requires forall j :: 0 <= j < |Discover(walk[1..])| ==> Discover(walk[1..])[j].name != run.name
    ensures LastRecordedAt(walk, 0, run)
  {
    var rest := Discover(walk[1..]);
    forall j | 0 < j < |walk| && Recorded(walk[j]) ensures walk[j].config.value != run.name {
      assert walk[j] == walk[1..][j - 1];
      DiscoverComplete(walk[1..], j - 1);
      var m :| 0 <= m < |rest| && rest[m] == RunOf(walk[j]);
    }
  }

  function RunNames(runs: seq<Run>): (names: seq<Option<string>>)
    ensures |names| == |runs|
    ensures forall i :: 0 <= i < |runs| ==> names[i] == runs[i].name
  {
    if |runs| == 0 then [] else [runs[0].name] + RunNames(runs[1..])
  }

  /** Line 140: `{exp_names[i]: roots[i] ...}`; a later entry overwrites an
      earlier one with the same name. */
  function LastRoots(runs: seq<Run>): map<Option<string>, string> {
    if |runs| == 0 then map[]
    else LastRoots(runs[..|runs| - 1])[runs[|runs| - 1].name := runs[|runs| - 1].root]
  }

  /** Every recorded name, and only those, becomes a key. */
  lemma {:induction false} LastRootsKeys(runs: seq<Run>)
    ensures forall n :: n in LastRoots(runs) <==> n in RunNames(runs)
  {
    if |runs| > 0 {
      var init := runs[..|runs| - 1];
      LastRootsKeys(init);
      assert RunNames(runs) == RunNames(init) + [runs[|runs| - 1].name];
    }
  }

  /** Independent reading of "the last root wins": `run` occurs in `runs`
      and no later run carries its name. */
  ghost predicate IsLastOfName(runs: seq<Run>, run: Run) {
    exists k :: 0 <= k < |runs| && runs[k] == run
                && forall j :: k < j < |runs| ==> runs[j].name != run.name
  }

  lemma {:induction false} LastRootsIsLast(runs: seq<Run>, n: Option<string>)
    requires n in LastRoots(runs)
    ensures IsLastOfName(runs, Run(n, LastRoots(runs)[n]))
  {
    var last := runs[|runs| - 1];
    var init := runs[..|runs| - 1];
    assert LastRoots(runs) == LastRoots(init)[last.name := last.root];
    if last.name == n {
      assert LastRoots(runs)[n] == last.root;
      assert runs[|runs| - 1] == Run(n, LastRoots(runs)[n]);
    } else {
      assert LastRoots(runs)[n] == LastRoots(init)[n];
      assert n in LastRoots(init);
      LastRootsIsLast(init, n);
      var k :| 0 <= k < |init| && init[k] == Run(n, LastRoots(init)[n])
               && forall j :: k < j < |init| ==> init[j].name != n;
      assert runs[k] == init[k];
      assert forall j :: k < j < |runs| ==> runs[j].name != n by {
        forall j | k < j < |runs| ensures runs[j].name != n {
          if j < |init| {
            assert runs[j] == init[j];
          }
        }
      }
    }
  }

  /** The runs for `keys`, in that order, each with its surviving root. */
  function RunsFor(keys: seq<Option<string>>, roots: map<Option<string>, string>): (runs: seq<Run>)
    requires forall i :: 0 <= i < |keys| ==> keys[i] in roots
    ensures |runs| == |keys|
    ensures forall i :: 0 <= i < |keys| ==> runs[i] == Run(keys[i], roots[keys[i]])
  {
    if |keys| == 0 then [] else [Run(keys[0], roots[keys[0]])] + RunsFor(keys[1..], roots)
  }

  function Unwrapped(keys: seq<Option<string>>): (names: seq<string>)
    requires forall i :: 0 <= i < |keys| ==> keys[i].Some?
    ensures |names| == |keys|
    ensures forall i :: 0 <= i < |keys| ==> keys[i] == Some(names[i])
  {
    if |keys| == 0 then [] else [keys[0].value] + Unwrapped(keys[1..])
  }

  /** Emitted names strictly ascend; with two or more runs every name is
      a string, since Python cannot order `None` against a `str`. */
  predicate NamesAscend(runs: seq<Run>) {
    forall i, j :: 0 <= i < j < |runs| ==>
      runs[i].name.Some? && runs[j].name.Some? && Text.Less(runs[i].name.value, runs[j].name.value)
  }

  /** Line 144: `sorted` by name, for names that are all strings. */
  function NameOrder(keys: seq<Option<string>>): (ordered: seq<Option<string>>)
    requires Seqs.Distinct(keys)
    requires forall i :: 0 <= i < |keys| ==> keys[i].Some?
    ensures |ordered| == |keys|
    ensures forall n :: n in ordered <==> n in keys
    ensures forall i, j :: 0 <= i < j < |ordered| ==>
      ordered[i].Some? && ordered[j].Some? && Text.Less(ordered[i].value, ordered[j].value)
  {
    var names := Unwrapped(keys);
    var sorted := Seqs.Sort(names);
    assert Seqs.Distinct(names);
    Seqs.PermutationKeepsDistinct(sorted, names);
    Seqs.SortedDistinctIsStrict(sorted);
    var ordered := seq(|sorted|, i requires 0 <= i < |sorted| => Some(sorted[i]));
    assert |sorted| == |multiset(sorted)| == |multiset(names)| == |names|;
    forall n | n in ordered ensures n in keys {
      var i :| 0 <= i < |ordered| && ordered[i] == n;
      assert sorted[i] in multiset(names);
      var j :| 0 <= j < |names| && names[j] == sorted[i];
      assert keys[j] == n;
    }
    forall n | n in keys ensures n in ordered {
      var j :| 0 <= j < |keys| && keys[j] == n;
      assert names[j] in multiset(sorted);
      var i :| 0 <= i < |sorted| && sorted[i] == names[j];
      assert ordered[i] == n;
    }
    ordered
  }

  /** Lines 140-146: collapse duplicate names, then sort by name. */
  function Collect(walk: seq<WalkEntry>): (r: Result<seq<Run>, Error>)
    ensures var keys := Seqs.Dedupe(RunNames(Discover(walk)));
      r.Failure? <==> |keys| >= 2 && None in keys
    ensures r.Failure? ==> r.error == UnorderableNames
    ensures r.Success? ==>
      && NamesAscend(r.value)
      && (forall n :: n in RunNames(r.value) <==> n in RunNames(Discover(walk)))
      && (forall i :: 0 <= i < |r.value| ==> IsLastOfName(Discover(walk), r.value[i]))
  {
    var runs := Discover(walk);
    var keys := Seqs.Dedupe(RunNames(runs));
    if |keys| >= 2 && None in keys then Failure(UnorderableNames) else Success(Arrange(runs))
  }

  /** The dict built from the recorded runs, listed in name order. */
  function Arrange(runs: seq<Run>): (out: seq<Run>)
    requires var keys := Seqs.Dedupe(RunNames(runs)); !(|keys| >= 2 && None in keys)
    ensures NamesAscend(out)
    ensures |out| == |Seqs.Dedupe(RunNames(runs))|
    ensures forall n :: n in RunNames(out) <==> n in RunNames(runs)
    ensures forall i :: 0 <= i < |out| ==> IsLastOfName(runs, out[i])
  {
    var keys := Seqs.Dedupe(RunNames(runs));
    var ordered := if |keys| <= 1 then keys else NameOrder(keys);
    assert forall n :: n in ordered <==> n in RunNames(runs) by {
      DedupeMembers(RunNames(runs));
    }
    var out := Emit(runs, ordered);
    assert NamesAscend(out) by {
      if |keys| >= 2 {
        forall i, j | 0 <= i < j < |out|
          ensures out[i].name.Some? && out[j].name.Some?
                  && Text.Less(out[i].name.value, out[j].name.value)
        {
          assert out[i].name == ordered[i] && out[j].name == ordered[j];
        }
      }
    }
    out
  }

  lemma DedupeMembers(names: seq<Option<string>>)
    ensures forall n :: n in Seqs.Dedupe(names) <==> n in names
  {
    var d := Seqs.Dedupe(names);
    forall n ensures n in d <==> n in names {
      if n in d {
        var i :| 0 <= i < |d| && d[i] == n;
      }
      if n in names {
        var i :| 0 <= i < |names| && names[i] == n;
      }
    }
  }

  /** Line 146: each ordered name paired with its surviving root. */
  function Emit(runs: seq<Run>, ordered: seq<Option<string>>): (out: seq<Run>)
    requires forall n :: n in ordered <==> n in RunNames(runs)
    ensures RunNames(out) == ordered
    ensures forall i :: 0 <= i < |out| ==> IsLastOfName(runs, out[i])
  {
    LastRootsKeys(runs);
    var out := RunsFor(ordered, LastRoots(runs));
    CollectedAreLast(runs, out);
    out
  }

  /** A directory without `progress.txt`, or whose `config.json` fails to
      load, has no influence on the collected runs. */
  lemma UnrecordedIsIgnored(walk: seq<WalkEntry>, k: int)
    requires 0 <= k < |walk| && !Recorded(walk[k])
    ensures Collect(walk[..k] + walk[k + 1..]) == Collect(walk)
  {
    Seqs.FilterSkipsRejected(walk, k, Recorded);
  }

  /** Each collected run is the name and root of the last recorded
      directory of the walk with that name. */
  lemma CollectTakesLastWalked(walk: seq<WalkEntry>, i: int)
    requires Collect(walk).Success? && 0 <= i < |Collect(walk).value|
    ensures exists k :: LastRecordedAt(walk, k, Collect(walk).value[i])
  {
    DiscoverKeepsWalkOrder(walk, Collect(walk).value[i]);
  }

  lemma CollectedAreLast(runs: seq<Run>, out: seq<Run>)
    requires forall i :: 0 <= i < |out| ==>
      out[i].name in LastRoots(runs) && out[i].root == LastRoots(runs)[out[i].name]
    ensures forall i :: 0 <= i < |out| ==> IsLastOfName(runs, out[i])
  {
    forall i | 0 <= i < |out| ensures IsLastOfName(runs, out[i]) {
      LastRootsIsLast(runs, out[i].name);
    }
  }
}
