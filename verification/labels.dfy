/** The label and unit bookkeeping of `get_datasets` (lines 149-156):
    the module-level `exp_idx` counter and `units` dict become an explicit
    registry value that every step takes and returns. */
module Labels {
  import opened Wrappers
  import Text
  import Seqs

  datatype Registry = Registry(expIdx: nat, units: map<string, nat>)

  /** The state at import time: `exp_idx = 0`, `units = dict()`. */
  const Fresh: Registry := Registry(0, map[])

  /** What one run is tagged with. */
  datatype Tag = Tag(unit: nat, condition1: string, condition2: string)

  /** `units.get(name, 0)`: the next unit of a label. */
  function NextUnit(reg: Registry, name: string): nat {
    if name in reg.units then reg.units[name] else 0
  }

  /** Python truthiness of an optional string: absent and `''` are false. */
  predicate Truthy(s: Option<string>) {
    s.Some? && s.value != ""
  }

  /** The value of `c[0] or c[1] or ... or fallback`. */
  function FirstTruthy(candidates: seq<Option<string>>, fallback: string): (r: string)
    ensures fallback != "" ==> r != ""
    ensures (exists i :: 0 <= i < |candidates| && Truthy(candidates[i])) ==>
      exists i :: 0 <= i < |candidates| && candidates[i] == Some(r)
                  && forall j :: 0 <= j < i ==> !Truthy(candidates[j])
    ensures (forall i :: 0 <= i < |candidates| ==> !Truthy(candidates[i])) ==> r == fallback
  {
    if |candidates| == 0 then fallback
    else if Truthy(candidates[0]) then candidates[0].value
    else
      var r := FirstTruthy(candidates[1..], fallback);
      assert forall i :: 1 <= i < |candidates| ==> candidates[i] == candidates[1..][i - 1];
      r
  }

  /** Line 150: `condition or exp_name or 'exp'`. */
  function Condition1(condition: Option<string>, expName: Option<string>): (name: string)
    ensures name != ""
  {
    FirstTruthy([condition, expName], "exp")
  }

  /** Line 151: the label with the global run counter appended. */
  function Condition2(name: string, idx: nat): string {
    name + "-" + Text.Decimal(idx)
  }

  /** The secondary label determines both the label and the counter it
      was made from, so runs with different counters never share one. */
  lemma Condition2Injective(l1: string, i: nat, l2: string, j: nat)
    requires Condition2(l1, i) == Condition2(l2, j)
    ensures l1 == l2 && i == j
  {
    DecimalHasNoDash(i);
    DecimalHasNoDash(j);
    Text.SplitAtLastIndex(l1, '-', Text.Decimal(i));
    Text.SplitAtLastIndex(l2, '-', Text.Decimal(j));
    Text.DecimalInjective(i, j);
  }

  lemma DecimalHasNoDash(n: nat)
    ensures forall k :: 0 <= k < |Text.Decimal(n)| ==> Text.Decimal(n)[k] != '-'
  {
  }

  /** Lines 150-156 for one run: tag it, then advance the counters. */
  function Assign(reg: Registry, name: string): (out: (Tag, Registry))
    ensures out.0.unit == NextUnit(reg, name)
    ensures out.0.condition1 == name
    ensures out.0.condition2 == Condition2(name, reg.expIdx)
    ensures out.1.expIdx == reg.expIdx + 1
    ensures NextUnit(out.1, name) == NextUnit(reg, name) + 1
    ensures forall l :: l != name ==>
      (l in out.1.units <==> l in reg.units) && NextUnit(out.1, l) == NextUnit(reg, l)
  {
    var unit := NextUnit(reg, name);
    (Tag(unit, name, Condition2(name, reg.expIdx)),
     Registry(reg.expIdx + 1, reg.units[name := unit + 1]))
  }

  /** The loop of lines 149-156 over labels in processing order. The
      counters advance for every run, including runs whose
      `progress.txt` later fails to load. */
  function AssignAll(reg: Registry, labels: seq<string>): (out: (seq<Tag>, Registry))
    ensures |out.0| == |labels|
  {
    if |labels| == 0 then ([], reg)
    else
      var before := AssignAll(reg, labels[..|labels| - 1]);
      var step := Assign(before.1, labels[|labels| - 1]);
      (before.0 + [step.0], step.1)
  }

  /** Over any sequence of runs: the counter advances by one per run, the
      k-th run gets counter `expIdx + k`, and the units of one label are
      consecutive, continuing from where the registry stood. */
  lemma {:induction false} AssignAllSpec(reg: Registry, labels: seq<string>)
    ensures var out := AssignAll(reg, labels);
      && out.1.expIdx == reg.expIdx + |labels|
      && (forall l :: NextUnit(out.1, l) == NextUnit(reg, l) + Seqs.Count(labels, l))
      && (forall i :: 0 <= i < |labels| ==>
            && out.0[i].condition1 == labels[i]
            && out.0[i].condition2 == Condition2(labels[i], reg.expIdx + i)
            && out.0[i].unit == NextUnit(reg, labels[i]) + Seqs.Count(labels[..i], labels[i]))
  {
    if |labels| > 0 {
      var init := labels[..|labels| - 1];
      var last := labels[|labels| - 1];
      AssignAllSpec(reg, init);
      var before := AssignAll(reg, init);
      var out := AssignAll(reg, labels);
      forall i | 0 <= i < |labels|
        ensures out.0[i].condition1 == labels[i]
        ensures out.0[i].condition2 == Condition2(labels[i], reg.expIdx + i)
        ensures out.0[i].unit == NextUnit(reg, labels[i]) + Seqs.Count(labels[..i], labels[i])
      {
        if i < |labels| - 1 {
          assert out.0[i] == before.0[i];
          assert labels[..i] == init[..i];
        } else {
          assert labels[..i] == init;
        }
      }
    }
  }

  /** The registry carries over between calls: processing `a` and then
      `b` tags exactly as processing `a + b` in one go. */
  lemma {:induction false} AssignAllAppend(reg: Registry, a: seq<string>, b: seq<string>)
    ensures var first := AssignAll(reg, a);
      var second := AssignAll(first.1, b);
      AssignAll(reg, a + b) == (first.0 + second.0, second.1)
  {
    if |b| == 0 {
      assert a + b == a;
      assert AssignAll(reg, a).0 + [] == AssignAll(reg, a).0;
    } else {
      AssignAllAppend(reg, a, b[..|b| - 1]);
      assert (a + b)[..|a + b| - 1] == a + b[..|b| - 1];
      assert (a + b)[|a + b| - 1] == b[|b| - 1];
      var first := AssignAll(reg, a);
      var mid := AssignAll(first.1, b[..|b| - 1]);
      var step := Assign(mid.1, b[|b| - 1]);
      assert first.0 + (mid.0 + [step.0]) == (first.0 + mid.0) + [step.0];
    }
  }

  /** From the registry's import-time state, the runs of one label get
      units 0, 1, 2, ... in processing order. */
  lemma FreshUnitsCount(labels: seq<string>, i: int)
    requires 0 <= i < |labels|
    ensures AssignAll(Fresh, labels).0[i].unit == Seqs.Count(labels[..i], labels[i])
  {
    AssignAllSpec(Fresh, labels);
  }
}
