/**
 * Parameter automation, the loop at the top of each frame of the audio
 * callback: every live entry whose `target >= min` has its live value moved
 * toward the target by `approachExp` with ratio `25 / SAMPLE_RATE`.
 * Entries with `target < min` are skipped, which is how a target below the
 * range switches smoothing off.
 */
module Automation {
  import opened Wrappers
  import opened ParamTable
  import opened Approach

  /** `SAMPLE_RATE`: frames per second of the audio stream. */
  const SampleRate: nat := 192000

  /** The smoothing ratio `25.0 / SAMPLE_RATE` applied once per frame. */
  const Ratio: real := 25.0 / 192000.0

  /** The entry takes part in automation. */
  predicate Enabled(p: Param)
  {
    p.target >= p.min
  }

  /** Every enabled live entry has its target within bounds. */
  predicate EnabledTargetsInRange(t: Table)
    requires Terminated(t)
  {
    forall j :: 0 <= j < NParams(t) && Enabled(t[j]) ==> t[j].target <= t[j].max
  }

  /** Some live entry before `k` drives variable `v`. */
  predicate DrivenBefore(t: Table, k: nat, v: nat)
    requires k <= |t|
  {
    exists j :: 0 <= j < k && t[j].value == Some(v) && Enabled(t[j])
  }

  /** One entry's step: when enabled, its variable moves toward the target by `approachExp`. */
  function SmoothEntry(p: Param, mem: Memory): (m: Memory)
    requires p.value.Some? && p.value.value < |mem|
    ensures |m| == |mem|
    ensures forall v :: 0 <= v < |mem| && v != p.value.value ==> m[v] == mem[v]
    ensures !Enabled(p) ==> m == mem
  {
    if Enabled(p) then mem[p.value.value := ApproachExp(mem[p.value.value], p.target, Ratio)] else mem
  }

  /** The steps of the first `k` entries, in table order. */
  function AutomatePrefix(t: Table, mem: Memory, k: nat): (m: Memory)
    requires PointsInto(t, mem) && k <= NParams(t)
    ensures |m| == |mem|
    ensures forall v :: 0 <= v < |mem| && !DrivenBefore(t, k, v) ==> m[v] == mem[v]
  {
    if k == 0 then mem
    else
      var prev := AutomatePrefix(t, mem, k - 1);
      assert forall v :: DrivenBefore(t, k - 1, v) ==> DrivenBefore(t, k, v);
      SmoothEntry(t[k - 1], prev)
  }

  /** One automation pass over the whole table, run once per audio frame. */
  function AutomateSample(t: Table, mem: Memory): (m: Memory)
    requires PointsInto(t, mem)
    ensures |m| == |mem|
  {
    AutomatePrefix(t, mem, NParams(t))
  }

  /** What the pass does to live entry `j`'s variable when no other entry shares it. */
  function Smoothed(t: Table, mem: Memory, j: nat): real
    requires PointsInto(t, mem) && j < NParams(t)
  {
    if Enabled(t[j]) then ApproachExp(Current(t, mem, j), t[j].target, Ratio) else Current(t, mem, j)
  }

  lemma {:induction false} AutomatePrefixEffect(t: Table, mem: Memory, k: nat)
    requires PointsInto(t, mem) && k <= NParams(t)
    requires NoAlias(t)
    ensures forall j :: 0 <= j < k ==> AutomatePrefix(t, mem, k)[VarOf(t, j)] == Smoothed(t, mem, j)
  {
    if k > 0 {
      AutomatePrefixEffect(t, mem, k - 1);
      var prev := AutomatePrefix(t, mem, k - 1);
      var vk := VarOf(t, k - 1);
      assert prev[vk] == mem[vk];
      forall j | 0 <= j < k
        ensures AutomatePrefix(t, mem, k)[VarOf(t, j)] == Smoothed(t, mem, j)
      {
        if j < k - 1 {
          assert VarOf(t, j) != vk;
        }
      }
    }
  }

  /**
   * With no two entries sharing a variable, one pass moves each enabled
   * parameter's live value by exactly one `approachExp` step toward its
   * target and leaves disabled parameters and all other variables alone.
   */
  lemma AutomationEffect(t: Table, mem: Memory)
    requires PointsInto(t, mem) && NoAlias(t)
    ensures forall j :: 0 <= j < NParams(t) && Enabled(t[j]) ==>
      Current(t, AutomateSample(t, mem), j) == ApproachExp(Current(t, mem, j), t[j].target, Ratio)
    ensures forall j :: 0 <= j < NParams(t) && !Enabled(t[j]) ==>
      Current(t, AutomateSample(t, mem), j) == Current(t, mem, j)
    ensures forall v :: 0 <= v < |mem| && !DrivenBefore(t, NParams(t), v) ==> AutomateSample(t, mem)[v] == mem[v]
  {
    var m := AutomateSample(t, mem);
    AutomatePrefixEffect(t, mem, NParams(t));
    forall j | 0 <= j < NParams(t)
      ensures Current(t, m, j) == Smoothed(t, mem, j)
    {
      assert m[VarOf(t, j)] == Smoothed(t, mem, j);
    }
  }

  /**
   * The pass keeps every live value within its bounds, provided it starts
   * there, no variable is shared, and every enabled target is in range.
   */
  lemma AutomationKeepsRange(t: Table, mem: Memory)
    requires PointsInto(t, mem) && NoAlias(t)
    requires CurrentsInRange(t, mem)
    requires EnabledTargetsInRange(t)
    ensures PointsInto(t, AutomateSample(t, mem))
    ensures CurrentsInRange(t, AutomateSample(t, mem))
  {
    var m := AutomateSample(t, mem);
    AutomationEffect(t, mem);
    forall j | 0 <= j < NParams(t)
      ensures t[j].min <= Current(t, m, j) <= t[j].max
    {
      if Enabled(t[j]) {
        ApproachExpBetween(Current(t, mem, j), t[j].target, Ratio);
      }
    }
  }

  /** The pass as the audio callback runs it: a loop over the entries up to the sentinel. */
  method AutomationPass(t: Table, mem: Memory) returns (m: Memory)
    requires PointsInto(t, mem)
    ensures m == AutomateSample(t, mem)
  {
    m := mem;
    var j := 0;
    while t[j].value.Some?
      invariant j <= NParams(t)
      invariant m == AutomatePrefix(t, mem, j)
      decreases NParams(t) - j
    {
      m := SmoothEntry(t[j], m);
      j := j + 1;
    }
  }

  /** `n` consecutive frames of automation with the table unchanged. */
  function AutomateSamples(t: Table, mem: Memory, n: nat): (m: Memory)
    requires PointsInto(t, mem)
    ensures |m| == |mem|
    ensures PointsInto(t, m)
  {
    if n == 0 then mem else AutomateSample(t, AutomateSamples(t, mem, n - 1))
  }

  /**
   * Over `n` frames an enabled parameter's live value follows the iterated
   * `approachExp` law toward its fixed target (see `Approach.IterateExpGap`
   * for the closed form of that law).
   */
  lemma {:induction false} AutomateSamplesFollowLaw(t: Table, mem: Memory, n: nat, j: nat)
    requires PointsInto(t, mem) && NoAlias(t)
    requires j < NParams(t) && Enabled(t[j])
    ensures Current(t, AutomateSamples(t, mem, n), j) == IterateExp(Current(t, mem, j), t[j].target, Ratio, n)
  {
    if n > 0 {
      AutomateSamplesFollowLaw(t, mem, n - 1, j);
      AutomationEffect(t, AutomateSamples(t, mem, n - 1));
    }
  }

  /** Live values stay within bounds over any number of frames. */
  lemma {:induction false} AutomateSamplesKeepRange(t: Table, mem: Memory, n: nat)
    requires PointsInto(t, mem) && NoAlias(t)
    requires CurrentsInRange(t, mem)
    requires EnabledTargetsInRange(t)
    ensures CurrentsInRange(t, AutomateSamples(t, mem, n))
  {
    if n > 0 {
      AutomateSamplesKeepRange(t, mem, n - 1);
      AutomationKeepsRange(t, AutomateSamples(t, mem, n - 1));
    }
  }
}
