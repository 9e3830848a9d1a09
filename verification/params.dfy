/**
 * The generator's parameter table, `struct input_param params[]`: a C array
 * of `{ name[16], min, max, value, target }` terminated by an entry whose
 * `value` pointer is null. `value` points at one of the generator's static
 * variables; the model numbers those variables and keeps their contents in
 * a `Memory`, so `value == Some(v)` means "points at variable `v`" and the
 * live value of the parameter (its `current`) is `mem[v]`.
 */
module ParamTable {
  import opened Wrappers
  import opened CString

  datatype Param = Param(name: Name, min: real, max: real, value: Option<nat>, target: real)

  type Table = seq<Param>

  /** The contents of the generator's static variables. */
  type Memory = seq<real>

  /** The table holds a sentinel entry somewhere. */
  predicate Terminated(t: Table)
  {
    exists k :: 0 <= k < |t| && t[k].value.None?
  }

  /** Index of the first sentinel at or after `from`. */
  function SentinelFrom(t: Table, from: nat): (n: nat)
    requires from <= |t|
    requires exists k :: from <= k < |t| && t[k].value.None?
    ensures from <= n < |t|
    ensures t[n].value.None?
    ensures forall k :: from <= k < n ==> t[k].value.Some?
    decreases |t| - from
  {
    if t[from].value.None? then from else SentinelFrom(t, from + 1)
  }

  /** `n_params`: the number of entries before the first sentinel. */
  function NParams(t: Table): (n: nat)
    requires Terminated(t)
    ensures n < |t|
    ensures t[n].value.None?
    ensures forall k :: 0 <= k < n ==> t[k].value.Some?
  {
    SentinelFrom(t, 0)
  }

  /**
   * The host's counting loop `for (; params[n].value; n++) ;`. Every other
   * table loop of the host (export, randomise, the per-frame edit pass and the
   * automation pass) stops at the same entry.
   */
  method CountParams(t: Table) returns (n: nat)
    requires Terminated(t)
    ensures n < |t| && t[n].value.None?
    ensures forall k :: 0 <= k < n ==> t[k].value.Some?
    ensures n == NParams(t)
  {
    n := 0;
    while t[n].value.Some?
      invariant n <= NParams(t)
      decreases NParams(t) - n
    {
      n := n + 1;
    }
  }

  /** Entry `j` is a real parameter, before the sentinel. */
  predicate Live(t: Table, j: int)
    requires Terminated(t)
  {
    0 <= j < NParams(t)
  }

  /** Variable backing live entry `j`. */
  function VarOf(t: Table, j: nat): nat
    requires Terminated(t) && j < NParams(t)
  {
    t[j].value.value
  }

  /** Every live entry points into memory. */
  predicate PointsInto(t: Table, mem: Memory)
  {
    && Terminated(t)
    && forall j :: 0 <= j < NParams(t) ==> t[j].value.value < |mem|
  }

  /** `*params[j].value`, the live value of parameter `j`. */
  function Current(t: Table, mem: Memory, j: nat): real
    requires PointsInto(t, mem) && j < NParams(t)
  {
    mem[t[j].value.value]
  }

  /** Every live entry has `min <= max`. */
  predicate Bounded(t: Table)
    requires Terminated(t)
  {
    forall j :: 0 <= j < NParams(t) ==> t[j].min <= t[j].max
  }

  /** No two live entries point at the same variable. */
  predicate NoAlias(t: Table)
    requires Terminated(t)
  {
    forall j, k :: 0 <= j < k < NParams(t) ==> t[j].value != t[k].value
  }

  /** No two live entries have the same C-string name. */
  predicate UniqueNames(t: Table)
    requires Terminated(t)
  {
    forall j, k :: 0 <= j < k < NParams(t) ==> CStr(t[j].name, NameWidth) != CStr(t[k].name, NameWidth)
  }

  /** Every live `current` lies within its entry's bounds. */
  predicate CurrentsInRange(t: Table, mem: Memory)
    requires PointsInto(t, mem)
  {
    forall j :: 0 <= j < NParams(t) ==> t[j].min <= Current(t, mem, j) <= t[j].max
  }

  /** Every live `target` lies within its entry's bounds. */
  predicate TargetsInRange(t: Table)
    requires Terminated(t)
  {
    forall j :: 0 <= j < NParams(t) ==> t[j].min <= t[j].target <= t[j].max
  }

  /** `t'` differs from `t` at most in the targets of live entries. */
  predicate OnlyTargetsChanged(t: Table, t': Table)
    requires Terminated(t)
  {
    && |t'| == |t|
    && (forall j :: 0 <= j < |t| ==>
          && t'[j].name == t[j].name && t'[j].min == t[j].min
          && t'[j].max == t[j].max && t'[j].value == t[j].value)
    && (forall j :: NParams(t) <= j < |t| ==> t'[j] == t[j])
  }

  /** Changing only targets keeps the sentinel, and with it `n_params`, where it was. */
  lemma OnlyTargetsKeepsShape(t: Table, t': Table)
    requires Terminated(t)
    requires OnlyTargetsChanged(t, t')
    ensures Terminated(t')
    ensures NParams(t') == NParams(t)
  {
    var n := NParams(t);
    assert t'[n].value.None?;
    assert forall k :: 0 <= k < n ==> t'[k].value.Some?;
    SentinelUnique(t', n);
  }

  /** The first-null index is the only index that satisfies its specification. */
  lemma SentinelUnique(t: Table, n: nat)
    requires n < |t| && t[n].value.None?
    requires forall k :: 0 <= k < n ==> t[k].value.Some?
    ensures Terminated(t)
    ensures NParams(t) == n
  {
  }
}
