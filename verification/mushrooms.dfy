/**
 * The generator the host loads: the statics of `mushrooms.c`, its parameter
 * table and the `square` wave helper. The statics are numbered in declaration
 * order; the parameter table points at thirteen of them, and the generator
 * itself writes only the five phase accumulators.
 */
module Mushrooms {
  import opened Wrappers
  import opened CString
  import opened ParamTable
  import Snapshot
  import Control
  import Soundgen

  /** Indices of the statics, in declaration order. */
  const Freq: nat := 0
  const ScanFreqMul: nat := 1
  const StemFreqMul: nat := 2
  const HatFreqMul: nat := 3
  const DisjointXFreqMul: nat := 4
  const DisjointYFreqMul: nat := 5
  const Ampl: nat := 6
  const ScanAmpl: nat := 7
  const StemAmpl: nat := 8
  const HatAmpl: nat := 9
  const DisjointXAmpl: nat := 10
  const DisjointYAmpl: nat := 11
  const HatPerc: nat := 12
  const ScanPhase: nat := 13
  const StemPhase: nat := 14
  const HatPhase: nat := 15
  const DisjointXPhase: nat := 16
  const DisjointYPhase: nat := 17
  const LfoPhase: nat := 18

  /** Number of statics. */
  const Statics: nat := 19

  /** The statics at load time: `freq` is 440, `hat_ampl` and `hat_perc` 0.25, the rest 0. */
  function InitialMemory(): (mem: Memory)
    ensures |mem| == Statics
    ensures mem[Freq] == 440.0 && mem[HatAmpl] == 0.25 && mem[HatPerc] == 0.25
    ensures forall v :: 0 <= v < Statics && v != Freq && v != HatAmpl && v != HatPerc ==> mem[v] == 0.0
  {
    seq(Statics, v => if v == Freq then 440.0 else if v == HatAmpl || v == HatPerc then 0.25 else 0.0)
  }

  /** One row of the `params[]` initializer. */
  datatype Row = Row(name: string, min: real, max: real, slot: nat, target: real)

  /** The thirteen live rows of `params[]`, in declaration order. */
  const Rows: seq<Row> := [
    Row("freq", 0.0, 10000.0, Freq, 4000.0),
    Row("hat_f", 0.0, 2.0, HatFreqMul, 1.0),
    Row("hat_x", 0.0, 1.0, HatAmpl, 0.25),
    Row("hat_p", 0.0, 1.0, HatPerc, 0.6),
    Row("stem_f", 0.0, 2.0, StemFreqMul, 1.0),
    Row("stem_x", 0.0, 0.1, StemAmpl, 0.01),
    Row("scan_f", 0.0, 2.0, ScanFreqMul, 0.1),
    Row("scan_x", 0.0, 1.0, ScanAmpl, 0.25),
    Row("ampl_all", 0.0, 1.0, Ampl, 1.0),
    Row("disj_x", 0.0, 0.5, DisjointXAmpl, 0.0),
    Row("disj_y", 0.0, 0.5, DisjointYAmpl, 0.0),
    Row("disj_xf", 0.0, 1.0, DisjointXFreqMul, 0.5),
    Row("disj_yf", 0.0, 1.0, DisjointYFreqMul, 0.25)
  ]

  /** Every row's name fits a `char[16]` with room for its terminator. */
  lemma RowNamesFit()
    ensures forall j :: 0 <= j < |Rows| ==> |Rows[j].name| < NameWidth && '\0' !in Rows[j].name
  {
  }

  /** The `params[]` array: the rows, then the all-zero sentinel. */
  function Params(): (t: Table)
    ensures |t| == |Rows| + 1
    ensures Terminated(t) && NParams(t) == |Rows|
    ensures forall j :: 0 <= j < |Rows| ==>
      && CStr(t[j].name, NameWidth) == Rows[j].name
      && t[j].min == Rows[j].min && t[j].max == Rows[j].max
      && t[j].value == Some(Rows[j].slot) && t[j].target == Rows[j].target
  {
    RowNamesFit();
    var t := seq(|Rows| + 1, (j: nat) =>
      if j < |Rows| then Param(Literal(Rows[j].name), Rows[j].min, Rows[j].max, Some(Rows[j].slot), Rows[j].target)
      else Param(Literal(""), 0.0, 0.0, None, 0.0));
    SentinelUnique(t, |Rows|);
    t
  }

  lemma RowNamesDistinct()
    ensures forall j, k :: 0 <= j < k < |Rows| ==> Rows[j].name != Rows[k].name
  {
  }

  lemma RowVarsDistinct()
    ensures forall j, k :: 0 <= j < k < |Rows| ==> Rows[j].slot != Rows[k].slot
  {
  }

  lemma RowsInRange()
    ensures forall j :: 0 <= j < |Rows| ==> Rows[j].min <= Rows[j].target <= Rows[j].max
    ensures forall j :: 0 <= j < |Rows| ==> Rows[j].slot < Statics
    ensures forall j :: 0 <= j < |Rows| ==> Rows[j].min <= InitialMemory()[Rows[j].slot] <= Rows[j].max
  {
  }

  lemma ParamsPointIntoStatics()
    ensures PointsInto(Params(), InitialMemory())
  {
    var t := Params();
    RowsInRange();
    forall j | 0 <= j < NParams(t)
      ensures t[j].value.value < |InitialMemory()|
    {
      assert t[j].value == Some(Rows[j].slot);
    }
  }

  lemma ParamsInRange()
    ensures Bounded(Params()) && TargetsInRange(Params())
    ensures PointsInto(Params(), InitialMemory()) && CurrentsInRange(Params(), InitialMemory())
  {
    var t := Params();
    RowsInRange();
    ParamsPointIntoStatics();
    forall j | 0 <= j < NParams(t)
      ensures t[j].min <= t[j].target <= t[j].max
      ensures t[j].min <= Current(t, InitialMemory(), j) <= t[j].max
    {
      assert t[j].value == Some(Rows[j].slot);
    }
  }

  lemma ParamsDistinct()
    ensures UniqueNames(Params()) && NoAlias(Params())
  {
    ParamNamesDistinct();
    ParamVarsDistinct();
  }

  lemma ParamNamesDistinct()
    ensures UniqueNames(Params())
  {
    RowNamesDistinct();
    NamesFromRows(Params(), Rows);
  }

  /** A table whose live names read back as pairwise different row names has unique names. */
  lemma NamesFromRows(t: Table, rows: seq<Row>)
    requires Terminated(t) && NParams(t) == |rows|
    requires forall j :: 0 <= j < |rows| ==> CStr(t[j].name, NameWidth) == rows[j].name
    requires forall j, k :: 0 <= j < k < |rows| ==> rows[j].name != rows[k].name
    ensures UniqueNames(t)
  {
  }

  lemma ParamVarsDistinct()
    ensures NoAlias(Params())
  {
    var t := Params();
    RowVarsDistinct();
    forall j, k | 0 <= j < k < NParams(t)
      ensures t[j].value != t[k].value
    {
    }
  }

  /**
   * The table is well formed: names are unique, every range is non-empty,
   * every default target lies in its range, no two entries share a variable,
   * every entry points at a static, and every static starts within the range
   * of the entry that drives it.
   */
  lemma ParamsWellFormed()
    ensures UniqueNames(Params())
    ensures Bounded(Params())
    ensures TargetsInRange(Params())
    ensures NoAlias(Params())
    ensures PointsInto(Params(), InitialMemory())
    ensures CurrentsInRange(Params(), InitialMemory())
  {
    ParamsInRange();
    ParamsDistinct();
  }

  /** The statics `generate` writes: the five phases (the LFO update is commented out). */
  predicate IsPhase(v: nat)
  {
    ScanPhase <= v <= DisjointYPhase
  }

  /** A generator that writes nothing but the phase accumulators. */
  ghost predicate WritesOnlyPhases(gen: Soundgen.Generator)
  {
    forall time: real, mem: Memory ::
      && |gen(time, mem).mem| == |mem|
      && forall v :: 0 <= v < |mem| && !IsPhase(v) ==> gen(time, mem).mem[v] == mem[v]
  }

  /** Such a generator never touches a parameter's variable. */
  lemma PhasesOnlyKeepsParams(gen: Soundgen.Generator)
    requires WritesOnlyPhases(gen)
    ensures Soundgen.KeepsSize(gen)
    ensures Soundgen.KeepsParams(gen, Params())
  {
    var t := Params();
    ParamsAreNotPhases();
    forall time: real, mem: Memory, j | 0 <= j < NParams(t) && t[j].value.value < |mem|
      ensures t[j].value.value < |gen(time, mem).mem|
      ensures gen(time, mem).mem[t[j].value.value] == mem[t[j].value.value]
    {
    }
  }

  /** No parameter points at a phase accumulator. */
  lemma ParamsAreNotPhases()
    ensures forall j :: 0 <= j < NParams(Params()) ==> !IsPhase(Params()[j].value.value)
  {
    var t := Params();
    RowsBeforePhases();
    forall j | 0 <= j < NParams(t)
      ensures !IsPhase(t[j].value.value)
    {
      assert t[j].value == Some(Rows[j].slot);
    }
  }

  /** Every parameter row's variable lies before the first phase accumulator. */
  lemma RowsBeforePhases()
    ensures forall j :: 0 <= j < |Rows| ==> Rows[j].slot < ScanPhase
  {
  }

  /** The host right after loading this generator, as the program boots with `clip` on the clipboard. */
  function Loaded(clip: string): (h: Control.Host)
    ensures Control.Wired(h) && Control.Healthy(h.table, h.mem)
    ensures h.table == Params() && h.mem == InitialMemory() && h.clip == clip && h.off == 0 && h.time == 0.0
  {
    LoadedHealthy();
    Control.Boot(Params(), InitialMemory(), clip)
  }

  lemma LoadedHealthy()
    ensures PointsInto(Params(), InitialMemory())
    ensures Control.Healthy(Params(), InitialMemory())
  {
    ParamsWellFormed();
  }

  /**
   * From load onwards, whatever keys, pointer moves, pastes and audio
   * callbacks arrive, every live value and target of this generator stays
   * within its range.
   */
  lemma MushroomsStayHealthy(
    clip: string, es: seq<Control.Event>, sin: real -> real, fmod: (real, real) -> real, pi: real,
    encode: seq<Snapshot.Record> -> string, decode: string -> seq<Snapshot.Record>)
    requires pi > 0.0
    ensures PointsInto(Control.Session(Loaded(clip), es, Generator(sin, fmod, pi), encode, decode).table,
                       Control.Session(Loaded(clip), es, Generator(sin, fmod, pi), encode, decode).mem)
    ensures CurrentsInRange(Control.Session(Loaded(clip), es, Generator(sin, fmod, pi), encode, decode).table,
                            Control.Session(Loaded(clip), es, Generator(sin, fmod, pi), encode, decode).mem)
    ensures TargetsInRange(Control.Session(Loaded(clip), es, Generator(sin, fmod, pi), encode, decode).table)
  {
    var gen := Generator(sin, fmod, pi);
    PhasesOnlyKeepsParams(gen);
    Control.SessionKeepsHealthy(Loaded(clip), es, gen, encode, decode);
  }

  /** `square(dt)`: -1 where the sine is negative, 1 elsewhere; the sine value is an input. */
  function Square(sine: real): (r: real)
    ensures r == 1.0 || r == -1.0
    ensures r < 0.0 <==> sine < 0.0
  {
    if sine < 0.0 then -1.0 else 1.0
  }

  /** `saw(dt)`, with `fmod` and the value of pi as inputs. */
  function Saw(fmod: (real, real) -> real, pi: real, x: real): real
    requires pi > 0.0
  {
    fmod(x, pi * 2.0) / pi - 1.0
  }

  /** The phase increment of one frame: `2 pi dt` times a frequency. */
  function Advance(pi: real, hz: real): real
  {
    pi * 2.0 * Soundgen.Dt * hz
  }

  /** The first five statements of `generate`: each phase advances by its frequency. */
  function AdvancePhases(pi: real, mem: Memory): (m: Memory)
    requires |mem| >= Statics
    ensures |m| == |mem|
    ensures forall v :: 0 <= v < |mem| && !IsPhase(v) ==> m[v] == mem[v]
    ensures mem[Freq] == 0.0 ==> m == mem
  {
    var f := mem[Freq];
    var m := mem[ScanPhase := mem[ScanPhase] + Advance(pi, f * mem[ScanFreqMul])]
                [StemPhase := mem[StemPhase] + Advance(pi, f * mem[StemFreqMul])]
                [HatPhase := mem[HatPhase] + Advance(pi, f * mem[HatFreqMul])]
                [DisjointXPhase := mem[DisjointXPhase] + Advance(pi, f * mem[DisjointXFreqMul] * mem[ScanFreqMul])]
                [DisjointYPhase := mem[DisjointYPhase] + Advance(pi, f * mem[DisjointYFreqMul] * mem[ScanFreqMul])];
    assert f == 0.0 ==> m == mem by {
      if f == 0.0 {
        assert forall v :: 0 <= v < |mem| ==> m[v] == mem[v];
      }
    }
    m
  }

  /**
   * `generate`: advance the five phases by the current frequencies, then mix
   * one stereo sample from the advanced phases. `sin`, `fmod` and pi are
   * inputs; the output is kept in reals, without the rounding to `float`.
   */
  function Generate(sin: real -> real, fmod: (real, real) -> real, pi: real, mem: Memory): (out: Soundgen.GenOut)
    requires pi > 0.0 && |mem| >= Statics
    ensures |out.mem| == |mem|
    ensures forall v :: 0 <= v < |mem| && !IsPhase(v) ==> out.mem[v] == mem[v]
    ensures mem[Freq] == 0.0 ==> out.mem == mem
    ensures mem[Ampl] == 0.0 && mem[DisjointXAmpl] == 0.0 && mem[DisjointYAmpl] == 0.0 ==>
      out.frame == Soundgen.Frame(0.0, 0.0)
  {
    var m := AdvancePhases(pi, mem);
    var body :=
      if Saw(fmod, pi, m[ScanPhase]) + 1.0 <= m[HatPerc] * 2.0 then sin(m[StemPhase]) * m[StemAmpl] * m[Ampl]
      else sin(m[HatPhase]) * m[HatAmpl] * sin(m[ScanPhase]) * m[Ampl];
    var left := body + Square(sin(m[DisjointXPhase])) * m[DisjointXAmpl];
    var right := Saw(fmod, pi, m[ScanPhase]) * m[ScanAmpl] * m[Ampl] + Square(sin(m[DisjointYPhase])) * m[DisjointYAmpl];
    Soundgen.GenOut(m, Soundgen.Frame(left, right))
  }

  /**
   * The compiled generator as the host calls it. The host always hands it
   * its own statics; on a shorter memory it stays silent.
   */
  function Generator(sin: real -> real, fmod: (real, real) -> real, pi: real): (gen: Soundgen.Generator)
    requires pi > 0.0
    ensures WritesOnlyPhases(gen)
  {
    (time: real, mem: Memory) =>
      if |mem| >= Statics then Generate(sin, fmod, pi, mem) else Soundgen.GenOut(mem, Soundgen.Frame(0.0, 0.0))
  }
}
