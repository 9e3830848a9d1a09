/**
 * The audio callback of the host. For each of the `frames` frames it runs the
 * automation pass, asks the generator for one stereo sample, stores the
 * sample in the interleaved ring `samples_buffer` that the oscilloscope
 * reads, and writes it, scaled to 16 bits, into the output buffer. After the
 * loop the ring offset advances by two slots per frame.
 *
 * The generator is compiled at run time from a user file; here it is a pure
 * function of the time and the generator's statics that returns the updated
 * statics and the sample.
 */
module Soundgen {
  import opened ParamTable
  import opened Automation
  import Modular

  /** `BUFFER_SIZE`: frames the oscilloscope shows. */
  const BufferSize: nat := 2048

  /** Slots of `samples_buffer`: two per frame. */
  const RingSize: nat := 2 * BufferSize

  /** The time step `1 / SAMPLE_RATE` added to the clock per frame. */
  const Dt: real := 1.0 / 192000.0

  /** The clock `n` sample periods after `time`, in closed form. */
  function Clock(time: real, n: nat): real
  {
    time + (n as real) / 192000.0
  }

  /** The closed form is the running sum `time += 1.0 / SAMPLE_RATE`: it starts at `time` and grows by `Dt` per frame. */
  lemma ClockStep(time: real, n: nat)
    ensures Clock(time, 0) == time
    ensures Clock(time, n + 1) == Clock(time, n) + Dt
  {
  }

  /** Full scale of a 16-bit sample, the factor applied before conversion. */
  const FullScale: real := 32767.0

  datatype Frame = Frame(left: real, right: real)

  /** What one call of the generator leaves behind: its statics and one sample. */
  datatype GenOut = GenOut(mem: Memory, frame: Frame)

  /** `generate(t, dt, &l, &r)` on the generator's statics. */
  type Generator = (real, Memory) -> GenOut

  /** The generator writes only existing statics. */
  ghost predicate KeepsSize(gen: Generator)
  {
    forall time: real, mem: Memory :: |gen(time, mem).mem| == |mem|
  }

  /** The generator leaves every variable a live entry points at alone. */
  ghost predicate KeepsParams(gen: Generator, t: Table)
    requires Terminated(t)
  {
    forall time: real, mem: Memory, j ::
      0 <= j < NParams(t) && t[j].value.value < |mem| ==>
        t[j].value.value < |gen(time, mem).mem| &&
        gen(time, mem).mem[t[j].value.value] == mem[t[j].value.value]
  }

  /** Ring slot of frame `i`'s left sample. */
  function LeftSlot(off: nat, i: nat): (s: nat)
    ensures s < RingSize
  {
    (off + 2 * i) % RingSize
  }

  /** Ring slot of frame `i`'s right sample. */
  function RightSlot(off: nat, i: nat): (s: nat)
    ensures s < RingSize
  {
    (off + 2 * i + 1) % RingSize
  }

  /** C's float-to-integer conversion: the fractional part is dropped, toward zero. */
  function Trunc(x: real): (n: int)
    ensures 0.0 <= x ==> 0 <= n && (n as real) <= x < (n as real) + 1.0
    ensures x < 0.0 ==> n <= 0 && (n as real) - 1.0 < x <= (n as real)
  {
    if x >= 0.0 then x.Floor else -((-x).Floor)
  }

  /** A sample in `[-1, 1]` scales to a 16-bit value without overflow. */
  lemma SampleFitsShort(x: real)
    requires -1.0 <= x <= 1.0
    ensures -32767 <= Trunc(x * FullScale) <= 32767
  {
  }

  /** State of the callback between frames, as a reference definition. */
  datatype Run = Run(mem: Memory, outs: seq<Frame>)

  /** The first `n` frames of a callback: automation, then one generator call per frame. */
  function Frames(t: Table, mem: Memory, time: real, gen: Generator, n: nat): (r: Run)
    requires PointsInto(t, mem) && KeepsSize(gen)
    ensures |r.mem| == |mem| && |r.outs| == n
    ensures PointsInto(t, r.mem)
  {
    if n == 0 then Run(mem, [])
    else
      var prev := Frames(t, mem, time, gen, n - 1);
      var out := gen(Clock(time, n - 1), AutomateSample(t, prev.mem));
      Run(out.mem, prev.outs + [out.frame])
  }

  /** The frame after the first `i`: automation on the statics they leave, then the generator at their clock. */
  lemma FramesStep(t: Table, mem: Memory, time: real, gen: Generator, i: nat, mem': Memory, outs: seq<Frame>, now: real, automated: Memory)
    requires PointsInto(t, mem) && KeepsSize(gen)
    requires Run(mem', outs) == Frames(t, mem, time, gen, i)
    requires now == Clock(time, i) && automated == AutomateSample(t, mem')
    ensures Frames(t, mem, time, gen, i + 1) == Run(gen(now, automated).mem, outs + [gen(now, automated).frame])
  {
  }

  /** Every one of the last `BUFFER_SIZE` frames of `outs` sits at its two slots. */
  predicate Window(ring: seq<real>, off: nat, outs: seq<Frame>)
    requires |ring| == RingSize
  {
    forall k :: 0 <= k < |outs| && |outs| <= k + BufferSize ==>
      ring[LeftSlot(off, k)] == outs[k].left && ring[RightSlot(off, k)] == outs[k].right
  }

  /** Slot `s` belongs to none of the first `n` frames. */
  predicate Unwritten(off: nat, n: nat, s: nat)
  {
    forall k :: 0 <= k < n ==> s != LeftSlot(off, k) && s != RightSlot(off, k)
  }

  /** Every slot none of the first `n` frames wrote still holds its old value. */
  predicate KeepsUnwritten(ring: seq<real>, ring0: seq<real>, off: nat, n: nat)
    requires |ring| == RingSize && |ring0| == RingSize
  {
    forall s :: 0 <= s < RingSize && Unwritten(off, n, s) ==> ring[s] == ring0[s]
  }

  /** The output buffer holds each frame's samples, interleaved, at full scale. */
  predicate Interleaved(buf: seq<int>, outs: seq<Frame>)
  {
    && |buf| == 2 * |outs|
    && forall k :: 0 <= k < |outs| ==>
         buf[2 * k] == Trunc(outs[k].left * FullScale) && buf[2 * k + 1] == Trunc(outs[k].right * FullScale)
  }

  /** Appending one frame's two scaled samples keeps the buffer interleaved. */
  lemma InterleavedStep(buf: seq<int>, outs: seq<Frame>, f: Frame)
    requires Interleaved(buf, outs)
    ensures Interleaved(buf + [Trunc(f.left * FullScale), Trunc(f.right * FullScale)], outs + [f])
  {
  }

  /** The two stores of frame `i`. */
  function WriteFrame(ring: seq<real>, off: nat, i: nat, f: Frame): (r: seq<real>)
    requires |ring| == RingSize
    ensures |r| == RingSize
    ensures r[LeftSlot(off, i)] == f.left && r[RightSlot(off, i)] == f.right
    ensures forall s :: 0 <= s < RingSize && s != LeftSlot(off, i) && s != RightSlot(off, i) ==> r[s] == ring[s]
  {
    ring[LeftSlot(off, i) := f.left][RightSlot(off, i) := f.right]
  }

  /** Storing the next frame keeps the window of the last `BUFFER_SIZE` frames. */
  lemma WindowStep(ring: seq<real>, off: nat, outs: seq<Frame>, f: Frame)
    requires |ring| == RingSize && Window(ring, off, outs)
    ensures Window(WriteFrame(ring, off, |outs|, f), off, outs + [f])
  {
    var i := |outs|;
    var r := WriteFrame(ring, off, i, f);
    var outs' := outs + [f];
    forall k | 0 <= k < |outs'| && |outs'| <= k + BufferSize
      ensures r[LeftSlot(off, k)] == outs'[k].left && r[RightSlot(off, k)] == outs'[k].right
    {
      if k < i {
        SlotsApart(off, k, i);
      }
    }
  }

  /** Storing frame `n` keeps every slot none of the first `n + 1` frames wrote. */
  lemma KeepsUnwrittenStep(ring: seq<real>, ring0: seq<real>, off: nat, n: nat, f: Frame)
    requires |ring| == RingSize && |ring0| == RingSize
    requires KeepsUnwritten(ring, ring0, off, n)
    ensures KeepsUnwritten(WriteFrame(ring, off, n, f), ring0, off, n + 1)
  {
    forall s | 0 <= s < RingSize && Unwritten(off, n + 1, s)
      ensures WriteFrame(ring, off, n, f)[s] == ring0[s]
    {
      assert s != LeftSlot(off, n) && s != RightSlot(off, n);
      assert Unwritten(off, n, s);
    }
  }

  /** The ring after storing `outs` frame by frame, starting at `off`. */
  function Store(ring: seq<real>, off: nat, outs: seq<Frame>): (r: seq<real>)
    requires |ring| == RingSize
    ensures |r| == RingSize
    decreases |outs|
  {
    if |outs| == 0 then ring
    else WriteFrame(Store(ring, off, outs[..|outs| - 1]), off, |outs| - 1, outs[|outs| - 1])
  }

  /**
   * After storing a run of frames, each of the last `BUFFER_SIZE` of them sits
   * at its two slots, and every slot none of them wrote holds its old value.
   */
  lemma {:induction false} StoreKeepsWindow(ring: seq<real>, off: nat, outs: seq<Frame>)
    requires |ring| == RingSize
    ensures Window(Store(ring, off, outs), off, outs)
    ensures KeepsUnwritten(Store(ring, off, outs), ring, off, |outs|)
    decreases |outs|
  {
    if |outs| > 0 {
      var init := outs[..|outs| - 1];
      var f := outs[|outs| - 1];
      StoreKeepsWindow(ring, off, init);
      WindowStep(Store(ring, off, init), off, init, f);
      KeepsUnwrittenStep(Store(ring, off, init), ring, off, |init|, f);
      assert init + [f] == outs;
    }
  }

  /** Storing one more frame is one more pair of stores. */
  lemma StoreStep(ring: seq<real>, off: nat, outs: seq<Frame>, f: Frame)
    requires |ring| == RingSize
    ensures Store(ring, off, outs + [f]) == WriteFrame(Store(ring, off, outs), off, |outs|, f)
  {
    assert (outs + [f])[..|outs|] == outs;
  }

  /** What the callback has built after some frames: statics, ring, clock, output buffer and the frames themselves. */
  datatype Progress = Progress(mem: Memory, ring: seq<real>, time: real, buf: seq<int>, outs: seq<Frame>)

  /** `c` is the callback's state after its first `n` frames. */
  predicate After(t: Table, mem: Memory, ring: seq<real>, off: nat, time: real, gen: Generator, n: nat, c: Progress)
    requires PointsInto(t, mem) && KeepsSize(gen) && |ring| == RingSize
  {
    && |c.outs| == n
    && Run(c.mem, c.outs) == Frames(t, mem, time, gen, n)
    && c.time == Clock(time, n)
    && c.ring == Store(ring, off, c.outs)
    && Interleaved(c.buf, c.outs)
  }

  /** The state after one more frame whose generator call returned `out`. */
  function Next(c: Progress, off: nat, out: GenOut): Progress
    requires |c.ring| == RingSize
  {
    Progress(
      out.mem,
      WriteFrame(c.ring, off, |c.outs|, out.frame),
      c.time + Dt,
      c.buf + [Trunc(out.frame.left * FullScale), Trunc(out.frame.right * FullScale)],
      c.outs + [out.frame])
  }

  /** One frame of automation and generation takes the state after `i` frames to the state after `i + 1`. */
  lemma AfterStep(t: Table, mem: Memory, ring: seq<real>, off: nat, time: real, gen: Generator, i: nat, c: Progress)
    requires PointsInto(t, mem) && KeepsSize(gen) && |ring| == RingSize
    requires After(t, mem, ring, off, time, gen, i, c)
    ensures After(t, mem, ring, off, time, gen, i + 1, Next(c, off, gen(c.time, AutomateSample(t, c.mem))))
  {
    var automated := AutomateSample(t, c.mem);
    var out := gen(c.time, automated);
    var c' := Next(c, off, out);
    assert Run(c'.mem, c'.outs) == Frames(t, mem, time, gen, i + 1) by {
      FramesStep(t, mem, time, gen, i, c.mem, c.outs, c.time, automated);
    }
    assert c'.ring == Store(ring, off, c'.outs) by {
      StoreStep(ring, off, c.outs, out.frame);
    }
    assert Interleaved(c'.buf, c'.outs) by {
      InterleavedStep(c.buf, c.outs, out.frame);
    }
    ClockStep(time, i);
  }

  /** One pass of the callback's loop body: automation, one generator call, two ring stores and two output samples. */
  method SoundgenFrame(t: Table, mem: Memory, ring: seq<real>, off: nat, time: real, gen: Generator, i: nat, c: Progress)
    returns (c': Progress)
    requires PointsInto(t, mem) && KeepsSize(gen) && |ring| == RingSize
    requires After(t, mem, ring, off, time, gen, i, c)
    ensures After(t, mem, ring, off, time, gen, i + 1, c')
  {
    var automated := AutomationPass(t, c.mem);
    var out := gen(c.time, automated);
    AfterStep(t, mem, ring, off, time, gen, i, c);
    c' := Next(c, off, out);
  }

  /**
   * The callback for `frames` frames. The ring keeps the two samples of each
   * of the last `BUFFER_SIZE` frames at their slots and every slot no frame
   * wrote; the output buffer holds the interleaved samples at full scale.
   */
  method SoundgenThread(t: Table, mem: Memory, ring: seq<real>, off: nat, time: real, gen: Generator, frames: nat)
    returns (mem': Memory, ring': seq<real>, off': nat, time': real, buf: seq<int>, outs: seq<Frame>)
    requires PointsInto(t, mem) && KeepsSize(gen)
    requires |ring| == RingSize
    ensures Run(mem', outs) == Frames(t, mem, time, gen, frames)
    ensures ring' == Store(ring, off, outs)
    ensures |ring'| == RingSize
    ensures Window(ring', off, outs)
    ensures KeepsUnwritten(ring', ring, off, frames)
    ensures Interleaved(buf, outs)
    ensures off' == off + 2 * frames
    ensures time' == Clock(time, frames)
  {
    var c := Progress(mem, ring, time, [], []);
    var i := 0;
    while i < frames
      invariant i <= frames && After(t, mem, ring, off, time, gen, i, c)
    {
      c := SoundgenFrame(t, mem, ring, off, time, gen, i, c);
      i := i + 1;
    }
    mem', ring', time', buf, outs := c.mem, c.ring, c.time, c.buf, c.outs;
    StoreKeepsWindow(ring, off, outs);
    off' := off + 2 * frames;
  }

  /** The slots of two frames fewer than `BUFFER_SIZE` apart are four different slots. */
  lemma SlotsApart(off: nat, k: nat, i: nat)
    requires k < i < k + BufferSize
    ensures LeftSlot(off, k) != LeftSlot(off, i) && LeftSlot(off, k) != RightSlot(off, i)
    ensures RightSlot(off, k) != LeftSlot(off, i) && RightSlot(off, k) != RightSlot(off, i)
  {
    Modular.DistinctSlots(off + 2 * i, off + 2 * k, RingSize);
    Modular.DistinctSlots(off + 2 * i + 1, off + 2 * k, RingSize);
    Modular.DistinctSlots(off + 2 * i, off + 2 * k + 1, RingSize);
    Modular.DistinctSlots(off + 2 * i + 1, off + 2 * k + 1, RingSize);
  }

  /** Within one callback of at most `BUFFER_SIZE` frames no slot is written twice. */
  lemma WrittenSlotsDistinct(off: nat, frames: nat, i: nat, k: nat)
    requires frames <= BufferSize
    requires i < frames && k < frames
    ensures LeftSlot(off, i) != RightSlot(off, k)
    ensures i != k ==> LeftSlot(off, i) != LeftSlot(off, k) && RightSlot(off, i) != RightSlot(off, k)
  {
    if i < k {
      SlotsApart(off, i, k);
    } else if k < i {
      SlotsApart(off, k, i);
    } else {
      Modular.DistinctSlots(off + 2 * i + 1, off + 2 * i, RingSize);
    }
  }

  /** With an even offset left samples land on even slots and right samples on odd ones. */
  lemma SlotParity(off: nat, i: nat)
    requires off % 2 == 0
    ensures LeftSlot(off, i) % 2 == 0
    ensures RightSlot(off, i) % 2 == 1
    ensures RightSlot(off, i) == LeftSlot(off, i) + 1
  {
    Modular.ModEvenKeepsParity(off + 2 * i, RingSize);
    Modular.NextSlotOfEven(off + 2 * i, RingSize);
  }

  /**
   * The oscilloscope reads the ring as pairs `(samples_buffer[2p],
   * samples_buffer[2p + 1])`. With an even offset, the pair that holds frame
   * `i`'s left sample holds its right sample too, so every point drawn is one
   * generated frame.
   */
  lemma ReaderSeesFrames(ring: seq<real>, off: nat, outs: seq<Frame>, frames: nat)
    requires |ring| == RingSize && |outs| == frames && off % 2 == 0
    requires Window(ring, off, outs)
    ensures forall i :: 0 <= i < frames && frames <= i + BufferSize ==>
      var p := LeftSlot(off, i) / 2;
      p < BufferSize && ring[2 * p] == outs[i].left && ring[2 * p + 1] == outs[i].right
  {
    forall i | 0 <= i < frames && frames <= i + BufferSize
      ensures LeftSlot(off, i) / 2 < BufferSize
      ensures ring[2 * (LeftSlot(off, i) / 2)] == outs[i].left
      ensures ring[2 * (LeftSlot(off, i) / 2) + 1] == outs[i].right
    {
      SlotParity(off, i);
    }
  }

  /**
   * A callback keeps every live value within its bounds when the generator
   * leaves the parameter variables alone: only automation moves them.
   */
  lemma {:induction false} FramesKeepRange(t: Table, mem: Memory, time: real, gen: Generator, n: nat)
    requires PointsInto(t, mem) && NoAlias(t) && KeepsSize(gen) && KeepsParams(gen, t)
    requires CurrentsInRange(t, mem) && EnabledTargetsInRange(t)
    ensures CurrentsInRange(t, Frames(t, mem, time, gen, n).mem)
  {
    if n > 0 {
      FramesKeepRange(t, mem, time, gen, n - 1);
      var prev := Frames(t, mem, time, gen, n - 1);
      var automated := AutomateSample(t, prev.mem);
      AutomationKeepsRange(t, prev.mem);
      var out := gen(Clock(time, n - 1), automated);
      forall j | 0 <= j < NParams(t)
        ensures Current(t, out.mem, j) == Current(t, automated, j)
      {
      }
    }
  }
}
