/**
 * One frame of the host's control loop, as far as it touches the parameter
 * table, and the invariant the table and the generator's statics keep over a
 * whole session in which control frames and audio callbacks interleave.
 *
 * Within a frame the host, in this order: copies a snapshot on Ctrl+C,
 * pastes one on Ctrl+V, randomises every target on R, and then runs the
 * edit pass over the rows, which ends with a clamp. Live values are never
 * written by the control loop; only the audio callback moves them.
 */
module Control {
  import opened ParamTable
  import opened Automation
  import opened TargetEdit
  import opened Snapshot
  import opened Soundgen

  /**
   * Key presses sampled once per frame. Whether Ctrl is held is the
   * pointer's `ctrl`: the program asks `IsKeyDown(KEY_LEFT_CONTROL)` for the
   * copy and paste chords and for the scroll step alike.
   */
  datatype Keys = Keys(cPressed: bool, vPressed: bool, rPressed: bool)

  /** The table after one frame, and the clipboard text. */
  datatype ControlOut = ControlOut(table: Table, clip: string)

  function ControlFrame(
    t: Table, mem: Memory, clip: string, keys: Keys, m: Pointer, draws: seq<Draw>,
    encode: seq<Record> -> string, decode: string -> seq<Record>): (r: ControlOut)
    requires PointsInto(t, mem)
    requires keys.rPressed ==> |draws| == NParams(t)
    ensures OnlyTargetsChanged(t, r.table)
    ensures Terminated(r.table) && NParams(r.table) == NParams(t)
    ensures Bounded(t) ==> TargetsInRange(r.table)
    ensures m.ctrl && keys.cPressed ==> r.clip == Export(t, mem, encode)
    ensures !(m.ctrl && keys.cPressed) ==> r.clip == clip
  {
    var clip1 := if m.ctrl && keys.cPressed then Export(t, mem, encode) else clip;
    var t1 := if m.ctrl && keys.vPressed then Import(t, clip1, decode) else t;
    var t2 := if keys.rPressed then Randomise(t1, draws) else t1;
    var t3 := EditTargets(t2, m);
    Snapshot.OnlyTargetsTransitive(t, t1, t2);
    Snapshot.OnlyTargetsTransitive(t, t2, t3);
    BoundedKept(t, t2);
    ControlOut(t3, clip1)
  }

  lemma BoundedKept(t: Table, u: Table)
    requires Terminated(t) && OnlyTargetsChanged(t, u)
    requires Terminated(u) && NParams(u) == NParams(t)
    ensures Bounded(t) ==> Bounded(u)
  {
  }

  /**
   * Ctrl+C and Ctrl+V in the same frame, with a codec that decodes what it
   * encodes, an encoding that fits `TextFormat`'s buffer and unique names: every live target becomes the live value, then
   * the edit pass clamps it; an unselected row keeps exactly that value.
   */
  lemma CopyPasteSameFrame(
    t: Table, mem: Memory, clip: string, m: Pointer,
    encode: seq<Record> -> string, decode: string -> seq<Record>, j: nat)
    requires PointsInto(t, mem) && UniqueNames(t) && CurrentsInRange(t, mem) && FitsTextBuffer(t, mem, encode)
    requires decode(encode(ExportRecords(t, mem))) == ExportRecords(t, mem)
    requires j < NParams(t) && !Selected(j, m) && m.ctrl
    ensures ControlFrame(t, mem, clip, Keys(true, true, false), m, [], encode, decode).table[j].target == Current(t, mem, j)
  {
    ExportImportRoundTrip(t, mem, encode, decode);
    var pasted := Import(t, Export(t, mem, encode), decode);
    assert pasted[j].min <= pasted[j].target <= pasted[j].max;
  }

  /** What a session keeps: the table is well formed and every value and target is in range. */
  predicate Healthy(t: Table, mem: Memory)
  {
    && PointsInto(t, mem)
    && Bounded(t)
    && NoAlias(t)
    && CurrentsInRange(t, mem)
    && TargetsInRange(t)
  }

  /** A control frame keeps the host healthy: only targets change, and the clamp ends in range. */
  lemma ControlFrameKeepsHealthy(
    t: Table, mem: Memory, clip: string, keys: Keys, m: Pointer, draws: seq<Draw>,
    encode: seq<Record> -> string, decode: string -> seq<Record>)
    requires Healthy(t, mem)
    requires keys.rPressed ==> |draws| == NParams(t)
    ensures Healthy(ControlFrame(t, mem, clip, keys, m, draws, encode, decode).table, mem)
  {
    var u := ControlFrame(t, mem, clip, keys, m, draws, encode, decode).table;
    PointsIntoKept(t, u, mem);
    BoundedKept(t, u);
    forall j | 0 <= j < NParams(u)
      ensures Current(u, mem, j) == Current(t, mem, j)
    {
    }
    forall j, k | 0 <= j < k < NParams(u)
      ensures u[j].value != u[k].value
    {
      assert u[j].value == t[j].value && u[k].value == t[k].value;
    }
  }

  /**
   * One event of a session: a control frame, an audio callback for some
   * frames, or another application putting `text` on the system clipboard.
   */
  datatype Event =
    | Tick(keys: Keys, m: Pointer, draw: nat -> Draw)
    | Audio(frames: nat)
    | Foreign(text: string)

  /**
   * The host's state: the parameter table, the generator's statics, the
   * clipboard, the oscilloscope ring `samples_buffer` with its write offset
   * `samples_offset`, and the clock `time`.
   */
  datatype Host = Host(table: Table, mem: Memory, clip: string, ring: seq<real>, off: nat, time: real)

  /** The host's shape: the table points into the statics and the ring has its full size. */
  predicate Wired(h: Host)
  {
    PointsInto(h.table, h.mem) && |h.ring| == RingSize
  }

  /**
   * The host as the program starts: the system clipboard holds whatever it
   * held before, the ring is zeroed, and the offset and clock are 0.
   */
  function Boot(t: Table, mem: Memory, clip: string): (h: Host)
    requires PointsInto(t, mem)
    ensures Wired(h) && h.table == t && h.mem == mem && h.clip == clip
    ensures h.off == 0 && h.time == 0.0
    ensures forall s :: 0 <= s < |h.ring| ==> h.ring[s] == 0.0
  {
    Host(t, mem, clip, seq(RingSize, _ => 0.0), 0, 0.0)
  }

  /** The draws of a randomise command: one per live entry, in table order. */
  function DrawsFor(t: Table, draw: nat -> Draw): (ds: seq<Draw>)
    requires Terminated(t)
    ensures |ds| == NParams(t)
    ensures forall j :: 0 <= j < |ds| ==> ds[j] == draw(j)
  {
    seq(NParams(t), (j: nat) => draw(j))
  }

  /**
   * The host after one event. The callback uses the generator as compiled,
   * unchanged in a session; it stores its frames in the ring, advances the
   * offset by two slots per frame and the clock by one sample period per frame.
   */
  function Step(h: Host, e: Event, gen: Generator, encode: seq<Record> -> string, decode: string -> seq<Record>): (r: Host)
    requires Wired(h) && KeepsSize(gen)
    ensures Wired(r)
    ensures e.Tick? ==> r.mem == h.mem && r.ring == h.ring && r.off == h.off && r.time == h.time
    ensures e.Audio? ==> r.table == h.table && r.clip == h.clip
    ensures e.Audio? ==> r.off == h.off + 2 * e.frames && r.time == Clock(h.time, e.frames)
    ensures e.Audio? ==> Window(r.ring, h.off, Frames(h.table, h.mem, h.time, gen, e.frames).outs)
    ensures e.Foreign? ==> r == h.(clip := e.text)
  {
    match e
    case Tick(keys, m, draw) =>
      var out := ControlFrame(h.table, h.mem, h.clip, keys, m, DrawsFor(h.table, draw), encode, decode);
      PointsIntoKept(h.table, out.table, h.mem);
      h.(table := out.table, clip := out.clip)
    case Audio(frames) =>
      var run := Frames(h.table, h.mem, h.time, gen, frames);
      StoreKeepsWindow(h.ring, h.off, run.outs);
      h.(mem := run.mem, ring := Store(h.ring, h.off, run.outs),
         off := h.off + 2 * frames, time := Clock(h.time, frames))
    case Foreign(text) =>
      h.(clip := text)
  }

  lemma PointsIntoKept(t: Table, u: Table, mem: Memory)
    requires PointsInto(t, mem) && OnlyTargetsChanged(t, u)
    requires Terminated(u) && NParams(u) == NParams(t)
    ensures PointsInto(u, mem)
  {
  }

  /** A session from the first state on. */
  function Session(h: Host, es: seq<Event>, gen: Generator, encode: seq<Record> -> string, decode: string -> seq<Record>): (r: Host)
    requires Wired(h) && KeepsSize(gen)
    ensures Wired(r)
    decreases |es|
  {
    if |es| == 0 then h else Session(Step(h, es[0], gen, encode, decode), es[1..], gen, encode, decode)
  }

  /** `samples_offset` starts even and only grows by `2 * frames`, so it is even after any session. */
  lemma {:induction false} SessionOffsetEven(h: Host, es: seq<Event>, gen: Generator, encode: seq<Record> -> string, decode: string -> seq<Record>)
    requires Wired(h) && KeepsSize(gen) && h.off % 2 == 0
    ensures Session(h, es, gen, encode, decode).off % 2 == 0
    decreases |es|
  {
    if |es| > 0 {
      StepOffsetEven(h, es[0], gen, encode, decode);
      SessionOffsetEven(Step(h, es[0], gen, encode, decode), es[1..], gen, encode, decode);
    }
  }

  lemma StepOffsetEven(h: Host, e: Event, gen: Generator, encode: seq<Record> -> string, decode: string -> seq<Record>)
    requires Wired(h) && KeepsSize(gen) && h.off % 2 == 0
    ensures Step(h, e, gen, encode, decode).off % 2 == 0
  {
    var q := h.off / 2;
    assert h.off == 2 * q;
    if e.Audio? {
      assert Step(h, e, gen, encode, decode).off == 2 * (q + e.frames);
    }
  }

  /**
   * After any session from boot, the next callback leaves the ring so that
   * every slot pair `(2p, 2p + 1)` the oscilloscope reads that holds one of
   * that callback's last `BUFFER_SIZE` left samples holds the same frame's
   * right sample.
   */
  lemma ScopeShowsFrames(
    t: Table, mem: Memory, clip: string, es: seq<Event>, frames: nat,
    gen: Generator, encode: seq<Record> -> string, decode: string -> seq<Record>)
    requires PointsInto(t, mem) && KeepsSize(gen)
    ensures var h := Session(Boot(t, mem, clip), es, gen, encode, decode);
      var r := Step(h, Audio(frames), gen, encode, decode);
      var outs := Frames(h.table, h.mem, h.time, gen, frames).outs;
      forall i :: 0 <= i < frames && frames <= i + BufferSize ==>
        var p := LeftSlot(h.off, i) / 2;
        p < BufferSize && r.ring[2 * p] == outs[i].left && r.ring[2 * p + 1] == outs[i].right
  {
    var h := Session(Boot(t, mem, clip), es, gen, encode, decode);
    SessionOffsetEven(Boot(t, mem, clip), es, gen, encode, decode);
    AudioShowsFrames(h, frames, gen, encode, decode);
  }

  /** From an even offset, a callback leaves every slot pair it fills holding one frame. */
  lemma AudioShowsFrames(h: Host, frames: nat, gen: Generator, encode: seq<Record> -> string, decode: string -> seq<Record>)
    requires Wired(h) && KeepsSize(gen) && h.off % 2 == 0
    ensures var r := Step(h, Audio(frames), gen, encode, decode);
      var outs := Frames(h.table, h.mem, h.time, gen, frames).outs;
      forall i :: 0 <= i < frames && frames <= i + BufferSize ==>
        var p := LeftSlot(h.off, i) / 2;
        p < BufferSize && r.ring[2 * p] == outs[i].left && r.ring[2 * p + 1] == outs[i].right
  {
    var r := Step(h, Audio(frames), gen, encode, decode);
    var outs := Frames(h.table, h.mem, h.time, gen, frames).outs;
    ReaderSeesFrames(r.ring, h.off, outs, frames);
  }

  /** A generator that leaves the parameter variables of `t` alone leaves those of `u` alone when only targets differ. */
  lemma KeepsParamsKept(gen: Generator, t: Table, u: Table)
    requires Terminated(t) && OnlyTargetsChanged(t, u)
    requires Terminated(u) && NParams(u) == NParams(t)
    requires KeepsParams(gen, t)
    ensures KeepsParams(gen, u)
  {
    forall time: real, mem: Memory, j | 0 <= j < NParams(u) && u[j].value.value < |mem|
      ensures u[j].value.value < |gen(time, mem).mem|
      ensures gen(time, mem).mem[u[j].value.value] == mem[u[j].value.value]
    {
      assert u[j].value == t[j].value;
    }
  }

  /** Every event keeps the host healthy, given a generator that leaves parameter variables alone. */
  lemma StepKeepsHealthy(h: Host, e: Event, gen: Generator, encode: seq<Record> -> string, decode: string -> seq<Record>)
    requires Wired(h) && Healthy(h.table, h.mem) && KeepsSize(gen) && KeepsParams(gen, h.table)
    ensures Healthy(Step(h, e, gen, encode, decode).table, Step(h, e, gen, encode, decode).mem)
    ensures KeepsParams(gen, Step(h, e, gen, encode, decode).table)
  {
    match e
    case Tick(keys, m, draw) =>
      var ds := DrawsFor(h.table, draw);
      ControlFrameKeepsHealthy(h.table, h.mem, h.clip, keys, m, ds, encode, decode);
      var u := ControlFrame(h.table, h.mem, h.clip, keys, m, ds, encode, decode).table;
      KeepsParamsKept(gen, h.table, u);
    case Audio(frames) =>
      FramesKeepRange(h.table, h.mem, h.time, gen, frames);
    case Foreign(_) =>
  }

  /** The invariant holds after any sequence of events. */
  lemma {:induction false} SessionKeepsHealthy(h: Host, es: seq<Event>, gen: Generator, encode: seq<Record> -> string, decode: string -> seq<Record>)
    requires Wired(h) && Healthy(h.table, h.mem) && KeepsSize(gen) && KeepsParams(gen, h.table)
    ensures Healthy(Session(h, es, gen, encode, decode).table, Session(h, es, gen, encode, decode).mem)
    decreases |es|
  {
    if |es| > 0 {
      StepKeepsHealthy(h, es[0], gen, encode, decode);
      SessionKeepsHealthy(Step(h, es[0], gen, encode, decode), es[1..], gen, encode, decode);
    }
  }
}
