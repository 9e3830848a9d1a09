/**
 * The shader demo's audio tap `audio_consumer`: for each frame of an
 * interleaved stereo buffer it stores the left sample in the 4096-slot ring
 * `sound_samples` at `(i + sound_offset) % 4096`, then advances
 * `sound_offset` by the number of frames.
 */
module MonoRing {
  import Modular

  /** `N_SAMPLES`: slots in the ring, and the length of the spectrum input. */
  const Samples: nat := 4096

  /** The slot frame `i` of a callback at offset `offset` writes: `(i + sound_offset) % N_SAMPLES`. */
  function Slot(offset: nat, i: nat): (s: nat)
    ensures s < Samples
  {
    (i + offset) % Samples
  }

  /** Frames since slot `slot` was the write position `offset`: `(slot - offset) mod 4096`. */
  function Behind(slot: int, offset: nat): (d: nat)
    ensures d < Samples
  {
    (slot - offset) % Samples
  }

  /** The slot written for frame `i` lies `i mod 4096` after the offset. */
  lemma BehindOfSlot(offset: nat, i: nat)
    ensures Behind(Slot(offset, i), offset) == i % Samples
  {
    var q := (offset + i) / Samples;
    assert (offset + i) % Samples - offset == i - q * Samples;
    assert (i - q * Samples) % Samples == i % Samples by {
      var q', r := i / Samples, i % Samples;
      assert i - q * Samples == (q' - q) * Samples + r;
    }
  }

  /**
   * `audio_consumer(buffer, frames)`. The ring ends up holding, for each of
   * the last 4096 frames, that frame's left sample in its slot; slots no frame
   * reached are unchanged; the offset advances by `frames`.
   */
  method AudioConsumer(ring: seq<real>, offset: nat, buf: seq<real>, frames: nat) returns (ring': seq<real>, offset': nat)
    requires |ring| == Samples
    requires |buf| >= 2 * frames
    ensures |ring'| == Samples
    ensures offset' == offset + frames
    ensures forall i :: 0 <= i < frames && frames <= i + Samples ==> ring'[Slot(offset, i)] == buf[2 * i]
    ensures forall s :: 0 <= s < Samples && Behind(s, offset) >= frames ==> ring'[s] == ring[s]
  {
    ring' := ring;
    var i := 0;
    while i < frames
      invariant 0 <= i <= frames
      invariant |ring'| == Samples
      invariant forall j :: 0 <= j < i && i <= j + Samples ==> ring'[Slot(offset, j)] == buf[2 * j]
      invariant forall s :: 0 <= s < Samples && Behind(s, offset) >= i ==> ring'[s] == ring[s]
    {
      var slot := Slot(offset, i);
      forall j | 0 <= j < i && i + 1 <= j + Samples
        ensures Slot(offset, j) != slot
      {
        Modular.DistinctSlots(offset + i, offset + j, Samples);
      }
      BehindOfSlot(offset, i);
      ring' := ring'[slot := buf[i * 2]];
      i := i + 1;
    }
    offset' := offset + frames;
  }

  /** With at most a ring's worth of frames, the frames land in distinct slots. */
  lemma FramesDistinct(offset: nat, frames: nat, i: nat, j: nat)
    requires frames <= Samples
    requires i < j < frames
    ensures Slot(offset, i) != Slot(offset, j)
  {
    Modular.DistinctSlots(offset + j, offset + i, Samples);
  }
}
