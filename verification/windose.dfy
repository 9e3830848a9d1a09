/**
 * Two helpers of the shader demo: the hot reload of the post-processing
 * shader, polled every 30 frames, and the window frame it draws around the
 * scene, which returns the client rectangle left inside the decorations.
 */
module Windose {

  /** Frames between two polls of the shader file. */
  const PollPeriod: nat := 30

  /** What `ShaderHotReload` reports and the modification time it leaves in `*lastmod`. */
  datatype Reload = Reload(reloaded: bool, lastmod: int)

  /**
   * `ShaderHotReload`: reload when the file is newer than the last load,
   * remembering its time. `modified` is what `GetFileModTime` returns; the
   * shader itself is not modelled.
   */
  function HotReload(lastmod: int, modified: int): (r: Reload)
    ensures r.reloaded <==> modified > lastmod
    ensures r.lastmod >= lastmod && r.lastmod >= modified
    ensures r.lastmod == lastmod || r.lastmod == modified
  {
    if modified > lastmod then Reload(true, modified) else Reload(false, lastmod)
  }

  /** Polling again with an unchanged file reloads nothing and remembers the same time. */
  lemma HotReloadSettles(lastmod: int, modified: int)
    ensures !HotReload(HotReload(lastmod, modified).lastmod, modified).reloaded
    ensures HotReload(HotReload(lastmod, modified).lastmod, modified).lastmod == HotReload(lastmod, modified).lastmod
  {
  }

  /** The frame loop's poll: only on every 30th frame is the file looked at. */
  function Poll(frame: nat, lastmod: int, modified: int): (r: Reload)
    ensures frame % PollPeriod != 0 ==> r == Reload(false, lastmod)
    ensures frame % PollPeriod == 0 ==> r == HotReload(lastmod, modified)
  {
    if frame % PollPeriod == 0 then HotReload(lastmod, modified) else Reload(false, lastmod)
  }

  /** The remembered modification time after a run of frames: it never decreases. */
  function Polls(frame: nat, lastmod: int, times: seq<int>): (r: int)
    ensures r >= lastmod
    decreases |times|
  {
    if |times| == 0 then lastmod
    else Polls(frame + 1, Poll(frame, lastmod, times[0]).lastmod, times[1..])
  }

  /** The remembered time is the latest of the start value and the times seen on polled frames. */
  lemma {:induction false} PollsKeepLatest(frame: nat, lastmod: int, times: seq<int>)
    ensures forall k :: 0 <= k < |times| && (frame + k) % PollPeriod == 0 ==> Polls(frame, lastmod, times) >= times[k]
    decreases |times|
  {
    if |times| > 0 {
      var next := Poll(frame, lastmod, times[0]).lastmod;
      PollsKeepLatest(frame + 1, next, times[1..]);
      forall k | 0 < k < |times| && (frame + k) % PollPeriod == 0
        ensures Polls(frame, lastmod, times) >= times[k]
      {
        assert times[k] == times[1..][k - 1];
        assert (frame + 1) + (k - 1) == frame + k;
      }
    }
  }

  /** raylib's `Rectangle`. */
  datatype Rect = Rect(x: real, y: real, w: real, h: real)

  /** `inner` lies within `outer`, with a non-negative size. */
  predicate Inside(inner: Rect, outer: Rect)
  {
    && 0.0 <= inner.w && 0.0 <= inner.h
    && outer.x <= inner.x && inner.x + inner.w <= outer.x + outer.w
    && outer.y <= inner.y && inner.y + inner.h <= outer.y + outer.h
  }

  /** `rec` shrunk by `m` on every side. */
  function Shrink(rec: Rect, m: real): Rect
  {
    Rect(rec.x + m, rec.y + m, rec.w - 2.0 * m, rec.h - 2.0 * m)
  }

  /** The decorations `DrawWindowOutside` fills: title bar, body panel and the small badge. */
  datatype Chrome = Chrome(title: Rect, body: Rect, badge: Rect)

  function Decorations(rec: Rect): Chrome
  {
    Chrome(
      Rect(rec.x + 6.0, rec.y + 6.0, rec.w - 12.0, 30.0),
      Rect(rec.x + 6.0, rec.y + 40.0, rec.w - 12.0, rec.h - 56.0),
      Rect(rec.x + 6.0, rec.y + rec.h - 12.0, 36.0, 12.0))
  }

  /**
   * `DrawWindowOutside`: the client rectangle is the body panel with its
   * 2-pixel outline taken off, and for a window at least 16 wide and 60 high
   * it lies within the window.
   */
  function WindowClient(rec: Rect): (r: Rect)
    ensures r == Shrink(Decorations(rec).body, 2.0)
    ensures rec.w >= 16.0 && rec.h >= 60.0 ==> Inside(r, rec)
    ensures Inside(r, rec) ==> rec.w >= 16.0 && rec.h >= 60.0
  {
    Rect(rec.x + 8.0, rec.y + 42.0, rec.w - 16.0, rec.h - 60.0)
  }

  /** The client rectangle never overlaps the title bar: it starts below it. */
  lemma ClientBelowTitle(rec: Rect)
    ensures WindowClient(rec).y >= Decorations(rec).title.y + Decorations(rec).title.h
  {
  }
}
