/**
 * The shader demo's typewriter caption. `textbuf` starts as a NUL-filled
 * copy of the caption `text`; `text_sleep` starts at -1, and pressing space
 * sets it to 10. On each frame, while the buffer is shorter than the caption
 * and the counter is not negative, the counter counts down; when it is
 * already 0 the next character of the caption is appended to the buffer
 * and the counter restarts at a delay chosen by that character.
 */
module Typewriter {
  import opened CString

  datatype Typist = Typist(buf: seq<char>, sleep: int)

  /** `strlen(textbuf)` read as a string: the part of the caption on screen. */
  function Shown(st: Typist): (s: string)
    ensures |s| <= |st.buf|
  {
    CStr(st.buf, |st.buf|)
  }

  /** The state holds a prefix of `text` followed only by NULs, in a buffer one longer than `text`. */
  predicate Represents(text: string, st: Typist)
  {
    && |st.buf| == |text| + 1
    && |Shown(st)| <= |text|
    && Shown(st) == text[..|Shown(st)|]
    && st.buf == Shown(st) + Zeros(|text| + 1 - |Shown(st)|)
  }

  /** The caption as the program starts: `strdup(text)`, zeroed by `memset`, and `text_sleep = -1`. */
  function Start(text: string): (st: Typist)
    ensures Represents(text, st)
    ensures Shown(st) == [] && st.sleep < 0
  {
    var st := Typist(Zeros(|text| + 1), -1);
    assert Zeros(|text| + 1) == [] + Zeros(|text| + 1 - 0);
    CStrOfPadded([], |text| + 1);
    st
  }

  /**
   * The delay after revealing `sym`: long after a line break, medium after
   * `,` `/` `.`, else `sym & 7`, the low three bits of the character code:
   * the one value below 8 that differs from the code by a multiple of 8.
   */
  function Delay(sym: char): (d: int)
    ensures 0 <= d <= 60
    ensures sym == '\n' ==> d == 60
    ensures sym == ',' || sym == '/' || sym == '.' ==> d == 15
    ensures sym != '\n' && sym != ',' && sym != '/' && sym != '.' ==> d < 8 && (sym as int - d) % 8 == 0
  {
    match sym
    case '\n' => 60
    case ',' => 15
    case '/' => 15
    case '.' => 15
    case _ => (sym as int) % 8
  }

  /** The counter after the space check at the top of a frame. */
  function Armed(st: Typist, space: bool): int
  {
    if space then 10 else st.sleep
  }

  /** One frame of the caption: the space check, then the countdown and reveal. */
  function Frame(text: string, st: Typist, space: bool): (r: Typist)
    requires |st.buf| == |text| + 1
    ensures |r.buf| == |st.buf|
    ensures Armed(st, space) < 0 ==> r == st
    ensures |Shown(st)| >= |text| ==> r.buf == st.buf
  {
    var sleep := Armed(st, space);
    var n := |Shown(st)|;
    if n < |text| && sleep >= 0 then
      if sleep <= 0 then
        var sym := text[n];
        Typist(st.buf[n := sym], Delay(sym))
      else Typist(st.buf, sleep - 1)
    else Typist(st.buf, sleep)
  }

  /** Appending the next caption character to a represented buffer represents the longer prefix. */
  lemma RevealNext(text: string, st: Typist)
    requires '\0' !in text && Represents(text, st)
    requires |Shown(st)| < |text|
    ensures
      var n := |Shown(st)|;
      var buf' := st.buf[n := text[n]];
      CStr(buf', |buf'|) == text[..n + 1] && buf' == text[..n + 1] + Zeros(|text| - n)
  {
    var n := |Shown(st)|;
    var buf' := st.buf[n := text[n]];
    assert buf' == text[..n + 1] + Zeros(|text| + 1 - (n + 1));
    var p := text[..n + 1];
    forall k | 0 <= k < |p|
      ensures p[k] != '\0'
    {
      assert p[k] == text[k];
    }
    CStrOfPadded(p, |text| + 1);
  }

  /**
   * A frame keeps the buffer a prefix of the caption, and reveals exactly
   * one more character, the next one, precisely when the caption is not
   * finished and the counter stood at 0; the new delay is that character's.
   * Otherwise nothing is revealed, and a positive counter only counts down.
   */
  lemma FrameReveals(text: string, st: Typist, space: bool)
    requires '\0' !in text && Represents(text, st)
    ensures Represents(text, Frame(text, st, space))
    ensures |Shown(st)| < |text| && Armed(st, space) == 0 ==>
      && Shown(Frame(text, st, space)) == Shown(st) + [text[|Shown(st)|]]
      && Frame(text, st, space).sleep == Delay(text[|Shown(st)|])
    ensures !(|Shown(st)| < |text| && Armed(st, space) == 0) ==> Shown(Frame(text, st, space)) == Shown(st)
    ensures |Shown(st)| < |text| && Armed(st, space) > 0 ==> Frame(text, st, space).sleep == Armed(st, space) - 1
  {
    var n := |Shown(st)|;
    if n < |text| && Armed(st, space) == 0 {
      RevealNext(text, st);
      assert text[..n + 1] == Shown(st) + [text[n]];
    }
  }

  /** The caption after a run of frames; `spaces[k]` says whether space was pressed on frame `k`. */
  function Run(text: string, st: Typist, spaces: seq<bool>): (r: Typist)
    requires |st.buf| == |text| + 1
    ensures |r.buf| == |st.buf|
    decreases |spaces|
  {
    if |spaces| == 0 then st else Run(text, Frame(text, st, spaces[0]), spaces[1..])
  }

  /**
   * Whatever the key presses, the caption on screen is always a prefix of
   * `text`, and it grows by at most one character per frame.
   */
  lemma {:induction false} RunShowsPrefix(text: string, st: Typist, spaces: seq<bool>)
    requires '\0' !in text && Represents(text, st)
    ensures Represents(text, Run(text, st, spaces))
    ensures |Shown(st)| <= |Shown(Run(text, st, spaces))| <= |Shown(st)| + |spaces|
    decreases |spaces|
  {
    if |spaces| > 0 {
      FrameReveals(text, st, spaces[0]);
      RunShowsPrefix(text, Frame(text, st, spaces[0]), spaces[1..]);
    }
  }

  /** Until space is first pressed, nothing is revealed. */
  lemma {:induction false} NothingBeforeSpace(text: string, st: Typist, spaces: seq<bool>)
    requires |st.buf| == |text| + 1 && st.sleep < 0
    requires forall k :: 0 <= k < |spaces| ==> !spaces[k]
    ensures Run(text, st, spaces) == st
    decreases |spaces|
  {
    if |spaces| > 0 {
      NothingBeforeSpace(text, Frame(text, st, spaces[0]), spaces[1..]);
    }
  }

  /** The caption the demo types out. */
  const Caption: string := Line1 + Line2 + Line3 + Line4 + Line5

  const Line1: string := "Hey, this mod is made by EXPL0Si0NTiM3R\n"
  const Line2: string := "Modarchive ID: 91674, " + "he's currently known as exiphase\n"
  const Line3: string := "Say hi to him if you can!\n"
  const Line4: string := "Um anyways, vfx made by me, " + "kc/hkc/hatkidchan.\n"
  const Line5: string := "Song name is \"ame\" btw. " + "Modarchive ID: 181858."

  lemma CaptionHasNoNul()
    ensures '\0' !in Caption
  {
    Line1HasNoNul();
    Line2HasNoNul();
    Line3HasNoNul();
    Line4HasNoNul();
    Line5HasNoNul();
  }

  lemma Line1HasNoNul()
    ensures '\0' !in Line1
  {
  }

  lemma Line2HasNoNul()
    ensures '\0' !in Line2
  {
  }

  lemma Line3HasNoNul()
    ensures '\0' !in Line3
  {
  }

  lemma Line4HasNoNul()
    ensures '\0' !in Line4
  {
  }

  lemma Line5HasNoNul()
    ensures '\0' !in Line5
  {
  }

  /** From start-up, whatever the key presses, the demo shows a prefix of its caption. */
  lemma CaptionShowsPrefix(spaces: seq<bool>)
    ensures Represents(Caption, Run(Caption, Start(Caption), spaces))
    ensures Shown(Run(Caption, Start(Caption), spaces)) == Caption[..|Shown(Run(Caption, Start(Caption), spaces))|]
  {
    CaptionHasNoNul();
    RunShowsPrefix(Caption, Start(Caption), spaces);
  }
}
