# raylib audio toys, modelled in Dafny

This project models the core of three small raylib programs and one
generator module.

- **The audio host** (`raylib-audio-visualization.c`) compiles a generator module at start-up and then runs two loops:
  - the audio callback `soundgen_thread`. It smooths every live parameter's value toward its `target`. It asks the generator for one stereo sample per frame and stores that sample in the interleaved ring `samples_buffer`, which the oscilloscope draws;
  - the frame loop. It handles copy (Ctrl+C) and paste (Ctrl+V) of a parameter snapshot through the clipboard, randomises targets (R), and lets the mouse drag or scroll each parameter's target. Each target is then clamped to its range.
- **The generator** (`mushrooms.c`) holds 19 statics, a 13-entry parameter table closed by a null sentinel, and `generate`. Each frame, `generate` advances five phase accumulators and mixes one sample.
- **The RGB565 automaton** (`rgbgene.c`) works on a 1366 x 768 grid of 16-bit colour cells. Each colour is read through the bit fields `{ r : 5; g : 6; b : 5 }`. A worker repeatedly picks a cell at random and, if it is coloured, spreads a slowly mutating copy of its colour into the empty cells around it. The main loop redraws only the cells that changed since the last frame.
- **The shader demo** (`windose.c`) has four modelled parts:
  - an audio tap that keeps the last 4096 left-channel samples in a ring;
  - a caption that types itself out character by character after space is pressed;
  - a shader that reloads when its file is newer;
  - a window frame that returns the client rectangle inside its decorations.

Values are modelled as mathematical reals. `rand()`, the pointer, the keys, the clipboard codec, `sin`, `fmod` and pi are parameters.

The modules follow the programs:
- `CString`: C strings inside fixed arrays, `strncmp` and `strncpy`.
- `ParamTable`: the parameter table and its sentinel.
- `Approach`: the two easing functions.
- `Automation`: the smoothing pass.
- `TargetEdit`: the mouse edit and randomise.
- `Snapshot`: copy and paste.
- `Soundgen`: the audio callback and ring.
- `Control`: one frame of input and a whole session.
- `Mushrooms`: the generator.
- `Rgb565` and `World`: the automaton.
- `MonoRing`, `Typewriter` and `Windose`: the shader demo.

Three behaviours of the source worth knowing:
- Paste sets each matched `target` to the recorded value without clamping it. The clamp comes later in the same frame, when the edit pass runs over every row (`Control.ControlFrame`).
- The oscilloscope reads `samples_buffer` in slot order, from slot 0 up. It does not read from the oldest frame to the newest. `Soundgen.ReaderSeesFrames` and `Control.ScopeShowsFrames` state what each slot pair holds.
- `compile_generator` frees the previous TCC state before it compiles. A failed compile therefore does not keep the old module running. No keep-the-old-module guarantee is modelled.

## Model

| member | source | states |
|---|---|---|
| CString.StrnEqIffSameCStr | raylib-audio-visualization.c:152 | `strncmp(a, b, 16) == 0` holds exactly when the two arrays hold the same C string within their first 16 characters |
| CString.Strncpy | raylib-audio-visualization.c:124 | the copied name reads back as the same C string, and it is NUL-padded after that string |
| CString.Literal | mushrooms.c:26-31 | a `char name[16]` initialised from a literal shorter than 16 reads back as that literal and is NUL-terminated |
| ParamTable.CountParams | raylib-audio-visualization.c:113-114 | the counting loop stops at the first null `value`: every earlier entry is live, and the count equals `NParams` |
| ParamTable.NParams | raylib-audio-visualization.c:113-114 | the number of live entries is the index of the first sentinel |
| Approach.ApproachExp | raylib-audio-visualization.c:43-45 | the result's distance to `b` is `(1 - ratio)` times the start's distance; ratio 0 keeps `a`, ratio 1 reaches `b` |
| Approach.ApproachExpBetween | raylib-audio-visualization.c:43-45 | for a ratio in [0,1] the result lies between `a` and `b`, and the gap to `b` shrinks by the factor `1 - ratio` |
| Approach.ApproachLinear | raylib-audio-visualization.c:46-50 | with a non-negative step the result lies between `a` and `b`; within one step it snaps to `b`; otherwise it moves exactly `max` toward `b` |
| Approach.IterateExpGap | raylib-audio-visualization.c:298-303 | after `k` smoothing steps the gap to the target is `(1 - ratio)^k` times the initial gap |
| Approach.IterateExpDistance | raylib-audio-visualization.c:298-303 | repeated smoothing never leaves the interval between the start and the target, and after `k` steps its distance to the target is exactly `(1 - ratio)^k` times the starting distance |
| Automation.SmoothEntry | raylib-audio-visualization.c:299-302 | smoothing one entry touches only its own variable, and leaves it alone when `target < min` |
| Automation.AutomationEffect | raylib-audio-visualization.c:298-303 | after one pass every enabled live value has moved by `approachExp` with ratio 25/192000; disabled values and every variable no entry drives are unchanged |
| Automation.AutomationKeepsRange | raylib-audio-visualization.c:298-303 | if every live value is in range and every enabled target is in range, the pass keeps every live value in range |
| Automation.AutomationPass | raylib-audio-visualization.c:298-303 | the loop over the table up to the sentinel computes the one-pass automation |
| Automation.AutomateSamplesFollowLaw | raylib-audio-visualization.c:297-303 | over `n` frames an enabled value follows `n` iterations of `approachExp` toward its target |
| Automation.AutomateSamplesKeepRange | raylib-audio-visualization.c:297-303 | over any number of frames, live values stay within their ranges |
| TargetEdit.RowsDisjoint | raylib-audio-visualization.c:220-222 | the pointer selects at most one row |
| TargetEdit.Clamp | raylib-audio-visualization.c:239-240 | the clamp changes only the target, puts it in range when `min <= max`, and leaves an in-range target alone |
| TargetEdit.ClampIsNearest | raylib-audio-visualization.c:239-240 | the clamped target is the closest in-range value to the unclamped one |
| TargetEdit.DragTarget | raylib-audio-visualization.c:227-229 | dragging across the 400-pixel row maps the pointer's x onto `[min, max]`: the left edge gives `min`, and the target approaches `max` toward the right edge without reaching it, because a selected pointer has `x < 400` |
| TargetEdit.ScrollStep | raylib-audio-visualization.c:233-235 | the wheel step is `wheel * (max - min) / 10000`, ten times that with Ctrl, a tenth with Shift, and the base step with both; no wheel movement or an empty range gives 0 |
| TargetEdit.EditParam | raylib-audio-visualization.c:227-240 | one row's edit changes only its target and ends in range; an unselected row is only clamped; a selected row becomes the clamp of its target (or, while the button is down, the drag target) plus the scroll step |
| TargetEdit.DragIsLinear | raylib-audio-visualization.c:227-229 | the drag target is affine in the pointer's x: two pointer positions `dx` pixels apart give targets `dx / 400` of the range apart |
| TargetEdit.DragWithoutScroll | raylib-audio-visualization.c:227-237 | a selected row dragged with no wheel movement takes the drag target |
| TargetEdit.EditTargets | raylib-audio-visualization.c:219-241 | the per-frame pass changes only live targets, ends with every target in range, and only clamps unselected rows |
| TargetEdit.AtMostOneRowMoved | raylib-audio-visualization.c:219-241 | of any two rows at least one is only clamped |
| TargetEdit.RandomTarget | raylib-audio-visualization.c:163-164 | a draw `k` in 0..10000 gives the point `k/10000` of the way from `min` to `max` |
| TargetEdit.Randomise | raylib-audio-visualization.c:161-166 | R sets each live target from its own draw, in range, and changes nothing else |
| Snapshot.RecordOf | raylib-audio-visualization.c:123-126 | each record holds the entry's C-string name, NUL-padded, and its live value |
| Snapshot.ExportRecords | raylib-audio-visualization.c:117-126 | the buffer holds one record per live entry, in table order |
| Snapshot.ExportSize | raylib-audio-visualization.c:117 | the buffer size is a whole number of 32-byte records, one per live entry |
| Snapshot.TextFormat | raylib-audio-visualization.c:135 | raylib's `TextFormat` keeps a text shorter than its 1024-byte buffer whole and cuts a longer one to its first 1023 characters |
| Snapshot.Export | raylib-audio-visualization.c:116-137 | the clipboard text starts with the tag `OSCI#` and continues with a prefix of the encoded records; it holds the whole encoding exactly when the tagged text fits `TextFormat`'s buffer |
| Snapshot.ApplyRecord | raylib-audio-visualization.c:151-155 | one record sets the target of every live entry whose name matches it, and nothing else |
| Snapshot.ApplyRecords | raylib-audio-visualization.c:150-156 | applying the records changes only live targets |
| Snapshot.Import | raylib-audio-visualization.c:139-159 | text without the tag leaves the table unchanged; otherwise only live targets change |
| Snapshot.ApplyRecordsLastWins | raylib-audio-visualization.c:150-156 | an entry no record matches is unchanged; otherwise its target is the value of the last matching record |
| Snapshot.ForeignRecordsIgnored | raylib-audio-visualization.c:150-156 | records whose names match no live entry change nothing |
| Snapshot.ApplyRecordsIdempotent | raylib-audio-visualization.c:150-156 | pasting the same records twice gives the same table as pasting them once |
| Snapshot.ExportedRecordMatches | raylib-audio-visualization.c:152 | an exported record matches an entry exactly when the two C-string names agree |
| Snapshot.ExportImportRoundTrip | raylib-audio-visualization.c:116-159 | with unique names, a tagged encoding short enough for `TextFormat`'s buffer and a codec that decodes what it encodes, pasting one's own copy sets every live target to that entry's live value and changes nothing else |
| Soundgen.Trunc | raylib-audio-visualization.c:308-309 | the conversion to `short` truncates toward zero |
| Soundgen.SampleFitsShort | raylib-audio-visualization.c:308-309 | a sample in [-1,1] scaled by 32767 fits a `short` |
| Soundgen.Frames | raylib-audio-visualization.c:297-311 | `n` frames of automation then generation keep the memory's size, and every entry keeps pointing into it |
| Soundgen.WriteFrame | raylib-audio-visualization.c:306-307 | frame `i` writes left and right into their two slots, and no other slot changes |
| Soundgen.ClockStep | raylib-audio-visualization.c:310 | the closed-form clock starts at the callback's `time` and grows by `1.0 / SAMPLE_RATE` per frame, as the running `time +=` does |
| Soundgen.StoreKeepsWindow | raylib-audio-visualization.c:306-307 | storing a run of frames from offset `off` leaves each of the last `BUFFER_SIZE` frames at its two slots and every other slot as it was |
| Soundgen.SoundgenFrame | raylib-audio-visualization.c:297-310 | one pass of the loop body takes the callback's state after `i` frames (reference frames, ring, clock, output) to its state after `i + 1` |
| Soundgen.SoundgenThread | raylib-audio-visualization.c:294-318 | the callback produces the reference frames and the ring `Store` describes; the last `BUFFER_SIZE` frames sit in their ring slots; unwritten slots keep their values; the output buffer interleaves the truncated samples; the offset advances by two slots per frame and the clock by one step per frame |
| Soundgen.WrittenSlotsDistinct | raylib-audio-visualization.c:306-307 | for at most 2048 frames, no two writes of one callback share a slot |
| Soundgen.SlotParity | raylib-audio-visualization.c:306-307 | from an even offset, left samples land in even slots with their right sample in the next slot |
| Soundgen.ReaderSeesFrames | raylib-audio-visualization.c:192-193 | the pair the oscilloscope reads at index `p` is one frame's left and right sample |
| Soundgen.FramesKeepRange | raylib-audio-visualization.c:297-305 | a generator that leaves the parameter variables alone keeps every live value in range |
| Control.ControlFrame | raylib-audio-visualization.c:113-241 | a frame's commands change only live targets, end with every target in range, and change the clipboard only on Ctrl+C, to the export |
| Control.CopyPasteSameFrame | raylib-audio-visualization.c:116-159 | Ctrl+C and Ctrl+V in the same frame set each unselected target to its live value, when the tagged encoding fits `TextFormat`'s buffer |
| Control.ControlFrameKeepsHealthy | raylib-audio-visualization.c:113-241 | a frame keeps the table bounded, alias-free and pointing into memory, with every value and target in range |
| Control.Boot | raylib-audio-visualization.c:35-37 | the program starts with whatever the system clipboard holds, a zeroed ring, `samples_offset` 0 and `time` 0 |
| Control.Step | raylib-audio-visualization.c:294-318 | a control frame leaves the statics, ring, offset and clock alone; an audio callback leaves the table and clipboard alone, stores its frames in the ring at the old offset, and advances the offset by two slots and the clock by one sample period per frame; text another application puts on the clipboard changes the clipboard alone |
| Control.SessionOffsetEven | raylib-audio-visualization.c:317 | `samples_offset` starts at 0 and grows by `2 * frames`, so it is even in every reachable state |
| Control.ScopeShowsFrames | raylib-audio-visualization.c:306-317 | after any session from boot, the next callback leaves each slot pair the oscilloscope reads holding one of its frames, left and right together |
| Control.SessionKeepsHealthy | raylib-audio-visualization.c:294-303 | across any interleaving of frames and callbacks, every live value and target stays within its range |
| Mushrooms.InitialMemory | mushrooms.c:4-24 | `freq` starts at 440, `hat_ampl` and `hat_perc` at 0.25, every other static at 0 |
| Mushrooms.Params | mushrooms.c:31-46 | 13 live entries with the declared names, ranges, variables and targets, then exactly one sentinel, as the last element |
| Mushrooms.ParamsDistinct | mushrooms.c:32-44 | all names differ as C strings, and no two entries share a variable |
| Mushrooms.ParamsInRange | mushrooms.c:4-44 | every range is non-empty, every default target and every initial value lies within its entry's range, and every entry points at a static |
| Mushrooms.ParamsWellFormed | mushrooms.c:4-46 | the table at load time satisfies every well-formedness property the host relies on |
| Mushrooms.Square | mushrooms.c:52-54 | the square wave is -1 or +1, and is negative exactly when the sine is negative |
| Mushrooms.AdvancePhases | mushrooms.c:60-64 | only the five phase accumulators move, and at frequency 0 nothing moves |
| Mushrooms.Generate | mushrooms.c:57-72 | `generate` writes only the phases, and with `ampl`, `disj_x` and `disj_y` all 0 it outputs silence |
| Mushrooms.Generator | mushrooms.c:57-72 | the compiled generator writes nothing but phase accumulators |
| Mushrooms.PhasesOnlyKeepsParams | mushrooms.c:57-64 | such a generator never writes a variable that a parameter drives |
| Mushrooms.MushroomsStayHealthy | mushrooms.c:31-46 | from load, under any sequence of frames, callbacks and foreign clipboard text, every live value and target of this generator stays within its range |
| Rgb565.Word | rgbgene.c:20-27 | the `.color` word is 0 exactly for the empty cell, and reading it back through the bit fields gives the cell |
| Rgb565.WordRoundTrip | rgbgene.c:20-27 | every 16-bit word is the `.color` of the cell its bit fields hold |
| Rgb565.WordInjective | rgbgene.c:107 | two cells compare equal as `.color` words exactly when all their fields agree |
| Rgb565.ToColor | rgbgene.c:130-137 | unpacking gives an opaque colour whose low 3, 2 and 3 bits are clear |
| Rgb565.FromColor | rgbgene.c:139-145 | packing and then unpacking a colour keeps `r & 0xF8`, `g & 0xFC` and `b & 0xF8`, with alpha 255 |
| Rgb565.CellRoundTrip | rgbgene.c:130-145 | unpacking a cell and then repacking it gives the same cell |
| Rgb565.Mutate | rgbgene.c:43-53 | red and blue drift by -1..2 modulo 32, green by -2..1 modulo 64; a channel whose roll is 20 or more does not move |
| Rgb565.MutateReachesEveryDrift | rgbgene.c:43-53 | every allowed drift occurs for some random word |
| World.Index | rgbgene.c:106 | an in-grid coordinate's index lies within the array |
| World.CoordsOfIndex | rgbgene.c:60-61 | coordinates to index and back is the identity on the grid |
| World.IndexOfCoords | rgbgene.c:60-61 | index to coordinates and back is the identity on the array |
| World.Get | rgbgene.c:13 | off the grid `W_GET` reads the empty cell; on it, cell `x + y*1366` |
| World.Set | rgbgene.c:14-18 | off the grid `W_SET` changes nothing; on it, only cell `x + y*1366` changes |
| World.GetSet | rgbgene.c:13-18 | after a write, the written cell reads back and every other position reads as before |
| World.Spread | rgbgene.c:64-72 | the neighbour loop never changes a coloured cell, and changes only cells among the eight neighbours |
| World.WorldStep | rgbgene.c:59-76 | an iteration that picks an empty cell changes nothing; otherwise it writes only empty cells among the picked cell's eight neighbours |
| World.PickedCellKept | rgbgene.c:59-76 | the picked cell itself is never changed |
| World.WorldUpdate | rgbgene.c:58-78 | a locked batch of 1000 iterations equals the iterations run in order, and keeps every coloured cell's colour |
| World.Steps | rgbgene.c:59-76 | any number of iterations keeps every coloured cell's colour |
| World.RedrawCell | rgbgene.c:106-109 | visiting cell `(x, y)` draws it exactly when its colour word changed, so the drawn list stays exactly the changed cells before it, in order |
| World.Redraw | rgbgene.c:104-112 | the pixels drawn are exactly the cells whose `.color` changed, each once, in row-major order, in the cell's colour; afterwards `prev` equals `curr` |
| MonoRing.AudioConsumer | windose.c:48-54 | each of the last 4096 frames leaves its left sample in slot `(offset + i) mod 4096`; slots no frame reached are unchanged; the offset advances by `frames` |
| MonoRing.FramesDistinct | windose.c:51 | for at most 4096 frames, the frames land in distinct slots |
| Typewriter.Start | windose.c:70-72 | the caption starts empty, with the counter negative |
| Typewriter.Delay | windose.c:120-126 | a line break waits 60 frames, `,` `/` `.` wait 15, and any other character waits `sym & 7`: the value below 8 that differs from the character code by a multiple of 8 |
| Typewriter.Frame | windose.c:117-129 | with a negative counter after the space check a frame changes nothing, and a finished caption stays as it is |
| Typewriter.FrameReveals | windose.c:117-129 | the shown text stays a prefix of the caption; it gains exactly the next character when the counter stood at 0, and that character's delay follows; otherwise nothing is revealed and a positive counter counts down |
| Typewriter.RunShowsPrefix | windose.c:117-129 | over any run of frames the shown text stays a prefix of the caption and grows by at most one character per frame |
| Typewriter.NothingBeforeSpace | windose.c:117 | until space is pressed, frames change nothing |
| Typewriter.CaptionShowsPrefix | windose.c:65-72 | for the demo's caption, whatever the key presses, the screen shows a prefix of it |
| Windose.HotReload | windose.c:210-224 | the shader reloads exactly when the file is newer, and the remembered time becomes the later of the old time and the file's time |
| Windose.HotReloadSettles | windose.c:210-224 | a second poll of an unchanged file does not reload |
| Windose.PollsKeepLatest | windose.c:94-95 | across frames the remembered time is at least every file time seen on a polled frame |
| Windose.WindowClient | windose.c:194-208 | the client rectangle is the body panel minus its 2-pixel outline, and it lies within the window exactly when the window is at least 16 wide and 60 high |
| Windose.ClientBelowTitle | windose.c:198-207 | the client rectangle starts below the title bar |

## Left out

- `compile_generator` and `tcc_error_callback` are not modelled. They are thin calls into libtcc. Nothing keeps the old module after a failed compile, so no such guarantee is stated.
- `CompressData`, `EncodeDataBase64`, `DecompressData` and `DecodeDataBase64` are not modelled. They are library code outside this model, and appear only as the function parameters `encode` and `decode`.
- The byte layout of a snapshot record is abstracted to a `(name, value)` pair. A trailing partial record is therefore not modelled.
- Concurrency is not modelled. The audio callbacks, the frame loop, the automaton's worker thread and its mutex are modelled as steps that run one at a time.
- `Snapshot.Export`: promises the whole encoding only when `OSCI#` plus the encoding is shorter than 1024 characters. A longer text is cut by `TextFormat`, so pasting it does not restore the table, and `Snapshot.ExportImportRoundTrip` and `Control.CopyPasteSameFrame` take the fit as a premise. The `...` marker that some raylib versions write over the end of a cut text is not modelled.
- `Control.SessionKeepsHealthy`: holds because a control frame is one atomic step in the model. In the program the audio callback can run between an unclamped paste (line 153) or scroll add (line 237) and the clamp (lines 239-240), and its automation (lines 300-301) can then pull `*value` past `max` for that callback.
- Floating point is not modelled. Every `double` and `float` is a real, so rounding is left out. This covers the float-to-`short` conversion when the sample is out of range, which the source leaves undefined.
- `Mushrooms.Generate`: `sin`, `fmod` and pi are inputs, and the mixed sample is not rounded to `float`.
- The fftw spectrum and the spectrum line are not modelled. They are numerical output with no stated contract.
- File capture is not modelled. This covers the `samples.data` recording, its `fwrite` and the PNG export. It is I/O.
- Rendering is not modelled. This covers every window, texture, shader-uniform, font and oscilloscope drawing call, and the mouse collision test of the demo, which does nothing. Only the automaton's redraw diff is kept, as the list of pixels drawn.
- `samples_offset` and `sound_offset` grow without bound in the model, so their 64-bit overflow is not modelled.
- The automaton's initial seeding of 16 random cells is not modelled. It is start-up state set by `rand()`.
- `Approach.IterateExpDistance`: gives the exact shrink factor `(1 - ratio)^k` but no number of frames after which the value is within a given distance of the target.
