/**
 * The host's clipboard snapshot of the parameters. Ctrl+C writes one record
 * `{ name[16], value, pad[8] }` per live parameter, in table order, holding
 * the parameter's name and its live value; the records are compressed,
 * base64-encoded and put on the clipboard behind the tag `OSCI#`. Ctrl+V
 * checks the tag, decodes the records and, for each record in turn, sets the
 * `target` of every live parameter whose name agrees with the record's name
 * in the first 16 characters.
 *
 * Compression and base64 are not modelled: the byte-level codec is a pair of
 * function parameters `encode`/`decode`, and the round-trip lemma assumes
 * only that `decode` undoes `encode` on record sequences and that the tagged
 * encoding fits raylib's `TextFormat` buffer, which cuts longer text short.
 */
module Snapshot {
  import opened CString
  import opened ParamTable

  /** The clipboard tag that marks a snapshot. */
  const Tag: string := "OSCI#"

  /** Bytes per record: a 16-character name, an 8-byte double and 8 bytes of padding. */
  const RecordSize: nat := 16 + 8 + 8

  datatype Record = Record(name: Name, value: real)

  /** `strncmp(rec.name, p.name, 16) == 0`. */
  predicate Matches(rec: Record, p: Param)
  {
    StrnEq(rec.name, p.name, NameWidth)
  }

  /** The record Ctrl+C writes for live entry `j`. */
  function RecordOf(t: Table, mem: Memory, j: nat): (rec: Record)
    requires PointsInto(t, mem) && j < NParams(t)
    ensures CStr(rec.name, NameWidth) == CStr(t[j].name, NameWidth)
    ensures forall k :: |CStr(t[j].name, NameWidth)| <= k < NameWidth ==> rec.name[k] == '\0'
    ensures rec.value == Current(t, mem, j)
  {
    Record(Strncpy(t[j].name, NameWidth), Current(t, mem, j))
  }

  /** The record buffer of Ctrl+C: one record per live entry, in table order. */
  function ExportRecords(t: Table, mem: Memory): (rs: seq<Record>)
    requires PointsInto(t, mem)
    ensures |rs| == NParams(t)
    ensures forall j :: 0 <= j < |rs| ==> rs[j] == RecordOf(t, mem, j)
  {
    seq(NParams(t), j requires 0 <= j < NParams(t) => RecordOf(t, mem, j))
  }

  /** The buffer size Ctrl+C allocates: one record's worth of bytes per live entry. */
  function ExportSize(t: Table): (size: nat)
    requires Terminated(t)
    ensures size / RecordSize == NParams(t)
    ensures size % RecordSize == 0
  {
    RecordSize * NParams(t)
  }

  /** `MAX_TEXT_BUFFER_LENGTH`: the size of raylib's static `TextFormat` buffer, terminator included. */
  const TextBufferLength: nat := 1024

  /**
   * `TextFormat`'s output: `vsnprintf` into the static buffer keeps at most
   * `TextBufferLength - 1` characters, the longest prefix that leaves room
   * for the terminator.
   */
  function TextFormat(s: string): (r: string)
    ensures r <= s && |r| < TextBufferLength
    ensures |s| < TextBufferLength ==> r == s
    ensures TextBufferLength <= |s| ==> |r| == TextBufferLength - 1
  {
    if |s| < TextBufferLength then s else s[..TextBufferLength - 1]
  }

  /** The encoded snapshot of `t` fits `TextFormat`'s buffer behind the tag. */
  predicate FitsTextBuffer(t: Table, mem: Memory, encode: seq<Record> -> string)
    requires PointsInto(t, mem)
  {
    |Tag| + |encode(ExportRecords(t, mem))| < TextBufferLength
  }

  /**
   * The clipboard text of Ctrl+C: the tag, then the encoded records, as far
   * as `TextFormat`'s buffer holds them; a longer encoding is cut short.
   */
  function Export(t: Table, mem: Memory, encode: seq<Record> -> string): (clip: string)
    requires PointsInto(t, mem)
    ensures |Tag| <= |clip| < TextBufferLength && clip[..|Tag|] == Tag
    ensures clip[|Tag|..] <= encode(ExportRecords(t, mem))
    ensures FitsTextBuffer(t, mem, encode) <==> clip[|Tag|..] == encode(ExportRecords(t, mem))
  {
    var full := Tag + encode(ExportRecords(t, mem));
    var clip := TextFormat(full);
    assert full[..|Tag|] == Tag && full[|Tag|..] == encode(ExportRecords(t, mem));
    assert clip[..|Tag|] == full[..|Tag|];
    clip
  }

  /** One record applied: every matching live entry takes the record's value as its target. */
  function ApplyRecord(t: Table, rec: Record): (r: Table)
    requires Terminated(t)
    ensures OnlyTargetsChanged(t, r)
    ensures Terminated(r) && NParams(r) == NParams(t)
    ensures forall j :: 0 <= j < NParams(t) && Matches(rec, t[j]) ==> r[j].target == rec.value
    ensures forall j :: 0 <= j < NParams(t) && !Matches(rec, t[j]) ==> r[j] == t[j]
  {
    var n := NParams(t);
    var r := seq(|t|, j requires 0 <= j < |t| =>
      if j < n && Matches(rec, t[j]) then t[j].(target := rec.value) else t[j]);
    OnlyTargetsKeepsShape(t, r);
    r
  }

  /** The records applied in order, the outer loop of Ctrl+V. */
  function ApplyRecords(t: Table, rs: seq<Record>): (r: Table)
    requires Terminated(t)
    ensures OnlyTargetsChanged(t, r)
    ensures Terminated(r) && NParams(r) == NParams(t)
    decreases |rs|
  {
    if |rs| == 0 then t
    else
      var prev := ApplyRecords(t, rs[..|rs| - 1]);
      var r := ApplyRecord(prev, rs[|rs| - 1]);
      OnlyTargetsTransitive(t, prev, r);
      r
  }

  lemma OnlyTargetsTransitive(t: Table, u: Table, v: Table)
    requires Terminated(t)
    requires OnlyTargetsChanged(t, u)
    requires Terminated(u) && NParams(u) == NParams(t)
    requires OnlyTargetsChanged(u, v)
    ensures OnlyTargetsChanged(t, v)
  {
  }

  /** Ctrl+V: a clipboard without the tag is ignored; otherwise the decoded records are applied. */
  function Import(t: Table, clip: string, decode: string -> seq<Record>): (r: Table)
    requires Terminated(t)
    ensures OnlyTargetsChanged(t, r)
    ensures Terminated(r) && NParams(r) == NParams(t)
    ensures !(|clip| >= |Tag| && clip[..|Tag|] == Tag) ==> r == t
  {
    if |clip| >= |Tag| && clip[..|Tag|] == Tag then ApplyRecords(t, decode(clip[|Tag|..])) else t
  }

  /** Record `i` is the last one in `rs` whose name matches entry `p`. */
  predicate LastMatch(rs: seq<Record>, p: Param, i: int)
  {
    && 0 <= i < |rs|
    && Matches(rs[i], p)
    && forall i' :: i < i' < |rs| ==> !Matches(rs[i'], p)
  }

  /** The last record decides entry `j` if it matches it, and leaves it alone otherwise. */
  lemma ApplyRecordsStep(t: Table, rs: seq<Record>, j: nat)
    requires Terminated(t) && j < NParams(t) && |rs| > 0
    ensures Matches(rs[|rs| - 1], t[j]) ==> ApplyRecords(t, rs)[j].target == rs[|rs| - 1].value
    ensures !Matches(rs[|rs| - 1], t[j]) ==> ApplyRecords(t, rs)[j] == ApplyRecords(t, rs[..|rs| - 1])[j]
  {
    var prev := ApplyRecords(t, rs[..|rs| - 1]);
    assert prev[j].name == t[j].name;
  }

  /**
   * What Ctrl+V leaves in a live entry: the value of the last record whose
   * name matches, or the old target when no record matches.
   */
  lemma ApplyRecordsLastWins(t: Table, rs: seq<Record>, j: nat)
    requires Terminated(t) && j < NParams(t)
    ensures (forall i :: 0 <= i < |rs| ==> !Matches(rs[i], t[j])) ==> ApplyRecords(t, rs)[j] == t[j]
    ensures forall i :: LastMatch(rs, t[j], i) ==> ApplyRecords(t, rs)[j].target == rs[i].value
  {
    if forall i :: 0 <= i < |rs| ==> !Matches(rs[i], t[j]) {
      UnmatchedKept(t, rs, j);
    }
    forall i | LastMatch(rs, t[j], i)
      ensures ApplyRecords(t, rs)[j].target == rs[i].value
    {
      LastMatchDecides(t, rs, j, i);
    }
  }

  /** An entry that no record matches keeps its old state. */
  lemma {:induction false} UnmatchedKept(t: Table, rs: seq<Record>, j: nat)
    requires Terminated(t) && j < NParams(t)
    requires forall i :: 0 <= i < |rs| ==> !Matches(rs[i], t[j])
    ensures ApplyRecords(t, rs)[j] == t[j]
    decreases |rs|
  {
    if |rs| > 0 {
      var init := rs[..|rs| - 1];
      forall i | 0 <= i < |init|
        ensures !Matches(init[i], t[j])
      {
        assert init[i] == rs[i];
      }
      UnmatchedKept(t, init, j);
      ApplyRecordsStep(t, rs, j);
    }
  }

  /** The last record that matches an entry sets its target. */
  lemma {:induction false} LastMatchDecides(t: Table, rs: seq<Record>, j: nat, i: int)
    requires Terminated(t) && j < NParams(t)
    requires LastMatch(rs, t[j], i)
    ensures ApplyRecords(t, rs)[j].target == rs[i].value
    decreases |rs|
  {
    ApplyRecordsStep(t, rs, j);
    if i < |rs| - 1 {
      var init := rs[..|rs| - 1];
      assert init[i] == rs[i];
      assert LastMatch(init, t[j], i);
      LastMatchDecides(t, init, j, i);
    }
  }

  /** Whenever some record matches, one of them is the last. */
  lemma {:induction false} SomeLastMatch(rs: seq<Record>, p: Param, i: nat)
    requires i < |rs| && Matches(rs[i], p)
    ensures exists l :: LastMatch(rs, p, l)
    decreases |rs| - i
  {
    if !LastMatch(rs, p, i) {
      var i' :| i < i' < |rs| && Matches(rs[i'], p);
      SomeLastMatch(rs, p, i');
    }
  }

  /** Records that match no live name change nothing. */
  lemma ForeignRecordsIgnored(t: Table, rs: seq<Record>)
    requires Terminated(t)
    requires forall i, j :: 0 <= i < |rs| && 0 <= j < NParams(t) ==> !Matches(rs[i], t[j])
    ensures ApplyRecords(t, rs) == t
  {
    var r := ApplyRecords(t, rs);
    forall j | 0 <= j < |t|
      ensures r[j] == t[j]
    {
      if j < NParams(t) {
        ApplyRecordsLastWins(t, rs, j);
      }
    }
  }

  /** Applying the same records a second time changes nothing more. */
  lemma ApplyRecordsIdempotent(t: Table, rs: seq<Record>)
    requires Terminated(t)
    ensures ApplyRecords(ApplyRecords(t, rs), rs) == ApplyRecords(t, rs)
  {
    var once := ApplyRecords(t, rs);
    var twice := ApplyRecords(once, rs);
    forall j | 0 <= j < |t|
      ensures twice[j] == once[j]
    {
      if j < NParams(t) {
        ApplyRecordsLastWins(t, rs, j);
        ApplyRecordsLastWins(once, rs, j);
        assert once[j].name == t[j].name;
        if i :| 0 <= i < |rs| && Matches(rs[i], t[j]) {
          SomeLastMatch(rs, t[j], i);
          var l :| LastMatch(rs, t[j], l);
          assert LastMatch(rs, once[j], l);
        } else {
          assert forall i :: 0 <= i < |rs| ==> !Matches(rs[i], once[j]);
        }
      }
    }
  }

  /** The exported record of entry `i` matches entry `j` exactly when their C-string names agree. */
  lemma ExportedRecordMatches(t: Table, mem: Memory, i: nat, j: nat)
    requires PointsInto(t, mem) && i < NParams(t) && j < NParams(t)
    ensures Matches(RecordOf(t, mem, i), t[j]) <==> CStr(t[i].name, NameWidth) == CStr(t[j].name, NameWidth)
  {
    StrnEqIffSameCStr(RecordOf(t, mem, i).name, t[j].name, NameWidth);
  }

  /**
   * Pasting one's own copy: with unique names, an encoding short enough to
   * survive `TextFormat` and a codec that decodes what it encodes, Ctrl+V after Ctrl+C sets every live target to that entry's live
   * value and changes nothing else.
   */
  lemma ExportImportRoundTrip(t: Table, mem: Memory, encode: seq<Record> -> string, decode: string -> seq<Record>)
    requires PointsInto(t, mem) && UniqueNames(t) && FitsTextBuffer(t, mem, encode)
    requires decode(encode(ExportRecords(t, mem))) == ExportRecords(t, mem)
    ensures OnlyTargetsChanged(t, Import(t, Export(t, mem, encode), decode))
    ensures forall j :: 0 <= j < NParams(t) ==> Import(t, Export(t, mem, encode), decode)[j].target == Current(t, mem, j)
  {
    var rs := ExportRecords(t, mem);
    var clip := Export(t, mem, encode);
    assert Import(t, clip, decode) == ApplyRecords(t, rs);
    forall j | 0 <= j < NParams(t)
      ensures ApplyRecords(t, rs)[j].target == Current(t, mem, j)
    {
      ExportedRecordMatches(t, mem, j, j);
      forall i' | j < i' < |rs|
        ensures !Matches(rs[i'], t[j])
      {
        ExportedRecordMatches(t, mem, i', j);
      }
      assert LastMatch(rs, t[j], j);
      ApplyRecordsLastWins(t, rs, j);
    }
  }
}
