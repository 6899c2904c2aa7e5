/** The write-ahead log: length-prefixed, checksummed frames in an append-only file, read back until the first
    frame that is cut short or does not match. The JSON payload and the checksum are parameters. */
module Wal {
  import opened KeyOrder
  import opened Seqs
  import opened SSTable
  import C = Commands

  /** One logged line; BEGIN and COMMIT frame a batch. */
  datatype Line = Put(key: Bytes, value: Bytes) | Delete(key: Bytes) | Begin | Commit

  datatype Record = Record(sequence: nat, line: Line)

  datatype Codec = Codec(encode: Record -> Bytes, decode: Bytes -> C.Option<Record>, crc: Bytes -> nat)

  ghost predicate Sound(c: Codec) {
    && (forall r: Record :: c.decode(c.encode(r)) == C.Some(r))
    && (forall b: Bytes :: c.crc(b) < 0x1_0000_0000)
  }

  /** The payload's length fits its field. */
  predicate Loggable(c: Codec, r: Record) { |c.encode(r)| < 0x1_0000_0000 }

  ghost predicate AllLoggable(c: Codec, rs: seq<Record>) { forall i :: 0 <= i < |rs| ==> Loggable(c, rs[i]) }

  function Frame(c: Codec, r: Record): Bytes {
    var payload := c.encode(r);
    U32(|payload|) + payload + U32(c.crc(payload))
  }

  function Frames(c: Codec, rs: seq<Record>): Bytes {
    if rs == [] then [] else Frame(c, rs[0]) + Frames(c, rs[1..])
  }

  /** The record of the frame a file begins with, and the frame's length. */
  function FirstFrame(c: Codec, file: Bytes): (f: C.Option<(Record, nat)>)
    ensures f.Some? ==> 8 <= f.value.1 <= |file|
  {
    if |file| < 4 then C.None
    else
      var n := FromU32(file[..4]);
      if |file| < 4 + n + 4 then C.None
      else
        var payload := file[4..4 + n];
        if FromU32(file[4 + n..4 + n + 4]) != c.crc(payload) then C.None
        else
          var r := c.decode(payload);
          if r.None? then C.None else C.Some((r.value, 4 + n + 4))
  }

  /** What reading a file yields. */
  function Parse(c: Codec, file: Bytes): seq<Record>
    decreases |file|
  {
    var f := FirstFrame(c, file);
    if f.None? then [] else [f.value.0] + Parse(c, file[f.value.1..])
  }

  /** Reading on from a position, with what was read so far. */
  function ParseFrom(c: Codec, file: Bytes, pos: nat, acc: seq<Record>): seq<Record>
    requires pos <= |file|
    decreases |file| - pos
  {
    var f := FirstFrame(c, file[pos..]);
    if f.None? then acc else ParseFrom(c, file, pos + f.value.1, acc + [f.value.0])
  }

  lemma {:induction false} ParseFromIs(c: Codec, file: Bytes, pos: nat, acc: seq<Record>)
    requires pos <= |file|
    ensures ParseFrom(c, file, pos, acc) == acc + Parse(c, file[pos..])
    decreases |file| - pos
  {
    var f := FirstFrame(c, file[pos..]);
    if f.None? {
      assert acc + [] == acc;
    } else {
      ParseFromIs(c, file, pos + f.value.1, acc + [f.value.0]);
      DropDrop(file, pos, f.value.1);
      Assoc(acc, [f.value.0], Parse(c, file[pos + f.value.1..]));
    }
  }

  lemma {:induction false} ParseFromStart(c: Codec, file: Bytes)
    ensures ParseFrom(c, file, 0, []) == Parse(c, file)
  {
    ParseFromIs(c, file, 0, []);
    assert file[0..] == file;
  }

  /** How many of the records have their whole frame within the first `cut` bytes. */
  function Whole(c: Codec, rs: seq<Record>, cut: nat): (j: nat)
    ensures j <= |rs|
  {
    if rs == [] || cut < |Frame(c, rs[0])| then 0 else 1 + Whole(c, rs[1..], cut - |Frame(c, rs[0])|)
  }

  lemma {:induction false} FrameParts(c: Codec, r: Record, rest: Bytes)
    requires Sound(c) && Loggable(c, r)
    ensures var file, n := Frame(c, r) + rest, |c.encode(r)|;
            && |file| >= 4 + n + 4 && FromU32(file[..4]) == n && file[4..4 + n] == c.encode(r)
            && FromU32(file[4 + n..4 + n + 4]) == c.crc(c.encode(r)) && file[4 + n + 4..] == rest
  {
    var file, payload := Frame(c, r) + rest, c.encode(r);
    NumbersBack(|payload|);
    NumbersBack(c.crc(payload));
    assert file[..4] == U32(|payload|);
    assert file[4..4 + |payload|] == payload;
    assert file[4 + |payload|..8 + |payload|] == U32(c.crc(payload));
  }

  lemma {:induction false} ParseFrame(c: Codec, r: Record, rest: Bytes)
    requires Sound(c) && Loggable(c, r)
    ensures Parse(c, Frame(c, r) + rest) == [r] + Parse(c, rest)
  {
    FrameParts(c, r, rest);
  }

  lemma {:induction false} CutBefore(f: Bytes, rest: Bytes, cut: nat)
    requires cut < |f|
    ensures (f + rest)[..cut] == f[..cut]
  {
  }

  lemma {:induction false} CutBehind(f: Bytes, rest: Bytes, cut: nat)
    requires |f| <= cut <= |f + rest|
    ensures (f + rest)[..cut] == f + rest[..cut - |f|]
  {
  }

  /** A frame that is cut short reads as the end of the file. */
  lemma {:induction false} CutFrame(c: Codec, r: Record, cut: nat)
    requires Sound(c) && Loggable(c, r) && cut < |Frame(c, r)|
    ensures Parse(c, Frame(c, r)[..cut]) == []
  {
    FrameParts(c, r, []);
    var file := Frame(c, r)[..cut];
    assert Frame(c, r) + [] == Frame(c, r);
    if cut >= 4 { assert file[..4] == Frame(c, r)[..4]; }
  }

  /** Torn-write recovery: whatever prefix of the file survives, reading it yields exactly the records whose
      frames survived whole. */
  lemma {:induction false} TornPrefix(c: Codec, rs: seq<Record>, cut: nat)
    requires Sound(c) && AllLoggable(c, rs) && cut <= |Frames(c, rs)|
    ensures Parse(c, Frames(c, rs)[..cut]) == rs[..Whole(c, rs, cut)]
  {
    SplitAtCut(c, rs, cut);
    var j := Whole(c, rs, cut);
    ReadPast(c, rs[..j], Torn(c, rs, cut));
    TornReadsNothing(c, rs, cut);
    Nothing(rs[..j]);
  }

  /** What is left of a frame that was cut short: nothing if the cut is at the end of a frame. */
  ghost function Torn(c: Codec, rs: seq<Record>, cut: nat): Bytes
    requires cut <= |Frames(c, rs)|
  {
    if rs == [] then []
    else if cut < |Frame(c, rs[0])| then Frame(c, rs[0])[..cut]
    else Torn(c, rs[1..], cut - |Frame(c, rs[0])|)
  }

  /** The surviving bytes: the whole frames, and what is left of the next. */
  lemma {:induction false} SplitAtCut(c: Codec, rs: seq<Record>, cut: nat)
    requires cut <= |Frames(c, rs)|
    ensures Frames(c, rs)[..cut] == Frames(c, rs[..Whole(c, rs, cut)]) + Torn(c, rs, cut)
  {
    if rs != [] {
      var f := Frame(c, rs[0]);
      if cut < |f| {
        CutBefore(f, Frames(c, rs[1..]), cut);
        Nothing(f[..cut]);
      } else {
        CutBehind(f, Frames(c, rs[1..]), cut);
        SplitAtCut(c, rs[1..], cut - |f|);
        FramesCons(c, rs, Whole(c, rs[1..], cut - |f|));
        Assoc(f, Frames(c, rs[1..][..Whole(c, rs[1..], cut - |f|)]), Torn(c, rs[1..], cut - |f|));
      }
    }
  }

  lemma {:induction false} FramesCons(c: Codec, rs: seq<Record>, n: nat)
    requires n + 1 <= |rs|
    ensures Frames(c, rs[..n + 1]) == Frame(c, rs[0]) + Frames(c, rs[1..][..n])
  {
    assert rs[..n + 1][1..] == rs[1..][..n];
  }

  lemma {:induction false} TornReadsNothing(c: Codec, rs: seq<Record>, cut: nat)
    requires Sound(c) && AllLoggable(c, rs) && cut <= |Frames(c, rs)|
    ensures Parse(c, Torn(c, rs, cut)) == []
  {
    if rs != [] {
      if cut < |Frame(c, rs[0])| {
        CutFrame(c, rs[0], cut);
      } else {
        TornReadsNothing(c, rs[1..], cut - |Frame(c, rs[0])|);
      }
    }
  }

  /** Whole frames are read, and reading goes on behind them. */
  lemma {:induction false} ReadPast(c: Codec, rs: seq<Record>, rest: Bytes)
    requires Sound(c) && AllLoggable(c, rs)
    ensures Parse(c, Frames(c, rs) + rest) == rs + Parse(c, rest)
  {
    if rs == [] {
      Nothing(rest);
      Nothing(Parse(c, rest));
    } else {
      Assoc(Frame(c, rs[0]), Frames(c, rs[1..]), rest);
      ParseFrame(c, rs[0], Frames(c, rs[1..]) + rest);
      ReadPast(c, rs[1..], rest);
      Assoc([rs[0]], rs[1..], Parse(c, rest));
      Cons(rs);
    }
  }

  /** Appending to what a crash left: the frames are read back if the crash cut at the end of a frame. Otherwise they come
      behind a torn frame, and none of them is read unless the mixture passes the checksum. */
  lemma {:induction false} AppendAfterCrash(c: Codec, rs: seq<Record>, cut: nat, more: seq<Record>)
    requires Sound(c) && AllLoggable(c, rs) && AllLoggable(c, more) && cut <= |Frames(c, rs)|
    ensures var read, kept := Parse(c, Frames(c, rs)[..cut] + Frames(c, more)), rs[..Whole(c, rs, cut)];
            && (Torn(c, rs, cut) == [] ==> read == kept + more)
            && (FirstFrame(c, Torn(c, rs, cut) + Frames(c, more)).None? ==> read == kept)
  {
    var j, t := Whole(c, rs, cut), Torn(c, rs, cut);
    SplitAtCut(c, rs, cut);
    Assoc(Frames(c, rs[..j]), t, Frames(c, more));
    ReadPast(c, rs[..j], t + Frames(c, more));
    Nothing(Frames(c, more));
    ParseFrames(c, more);
    Nothing(rs[..j]);
  }

  /** A torn frame hides everything behind it: one byte of a first frame, then any whole frame of another record, reads as
      an empty payload with a wrong checksum. (The checksum of nothing is 0 for CRC32.) */
  lemma {:induction false} TornHides(c: Codec, r0: Record, r1: Record, more: Bytes)
    requires Sound(c) && c.crc([]) == 0 && |c.encode(r0)| < 0x100_0000 && 0 < |c.encode(r1)| < 256
    ensures Frame(c, r0)[..1] == [0] && Parse(c, [0] + (Frame(c, r1) + more)) == []
  {
    var file, p := [0] + (Frame(c, r1) + more), c.encode(r1);
    assert U32(|p|) == [0, 0, 0, |p|];
    assert file[..4] == [0, 0, 0, 0];
    assert file[4..4] == [];
    assert file[4..8][0] == |p|;
  }

  lemma {:induction false} FramesSnoc(c: Codec, rs: seq<Record>, r: Record)
    ensures Frames(c, rs + [r]) == Frames(c, rs) + Frame(c, r)
  {
    if rs == [] {
      assert rs + [r] == [r];
      assert Frames(c, [r]) == Frame(c, r) + Frames(c, []);
    } else {
      assert (rs + [r])[1..] == rs[1..] + [r];
      FramesSnoc(c, rs[1..], r);
    }
  }

  /** A file that was written to its end is read to its end. */
  lemma {:induction false} ParseFrames(c: Codec, rs: seq<Record>)
    requires Sound(c) && AllLoggable(c, rs)
    ensures Parse(c, Frames(c, rs)) == rs
  {
    ReadPast(c, rs, []);
    Nothing(Frames(c, rs));
    Nothing(rs);
  }

  /** The number after the highest one used, or 0. */
  ghost predicate IsNext(rs: seq<Record>, n: nat) {
    (forall i :: 0 <= i < |rs| ==> rs[i].sequence < n) && (n == 0 || exists i :: 0 <= i < |rs| && rs[i].sequence + 1 == n)
  }

  class WriteAheadLog {
    const codec: Codec
    var file: Bytes
    var sequence: nat
    ghost var records: seq<Record>       // what was read when the file was opened, and what was appended since

    ghost predicate Valid()
      reads this
    {
      Sound(codec) && forall i :: 0 <= i < |records| ==> records[i].sequence < sequence
    }

    /** The file is the records' frames and nothing else, so all of them would be read back. */
    ghost predicate Clean()
      reads this
    {
      AllLoggable(codec, records) && file == Frames(codec, records)
    }

    /** Open whatever file a log left behind; numbering goes on after the highest number that can be read. */
    constructor (codec: Codec, file: Bytes)
      requires Sound(codec)
      ensures Valid() && this.codec == codec && this.file == file && records == Parse(codec, file) && IsNext(records, sequence)
    {
      this.codec, this.file, this.records := codec, file, Parse(codec, file);
      sequence := 0;
      new;
      var rs := ReadAll();
      sequence := NextNumber(rs);
    }

    static method NextNumber(rs: seq<Record>) returns (n: nat)
      ensures IsNext(rs, n)
    {
      n := 0;
      var i := 0;
      while i < |rs|
        invariant 0 <= i <= |rs| && (forall j :: 0 <= j < i ==> rs[j].sequence < n) && (n == 0 || exists j :: 0 <= j < i && rs[j].sequence + 1 == n)
      {
        if rs[i].sequence >= n {
          n := rs[i].sequence + 1;
        }
        i := i + 1;
      }
    }

    /** Append one line; a payload too long for its length field makes this fail after the number has been used. */
    method Append(line: Line) returns (ok: bool)
      requires Valid()
      modifies this
      ensures Valid() && sequence == old(sequence) + 1 && (ok <==> Loggable(codec, Record(old(sequence), line)))
      ensures ok ==> records == old(records) + [Record(old(sequence), line)] && file == old(file) + Frame(codec, Record(old(sequence), line))
      ensures !ok ==> records == old(records) && file == old(file)
      ensures old(Clean()) ==> Clean()
    {
      var r := Record(sequence, line);
      sequence := sequence + 1;
      ok := |codec.encode(r)| < 0x1_0000_0000;
      if ok {
        FramesSnoc(codec, records, r);
        file := file + Frame(codec, r);
        records := records + [r];
      }
    }

    /** Read frame by frame until the file ends, a frame is cut short, or one does not match its checksum. */
    method ReadAll() returns (rs: seq<Record>)
      ensures rs == Parse(codec, file)
    {
      rs := [];
      var pos: nat := 0;
      var frame := ReadFrame(0);
      while frame.Some?
        invariant pos <= |file| && frame == FirstFrame(codec, file[pos..]) && ParseFrom(codec, file, pos, rs) == ParseFrom(codec, file, 0, [])
        decreases |file| - pos
      {
        rs := rs + [frame.value.0];
        pos := pos + frame.value.1;
        frame := ReadFrame(pos);
      }
      ParseFromStart(codec, file);
    }

    method ReadFrame(pos: nat) returns (f: C.Option<(Record, nat)>)
      requires pos <= |file|
      ensures f == FirstFrame(codec, file[pos..])
    {
      ghost var rest := file[pos..];
      if pos + 4 > |file| {
        return C.None;
      }
      var n := FromU32(file[pos..pos + 4]);
      assert rest[..4] == file[pos..pos + 4];
      if pos + 4 + n + 4 > |file| {
        return C.None;
      }
      var payload := file[pos + 4..pos + 4 + n];
      assert rest[4..4 + n] == payload;
      assert rest[4 + n..4 + n + 4] == file[pos + 4 + n..pos + 4 + n + 4];
      if FromU32(file[pos + 4 + n..pos + 4 + n + 4]) != codec.crc(payload) {
        return C.None;
      }
      var r := codec.decode(payload);
      f := if r.None? then C.None else C.Some((r.value, 4 + n + 4));
    }

    method Truncate()
      requires Valid()
      modifies this`file, this`records
      ensures Valid() && Clean() && records == []
    {
      file := [];
      records := [];
    }
  }
}
