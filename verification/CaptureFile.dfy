/** The `.fpv4cap` format as a function of its bytes: a 16-byte header and then one record for
    each frame. What a file reads as is defined by positions in it. */
module CaptureFile {
  import opened Numbers
  import opened Frames
  import opened LittleEndian

  const MAGIC: seq<u8> := [0x46, 0x50, 0x56, 0x34, 0x43, 0x41, 0x50, 0]
  const FORMAT_VERSION: nat := 1
  const HEADER_SIZE: nat := 16
  /** The bytes of a record before its body. */
  const FIXED_SIZE: nat := 34

  // ----- The bytes of a file -----

  function HeaderBytes(): (b: seq<u8>)
    ensures |b| == HEADER_SIZE
  {
    MAGIC + Little(FORMAT_VERSION, 2) + Little(HEADER_SIZE, 2) + Little(0, 4)
  }

  function SignedToByte(v: i8): u8 {
    if v < 0 then v + 0x100 else v
  }

  function ByteToSigned(b: u8): i8 {
    if b < 0x80 then b else b - 0x100
  }

  function FlagsByte(f: RadioFrame): u8 {
    (if f.crcError then 1 else 0) + (if f.icvError then 2 else 0)
    + (if f.ldpc then 4 else 0) + (if f.shortGuardInterval then 8 else 0)
  }

  function NumberBytes(f: RadioFrame): (b: seq<u8>)
    ensures |b| == 16
  {
    Little(f.captureTime, 8) + Little(f.tsfl, 4) + Little(f.sequence, 2) + Little(f.rate, 2)
  }

  function SignalBytes(f: RadioFrame): (b: seq<u8>)
    ensures |b| == 8
  {
    [f.bandwidth, FlagsByte(f), SignedToByte(f.rssi.0), SignedToByte(f.rssi.1), SignedToByte(f.snr.0),
     SignedToByte(f.snr.1), SignedToByte(f.evm.0), SignedToByte(f.evm.1)]
  }

  /** The fixed part of a record, with the length of the body that follows it. */
  function FixedBytes(f: RadioFrame): (b: seq<u8>)
    ensures |b| == FIXED_SIZE
  {
    NumberBytes(f) + SignalBytes(f) + f.source + Little(|f.body|, 4)
  }

  function Record(f: RadioFrame): (b: seq<u8>)
    ensures |b| == FIXED_SIZE + |f.body|
  {
    FixedBytes(f) + f.body
  }

  function Records(frames: seq<RadioFrame>): seq<u8> {
    if frames == [] then [] else Record(frames[0]) + Records(frames[1..])
  }

  function FileBytes(frames: seq<RadioFrame>): seq<u8> {
    HeaderBytes() + Records(frames)
  }

  // ----- What a file means -----

  datatype OpenError = NotCapture | HeaderTruncated | UnsupportedVersion
  datatype ReadError = RecordTruncated | BodyTooLarge | BodyTruncated
  datatype Outcome = Frame(frame: RadioFrame, next: nat) | EndOfFile | Broken(error: ReadError)

  /** The magic comparison works on a zero-filled buffer, so it also accepts the first seven
      bytes of the magic alone. */
  predicate MagicMatches(data: seq<u8>) {
    if |data| >= 8 then data[..8] == MAGIC else data + seq(8 - |data|, _ => 0) == MAGIC
  }

  /** Why a file cannot be opened, if it cannot. */
  function OpenFailure(data: seq<u8>): Option<OpenError> {
    if !MagicMatches(data) then Some(NotCapture)
    else if |data| < HEADER_SIZE then Some(HeaderTruncated)
    else if FromLittle(data[8..10]) != FORMAT_VERSION || FromLittle(data[10..12]) != HEADER_SIZE then
      Some(UnsupportedVersion)
    else None
  }

  function U16At(b: seq<u8>): u16
    requires |b| == 2
  {
    FromLittleBounded(b);
    Bounds();
    FromLittle(b)
  }

  function U32At(b: seq<u8>): u32
    requires |b| == 4
  {
    FromLittleBounded(b);
    Bounds();
    FromLittle(b)
  }

  function U64At(b: seq<u8>): u64
    requires |b| == 8
  {
    FromLittleBounded(b);
    Bounds();
    FromLittle(b)
  }

  /** The frame of a fixed part and a body. */
  function Decode(b: seq<u8>, body: seq<u8>): RadioFrame
    requires |b| == FIXED_SIZE
  {
    RadioFrame(
      U64At(b[0..8]), U32At(b[8..12]), U16At(b[12..14]), U16At(b[14..16]), b[16],
      b[17] % 2 == 1, b[17] / 2 % 2 == 1, b[17] / 4 % 2 == 1, b[17] / 8 % 2 == 1,
      (ByteToSigned(b[18]), ByteToSigned(b[19])), (ByteToSigned(b[20]), ByteToSigned(b[21])),
      (ByteToSigned(b[22]), ByteToSigned(b[23])), b[24..30], body)
  }

  function BodySizeAt(data: seq<u8>, pos: nat): nat
    requires pos + FIXED_SIZE <= |data|
  {
    FromLittle(data[pos + 30..pos + FIXED_SIZE])
  }

  /** What reading one record from a position gives. */
  function ReadNext(data: seq<u8>, pos: nat): (r: Outcome)
    requires pos <= |data|
    ensures r.Frame? ==> pos < r.next <= |data| && FitsLimit(r.frame)
  {
    if pos == |data| then EndOfFile
    else if pos + FIXED_SIZE > |data| then Broken(RecordTruncated)
    else
      var size := BodySizeAt(data, pos);
      var start := pos + FIXED_SIZE;
      if size > MAXIMUM_BODY_SIZE then Broken(BodyTooLarge)
      else if start + size > |data| then Broken(BodyTruncated)
      else Frame(Decode(data[pos..start], data[start..start + size]), start + size)
  }

  /** All frames from a position on, and how reading ended. */
  function ReadFrom(data: seq<u8>, pos: nat): (seq<RadioFrame>, Option<ReadError>)
    requires pos <= |data|
    decreases |data| - pos
  {
    match ReadNext(data, pos)
    case EndOfFile => ([], None)
    case Broken(error) => ([], Some(error))
    case Frame(frame, next) =>
      var (frames, error) := ReadFrom(data, next);
      ([frame] + frames, error)
  }

  // ----- Records read back -----

  lemma FlagsInvert(f: RadioFrame)
    ensures var b := FlagsByte(f);
            && (b % 2 == 1 <==> f.crcError) && (b / 2 % 2 == 1 <==> f.icvError)
            && (b / 4 % 2 == 1 <==> f.ldpc) && (b / 8 % 2 == 1 <==> f.shortGuardInterval)
  {
  }

  lemma NumbersInvert(f: RadioFrame)
    ensures var b := NumberBytes(f);
            && U64At(b[0..8]) == f.captureTime && U32At(b[8..12]) == f.tsfl
            && U16At(b[12..14]) == f.sequence && U16At(b[14..16]) == f.rate
  {
    var b := NumberBytes(f);
    Bounds();
    assert b[0..8] == Little(f.captureTime, 8);
    assert b[8..12] == Little(f.tsfl, 4);
    assert b[12..14] == Little(f.sequence, 2);
    assert b[14..16] == Little(f.rate, 2);
    FromLittleInverts(f.captureTime, 8);
    FromLittleInverts(f.tsfl, 4);
    FromLittleInverts(f.sequence, 2);
    FromLittleInverts(f.rate, 2);
  }

  lemma FixedParts(f: RadioFrame)
    ensures var b := FixedBytes(f);
            b[..16] == NumberBytes(f) && b[16..24] == SignalBytes(f) && b[24..30] == f.source
            && b[30..34] == Little(|f.body|, 4)
  {
  }

  lemma DecodeInverts(f: RadioFrame)
    ensures Decode(FixedBytes(f), f.body) == f
  {
    var b := FixedBytes(f);
    FixedParts(f);
    NumbersInvert(f);
    var n, s := b[..16], b[16..24];
    assert b[0..8] == n[0..8] && b[8..12] == n[8..12] && b[12..14] == n[12..14] && b[14..16] == n[14..16];
    assert forall i :: 0 <= i < 8 ==> b[16 + i] == s[i];
    assert b[16] == s[0] && b[17] == s[1] && b[18] == s[2] && b[19] == s[3];
    assert b[20] == s[4] && b[21] == s[5] && b[22] == s[6] && b[23] == s[7];
    FlagsInvert(f);
  }

  /** A whole record in the middle of a file reads as its frame. */
  lemma RecordReadBack(front: seq<u8>, f: RadioFrame, rest: seq<u8>)
    requires FitsLimit(f)
    ensures ReadNext(front + Record(f) + rest, |front|) == Frame(f, |front + Record(f)|)
  {
    var data := front + Record(f) + rest;
    var pos, start := |front|, |front| + FIXED_SIZE;
    assert data[pos..start] == FixedBytes(f);
    FixedParts(f);
    assert data[pos + 30..start] == FixedBytes(f)[30..34];
    Bounds();
    FromLittleInverts(|f.body|, 4);
    assert data[start..start + |f.body|] == f.body;
    DecodeInverts(f);
  }

  /** A record that is cut short is an error. */
  lemma CutRecordIsBroken(front: seq<u8>, f: RadioFrame, n: nat)
    requires FitsLimit(f) && 0 < n < |Record(f)|
    ensures ReadNext(front + Record(f)[..n], |front|) ==
              Broken(if n < FIXED_SIZE then RecordTruncated else BodyTruncated)
  {
    var data := front + Record(f)[..n];
    if n >= FIXED_SIZE {
      FixedParts(f);
      SliceBehind(front, Record(f)[..n], 30, FIXED_SIZE);
      SliceOfPrefix(FixedBytes(f), f.body, n, 30, FIXED_SIZE);
      Bounds();
      FromLittleInverts(|f.body|, 4);
    }
  }

  lemma SliceBehind(front: seq<u8>, x: seq<u8>, i: nat, j: nat)
    requires i <= j <= |x|
    ensures (front + x)[|front| + i..|front| + j] == x[i..j]
  {
  }

  lemma SliceOfPrefix(a: seq<u8>, b: seq<u8>, n: nat, i: nat, j: nat)
    requires i <= j <= |a| <= n <= |a + b|
    ensures (a + b)[..n][i..j] == a[i..j]
  {
  }

  /** How many frames lie wholly within the first `room` bytes of their records. */
  function WholeFrames(frames: seq<RadioFrame>, room: nat): (k: nat)
    ensures k <= |frames|
  {
    if frames == [] || |Record(frames[0])| > room then 0
    else 1 + WholeFrames(frames[1..], room - |Record(frames[0])|)
  }

  /** `WholeFrames` is the largest number of frames whose records fit. */
  lemma {:induction false} WholeFramesIsLargest(frames: seq<RadioFrame>, room: nat, k: nat)
    requires k <= |frames|
    ensures k <= WholeFrames(frames, room) <==> |Records(frames[..k])| <= room
  {
    if k > 0 {
      var n := |Record(frames[0])|;
      assert frames[..k][1..] == frames[1..][..k - 1];
      if n <= room {
        WholeFramesIsLargest(frames[1..], room - n, k - 1);
      }
    }
  }

  lemma ReadFromStep(data: seq<u8>, pos: nat, f: RadioFrame, next: nat)
    requires pos <= |data| && ReadNext(data, pos) == Frame(f, next)
    ensures ReadFrom(data, pos) == ([f] + ReadFrom(data, next).0, ReadFrom(data, next).1)
  {
  }

  /** From a position on, `data` reads as the frames wholly within `room` record bytes, and
      ends properly exactly if these fill the room. */
  ghost predicate ReadsAs(data: seq<u8>, pos: nat, frames: seq<RadioFrame>, room: nat)
    requires pos <= |data|
  {
    var k := WholeFrames(frames, room);
    && ReadFrom(data, pos).0 == frames[..k]
    && (ReadFrom(data, pos).1 == None <==> room == |Records(frames[..k])|)
  }

  lemma NothingReadBack(data: seq<u8>, frames: seq<RadioFrame>)
    ensures ReadsAs(data, |data|, frames, 0)
  {
    assert frames[..0] == [];
  }

  lemma CutFirstRecord(data: seq<u8>, pos: nat, frames: seq<RadioFrame>, room: nat)
    requires pos <= |data| && frames != [] && 0 < room < |Record(frames[0])|
    requires ReadNext(data, pos).Broken?
    ensures ReadsAs(data, pos, frames, room)
  {
    assert frames[..0] == [];
  }

  lemma RecordsOfPrefix(frames: seq<RadioFrame>, k: nat)
    requires frames != [] && k < |frames|
    ensures frames[..k + 1] == [frames[0]] + frames[1..][..k]
    ensures Records(frames[..k + 1]) == Record(frames[0]) + Records(frames[1..][..k])
  {
    assert frames[..k + 1][1..] == frames[1..][..k];
  }

  lemma WholeFirstRecord(data: seq<u8>, pos: nat, frames: seq<RadioFrame>, room: nat, next: nat)
    requires pos <= next <= |data| && frames != [] && |Record(frames[0])| <= room
    requires ReadNext(data, pos) == Frame(frames[0], next)
    requires ReadsAs(data, next, frames[1..], room - |Record(frames[0])|)
    ensures ReadsAs(data, pos, frames, room)
  {
    ReadFromStep(data, pos, frames[0], next);
    RecordsOfPrefix(frames, WholeFrames(frames[1..], room - |Record(frames[0])|));
  }

  /** Splitting the first record off a cut. */
  lemma CutBehindFirst(front: seq<u8>, frames: seq<RadioFrame>, n: nat)
    requires frames != [] && n <= |Records(frames)|
    ensures n < |Record(frames[0])| ==> Records(frames)[..n] == Record(frames[0])[..n]
    ensures n >= |Record(frames[0])| ==>
              var m := n - |Record(frames[0])|;
              && m <= |Records(frames[1..])|
              && front + Records(frames)[..n] == front + Record(frames[0]) + Records(frames[1..])[..m]
  {
    var first, rest := Record(frames[0]), Records(frames[1..]);
    if n >= |first| {
      assert (first + rest)[..n] == first + rest[..n - |first|];
    }
  }

  /** The first `n` record bytes after `front` read as the frames wholly within them. */
  lemma {:induction false} CutRecordsReadBack(data: seq<u8>, front: seq<u8>, frames: seq<RadioFrame>, n: nat)
    requires AllFit(frames) && n <= |Records(frames)|
    requires data == front + Records(frames)[..n]
    ensures ReadsAs(data, |front|, frames, n)
    decreases |frames|
  {
    if n == 0 {
      assert data == front;
      NothingReadBack(data, frames);
    } else {
      var f := frames[0];
      CutBehindFirst(front, frames, n);
      if n < |Record(f)| {
        CutRecordIsBroken(front, f, n);
        CutFirstRecord(data, |front|, frames, n);
      } else {
        var m := n - |Record(f)|;
        RecordReadBack(front, f, Records(frames[1..])[..m]);
        CutRecordsReadBack(data, front + Record(f), frames[1..], m);
        WholeFirstRecord(data, |front|, frames, n, |front + Record(f)|);
      }
    }
  }

  lemma RecordsReadBack(data: seq<u8>, front: seq<u8>, frames: seq<RadioFrame>)
    requires AllFit(frames) && data == front + Records(frames)
    ensures ReadFrom(data, |front|) == (frames, None)
  {
    var n := |Records(frames)|;
    assert Records(frames)[..n] == Records(frames);
    CutRecordsReadBack(data, front, frames, n);
    AllFramesAreWhole(frames);
  }

  lemma AllFramesAreWhole(frames: seq<RadioFrame>)
    ensures WholeFrames(frames, |Records(frames)|) == |frames| && frames[..|frames|] == frames
  {
    assert frames[..|frames|] == frames;
    WholeFramesIsLargest(frames, |Records(frames)|, |frames|);
  }

  lemma HeaderOpens(rest: seq<u8>)
    ensures OpenFailure(HeaderBytes() + rest) == None
  {
    var h := HeaderBytes();
    var data := h + rest;
    assert data[..8] == MAGIC;
    assert data[8..10] == Little(FORMAT_VERSION, 2) && data[10..12] == Little(HEADER_SIZE, 2);
    Bounds();
    FromLittleInverts(FORMAT_VERSION, 2);
    FromLittleInverts(HEADER_SIZE, 2);
  }

  /** Every written file reads back as the frames written, then the end. */
  lemma ReadBack(frames: seq<RadioFrame>)
    requires AllFit(frames)
    ensures OpenFailure(FileBytes(frames)) == None
    ensures ReadFrom(FileBytes(frames), HEADER_SIZE) == (frames, None)
  {
    HeaderOpens(Records(frames));
    RecordsReadBack(FileBytes(frames), HeaderBytes(), frames);
  }

  lemma HeaderStartsWithMagic(n: nat)
    requires n <= 8
    ensures HeaderBytes()[..n] == MAGIC[..n]
  {
    PrefixOfFour(MAGIC, Little(FORMAT_VERSION, 2), Little(HEADER_SIZE, 2), Little(0, 4), n);
  }

  lemma PrefixOfFour(a: seq<u8>, b: seq<u8>, c: seq<u8>, d: seq<u8>, n: nat)
    requires n <= |a|
    ensures (a + b + c + d)[..n] == a[..n]
  {
  }

  /** Seven bytes of the magic, filled up with a zero, pass for all eight. */
  lemma SevenBytesPass(data: seq<u8>)
    requires data == MAGIC[..7]
    ensures MagicMatches(data)
  {
    assert data + seq(1, _ => 0) == MAGIC;
  }

  lemma MagicHasNoZeroBefore(n: nat)
    requires n < 7
    ensures MAGIC[n] != 0
  {
  }

  /** Fewer than seven bytes, filled up with zeroes, are never the magic. */
  lemma ShortMagicDiffers(data: seq<u8>)
    requires |data| < 7
    ensures !MagicMatches(data)
  {
    var padded := data + seq(8 - |data|, _ => 0);
    assert padded[|data|] == 0;
    MagicHasNoZeroBefore(|data|);
  }

  /** A cut inside the header is refused; the seven-byte cut passes the magic comparison
      and is refused one step later. */
  lemma CutHeaderIsRefused(n: nat)
    requires n < HEADER_SIZE
    ensures OpenFailure(HeaderBytes()[..n]) == Some(if n < 7 then NotCapture else HeaderTruncated)
  {
    var data := HeaderBytes()[..n];
    if n < 7 {
      ShortMagicDiffers(data);
    } else if n == 7 {
      HeaderStartsWithMagic(7);
      SevenBytesPass(data);
    } else {
      HeaderStartsWithMagic(8);
      assert data[..8] == HeaderBytes()[..8] && MAGIC[..8] == MAGIC;
    }
  }

  /** Any cut of a written file behind the header yields exactly the frames wholly within
      it, and then the end if the cut is on a record boundary and an error if not. */
  lemma CutFileReadsBack(frames: seq<RadioFrame>, n: nat)
    requires AllFit(frames) && HEADER_SIZE <= n <= |FileBytes(frames)|
    ensures var data := FileBytes(frames)[..n];
            var k := WholeFrames(frames, n - HEADER_SIZE);
            var (got, error) := ReadFrom(data, HEADER_SIZE);
            && OpenFailure(data) == None
            && got == frames[..k]
            && (error == None <==> n == |FileBytes(frames[..k])|)
  {
    CutBehindHeader(frames, n);
    CutReadsBack(FileBytes(frames)[..n], frames, n);
  }

  lemma CutReadsBack(data: seq<u8>, frames: seq<RadioFrame>, n: nat)
    requires AllFit(frames) && HEADER_SIZE <= n <= |FileBytes(frames)|
    requires data == HeaderBytes() + Records(frames)[..n - HEADER_SIZE]
    ensures var k := WholeFrames(frames, n - HEADER_SIZE);
            var (got, error) := ReadFrom(data, HEADER_SIZE);
            && OpenFailure(data) == None
            && got == frames[..k]
            && (error == None <==> n == |FileBytes(frames[..k])|)
  {
    HeaderOpens(Records(frames)[..n - HEADER_SIZE]);
    CutRecordsReadBack(data, HeaderBytes(), frames, n - HEADER_SIZE);
  }

  lemma CutBehindHeader(frames: seq<RadioFrame>, n: nat)
    requires HEADER_SIZE <= n <= |FileBytes(frames)|
    ensures FileBytes(frames)[..n] == HeaderBytes() + Records(frames)[..n - HEADER_SIZE]
  {
  }

  // ----- Rewriting what was read -----

  lemma NumbersExact(b: seq<u8>, body: seq<u8>)
    requires |b| == FIXED_SIZE
    ensures NumberBytes(Decode(b, body)) == b[..16]
  {
    LittleInverts(b[0..8]);
    LittleInverts(b[8..12]);
    LittleInverts(b[12..14]);
    LittleInverts(b[14..16]);
    assert b[..16] == b[0..8] + b[8..12] + b[12..14] + b[14..16];
  }

  lemma FlagsExact(b: seq<u8>, body: seq<u8>)
    requires |b| == FIXED_SIZE
    ensures FlagsByte(Decode(b, body)) == b[17] % 16
  {
    LowBits(b[17]);
  }

  lemma LowBits(b: u8)
    ensures b % 16 == b % 2 + b / 2 % 2 * 2 + b / 4 % 2 * 4 + b / 8 % 2 * 8
  {
    var b2, b4, b8, b16 := b / 2, b / 4, b / 8, b / 16;
    assert b == b2 * 2 + b % 2 && b2 == b4 * 2 + b2 % 2 && b4 == b8 * 2 + b4 % 2 && b8 == b16 * 2 + b8 % 2;
  }

  lemma SignalsExact(b: seq<u8>, body: seq<u8>)
    requires |b| == FIXED_SIZE
    ensures SignalBytes(Decode(b, body)) == b[16..24][1 := b[17] % 16]
  {
    FlagsExact(b, body);
  }

  /** A record rewritten from its decoded frame loses only the high bits of its flags. */
  lemma RecordExact(b: seq<u8>, body: seq<u8>)
    requires |b| == FIXED_SIZE && FromLittle(b[30..34]) == |body|
    ensures Record(Decode(b, body)) == (b + body)[17 := b[17] % 16]
  {
    var f := Decode(b, body);
    NumbersExact(b, body);
    SignalsExact(b, body);
    LittleInverts(b[30..34]);
    Reassembled(b, b[17] % 16);
    FlagsReplaced(b, body, b[17] % 16);
  }

  lemma Reassembled(b: seq<u8>, flags: u8)
    requires |b| == FIXED_SIZE
    ensures b[..16] + b[16..24][1 := flags] + b[24..30] + b[30..34] == b[17 := flags]
  {
  }

  lemma FlagsReplaced(b: seq<u8>, body: seq<u8>, flags: u8)
    requires |b| == FIXED_SIZE
    ensures b[17 := flags] + body == (b + body)[17 := flags]
  {
  }

  /** Byte `i` of the records is the flags byte of one of them. */
  predicate IsFlagsByte(frames: seq<RadioFrame>, i: nat) {
    if frames == [] then false
    else if i < |Record(frames[0])| then i == 17
    else IsFlagsByte(frames[1..], i - |Record(frames[0])|)
  }

  /** What rewriting turns byte `i` of the records into. */
  function Rewritten(frames: seq<RadioFrame>, i: nat, byte: u8): u8 {
    if IsFlagsByte(frames, i) then byte % 16 else byte
  }

  lemma NextRecordRewritten(data: seq<u8>, pos: nat, f: RadioFrame, next: nat)
    requires pos <= |data| && ReadNext(data, pos) == Frame(f, next)
    ensures |Record(f)| == next - pos
    ensures forall i :: 0 <= i < next - pos ==> Record(f)[i] == if i == 17 then data[pos + i] % 16 else data[pos + i]
  {
    var start := pos + FIXED_SIZE;
    var b, body := data[pos..start], data[start..next];
    assert b[30..34] == data[pos + 30..start];
    RecordExact(b, body);
    assert b + body == data[pos..next];
  }

  lemma {:induction false} RecordsRewritten(data: seq<u8>, pos: nat)
    requires pos <= |data| && ReadFrom(data, pos).1 == None
    ensures var frames := ReadFrom(data, pos).0;
            && AllFit(frames)
            && |Records(frames)| == |data| - pos
            && forall i :: 0 <= i < |data| - pos ==> Records(frames)[i] == Rewritten(frames, i, data[pos + i])
    decreases |data| - pos
  {
    match ReadNext(data, pos)
    case EndOfFile =>
    case Frame(f, next) =>
      var rest := ReadFrom(data, next).0;
      ReadFromStep(data, pos, f, next);
      RecordsRewritten(data, next);
      NextRecordRewritten(data, pos, f, next);
      PrependRewritten(f, rest, data, pos, next);
  }

  lemma PrependRewritten(f: RadioFrame, rest: seq<RadioFrame>, data: seq<u8>, pos: nat, next: nat)
    requires pos <= next <= |data| && |Record(f)| == next - pos && |Records(rest)| == |data| - next
    requires forall i :: 0 <= i < next - pos ==> Record(f)[i] == if i == 17 then data[pos + i] % 16 else data[pos + i]
    requires forall i :: 0 <= i < |data| - next ==> Records(rest)[i] == Rewritten(rest, i, data[next + i])
    ensures var frames := [f] + rest;
            && |Records(frames)| == |data| - pos
            && forall i :: 0 <= i < |data| - pos ==> Records(frames)[i] == Rewritten(frames, i, data[pos + i])
  {
    var frames := [f] + rest;
    assert frames[1..] == rest;
    var n := |Record(f)|;
    forall i | 0 <= i < |data| - pos
      ensures Records(frames)[i] == Rewritten(frames, i, data[pos + i])
    {
      if i >= n {
        assert Records(frames)[i] == Records(rest)[i - n];
        assert Records(rest)[i - n] == Rewritten(rest, i - n, data[next + (i - n)]);
      }
    }
  }

  lemma HeaderExact(data: seq<u8>)
    requires OpenFailure(data) == None
    ensures |data| >= HEADER_SIZE
    ensures forall i :: 0 <= i < 12 ==> HeaderBytes()[i] == data[i]
    ensures forall i :: 12 <= i < HEADER_SIZE ==> HeaderBytes()[i] == 0
  {
    LittleInverts(data[8..10]);
    LittleInverts(data[10..12]);
    assert data[..12] == MAGIC + data[8..10] + data[10..12];
    var h := HeaderBytes();
    assert h[..12] == data[..12];
    assert h[12..] == Little(0, 4) == [0, 0, 0, 0];
    assert forall i :: 0 <= i < 12 ==> h[i] == h[..12][i] && data[i] == data[..12][i];
    assert forall i :: 12 <= i < 16 ==> h[i] == h[12..][i - 12];
  }

  /** Every file that reads to its end is its own canonical form, byte for byte, except for
      the reserved header word and the top four bits of each flags byte. */
  lemma CanonicalForm(data: seq<u8>)
    requires OpenFailure(data) == None && ReadFrom(data, HEADER_SIZE).1 == None
    ensures var frames := ReadFrom(data, HEADER_SIZE).0;
            && AllFit(frames)
            && |FileBytes(frames)| == |data|
            && forall i :: 0 <= i < |data| ==> FileBytes(frames)[i] == CanonicalByte(frames, i, data[i])
  {
    var frames := ReadFrom(data, HEADER_SIZE).0;
    CanonicalLength(data);
    forall i | 0 <= i < |data|
      ensures FileBytes(frames)[i] == CanonicalByte(frames, i, data[i])
    {
      if i < HEADER_SIZE {
        ByteOfHeader(data, frames, i);
      } else {
        ByteOfRecords(data, i);
      }
    }
  }

  lemma CanonicalLength(data: seq<u8>)
    requires OpenFailure(data) == None && ReadFrom(data, HEADER_SIZE).1 == None
    ensures var frames := ReadFrom(data, HEADER_SIZE).0; AllFit(frames) && |FileBytes(frames)| == |data|
  {
    RecordsRewritten(data, HEADER_SIZE);
  }

  /** What byte `i` of a file becomes in its canonical form. */
  function CanonicalByte(frames: seq<RadioFrame>, i: nat, byte: u8): u8 {
    if i < 12 then byte
    else if i < HEADER_SIZE then 0
    else Rewritten(frames, i - HEADER_SIZE, byte)
  }

  lemma ByteOfHeader(data: seq<u8>, frames: seq<RadioFrame>, i: nat)
    requires OpenFailure(data) == None && i < HEADER_SIZE
    ensures FileBytes(frames)[i] == CanonicalByte(frames, i, data[i])
  {
    HeaderExact(data);
    assert FileBytes(frames)[i] == HeaderBytes()[i];
  }

  lemma ByteOfRecords(data: seq<u8>, i: nat)
    requires OpenFailure(data) == None && ReadFrom(data, HEADER_SIZE).1 == None && HEADER_SIZE <= i < |data|
    ensures var frames := ReadFrom(data, HEADER_SIZE).0;
            i < |FileBytes(frames)| && FileBytes(frames)[i] == CanonicalByte(frames, i, data[i])
  {
    var frames := ReadFrom(data, HEADER_SIZE).0;
    RecordByte(data, i - HEADER_SIZE);
    assert FileBytes(frames)[i] == Records(frames)[i - HEADER_SIZE];
  }

  lemma RecordByte(data: seq<u8>, k: nat)
    requires HEADER_SIZE + k < |data| && ReadFrom(data, HEADER_SIZE).1 == None
    ensures var records := Records(ReadFrom(data, HEADER_SIZE).0);
            && |records| == |data| - HEADER_SIZE
            && records[k] == Rewritten(ReadFrom(data, HEADER_SIZE).0, k, data[HEADER_SIZE + k])
  {
    RecordsRewritten(data, HEADER_SIZE);
  }

  lemma {:induction false} RecordsAppended(frames: seq<RadioFrame>, frame: RadioFrame)
    ensures Records(frames + [frame]) == Records(frames) + Record(frame)
  {
    if frames == [] {
      assert [] + [frame] == [frame] && [frame][1..] == [];
    } else {
      assert (frames + [frame])[1..] == frames[1..] + [frame];
      RecordsAppended(frames[1..], frame);
    }
  }

  // ----- The bytes as numbers -----

  /** The sixteen bytes of the header: the letters FPV4CAP and a zero, version 1, header size 16
      and the reserved word. */
  lemma HeaderInNumbers()
    ensures HeaderBytes() == [0x46, 0x50, 0x56, 0x34, 0x43, 0x41, 0x50, 0, 1, 0, 16, 0, 0, 0, 0, 0]
  {
    assert Little(1, 2) == [1, 0];
    assert Little(16, 2) == [16, 0];
    assert Little(0, 4) == [0, 0, 0, 0];
  }

  /** A file opens if and only if it has sixteen bytes of which the first twelve are those; what
      the reserved word holds does not matter. */
  lemma OpensExactly(data: seq<u8>)
    ensures OpenFailure(data) == None <==>
              && |data| >= 16
              && data[..12] == [0x46, 0x50, 0x56, 0x34, 0x43, 0x41, 0x50, 0, 1, 0, 16, 0]
  {
    if |data| >= 16 {
      FromTwo(data[8..10]);
      FromTwo(data[10..12]);
      assert data[..12] == data[..8] + data[8..10] + data[10..12];
    }
  }

  /** What is wrong with a file of at least sixteen bytes that does not open. */
  lemma OpenErrorsExactly(data: seq<u8>)
    requires |data| >= 16 && OpenFailure(data) != None
    ensures OpenFailure(data) ==
              if data[..8] == [0x46, 0x50, 0x56, 0x34, 0x43, 0x41, 0x50, 0] then Some(UnsupportedVersion)
              else Some(NotCapture)
  {
  }

  predicate Stamped(r: seq<u8>, f: RadioFrame)
    requires |r| >= 16
  {
    && f.captureTime ==
         r[0] + 0x100 * (r[1] as int) + 0x1_0000 * (r[2] as int) + 0x100_0000 * (r[3] as int)
         + 0x1_0000_0000 * (r[4] as int) + 0x100_0000_0000 * (r[5] as int)
         + 0x1_0000_0000_0000 * (r[6] as int) + 0x100_0000_0000_0000 * (r[7] as int)
    && f.tsfl == r[8] + 0x100 * (r[9] as int) + 0x1_0000 * (r[10] as int) + 0x100_0000 * (r[11] as int)
    && f.sequence == r[12] + 0x100 * (r[13] as int)
    && f.rate == r[14] + 0x100 * (r[15] as int)
  }

  /** The numbers of a record, lowest byte first. */
  lemma RecordNumbers(f: RadioFrame)
    ensures Stamped(Record(f), f)
  {
    var r := Record(f);
    NumbersInvert(f);
    var n := NumberBytes(f);
    assert r[..16] == n;
    NumbersAsSums(n);
  }

  lemma NumbersAsSums(n: seq<u8>)
    requires |n| == 16
    ensures FromLittle(n[0..8]) ==
              n[0] + 0x100 * (n[1] as int) + 0x1_0000 * (n[2] as int) + 0x100_0000 * (n[3] as int)
              + 0x1_0000_0000 * (n[4] as int) + 0x100_0000_0000 * (n[5] as int)
              + 0x1_0000_0000_0000 * (n[6] as int) + 0x100_0000_0000_0000 * (n[7] as int)
    ensures FromLittle(n[8..12]) ==
              n[8] + 0x100 * (n[9] as int) + 0x1_0000 * (n[10] as int) + 0x100_0000 * (n[11] as int)
    ensures FromLittle(n[12..14]) == n[12] + 0x100 * (n[13] as int)
    ensures FromLittle(n[14..16]) == n[14] + 0x100 * (n[15] as int)
  {
    FromEight(n[0..8]);
    FromFour(n[8..12]);
    FromTwo(n[12..14]);
    FromTwo(n[14..16]);
  }

  function TwosComplement(v: i8): int {
    if v < 0 then 256 + v else v
  }

  /** The other bytes of a record: bandwidth, four flag bits, the signed readings, the source
      address, the size of the body, and the body. */
  lemma RecordLayout(f: RadioFrame)
    requires |f.body| <= 16384
    ensures var r := Record(f);
            && |r| == 34 + |f.body| && r[16] == f.bandwidth
            && r[17] == (if f.crcError then 1 else 0) + (if f.icvError then 2 else 0)
                        + (if f.ldpc then 4 else 0) + (if f.shortGuardInterval then 8 else 0)
            && r[18..24] == [TwosComplement(f.rssi.0), TwosComplement(f.rssi.1), TwosComplement(f.snr.0),
                             TwosComplement(f.snr.1), TwosComplement(f.evm.0), TwosComplement(f.evm.1)]
            && r[24..30] == f.source
            && |f.body| == r[30] + 0x100 * (r[31] as int) + 0x1_0000 * (r[32] as int) + 0x100_0000 * (r[33] as int)
            && r[34..] == f.body
  {
    var r, s := Record(f), SignalBytes(f);
    assert r[16..24] == s;
    assert r[16] == s[0] && r[17] == s[1] && r[18..24] == s[2..8];
    assert r[30..34] == Little(|f.body|, 4);
    Bounds();
    FromLittleInverts(|f.body|, 4);
    FromFour(r[30..34]);
  }

  /** A record whose size field says more than 16 KiB is refused, whatever follows. */
  lemma OversizedRecordIsRefused(data: seq<u8>, pos: nat)
    requires pos + 34 <= |data|
    requires data[pos + 30] + 0x100 * (data[pos + 31] as int) + 0x1_0000 * (data[pos + 32] as int)
             + 0x100_0000 * (data[pos + 33] as int) > 16384
    ensures ReadNext(data, pos) == Broken(BodyTooLarge)
  {
    FromFour(data[pos + 30..pos + 34]);
  }
}
