/** The capture writer and reader as they run: a stream written byte by byte, and a stream
    read through a cursor whose failures only show at the next access. */
module CaptureStreams {
  import opened Numbers
  import opened Frames
  import opened LittleEndian
  import opened CaptureFile

  /** Writes frames to a file whose device never fails. */
  class CaptureWriter {
    var stream: seq<u8>
    var frameCount: nat
    ghost var written: seq<RadioFrame>

    ghost predicate Valid()
      reads this
    {
      stream == FileBytes(written) && frameCount == |written| && AllFit(written)
    }

    constructor ()
      ensures Valid() && written == []
    {
      stream := MAGIC;
      frameCount := 0;
      written := [];
      new;
      WriteUnsigned(FORMAT_VERSION, 2);
      WriteUnsigned(HEADER_SIZE, 2);
      WriteUnsigned(0, 4);
      assert stream == HeaderBytes();
      assert HeaderBytes() + [] == HeaderBytes();
    }

    method WriteUnsigned(value: nat, width: nat)
      modifies this`stream
      ensures stream == old(stream) + Little(value, width)
    {
      for index := 0 to width
        invariant stream == old(stream) + Little(value, index)
      {
        LittleAppended(value, index);
        stream := stream + [ShiftRight(value, index) % 0x100];
      }
    }

    /** Appends one record. A body over the limit is refused before anything is written. */
    method Write(frame: RadioFrame) returns (ok: bool)
      requires Valid()
      modifies this
      ensures Valid()
      ensures ok <==> FitsLimit(frame)
      ensures written == old(written) + if ok then [frame] else []
    {
      if |frame.body| > MAXIMUM_BODY_SIZE {
        return false;
      }
      WriteNumbers(frame);
      WriteSignals(frame);
      stream := stream + frame.source;
      WriteUnsigned(|frame.body|, 4);
      stream := stream + frame.body;
      FileAppended(written, frame);
      frameCount := frameCount + 1;
      written := written + [frame];
      return true;
    }

    method WriteNumbers(frame: RadioFrame)
      modifies this`stream
      ensures stream == old(stream) + NumberBytes(frame)
    {
      ghost var start := stream;
      WriteUnsigned(frame.captureTime, 8);
      WriteUnsigned(frame.tsfl, 4);
      WriteUnsigned(frame.sequence, 2);
      WriteUnsigned(frame.rate, 2);
      Regrouped(start, Little(frame.captureTime, 8), Little(frame.tsfl, 4), Little(frame.sequence, 2),
                Little(frame.rate, 2));
    }

    method WriteSignals(frame: RadioFrame)
      modifies this`stream
      ensures stream == old(stream) + SignalBytes(frame)
    {
      stream := stream + [frame.bandwidth];
      var flags: nat := 0;
      flags := flags + if frame.crcError then 0x01 else 0;
      flags := flags + if frame.icvError then 0x02 else 0;
      flags := flags + if frame.ldpc then 0x04 else 0;
      flags := flags + if frame.shortGuardInterval then 0x08 else 0;
      stream := stream + [flags];
      stream := stream + [SignedToByte(frame.rssi.0), SignedToByte(frame.rssi.1)];
      stream := stream + [SignedToByte(frame.snr.0), SignedToByte(frame.snr.1)];
      stream := stream + [SignedToByte(frame.evm.0), SignedToByte(frame.evm.1)];
    }
  }

  lemma Regrouped(start: seq<u8>, a: seq<u8>, b: seq<u8>, c: seq<u8>, d: seq<u8>)
    ensures start + a + b + c + d == start + (a + b + c + d)
  {
  }

  lemma FileAppended(frames: seq<RadioFrame>, frame: RadioFrame)
    ensures FileBytes(frames + [frame]) ==
              FileBytes(frames) + NumberBytes(frame) + SignalBytes(frame) + frame.source
              + Little(|frame.body|, 4) + frame.body
  {
    RecordsAppended(frames, frame);
  }

  const EOF: int := -1

  /** Reads frames through a cursor. Once the end or a failure has been noted, every further
      access fails without moving the cursor. */
  class CaptureReader {
    const data: seq<u8>
    var position: nat
    var atEnd: bool
    var failed: bool

    ghost predicate Valid()
      reads this
    {
      position <= |data|
    }

    predicate Good()
      reads this
    {
      !atEnd && !failed
    }

    constructor (data: seq<u8>)
      ensures Valid() && Good() && position == 0 && this.data == data
    {
      this.data := data;
      position, atEnd, failed := 0, false, false;
    }

    /** One byte, or EOF with the fail flag set. */
    method Get() returns (byte: int)
      requires Valid()
      modifies this
      ensures Valid()
      ensures if old(Good()) && old(position) < |data|
              then byte == data[old(position)] && position == old(position) + 1 && Good()
              else byte == EOF && position == old(position) && failed
    {
      if !Good() {
        failed := true;
        return EOF;
      }
      if position == |data| {
        atEnd, failed := true, true;
        return EOF;
      }
      byte := data[position];
      position := position + 1;
    }

    /** The next byte without taking it; the end of the file is noted but is no failure. */
    method Peek() returns (byte: int)
      requires Valid()
      modifies this
      ensures Valid() && position == old(position)
      ensures if old(Good()) && position < |data| then byte == data[position] && Good() else byte == EOF && !Good()
      ensures old(Good()) ==> !failed
    {
      if !Good() {
        failed := true;
        return EOF;
      }
      if position == |data| {
        atEnd := true;
        return EOF;
      }
      byte := data[position];
    }

    /** Up to `count` bytes. Too few leave the fail flag set; nobody is told. */
    method Read(count: nat) returns (bytes: seq<u8>)
      requires Valid()
      modifies this
      ensures Valid()
      ensures if old(Good()) && old(position) + count <= |data|
              then bytes == data[old(position)..old(position) + count] && position == old(position) + count && Good()
              else failed
      ensures old(Good()) && old(position) + count > |data| ==> bytes == data[old(position)..]
    {
      if !Good() {
        failed := true;
        return [];
      }
      if position + count > |data| {
        bytes := data[position..];
        position := |data|;
        atEnd, failed := true, true;
        return;
      }
      bytes := data[position..position + count];
      position := position + count;
    }

    /** A little-endian integer, or nothing when the bytes run out or the stream has failed. */
    method ReadUnsigned(width: nat) returns (value: Option<nat>)
      requires Valid() && width > 0
      modifies this
      ensures Valid()
      ensures if old(Good()) && old(position) + width <= |data|
              then value == Some(FromLittle(data[old(position)..old(position) + width]))
                   && position == old(position) + width && Good()
              else value == None
    {
      var sum: nat := 0;
      ghost var start := position;
      for index := 0 to width
        invariant Valid()
        invariant index > 0 ==> old(Good()) && start + index <= |data|
        invariant index > 0 ==> position == start + index && Good()
        invariant index == 0 ==> position == start && Good() == old(Good())
        invariant start + index <= |data| ==> sum == FromLittle(data[start..start + index])
      {
        var byte := Get();
        if byte == EOF {
          return None;
        }
        FromLittleAppended(data[start..start + index], byte);
        assert data[start..start + index + 1] == data[start..start + index] + [data[start + index]];
        sum := sum + ShiftLeft(byte, index);
      }
      return Some(sum);
    }

    /** The header, checked in the order in which the reader meets it. */
    method ReadHeader() returns (error: Option<OpenError>)
      requires Valid() && Good() && position == 0
      modifies this
      ensures Valid()
      ensures error == OpenFailure(data)
      ensures error == None ==> position == HEADER_SIZE && Good()
    {
      var got := Read(8);
      assert |data| >= 8 ==> got == data[0..8] == data[..8];
      assert |data| < 8 ==> got == data[0..] == data;
      var magic := if |got| < 8 then got + seq(8 - |got|, _ => 0) else got;
      if magic != MAGIC {
        return Some(NotCapture);
      }
      var version := ReadUnsigned(2);
      if version == None {
        return Some(HeaderTruncated);
      }
      var headerSize := ReadUnsigned(2);
      if headerSize == None {
        return Some(HeaderTruncated);
      }
      var reserved := ReadUnsigned(4);
      if reserved == None {
        return Some(HeaderTruncated);
      }
      if version.value != FORMAT_VERSION || headerSize.value != HEADER_SIZE {
        return Some(UnsupportedVersion);
      }
      return None;
    }

    method ReadNumbers() returns (numbers: Option<(u64, u32, u16, u16)>)
      requires Valid() && Good()
      modifies this
      ensures Valid()
      ensures var p := old(position);
              if p + 16 <= |data|
              then numbers == Some((U64At(data[p..p + 8]), U32At(data[p + 8..p + 12]),
                                    U16At(data[p + 12..p + 14]), U16At(data[p + 14..p + 16])))
                   && position == p + 16 && Good()
              else numbers == None
    {
      var time := ReadUnsigned(8);
      if time == None {
        return None;
      }
      var tsfl := ReadUnsigned(4);
      if tsfl == None {
        return None;
      }
      var sequence := ReadUnsigned(2);
      if sequence == None {
        return None;
      }
      var rate := ReadUnsigned(2);
      if rate == None {
        return None;
      }
      ghost var p := old(position);
      FromLittleBounded(data[p..p + 8]);
      FromLittleBounded(data[p + 8..p + 12]);
      FromLittleBounded(data[p + 12..p + 14]);
      FromLittleBounded(data[p + 14..p + 16]);
      Bounds();
      return Some((time.value, tsfl.value, sequence.value, rate.value));
    }

    /** `count` single-byte fields. */
    method ReadBytes(count: nat) returns (bytes: Option<seq<u8>>)
      requires Valid() && Good()
      modifies this
      ensures Valid()
      ensures var p := old(position);
              if p + count <= |data| then bytes == Some(data[p..p + count]) && position == p + count && Good()
              else bytes == None
    {
      var got: seq<u8> := [];
      ghost var p := position;
      for index := 0 to count
        invariant Valid() && Good() && position == p + index
        invariant got == data[p..p + index]
      {
        var byte := ReadUnsigned(1);
        if byte == None {
          return None;
        }
        SingleByte(data[p + index..p + index + 1]);
        got := got + [byte.value];
      }
      return Some(got);
    }

    /** The next frame, the end of the file, or the error that breaks the record. A reader
        whose stream is no longer good reports the end. */
    method Next() returns (r: Outcome)
      requires Valid()
      modifies this
      ensures Valid()
      ensures if old(Good()) then r == ReadNext(data, old(position)) else r == EndOfFile
      ensures r.Frame? ==> position == r.next && Good()
    {
      var first := Peek();
      if first == EOF {
        return EndOfFile;
      }
      ghost var p := position;
      var numbers := ReadNumbers();
      if numbers == None {
        return Broken(RecordTruncated);
      }
      var fields := ReadBytes(8);
      if fields == None {
        return Broken(RecordTruncated);
      }
      var source := Read(6);
      var size := ReadUnsigned(4);
      if size == None {
        return Broken(RecordTruncated);
      }
      assert size.value == BodySizeAt(data, p);
      if size.value > MAXIMUM_BODY_SIZE {
        return Broken(BodyTooLarge);
      }
      var body := Read(size.value);
      if failed {
        return Broken(BodyTruncated);
      }
      var n, b := numbers.value, fields.value;
      DecodedParts(data, p, body);
      return Frame(
        RadioFrame(n.0, n.1, n.2, n.3, b[0], b[1] % 2 == 1, b[1] / 2 % 2 == 1, b[1] / 4 % 2 == 1, b[1] / 8 % 2 == 1,
                   (ByteToSigned(b[2]), ByteToSigned(b[3])), (ByteToSigned(b[4]), ByteToSigned(b[5])),
                   (ByteToSigned(b[6]), ByteToSigned(b[7])), source, body),
        position);
    }
  }

  lemma SingleByte(b: seq<u8>)
    requires |b| == 1
    ensures FromLittle(b) == b[0]
  {
    assert b[1..] == [];
  }

  lemma SliceOfRecord(data: seq<u8>, p: nat, i: nat, j: nat)
    requires p + FIXED_SIZE <= |data| && i <= j <= FIXED_SIZE
    ensures data[p..p + FIXED_SIZE][i..j] == data[p + i..p + j]
  {
    var d := data[p..p + FIXED_SIZE];
    forall k | 0 <= k < j - i
      ensures d[i..j][k] == data[p + i..p + j][k]
    {
      assert d[i + k] == data[p + (i + k)];
    }
  }

  /** The parts of a record, by position in the file. */
  lemma DecodedParts(data: seq<u8>, p: nat, body: seq<u8>)
    requires p + FIXED_SIZE <= |data|
    ensures var b := data[p + 16..p + 24];
            Decode(data[p..p + FIXED_SIZE], body) == RadioFrame(
              U64At(data[p..p + 8]), U32At(data[p + 8..p + 12]),
              U16At(data[p + 12..p + 14]), U16At(data[p + 14..p + 16]),
              b[0], b[1] % 2 == 1, b[1] / 2 % 2 == 1, b[1] / 4 % 2 == 1, b[1] / 8 % 2 == 1,
              (ByteToSigned(b[2]), ByteToSigned(b[3])), (ByteToSigned(b[4]), ByteToSigned(b[5])),
              (ByteToSigned(b[6]), ByteToSigned(b[7])), data[p + 24..p + 30], body)
  {
    var d := data[p..p + FIXED_SIZE];
    var b := data[p + 16..p + 24];
    SliceOfRecord(data, p, 0, 8);
    SliceOfRecord(data, p, 8, 12);
    SliceOfRecord(data, p, 12, 14);
    SliceOfRecord(data, p, 14, 16);
    SliceOfRecord(data, p, 24, 30);
    assert d[16] == b[0] && d[17] == b[1] && d[18] == b[2] && d[19] == b[3];
    assert d[20] == b[4] && d[21] == b[5] && d[22] == b[6] && d[23] == b[7];
  }
}
