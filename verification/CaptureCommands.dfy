/** The commands that read a capture file: inspection adds up its frames, and replay prints
    them, in real time if asked to. */
module CaptureCommands {
  import opened Numbers
  import opened Frames
  import opened FrameText
  import opened CaptureFile
  import opened CaptureStreams
  import opened CaptureProtocol
  import opened CaptureResults

  /** What a loop over a file has read and what is left add up to the whole file. */
  ghost predicate Progress(data: seq<u8>, frames: seq<RadioFrame>, position: nat)
    requires HEADER_SIZE <= |data| && position <= |data|
  {
    && ReadFrom(data, HEADER_SIZE).0 == frames + ReadFrom(data, position).0
    && ReadFrom(data, HEADER_SIZE).1 == ReadFrom(data, position).1
  }

  lemma ProgressByFrame(data: seq<u8>, frames: seq<RadioFrame>, position: nat, frame: RadioFrame, next: nat)
    requires HEADER_SIZE <= |data| && position <= |data| && Progress(data, frames, position)
    requires ReadNext(data, position) == Frame(frame, next)
    ensures Progress(data, frames + [frame], next)
  {
    ReadFromStep(data, position, frame, next);
    assert frames + ([frame] + ReadFrom(data, next).0) == frames + [frame] + ReadFrom(data, next).0;
  }

  lemma ProgressAtEnd(data: seq<u8>, frames: seq<RadioFrame>, position: nat)
    requires HEADER_SIZE <= |data| && position <= |data| && Progress(data, frames, position)
    requires !ReadNext(data, position).Frame?
    ensures ReadFrom(data, HEADER_SIZE).0 == frames
    ensures ReadFrom(data, HEADER_SIZE).1 ==
              if ReadNext(data, position).Broken? then Some(ReadNext(data, position).error) else None
  {
    assert frames + [] == frames;
  }

  // ----- Replay -----

  /** The capture time of the latest frame, or zero. */
  function LastTime(frames: seq<RadioFrame>): u64 {
    if frames == [] then 0 else frames[|frames| - 1].captureTime
  }

  function Pause(previous: u64, time: u64): nat {
    if previous != 0 && time > previous then time - previous else 0
  }

  /** How long realtime replay sleeps in all. */
  function Pauses(frames: seq<RadioFrame>): nat {
    if frames == [] then 0
    else
      var front := frames[..|frames| - 1];
      Pauses(front) + Pause(LastTime(front), LastTime(frames))
  }

  /** Before each frame replay sleeps for the rise from the time of the frame before, if that
      time is not zero and there is a rise. */
  lemma PausesAppended(frames: seq<RadioFrame>, frame: RadioFrame)
    ensures var before := if frames == [] then 0 else frames[|frames| - 1].captureTime;
            && before == LastTime(frames)
            && Pauses(frames + [frame]) ==
                 Pauses(frames) + if before != 0 && frame.captureTime > before then frame.captureTime - before else 0
  {
    assert (frames + [frame])[..|frames|] == frames;
  }

  lemma {:induction false} TranscriptAppended(frames: seq<RadioFrame>, frame: RadioFrame)
    ensures Transcript(frames + [frame]) == Transcript(frames) + Serialize(frame) + "\n"
  {
    var all := frames + [frame];
    if frames == [] {
      assert all[1..] == [];
      assert Serialize(frame) + "\n" + "" == "" + Serialize(frame) + "\n";
    } else {
      assert all[1..] == frames[1..] + [frame];
      TranscriptAppended(frames[1..], frame);
      Reassociate(Serialize(frames[0]) + "\n", Transcript(frames[1..]), Serialize(frame), "\n");
    }
  }

  lemma Reassociate(a: string, b: string, c: string, d: string)
    ensures a + (b + c + d) == a + b + c + d
  {
  }

  /** Prints every frame that can be read. `slept` is the sum of the sleeps. */
  method Replay(data: seq<u8>, realtime: bool)
    returns (refused: Option<OpenError>, output: string, slept: nat, error: Option<ReadError>)
    ensures refused == OpenFailure(data)
    ensures refused == None ==>
              && output == ReplayText(data)
              && slept == (if realtime then Pauses(ReadFrom(data, HEADER_SIZE).0) else 0)
              && error == ReadFrom(data, HEADER_SIZE).1
  {
    output, slept, error := "", 0, None;
    var reader := new CaptureReader(data);
    refused := reader.ReadHeader();
    if refused.Some? {
      return;
    }
    var previousTime: u64 := 0;
    ghost var frames: seq<RadioFrame> := [];
    assert [] + ReadFrom(data, HEADER_SIZE).0 == ReadFrom(data, HEADER_SIZE).0;
    while true
      invariant reader.Valid() && reader.Good() && reader.data == data && fresh(reader)
      invariant Progress(data, frames, reader.position)
      invariant output == Transcript(frames)
      invariant previousTime == LastTime(frames)
      invariant slept == if realtime then Pauses(frames) else 0
      decreases |data| - reader.position
    {
      ghost var position := reader.position;
      var next := reader.Next();
      if !next.Frame? {
        ProgressAtEnd(data, frames, position);
        error := if next.Broken? then Some(next.error) else None;
        return;
      }
      var frame := next.frame;
      ProgressByFrame(data, frames, position, frame, reader.position);
      PausesAppended(frames, frame);
      TranscriptAppended(frames, frame);
      if realtime && previousTime != 0 && frame.captureTime > previousTime {
        slept := slept + (frame.captureTime - previousTime);
      }
      previousTime := frame.captureTime;
      output := output + Serialize(frame) + "\n";
      frames := frames + [frame];
    }
  }

  /** The first capture time that is not zero, or zero if there is none. */
  function FirstStamp(frames: seq<RadioFrame>): u64 {
    if frames == [] then 0
    else if frames[0].captureTime != 0 then frames[0].captureTime
    else FirstStamp(frames[1..])
  }

  lemma {:induction false} FirstStampAppended(frames: seq<RadioFrame>, frame: RadioFrame)
    ensures FirstStamp(frames + [frame]) == if FirstStamp(frames) != 0 then FirstStamp(frames) else frame.captureTime
  {
    var all := frames + [frame];
    if frames != [] {
      assert all[1..] == frames[1..] + [frame];
      FirstStampAppended(frames[1..], frame);
    }
  }

  lemma {:induction false} NoStampYet(frames: seq<RadioFrame>)
    requires NonDecreasing(frames)
    ensures FirstStamp(frames) == 0 <==> LastTime(frames) == 0
    ensures FirstStamp(frames) <= LastTime(frames)
  {
    if frames != [] {
      var rest := frames[1..];
      assert forall i :: 0 <= i < |rest| ==> rest[i] == frames[i + 1];
      NoStampYet(rest);
    }
  }

  /** Replay of ordered frames sleeps as long as the capture took from its first non-zero
      stamp to its last frame; for every prefix of the file too, so every frame is on time. */
  lemma {:induction false} ReplayKeepsTime(frames: seq<RadioFrame>)
    requires NonDecreasing(frames)
    ensures Pauses(frames) == LastTime(frames) - FirstStamp(frames)
  {
    if frames != [] {
      var n := |frames| - 1;
      var front := frames[..n];
      assert forall i :: 0 <= i < n ==> front[i] == frames[i];
      ReplayKeepsTime(front);
      NoStampYet(front);
      assert frames == front + [frames[n]];
      FirstStampAppended(front, frames[n]);
    }
  }

  // ----- Inspection -----

  datatype Summary = Summary(frames: nat, data: nat, sessions: nat, unknown: nat, bytes: nat, crcErrors: nat)

  function CountKind(frames: seq<RadioFrame>, kind: WfbPacketType): nat {
    if frames == [] then 0
    else
      var n := |frames| - 1;
      CountKind(frames[..n], kind) + if ClassifyWfbPacket(frames[n]) == kind then 1 else 0
  }

  function BodyBytes(frames: seq<RadioFrame>): nat {
    if frames == [] then 0 else BodyBytes(frames[..|frames| - 1]) + |frames[|frames| - 1].body|
  }

  function CountCrcErrors(frames: seq<RadioFrame>): nat {
    if frames == [] then 0
    else CountCrcErrors(frames[..|frames| - 1]) + if frames[|frames| - 1].crcError then 1 else 0
  }

  function Summarize(frames: seq<RadioFrame>): Summary {
    Summary(|frames|, CountKind(frames, DataPacket), CountKind(frames, SessionPacket), CountKind(frames, UnknownPacket),
            BodyBytes(frames), CountCrcErrors(frames))
  }

  function FirstTime(frames: seq<RadioFrame>): u64 {
    if frames == [] then 0 else frames[0].captureTime
  }

  /** The unsigned subtraction of 64-bit stamps, in whole milliseconds. */
  function Elapsed(first: u64, last: u64): nat {
    (last - first) % 0x1_0000_0000_0000_0000 / 1_000_000
  }

  function Duration(frames: seq<RadioFrame>): nat {
    if |frames| > 1 then Elapsed(FirstTime(frames), LastTime(frames)) else 0
  }

  /** Adds up a file. A file that breaks off is reported as an error and not summed up. */
  method Inspect(data: seq<u8>)
    returns (refused: Option<OpenError>, error: Option<ReadError>, summary: Summary, durationMs: nat)
    ensures refused == OpenFailure(data)
    ensures refused == None ==> error == ReadFrom(data, HEADER_SIZE).1
    ensures refused == None && error == None ==>
              && summary == Summarize(ReadFrom(data, HEADER_SIZE).0)
              && durationMs == Duration(ReadFrom(data, HEADER_SIZE).0)
  {
    summary, durationMs, error := Summary(0, 0, 0, 0, 0, 0), 0, None;
    var reader := new CaptureReader(data);
    refused := reader.ReadHeader();
    if refused.Some? {
      return;
    }
    var firstTime, lastTime;
    error, summary, firstTime, lastTime := AddUp(reader);
    durationMs := if summary.frames > 1 then Elapsed(firstTime, lastTime) else 0;
  }

  /** Reads the frames behind the header. */
  method AddUp(reader: CaptureReader)
    returns (error: Option<ReadError>, summary: Summary, firstTime: u64, lastTime: u64)
    requires reader.Valid() && reader.Good() && reader.position == HEADER_SIZE
    modifies reader
    ensures var (frames, failure) := ReadFrom(reader.data, HEADER_SIZE);
            && error == failure
            && (error == None ==>
                  && summary == Summarize(frames)
                  && firstTime == FirstTime(frames) && lastTime == LastTime(frames))
  {
    summary, error := Summary(0, 0, 0, 0, 0, 0), None;
    firstTime, lastTime := 0, 0;
    ghost var frames: seq<RadioFrame> := [];
    assert [] + ReadFrom(reader.data, HEADER_SIZE).0 == ReadFrom(reader.data, HEADER_SIZE).0;
    while true
      invariant reader.Valid() && reader.Good()
      invariant Progress(reader.data, frames, reader.position)
      invariant summary == Summarize(frames)
      invariant firstTime == FirstTime(frames) && lastTime == LastTime(frames)
      decreases |reader.data| - reader.position
    {
      ghost var position := reader.position;
      var next := reader.Next();
      if !next.Frame? {
        ProgressAtEnd(reader.data, frames, position);
        error := if next.Broken? then Some(next.error) else None;
        return;
      }
      var frame := next.frame;
      ProgressByFrame(reader.data, frames, position, frame, reader.position);
      SummaryAppended(frames, frame);
      if summary.frames == 0 {
        firstTime := frame.captureTime;
      }
      lastTime := frame.captureTime;
      summary := Tallied(summary, frame);
      frames := frames + [frame];
    }
  }

  /** The totals with one more frame. */
  function Tallied(s: Summary, frame: RadioFrame): Summary {
    var counted := s.(frames := s.frames + 1, bytes := s.bytes + |frame.body|,
                      crcErrors := s.crcErrors + if frame.crcError then 1 else 0);
    match ClassifyWfbPacket(frame)
    case DataPacket => counted.(data := s.data + 1)
    case SessionPacket => counted.(sessions := s.sessions + 1)
    case UnknownPacket => counted.(unknown := s.unknown + 1)
  }

  lemma SummaryAppended(frames: seq<RadioFrame>, frame: RadioFrame)
    ensures Summarize(frames + [frame]) == Tallied(Summarize(frames), frame)
  {
    assert (frames + [frame])[..|frames|] == frames;
  }

  /** The kinds partition the frames, and the totals account for every byte of the file. */
  lemma {:induction false} SummaryAddsUp(frames: seq<RadioFrame>)
    ensures var s := Summarize(frames);
            && s.frames == s.data + s.sessions + s.unknown && s.crcErrors <= s.frames
            && |FileBytes(frames)| == HEADER_SIZE + FIXED_SIZE * s.frames + s.bytes
  {
    if frames != [] {
      var n := |frames| - 1;
      SummaryAddsUp(frames[..n]);
      assert frames == frames[..n] + [frames[n]];
      SummaryAppended(frames[..n], frames[n]);
      FileGrows(frames[..n], frames[n]);
    }
  }

  lemma FileGrows(frames: seq<RadioFrame>, frame: RadioFrame)
    ensures |FileBytes(frames + [frame])| == |FileBytes(frames)| + FIXED_SIZE + |frame.body|
  {
    RecordsAppended(frames, frame);
  }

  /** The places of the frames with the WFB source prefix whose body starts with this byte. */
  function Starting(frames: seq<RadioFrame>, byte: u8): set<nat> {
    set i: nat | i < |frames| && frames[i].body != [] && frames[i].body[0] == byte
                 && frames[i].source[0] == 0x57 && frames[i].source[1] == 0x42
  }

  function WithCrcError(frames: seq<RadioFrame>): set<nat> {
    set i: nat | i < |frames| && frames[i].crcError
  }

  lemma StartingAppended(frames: seq<RadioFrame>, frame: RadioFrame, byte: u8)
    ensures Starting(frames + [frame], byte) ==
              Starting(frames, byte)
              + if frame.body != [] && frame.body[0] == byte && frame.source[0] == 0x57 && frame.source[1] == 0x42
                then {|frames|} else {}
  {
    var all := frames + [frame];
    assert forall i: nat :: i < |frames| ==> all[i] == frames[i];
  }

  lemma WithCrcErrorAppended(frames: seq<RadioFrame>, frame: RadioFrame)
    ensures WithCrcError(frames + [frame]) == WithCrcError(frames) + if frame.crcError then {|frames|} else {}
  {
    var all := frames + [frame];
    assert forall i: nat :: i < |frames| ==> all[i] == frames[i];
  }

  /** Data packets are the WFB frames whose first body byte is 1, session packets those with 2. */
  lemma {:induction false} CountsByFirstByte(frames: seq<RadioFrame>)
    ensures var s := Summarize(frames);
            && s.data == |Starting(frames, 1)| && s.sessions == |Starting(frames, 2)|
            && s.crcErrors == |WithCrcError(frames)|
  {
    if frames != [] {
      var n := |frames| - 1;
      var front := frames[..n];
      CountsByFirstByte(front);
      assert frames == front + [frames[n]];
      SummaryAppended(front, frames[n]);
      StartingAppended(front, frames[n], 1);
      StartingAppended(front, frames[n], 2);
      WithCrcErrorAppended(front, frames[n]);
    }
  }

  /** What a sound file's summary says about its size. */
  lemma SummaryGivesFileSize(data: seq<u8>)
    requires OpenFailure(data) == None && ReadFrom(data, HEADER_SIZE).1 == None
    ensures var s := Summarize(ReadFrom(data, HEADER_SIZE).0);
            |data| == HEADER_SIZE + FIXED_SIZE * s.frames + s.bytes
  {
    CanonicalForm(data);
    SummaryAddsUp(ReadFrom(data, HEADER_SIZE).0);
  }

  /** The subtraction is that of the integers exactly when the last stamp is not before the
      first; otherwise the result is wrong by the wrap-around. */
  lemma DurationExactUnlessBackwards(frames: seq<RadioFrame>)
    requires |frames| > 1
    ensures Duration(frames) == (LastTime(frames) - FirstTime(frames)) / 1_000_000
            <==> FirstTime(frames) <= LastTime(frames)
  {
  }

  lemma WrappedDuration(frames: seq<RadioFrame>)
    requires |frames| == 2 && frames[0].captureTime == 1 && frames[1].captureTime == 0
    ensures Duration(frames) == 18446744073709
  {
  }

  lemma StampsOfPair(frame: RadioFrame, frames: seq<RadioFrame>)
    requires FitsLimit(frame) && frames == [frame.(captureTime := 1), frame.(captureTime := 0)]
    ensures AllFit(frames) && |frames| == 2 && frames[0].captureTime == 1 && frames[1].captureTime == 0
  {
  }

  /** A valid file on which the subtraction wraps: two stamps, 1 and then 0. */
  lemma BackwardsFileWraps(frame: RadioFrame, frames: seq<RadioFrame>)
    requires FitsLimit(frame) && frames == [frame.(captureTime := 1), frame.(captureTime := 0)]
    ensures ReadFrom(FileBytes(frames), HEADER_SIZE) == (frames, None)
    ensures Duration(frames) == 18446744073709
  {
    StampsOfPair(frame, frames);
    WrappedDuration(frames);
    ReadBack(frames);
  }

  /** The frames are ordered, replay sleeps for their span, and inspection does not wrap. */
  predicate KeepsTime(frames: seq<RadioFrame>) {
    && NonDecreasing(frames)
    && Pauses(frames) == LastTime(frames) - FirstStamp(frames)
    && Duration(frames) == (LastTime(frames) - FirstTime(frames)) / 1_000_000
  }

  lemma OrderedKeepsTime(frames: seq<RadioFrame>)
    requires NonDecreasing(frames)
    ensures KeepsTime(frames)
  {
    ReplayKeepsTime(frames);
    if |frames| > 1 {
      DurationExactUnlessBackwards(frames);
    }
  }

  lemma FinishedFileKeepsTime(s: State)
    requires Inv(s) && Finished(s)
    ensures KeepsTime(ReadFrom(FileBytes(s.written), HEADER_SIZE).0)
  {
    CompletionAccounts(s);
    ReadBack(s.written);
    OrderedKeepsTime(s.written);
  }

  /** Every file that a capture run leaves is ordered, so replay keeps its time and inspection
      never wraps. */
  lemma CapturedFilesKeepTime(input: string, capacity: nat, passthrough: bool, schedule: seq<Action>)
    requires var run := CaptureRun(input, capacity, passthrough, schedule); run.Some? && Finished(run.value)
    ensures var file := FileBytes(CaptureRun(input, capacity, passthrough, schedule).value.written);
            KeepsTime(ReadFrom(file, HEADER_SIZE).0)
  {
    CaptureRunInv(input, capacity, passthrough, schedule);
    FinishedFileKeepsTime(CaptureRun(input, capacity, passthrough, schedule).value);
  }
}
