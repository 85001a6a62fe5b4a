/** What the capture command leaves behind and how inspection and replay read it: the text
    and the bytes of a capture run, printed lines and the capture file compared. */
module CaptureResults {
  import opened Numbers
  import opened Frames
  import opened TextScanning
  import opened FrameText
  import opened CaptureFile
  import opened CaptureProtocol

  // ----- Text input and output -----

  /** The lines that repeated `getline` calls deliver. */
  function GetLines(text: string): seq<string>
    decreases |text|
  {
    if text == "" then []
    else
      match Find(text, "\n", 0)
      case None => [text]
      case Some(at) => [text[..at]] + GetLines(text[at + 1..])
  }

  /** The lines, each with its newline. */
  function Unlines(lines: seq<string>): string {
    if lines == [] then "" else lines[0] + "\n" + Unlines(lines[1..])
  }

  /** No line holds a newline, and the lines make up the text, except that a missing newline at
      its end is added. This leaves no choice about the lines. */
  lemma {:induction false} GetLinesSplits(text: string)
    ensures forall i :: 0 <= i < |GetLines(text)| ==> Lacks(GetLines(text)[i], '\n')
    ensures Unlines(GetLines(text)) == if text == "" || text[|text| - 1] == '\n' then text else text + "\n"
    decreases |text|
  {
    FindIsFirst(text, "\n", 0);
    if text == "" {
    } else if Find(text, "\n", 0) == None {
      NoNewline(text, |text|);
      assert GetLines(text)[1..] == [];
      assert text + "\n" + "" == text + "\n";
    } else {
      var at := Find(text, "\n", 0).value;
      var rest := text[at + 1..];
      NoNewline(text, at);
      GetLinesSplits(rest);
      assert GetLines(text)[1..] == GetLines(rest);
      assert text[at..at + 1] == "\n";
      assert text == text[..at] + "\n" + rest;
      RegroupLine(text[..at], rest);
    }
  }

  lemma RegroupLine(line: string, rest: string)
    ensures line + "\n" + (rest + "\n") == line + "\n" + rest + "\n"
  {
  }

  lemma NoNewline(text: string, n: nat)
    requires n <= |text| && forall j :: 0 <= j < n ==> !Occurs(text, "\n", j)
    ensures Lacks(text[..n], '\n')
  {
    forall i | 0 <= i < n
      ensures text[i] != '\n'
    {
      assert !Occurs(text, "\n", i);
      assert text[i..i + 1] == [text[i]] && "\n" == ['\n'];
    }
  }

  function Transcript(frames: seq<RadioFrame>): string {
    if frames == [] then "" else Serialize(frames[0]) + "\n" + Transcript(frames[1..])
  }

  function SerializeAll(frames: seq<RadioFrame>): (lines: seq<string>)
    ensures |lines| == |frames|
  {
    seq(|frames|, i requires 0 <= i < |frames| => Serialize(frames[i]))
  }

  lemma LacksConcat(a: string, b: string, c: char)
    requires Lacks(a, c) && Lacks(b, c)
    ensures Lacks(a + b, c)
  {
  }

  lemma PairLacksNewline(p: (i8, i8))
    ensures Lacks(Value.Pair(p).Text(), '\n')
  {
    var a, b := SignedDecimal(p.0), SignedDecimal(p.1);
    NumberLacks(p.0, '\n');
    NumberLacks(p.1, '\n');
    LacksConcat("[", a, '\n');
    LacksConcat("[" + a, ",", '\n');
    LacksConcat("[" + a + ",", b, '\n');
    LacksConcat("[" + a + "," + b, "]", '\n');
  }

  lemma ValueLacksNewline(frame: RadioFrame, key: Key)
    ensures Lacks(ValueOf(frame, key).Text(), '\n')
  {
    match ValueOf(frame, key)
    case Number(n) => NumberLacks(n, '\n');
    case Pair(p) => PairLacksNewline(p);
    case Hex(bytes) => HexTextLacks(bytes, '\n');
  }

  lemma HexTextLacks(bytes: seq<u8>, c: char)
    requires !IsDigit(c) && !('a' <= c <= 'f')
    ensures Lacks(HexText(bytes), c)
  {
    var text := HexText(bytes);
    forall i | 0 <= i < |text|
      ensures text[i] != c
    {
      assert text[i] in text;
    }
  }

  lemma KeyLacksNewline(key: Key)
    ensures Lacks(Needle(KeyText(key)), '\n')
  {
  }

  lemma {:induction false} MembersLackNewline(frame: RadioFrame, keys: seq<Key>)
    ensures Lacks(Members(seq(|keys|, i requires 0 <= i < |keys| => MemberOf(frame, keys[i]))), '\n')
  {
    var ms := seq(|keys|, i requires 0 <= i < |keys| => MemberOf(frame, keys[i]));
    if keys != [] {
      var key, rest := keys[0], keys[1..];
      MembersLackNewline(frame, rest);
      assert ms[1..] == seq(|rest|, i requires 0 <= i < |rest| => MemberOf(frame, rest[i]));
      KeyLacksNewline(key);
      ValueLacksNewline(frame, key);
      LacksConcat(Needle(KeyText(key)), ValueOf(frame, key).Text(), '\n');
      LacksConcat(",", ms[0].Text(), '\n');
      LacksConcat("," + ms[0].Text(), Members(ms[1..]), '\n');
    }
  }

  lemma SerializeIsOneLine(frame: RadioFrame)
    ensures Lacks(Serialize(frame), '\n') && Serialize(frame) != ""
  {
    MembersLackNewline(frame, ORDER);
    assert FrameMembers(frame) == seq(|ORDER|, i requires 0 <= i < |ORDER| => MemberOf(frame, ORDER[i]));
    TagLacksNewline();
    LacksConcat(EVENT_TAG, Members(FrameMembers(frame)), '\n');
  }

  lemma TagLacksNewline()
    ensures Lacks(EVENT_TAG, '\n') && EVENT_TAG != ""
  {
  }

  /** Reading a transcript line by line gives back the serialised frames. */
  lemma {:induction false} LinesOfTranscript(frames: seq<RadioFrame>)
    ensures GetLines(Transcript(frames)) == SerializeAll(frames)
  {
    if frames != [] {
      var line, rest := Serialize(frames[0]), Transcript(frames[1..]);
      LinesOfTranscript(frames[1..]);
      SerializeIsOneLine(frames[0]);
      FirstLineTaken(line, rest);
      assert SerializeAll(frames) == [line] + SerializeAll(frames[1..]);
    }
  }

  lemma FirstLineTaken(line: string, rest: string)
    requires Lacks(line, '\n')
    ensures GetLines(line + "\n" + rest) == [line] + GetLines(rest)
  {
    var text := line + "\n" + rest;
    assert "\n" == ['\n'];
    FindCharacter(line, '\n', rest, 0);
    assert text[..|line|] == line && text[|line| + 1..] == rest;
  }

  // ----- Capture runs on text -----

  function ClassifyAll(lines: seq<string>): (classified: seq<InputLine>)
    ensures |classified| == |lines|
  {
    seq(|lines|, i requires 0 <= i < |lines| => Classify(lines[i]))
  }

  lemma ParsedIsSound(line: string)
    ensures ParseFrame(line).Success? ==> SoundEvent(Some(ParseFrame(line).value))
  {
  }

  lemma ClassifiedIsSound(lines: seq<string>)
    ensures Sound(ClassifyAll(lines))
  {
    forall i | 0 <= i < |lines|
      ensures var line := ClassifyAll(lines)[i]; SoundEvent(if line.Event? then line.parsed else None)
    {
      ParsedIsSound(lines[i]);
    }
  }

  /** A capture run on an input text, if the schedule is possible. */
  function CaptureRun(input: string, capacity: nat, passthrough: bool, schedule: seq<Action>): Option<State> {
    Run(Init(ClassifyAll(GetLines(input)), capacity, passthrough), schedule)
  }

  /** The text that replay prints from a capture file. */
  function ReplayText(data: seq<u8>): string
    requires |data| >= HEADER_SIZE
  {
    Transcript(ReadFrom(data, HEADER_SIZE).0)
  }

  /** What passthrough printed is what replay prints from the file, which reads back whole. */
  lemma PrintedIsReplayed(s: State)
    requires Inv(s) && Finished(s) && s.passthrough
    ensures var file := FileBytes(s.written);
            && OpenFailure(file) == None && ReadFrom(file, HEADER_SIZE) == (s.written, None)
            && Transcript(s.printed) == ReplayText(file)
            && s.printed == s.written
  {
    CompletionAccounts(s);
    ReadBack(s.written);
  }

  lemma AllParseBack(frames: seq<RadioFrame>)
    requires AllFit(frames)
    ensures forall i :: 0 <= i < |frames| ==> ParseFrame(Serialize(frames[i])) == Success(Unstamped(frames[i]))
  {
    forall i | 0 <= i < |frames|
      ensures ParseFrame(Serialize(frames[i])) == Success(Unstamped(frames[i]))
    {
      TextRoundTrip(frames[i]);
    }
  }

  /** Under every schedule: the file of a finished run reads back completely, replay prints
      from it what passthrough printed live, and the printed lines parse to the frames of the
      file, in order, without their capture times. */
  lemma LiveOutputEqualsReplay(input: string, capacity: nat, schedule: seq<Action>)
    requires var run := CaptureRun(input, capacity, true, schedule); run.Some? && Finished(run.value)
    ensures var s := CaptureRun(input, capacity, true, schedule).value;
            var file := FileBytes(s.written);
            && OpenFailure(file) == None && ReadFrom(file, HEADER_SIZE) == (s.written, None)
            && Transcript(s.printed) == ReplayText(file)
            && GetLines(Transcript(s.printed)) == SerializeAll(s.written)
            && forall i :: 0 <= i < |s.written| ==>
                 ParseFrame(Serialize(s.written[i])) == Success(Unstamped(s.written[i]))
  {
    var s := CaptureRun(input, capacity, true, schedule).value;
    CaptureRunInv(input, capacity, true, schedule);
    PrintedIsReplayed(s);
    LinesOfTranscript(s.written);
    AllParseBack(s.written);
  }

  lemma CaptureRunInv(input: string, capacity: nat, passthrough: bool, schedule: seq<Action>)
    requires CaptureRun(input, capacity, passthrough, schedule).Some?
    ensures var s := CaptureRun(input, capacity, passthrough, schedule).value;
            && Inv(s) && AllFit(s.written) && s.passthrough == passthrough
            && s.input == ClassifyAll(GetLines(input))
  {
    var lines := ClassifyAll(GetLines(input));
    ClassifiedIsSound(GetLines(input));
    RunInv(lines, capacity, passthrough, schedule);
    InputKept(Init(lines, capacity, passthrough), schedule);
  }

  /** No reachable capture run has a frame that the writer would refuse. */
  lemma WriterNeverRefuses(input: string, capacity: nat, passthrough: bool, schedule: seq<Action>)
    requires CaptureRun(input, capacity, passthrough, schedule).Some?
    ensures var s := CaptureRun(input, capacity, passthrough, schedule).value;
            && s.consumer != WriteFailed
            && AllFit(s.written) && AllFit(InHand(s.consumer)) && AllFit(s.queue.items)
  {
    CaptureRunInv(input, capacity, passthrough, schedule);
  }

  lemma SerializedIsEvent(frame: RadioFrame)
    requires FitsLimit(frame)
    ensures Classify(Serialize(frame)) == Event(Some(Unstamped(frame)))
  {
    var line := Serialize(frame);
    LineIsFrameEvent(FrameMembers(frame));
    TextRoundTrip(frame);
    ClassifiedAs(line, Unstamped(frame));
  }

  lemma ClassifiedAs(line: string, frame: RadioFrame)
    ensures IsFrameEvent(line) && ParseFrame(line) == Success(frame) ==> Classify(line) == Event(Some(frame))
  {
  }

  lemma {:induction false} EventsOfLines(frames: seq<RadioFrame>, lines: seq<InputLine>)
    requires |lines| == |frames|
    requires forall i :: 0 <= i < |lines| ==> lines[i] == Event(Some(Unstamped(frames[i])))
    ensures Hold(frames, FrameEvents(lines))
  {
    if frames != [] {
      var n := |frames| - 1;
      EventsOfLines(frames[..n], lines[..n]);
    }
  }

  /** The events on a printed transcript are the frames that were printed. */
  lemma TranscriptEvents(frames: seq<RadioFrame>)
    requires AllFit(frames)
    ensures Hold(frames, FrameEvents(ClassifyAll(SerializeAll(frames))))
  {
    var lines := ClassifyAll(SerializeAll(frames));
    forall i | 0 <= i < |lines|
      ensures lines[i] == Event(Some(Unstamped(frames[i])))
    {
      SerializedIsEvent(frames[i]);
    }
    EventsOfLines(frames, lines);
  }

  lemma HoldSame(frames: seq<RadioFrame>, again: seq<RadioFrame>, events: seq<Option<RadioFrame>>)
    requires Hold(frames, events) && Hold(again, events)
    ensures |again| == |frames|
    ensures forall i :: 0 <= i < |frames| ==> Unstamped(again[i]) == Unstamped(frames[i])
  {
    forall i | 0 <= i < |frames|
      ensures Unstamped(again[i]) == Unstamped(frames[i])
    {
      assert events[i] == Some(Unstamped(frames[i]));
    }
  }

  /** Nothing is lost between stages: a second capture that reads the first one's printed
      output to the end and succeeds holds the frames of the first file, restamped. */
  lemma ChainedCaptures(frames: seq<RadioFrame>, capacity: nat, passthrough: bool, schedule: seq<Action>)
    requires AllFit(frames)
    requires var run := CaptureRun(Transcript(frames), capacity, passthrough, schedule);
             run.Some? && Finished(run.value) && !run.value.stop && ExitsWithSuccess(run.value)
    ensures var again := CaptureRun(Transcript(frames), capacity, passthrough, schedule).value.written;
            && |again| == |frames|
            && forall i :: 0 <= i < |frames| ==> Unstamped(again[i]) == Unstamped(frames[i])
  {
    var s := CaptureRun(Transcript(frames), capacity, passthrough, schedule).value;
    CaptureRunInv(Transcript(frames), capacity, passthrough, schedule);
    LinesOfTranscript(frames);
    CompletionAccounts(s);
    TranscriptEvents(frames);
    HoldSame(frames, s.written, s.events);
  }

  lemma {:induction false} InputKept(s: State, schedule: seq<Action>)
    requires Run(s, schedule).Some?
    ensures Run(s, schedule).value.input == s.input && Run(s, schedule).value.passthrough == s.passthrough
    decreases |schedule|
  {
    if schedule != [] {
      InputStays(s, schedule[0]);
      InputKept(Step(s, schedule[0]), schedule[1..]);
    }
  }
}
