/** The capture command as two interleaved threads: a producer that reads, parses, stamps and
    queues frames, and a consumer that writes and prints them. Every step is one access to
    shared state. A line is given by what it parses to, and the outputs by the frames that
    went into them; their text and bytes are in `CaptureResults`. */
module CaptureProtocol {
  import opened Numbers
  import opened Frames
  import opened BoundedQueues

  datatype Thread = ProducerThread | ConsumerThread

  /** Where the producer is. From `Pushing` to `Unlocking` and from `Closing` to
      `CloseUnlocking` it holds the queue's mutex. */
  datatype Producer =
    | Reading
    | Counting(parsed: Option<RadioFrame>)
    | Rejecting
    | Stamping(frame: RadioFrame)
    | Locking(frame: RadioFrame)
    | Pushing(frame: RadioFrame)
    | Notifying
    | Unlocking(refused: Option<RadioFrame>)
    | Dropping(frame: RadioFrame)
    | CheckingStop
    | CloseLocking
    | Closing
    | CloseNotifying
    | CloseUnlocking
    | ProducerDone

  /** Where the consumer is. In `Checking`, `Taking` and `Releasing` it holds the mutex; in
      `Waiting` it is blocked and no notification has reached it. */
  datatype Consumer =
    | Acquiring
    | Checking
    | Waiting
    | Woken
    | Taking
    | Releasing(got: Option<RadioFrame>)
    | Writing(frame: RadioFrame)
    | WriteFailed
    | Printing(frame: RadioFrame)
    | Joining
    | Flushing
    | ConsumerDone

  /** What became of a frame event. */
  datatype Fate = Malformed | Dropped(frame: RadioFrame) | Accepted(frame: RadioFrame)

  /** `events` and `fates` record history; the other fields are the program's variables. */
  datatype State = State(
    input: seq<InputLine>, passthrough: bool,
    taken: nat, clock: u64, stop: bool,
    seen: nat, malformed: nat, dropped: nat,
    queue: QueueState<RadioFrame>, owner: Option<Thread>,
    producer: Producer, consumer: Consumer,
    frameCount: nat, written: seq<RadioFrame>, printed: seq<RadioFrame>,
    events: seq<Option<RadioFrame>>, fates: seq<Fate>)

  function Init(input: seq<InputLine>, capacity: nat, passthrough: bool): State {
    State(input, passthrough, 0, 0, false, 0, 0, 0, QueueState(capacity, [], false), None,
          Reading, Acquiring, 0, [], [], [], [])
  }

  /** One step of a thread or of its surroundings: the clock reading `now` is used when a
      frame is stamped. */
  datatype Action = Produce(now: u64) | Consume | RequestStop | WakeSpuriously

  predicate Enabled(s: State, a: Action) {
    match a
    case Produce(now) =>
      && s.producer != ProducerDone
      && (s.producer.Locking? || s.producer.CloseLocking? ==> s.owner == None)
      && (s.producer.Stamping? ==> s.clock <= now)
    case Consume =>
      && s.consumer !in {Waiting, WriteFailed, ConsumerDone}
      && (s.consumer in {Acquiring, Woken} ==> s.owner == None)
      && (s.consumer == Joining ==> s.producer == ProducerDone)
    case RequestStop => !s.stop
    case WakeSpuriously => s.consumer == Waiting
  }

  function Notified(c: Consumer): Consumer {
    if c == Waiting then Woken else c
  }

  function ProducerStep(s: State, now: u64): State
    requires Enabled(s, Produce(now))
  {
    match s.producer
    case Reading =>
      if s.taken >= |s.input| then s.(producer := CloseLocking)
      else
        var line := s.input[s.taken];
        s.(taken := s.taken + 1, producer := if line.Event? then Counting(line.parsed) else Reading)
    case Counting(parsed) =>
      s.(seen := s.seen + 1, events := s.events + [parsed],
         producer := match parsed case Some(frame) => Stamping(frame) case None => Rejecting)
    case Rejecting => s.(malformed := s.malformed + 1, fates := s.fates + [Malformed], producer := Reading)
    case Stamping(frame) => s.(clock := now, producer := Locking(frame.(captureTime := now)))
    case Locking(frame) => s.(owner := Some(ProducerThread), producer := Pushing(frame))
    case Pushing(frame) =>
      if s.queue.Accepts() then
        s.(queue := s.queue.Pushed(frame), fates := s.fates + [Accepted(frame)], producer := Notifying)
      else s.(producer := Unlocking(Some(frame)))
    case Notifying => s.(consumer := Notified(s.consumer), producer := Unlocking(None))
    case Unlocking(refused) =>
      s.(owner := None, producer := match refused case None => CheckingStop case Some(frame) => Dropping(frame))
    case Dropping(frame) => s.(dropped := s.dropped + 1, fates := s.fates + [Dropped(frame)], producer := CheckingStop)
    case CheckingStop => s.(producer := if s.stop then CloseLocking else Reading)
    case CloseLocking => s.(owner := Some(ProducerThread), producer := Closing)
    case Closing => s.(queue := s.queue.Closed(), producer := CloseNotifying)
    case CloseNotifying => s.(consumer := Notified(s.consumer), producer := CloseUnlocking)
    case CloseUnlocking => s.(owner := None, producer := ProducerDone)
  }

  function ConsumerStep(s: State): State
    requires Enabled(s, Consume)
  {
    match s.consumer
    case Acquiring => s.(owner := Some(ConsumerThread), consumer := Checking)
    case Woken => s.(owner := Some(ConsumerThread), consumer := Checking)
    case Checking => if s.queue.Ready() then s.(consumer := Taking) else s.(owner := None, consumer := Waiting)
    case Taking => s.(queue := s.queue.Popped(), consumer := Releasing(s.queue.Front()))
    case Releasing(got) =>
      s.(owner := None, consumer := match got case None => Joining case Some(frame) => Writing(frame))
    case Writing(frame) =>
      if FitsLimit(frame) then
        s.(written := s.written + [frame], frameCount := s.frameCount + 1, consumer := Printing(frame))
      else s.(consumer := WriteFailed)
    case Printing(frame) =>
      s.(printed := if s.passthrough then s.printed + [frame] else s.printed, consumer := Acquiring)
    case Joining => s.(consumer := Flushing)
    case Flushing => s.(consumer := ConsumerDone)
  }

  function Step(s: State, a: Action): State
    requires Enabled(s, a)
  {
    match a
    case Produce(now) => ProducerStep(s, now)
    case Consume => ConsumerStep(s)
    case RequestStop => s.(stop := true)
    case WakeSpuriously => s.(consumer := Woken)
  }

  /** The state after a schedule, if every step of it was possible. */
  function Run(s: State, schedule: seq<Action>): Option<State>
    decreases |schedule|
  {
    if schedule == [] then Some(s)
    else if !Enabled(s, schedule[0]) then None
    else Run(Step(s, schedule[0]), schedule[1..])
  }

  predicate Finished(s: State) {
    s.producer == ProducerDone && s.consumer == ConsumerDone
  }

  /** The exit status of the command. */
  predicate ExitsWithSuccess(s: State) {
    s.dropped == 0 && s.malformed == 0
  }

  // ----- Notions of the invariant -----

  /** The frame event that the producer has counted but not yet disposed of. */
  predicate HoldsEvent(p: Producer) {
    || p.Rejecting? || p.Stamping? || p.Locking? || p.Pushing? || p.Dropping?
    || (p.Unlocking? && p.refused.Some?)
  }

  function HeldFrame(p: Producer): Option<RadioFrame> {
    match p
    case Stamping(frame) => Some(frame)
    case Locking(frame) => Some(frame)
    case Pushing(frame) => Some(frame)
    case Unlocking(refused) => refused
    case Dropping(frame) => Some(frame)
    case _ => None
  }

  /** The frame that the consumer has taken but not yet written. */
  function InHand(c: Consumer): seq<RadioFrame> {
    match c
    case Releasing(Some(frame)) => [frame]
    case Writing(frame) => [frame]
    case _ => []
  }

  /** What the frame events among the lines parse to. */
  function FrameEvents(lines: seq<InputLine>): seq<Option<RadioFrame>> {
    if lines == [] then []
    else
      var last := lines[|lines| - 1];
      FrameEvents(lines[..|lines| - 1]) + if last.Event? then [last.parsed] else []
  }

  function AcceptedFrames(fates: seq<Fate>): seq<RadioFrame> {
    if fates == [] then []
    else
      var last := fates[|fates| - 1];
      AcceptedFrames(fates[..|fates| - 1]) + if last.Accepted? then [last.frame] else []
  }

  function CountMalformed(fates: seq<Fate>): nat {
    if fates == [] then 0 else CountMalformed(fates[..|fates| - 1]) + if fates[|fates| - 1].Malformed? then 1 else 0
  }

  function CountDropped(fates: seq<Fate>): nat {
    if fates == [] then 0 else CountDropped(fates[..|fates| - 1]) + if fates[|fates| - 1].Dropped? then 1 else 0
  }

  /** The fate suits what the event parses to; only the capture time may differ. */
  predicate FateOf(parsed: Option<RadioFrame>, fate: Fate) {
    match fate
    case Malformed => parsed == None
    case Dropped(frame) => parsed == Some(Unstamped(frame))
    case Accepted(frame) => parsed == Some(Unstamped(frame))
  }

  /** What the parser guarantees of the frames it accepts. */
  predicate Sound(input: seq<InputLine>) {
    forall i :: 0 <= i < |input| ==> SoundEvent(if input[i].Event? then input[i].parsed else None)
  }

  predicate SoundEvent(parsed: Option<RadioFrame>) {
    parsed.Some? ==> FitsLimit(parsed.value) && Unstamped(parsed.value) == parsed.value
  }

  predicate NonDecreasing(frames: seq<RadioFrame>) {
    forall i, j :: 0 <= i < j < |frames| ==> frames[i].captureTime <= frames[j].captureTime
  }

  // ----- The invariant -----

  /** Who holds the mutex. */
  predicate LockHeld(owner: Option<Thread>, producer: Producer, consumer: Consumer) {
    && (owner == Some(ProducerThread) <==>
          producer.Pushing? || producer.Notifying? || producer.Unlocking?
          || producer.Closing? || producer.CloseNotifying? || producer.CloseUnlocking?)
    && (owner == Some(ConsumerThread) <==>
          consumer.Checking? || consumer.Taking? || consumer.Releasing?)
  }

  /** Every counted event has a fate or is still held by the producer. */
  predicate Counted(seen: nat, malformed: nat, dropped: nat, events: seq<Option<RadioFrame>>, fates: seq<Fate>,
                    producer: Producer)
  {
    && seen == |events| == |fates| + (if HoldsEvent(producer) then 1 else 0)
    && malformed == CountMalformed(fates)
    && dropped == CountDropped(fates)
  }

  /** Accepted frames are written, in hand or queued, in the order of their arrival. */
  predicate InOrder(fates: seq<Fate>, written: seq<RadioFrame>, consumer: Consumer, items: seq<RadioFrame>) {
    written + InHand(consumer) + items == AcceptedFrames(fates)
  }

  /** Every fate is that of its event, also the one being decided. */
  predicate Faithful(events: seq<Option<RadioFrame>>, fates: seq<Fate>, producer: Producer) {
    && Judged(events, fates)
    && (HoldsEvent(producer) ==> events != [] && Held(events[|events| - 1], producer))
  }

  predicate Judged(events: seq<Option<RadioFrame>>, fates: seq<Fate>) {
    && |fates| <= |events|
    && forall i :: 0 <= i < |fates| ==> FateOf(events[i], fates[i])
  }

  predicate Held(parsed: Option<RadioFrame>, producer: Producer) {
    parsed == match HeldFrame(producer) case None => None case Some(frame) => Some(Unstamped(frame))
  }

  /** Which lines have been read. */
  predicate ReadSoFar(input: seq<InputLine>, taken: nat, stop: bool, events: seq<Option<RadioFrame>>,
                      producer: Producer)
  {
    && Sound(input) && taken <= |input|
    && FrameEvents(input[..taken]) == events + (if producer.Counting? then [producer.parsed] else [])
    && (producer in {CloseLocking, Closing, CloseNotifying, CloseUnlocking, ProducerDone} ==> stop || taken == |input|)
  }

  /** Nothing sleeps through a change it waits for. */
  predicate Awake(queue: QueueState<RadioFrame>, producer: Producer, consumer: Consumer) {
    && (consumer == Waiting && producer !in {Notifying, CloseNotifying} ==> !queue.Ready())
    && (consumer == Taking ==> queue.Ready())
  }

  /** The ends come in order: closed, drained, joined. */
  predicate Ending(queue: QueueState<RadioFrame>, producer: Producer, consumer: Consumer) {
    && queue.Valid()
    && (queue.closed <==> producer in {CloseNotifying, CloseUnlocking, ProducerDone})
    && (consumer in {Releasing(None), Joining, Flushing, ConsumerDone} ==> queue.closed && queue.items == [])
    && (consumer in {Flushing, ConsumerDone} ==> producer == ProducerDone)
  }

  /** Nothing on its way to the writer is too large for it. */
  predicate Writable(written: seq<RadioFrame>, consumer: Consumer, items: seq<RadioFrame>) {
    AllFit(written) && AllFit(InHand(consumer)) && AllFit(items) && consumer != WriteFailed
  }

  /** What is printed follows what is written. */
  predicate Recorded(passthrough: bool, frameCount: nat, written: seq<RadioFrame>, printed: seq<RadioFrame>,
                     consumer: Consumer)
  {
    && frameCount == |written|
    && (if passthrough then printed + ToPrint(consumer) == written else printed == [])
  }

  function ToPrint(consumer: Consumer): seq<RadioFrame> {
    if consumer.Printing? then [consumer.frame] else []
  }

  /** Capture times follow the clock. */
  predicate Timed(clock: nat, fates: seq<Fate>, producer: Producer) {
    var frames := AcceptedFrames(fates);
    && NonDecreasing(frames)
    && (frames != [] ==> frames[|frames| - 1].captureTime <= clock)
    && (producer.Locking? || producer.Pushing? ==> HeldFrame(producer).value.captureTime == clock)
  }

  predicate Inv(s: State) {
    && LockHeld(s.owner, s.producer, s.consumer)
    && Counted(s.seen, s.malformed, s.dropped, s.events, s.fates, s.producer)
    && InOrder(s.fates, s.written, s.consumer, s.queue.items)
    && Faithful(s.events, s.fates, s.producer)
    && ReadSoFar(s.input, s.taken, s.stop, s.events, s.producer)
    && Awake(s.queue, s.producer, s.consumer)
    && Ending(s.queue, s.producer, s.consumer)
    && Writable(s.written, s.consumer, s.queue.items)
    && Recorded(s.passthrough, s.frameCount, s.written, s.printed, s.consumer)
    && Timed(s.clock, s.fates, s.producer)
  }

  lemma InitInv(input: seq<InputLine>, capacity: nat, passthrough: bool)
    requires Sound(input)
    ensures Inv(Init(input, capacity, passthrough))
  {
    assert input[..0] == [];
  }

  // ----- What a step leaves alone -----

  lemma ProducerLeaves(s: State, now: u64)
    requires Enabled(s, Produce(now))
    ensures var t := ProducerStep(s, now);
            && t.input == s.input && t.passthrough == s.passthrough && t.stop == s.stop
            && t.frameCount == s.frameCount && t.written == s.written && t.printed == s.printed
            && t.consumer == (if s.producer in {Notifying, CloseNotifying} then Notified(s.consumer) else s.consumer)
            && (!s.producer.Pushing? || !s.queue.Accepts() ==> t.queue.items == s.queue.items)
            && (!s.producer.Pushing? && !s.producer.Closing? ==> t.queue == s.queue)
  {
  }

  lemma ConsumerLeaves(s: State)
    requires Enabled(s, Consume)
    ensures var t := ConsumerStep(s);
            && t.input == s.input && t.passthrough == s.passthrough && t.stop == s.stop
            && t.taken == s.taken && t.clock == s.clock && t.producer == s.producer
            && t.seen == s.seen && t.malformed == s.malformed && t.dropped == s.dropped
            && t.events == s.events && t.fates == s.fates
            && (!s.consumer.Taking? ==> t.queue == s.queue)
  {
  }

  // ----- Every step keeps the invariant -----

  lemma LockHeldByProducer(s: State, now: u64)
    requires LockHeld(s.owner, s.producer, s.consumer) && Enabled(s, Produce(now))
    ensures var t := ProducerStep(s, now); LockHeld(t.owner, t.producer, t.consumer)
  {
  }

  lemma LockHeldByConsumer(s: State)
    requires LockHeld(s.owner, s.producer, s.consumer) && Enabled(s, Consume)
    ensures var t := ConsumerStep(s); LockHeld(t.owner, t.producer, t.consumer)
  {
  }

  lemma FateAppended(fates: seq<Fate>, fate: Fate)
    ensures AcceptedFrames(fates + [fate]) == AcceptedFrames(fates) + if fate.Accepted? then [fate.frame] else []
    ensures CountMalformed(fates + [fate]) == CountMalformed(fates) + if fate.Malformed? then 1 else 0
    ensures CountDropped(fates + [fate]) == CountDropped(fates) + if fate.Dropped? then 1 else 0
  {
    assert (fates + [fate])[..|fates|] == fates;
  }

  /** The fate that the producer's step decides, if it decides one. */
  function Decided(s: State): Option<Fate> {
    match s.producer
    case Rejecting => Some(Malformed)
    case Pushing(frame) => if s.queue.Accepts() then Some(Accepted(frame)) else None
    case Dropping(frame) => Some(Dropped(frame))
    case _ => None
  }

  lemma DecidedIsAppended(s: State, now: u64)
    requires Enabled(s, Produce(now))
    ensures ProducerStep(s, now).fates == s.fates + match Decided(s) case None => [] case Some(fate) => [fate]
  {
  }

  lemma CountedByDeciding(s: State, now: u64)
    requires Counted(s.seen, s.malformed, s.dropped, s.events, s.fates, s.producer) && Enabled(s, Produce(now))
    requires Decided(s).Some?
    ensures var t := ProducerStep(s, now); Counted(t.seen, t.malformed, t.dropped, t.events, t.fates, t.producer)
  {
    FateAppended(s.fates, Decided(s).value);
    DecidedIsAppended(s, now);
    CountersByDeciding(s, now);
  }

  lemma CountersByDeciding(s: State, now: u64)
    requires Enabled(s, Produce(now)) && Decided(s).Some?
    ensures var t, fate := ProducerStep(s, now), Decided(s).value;
            && t.seen == s.seen && t.events == s.events
            && t.malformed == s.malformed + (if fate.Malformed? then 1 else 0)
            && t.dropped == s.dropped + (if fate.Dropped? then 1 else 0)
            && HoldsEvent(s.producer) && !HoldsEvent(t.producer)
  {
  }

  lemma CountedByProducer(s: State, now: u64)
    requires Counted(s.seen, s.malformed, s.dropped, s.events, s.fates, s.producer) && Enabled(s, Produce(now))
    ensures var t := ProducerStep(s, now); Counted(t.seen, t.malformed, t.dropped, t.events, t.fates, t.producer)
  {
    if Decided(s).Some? {
      CountedByDeciding(s, now);
    }
  }

  lemma InOrderByPushing(s: State, now: u64)
    requires InOrder(s.fates, s.written, s.consumer, s.queue.items) && Enabled(s, Produce(now))
    requires s.producer.Pushing? && s.queue.Accepts()
    ensures var t := ProducerStep(s, now); InOrder(t.fates, t.written, t.consumer, t.queue.items)
  {
    var frame := s.producer.frame;
    var front := s.written + InHand(s.consumer);
    FateAppended(s.fates, Accepted(frame));
    assert front + (s.queue.items + [frame]) == front + s.queue.items + [frame];
  }

  lemma InOrderByProducer(s: State, now: u64)
    requires InOrder(s.fates, s.written, s.consumer, s.queue.items) && Enabled(s, Produce(now))
    ensures var t := ProducerStep(s, now); InOrder(t.fates, t.written, t.consumer, t.queue.items)
  {
    if s.producer.Pushing? && s.queue.Accepts() {
      InOrderByPushing(s, now);
    } else {
      ProducerLeaves(s, now);
      SameAcceptedByProducer(s, now);
      assert InHand(Notified(s.consumer)) == InHand(s.consumer);
    }
  }

  lemma InOrderByConsumer(s: State)
    requires InOrder(s.fates, s.written, s.consumer, s.queue.items) && Enabled(s, Consume)
    requires s.consumer != WriteFailed && AllFit(InHand(s.consumer))
    ensures var t := ConsumerStep(s); InOrder(t.fates, t.written, t.consumer, t.queue.items)
  {
    match s.consumer
    case Taking =>
      if s.queue.items != [] {
        assert s.written + [] + s.queue.items == s.written + [s.queue.items[0]] + s.queue.items[1..];
      }
    case Writing(frame) =>
      assert InHand(s.consumer)[0] == frame;
      assert s.written + [frame] + [] == s.written + [frame];
    case _ =>
  }

  lemma JudgedAppended(events: seq<Option<RadioFrame>>, fates: seq<Fate>, fate: Fate)
    requires Judged(events, fates) && |events| == |fates| + 1 && FateOf(events[|fates|], fate)
    ensures Judged(events, fates + [fate])
  {
  }

  lemma JudgedByProducer(s: State, now: u64)
    requires Faithful(s.events, s.fates, s.producer) && Enabled(s, Produce(now))
    requires |s.events| == |s.fates| + (if HoldsEvent(s.producer) then 1 else 0)
    ensures var t := ProducerStep(s, now); Judged(t.events, t.fates)
  {
    DecidedIsAppended(s, now);
    if Decided(s).Some? {
      JudgedAppended(s.events, s.fates, Decided(s).value);
    }
  }

  /** A newly read event is sound, and stamping a frame only changes its time. */
  lemma HeldByProducer(s: State, now: u64)
    requires HoldsEvent(s.producer) ==> s.events != [] && Held(s.events[|s.events| - 1], s.producer)
    requires s.producer.Counting? ==> SoundEvent(s.producer.parsed)
    requires Enabled(s, Produce(now))
    ensures var t := ProducerStep(s, now);
            HoldsEvent(t.producer) ==> t.events != [] && Held(t.events[|t.events| - 1], t.producer)
  {
    EventsByProducer(s, now);
    if s.producer.Counting? {
      HeldByCounting(s, now);
    } else if HoldsEvent(s.producer) {
      HeldKept(s, now, s.events[|s.events| - 1]);
    } else {
      NothingTakenUp(s, now);
    }
  }

  lemma EventsByProducer(s: State, now: u64)
    requires Enabled(s, Produce(now))
    ensures ProducerStep(s, now).events == s.events + if s.producer.Counting? then [s.producer.parsed] else []
  {
  }

  lemma HeldByCounting(s: State, now: u64)
    requires Enabled(s, Produce(now)) && s.producer.Counting? && SoundEvent(s.producer.parsed)
    ensures Held(s.producer.parsed, ProducerStep(s, now).producer)
  {
  }

  lemma HeldKept(s: State, now: u64, parsed: Option<RadioFrame>)
    requires Enabled(s, Produce(now)) && HoldsEvent(s.producer) && Held(parsed, s.producer)
    ensures var t := ProducerStep(s, now); HoldsEvent(t.producer) ==> Held(parsed, t.producer)
  {
  }

  lemma NothingTakenUp(s: State, now: u64)
    requires Enabled(s, Produce(now)) && !HoldsEvent(s.producer) && !s.producer.Counting?
    ensures !HoldsEvent(ProducerStep(s, now).producer)
  {
  }

  lemma FaithfulByProducer(s: State, now: u64)
    requires Faithful(s.events, s.fates, s.producer) && Enabled(s, Produce(now))
    requires |s.events| == |s.fates| + (if HoldsEvent(s.producer) then 1 else 0)
    requires s.producer.Counting? ==> SoundEvent(s.producer.parsed)
    ensures var t := ProducerStep(s, now); Faithful(t.events, t.fates, t.producer)
  {
    JudgedByProducer(s, now);
    HeldByProducer(s, now);
  }

  lemma FrameEventsAppended(lines: seq<InputLine>, n: nat)
    requires n < |lines|
    ensures FrameEvents(lines[..n + 1]) == FrameEvents(lines[..n]) + if lines[n].Event? then [lines[n].parsed] else []
  {
    assert lines[..n + 1][..n] == lines[..n];
  }

  lemma {:induction false} FrameEventsSound(lines: seq<InputLine>)
    requires Sound(lines)
    ensures forall i :: 0 <= i < |FrameEvents(lines)| ==> SoundEvent(FrameEvents(lines)[i])
  {
    if lines != [] {
      FrameEventsSound(lines[..|lines| - 1]);
    }
  }

  /** Every event read so far is sound, also the one about to be counted. */
  lemma EventsSound(s: State)
    requires ReadSoFar(s.input, s.taken, s.stop, s.events, s.producer)
    ensures forall i :: 0 <= i < |s.events| ==> SoundEvent(s.events[i])
    ensures s.producer.Counting? ==> SoundEvent(s.producer.parsed)
  {
    var all := FrameEvents(s.input[..s.taken]);
    FrameEventsSound(s.input[..s.taken]);
    assert forall i :: 0 <= i < |s.events| ==> all[i] == s.events[i];
    if s.producer.Counting? {
      assert all[|s.events|] == s.producer.parsed;
    }
  }

  lemma ReadSoFarByProducer(s: State, now: u64)
    requires ReadSoFar(s.input, s.taken, s.stop, s.events, s.producer) && Enabled(s, Produce(now))
    ensures var t := ProducerStep(s, now); ReadSoFar(t.input, t.taken, t.stop, t.events, t.producer)
  {
    if s.producer.Reading? {
      ReadSoFarByReading(s, now);
    } else {
      ReadSoFarByOther(s, now);
    }
  }

  lemma ReadSoFarByReading(s: State, now: u64)
    requires ReadSoFar(s.input, s.taken, s.stop, s.events, s.producer) && Enabled(s, Produce(now))
    requires s.producer.Reading?
    ensures var t := ProducerStep(s, now); ReadSoFar(t.input, t.taken, t.stop, t.events, t.producer)
  {
    if s.taken < |s.input| {
      FrameEventsAppended(s.input, s.taken);
    }
  }

  lemma ReadSoFarByOther(s: State, now: u64)
    requires ReadSoFar(s.input, s.taken, s.stop, s.events, s.producer) && Enabled(s, Produce(now))
    requires !s.producer.Reading?
    ensures var t := ProducerStep(s, now); ReadSoFar(t.input, t.taken, t.stop, t.events, t.producer)
  {
    EventsByProducer(s, now);
    ReadingLeaves(s, now);
  }

  /** Only reading takes lines, and closing begins on a stop request or at the end of input. */
  lemma ReadingLeaves(s: State, now: u64)
    requires Enabled(s, Produce(now)) && !s.producer.Reading?
    ensures var t := ProducerStep(s, now);
            && t.input == s.input && t.taken == s.taken && t.stop == s.stop && !t.producer.Counting?
            && (t.producer in {CloseLocking, Closing, CloseNotifying, CloseUnlocking, ProducerDone} ==>
                  s.producer in {CloseLocking, Closing, CloseNotifying, CloseUnlocking, ProducerDone} || s.stop)
  {
  }

  lemma AwakeKept(s: State, a: Action)
    requires Awake(s.queue, s.producer, s.consumer) && LockHeld(s.owner, s.producer, s.consumer) && Enabled(s, a)
    ensures var t := Step(s, a); Awake(t.queue, t.producer, t.consumer)
  {
  }

  lemma EndingByProducer(s: State, now: u64)
    requires Ending(s.queue, s.producer, s.consumer) && Enabled(s, Produce(now))
    requires LockHeld(s.owner, s.producer, s.consumer)
    ensures var t := ProducerStep(s, now); Ending(t.queue, t.producer, t.consumer)
  {
    ProducerLeaves(s, now);
  }

  lemma EndingByConsumer(s: State)
    requires Ending(s.queue, s.producer, s.consumer) && Awake(s.queue, s.producer, s.consumer) && Enabled(s, Consume)
    ensures var t := ConsumerStep(s); Ending(t.queue, t.producer, t.consumer)
  {
    ConsumerLeaves(s);
  }

  lemma WritableByProducer(s: State, now: u64)
    requires Writable(s.written, s.consumer, s.queue.items) && Enabled(s, Produce(now))
    requires Faithful(s.events, s.fates, s.producer)
    requires s.events != [] ==> SoundEvent(s.events[|s.events| - 1])
    ensures var t := ProducerStep(s, now); Writable(t.written, t.consumer, t.queue.items)
  {
    ProducerLeaves(s, now);
    assert InHand(Notified(s.consumer)) == InHand(s.consumer);
    if s.producer.Pushing? {
      assert s.events[|s.events| - 1] == Some(Unstamped(s.producer.frame));
    }
  }

  lemma WritableByConsumer(s: State)
    requires Writable(s.written, s.consumer, s.queue.items) && Enabled(s, Consume)
    ensures var t := ConsumerStep(s); Writable(t.written, t.consumer, t.queue.items)
  {
    match s.consumer
    case Writing(frame) =>
      assert InHand(s.consumer)[0] == frame;
    case Releasing(got) =>
      if got.Some? {
        assert InHand(s.consumer) == InHand(Writing(got.value));
      }
    case _ =>
  }

  lemma RecordedByConsumer(s: State)
    requires Recorded(s.passthrough, s.frameCount, s.written, s.printed, s.consumer) && Enabled(s, Consume)
    ensures var t := ConsumerStep(s); Recorded(t.passthrough, t.frameCount, t.written, t.printed, t.consumer)
  {
    assert s.printed + [] == s.printed;
  }

  lemma NonDecreasingAppended(frames: seq<RadioFrame>, frame: RadioFrame)
    requires NonDecreasing(frames)
    requires frames != [] ==> frames[|frames| - 1].captureTime <= frame.captureTime
    ensures NonDecreasing(frames + [frame])
  {
    var all := frames + [frame];
    forall i, j | 0 <= i < j < |all|
      ensures all[i].captureTime <= all[j].captureTime
    {
      if j == |frames| {
        assert i < |frames| - 1 ==> frames[i].captureTime <= frames[|frames| - 1].captureTime;
      }
    }
  }

  lemma TimedByAccepting(clock: nat, fates: seq<Fate>, frame: RadioFrame)
    requires Timed(clock, fates, Pushing(frame))
    ensures Timed(clock, fates + [Accepted(frame)], Notifying)
  {
    FateAppended(fates, Accepted(frame));
    NonDecreasingAppended(AcceptedFrames(fates), frame);
  }

  lemma TimedByPushing(s: State, now: u64)
    requires Timed(s.clock, s.fates, s.producer) && Enabled(s, Produce(now)) && s.producer.Pushing?
    ensures var t := ProducerStep(s, now); Timed(t.clock, t.fates, t.producer)
  {
    if s.queue.Accepts() {
      TimedByAccepting(s.clock, s.fates, s.producer.frame);
    }
  }

  lemma SameAcceptedByProducer(s: State, now: u64)
    requires Enabled(s, Produce(now))
    requires s.producer.Pushing? ==> !s.queue.Accepts()
    ensures AcceptedFrames(ProducerStep(s, now).fates) == AcceptedFrames(s.fates)
  {
    DecidedIsAppended(s, now);
    if Decided(s).Some? {
      FateAppended(s.fates, Decided(s).value);
    }
  }

  lemma ClockByProducer(s: State, now: u64)
    requires Enabled(s, Produce(now)) && !s.producer.Pushing?
    requires s.producer.Locking? ==> HeldFrame(s.producer).value.captureTime == s.clock
    ensures var t := ProducerStep(s, now);
            && s.clock <= t.clock
            && (t.producer.Locking? || t.producer.Pushing? ==> HeldFrame(t.producer).value.captureTime == t.clock)
  {
  }

  lemma TimedByProducer(s: State, now: u64)
    requires Timed(s.clock, s.fates, s.producer) && Enabled(s, Produce(now))
    ensures var t := ProducerStep(s, now); Timed(t.clock, t.fates, t.producer)
  {
    if s.producer.Pushing? {
      TimedByPushing(s, now);
    } else {
      SameAcceptedByProducer(s, now);
      ClockByProducer(s, now);
    }
  }

  lemma ProducerKeepsInv(s: State, now: u64)
    requires Inv(s) && Enabled(s, Produce(now))
    ensures Inv(ProducerStep(s, now))
  {
    ProducerLeaves(s, now);
    LockHeldByProducer(s, now);
    CountedByProducer(s, now);
    InOrderByProducer(s, now);
    EventsSound(s);
    FaithfulByProducer(s, now);
    ReadSoFarByProducer(s, now);
    AwakeKept(s, Produce(now));
    EndingByProducer(s, now);
    WritableByProducer(s, now);
    NotifiedPrinting(s.consumer);
    TimedByProducer(s, now);
  }

  lemma NotifiedPrinting(c: Consumer)
    ensures Notified(c).Printing? <==> c.Printing?
    ensures c.Printing? ==> Notified(c) == c
  {
  }

  lemma ConsumerKeepsInv(s: State)
    requires Inv(s) && Enabled(s, Consume)
    ensures Inv(ConsumerStep(s))
  {
    ConsumerLeaves(s);
    LockHeldByConsumer(s);
    InOrderByConsumer(s);
    AwakeKept(s, Consume);
    EndingByConsumer(s);
    WritableByConsumer(s);
    RecordedByConsumer(s);
  }

  /** Every step of either thread, and every outside event, keeps the invariant. */
  lemma StepInv(s: State, a: Action)
    requires Inv(s) && Enabled(s, a)
    ensures Inv(Step(s, a))
  {
    match a
    case Produce(now) => ProducerKeepsInv(s, now);
    case Consume => ConsumerKeepsInv(s);
    case RequestStop =>
    case WakeSpuriously =>
  }

  /** A property that every step keeps holds at the end of every run. */
  lemma {:induction false} RunKeeps(p: State -> bool, s: State, schedule: seq<Action>)
    requires forall t: State, a: Action :: p(t) && Enabled(t, a) ==> p(Step(t, a))
    requires p(s) && Run(s, schedule).Some?
    ensures p(Run(s, schedule).value)
    decreases |schedule|
  {
    if schedule != [] {
      RunKeeps(p, Step(s, schedule[0]), schedule[1..]);
    }
  }

  /** Every reachable state, under every schedule, satisfies the invariant. */
  lemma RunInv(input: seq<InputLine>, capacity: nat, passthrough: bool, schedule: seq<Action>)
    requires Sound(input)
    requires Run(Init(input, capacity, passthrough), schedule).Some?
    ensures Inv(Run(Init(input, capacity, passthrough), schedule).value)
  {
    forall t: State, a: Action | Inv(t) && Enabled(t, a)
      ensures Inv(Step(t, a))
    {
      StepInv(t, a);
    }
    InitInv(input, capacity, passthrough);
    RunKeeps(Inv, Init(input, capacity, passthrough), schedule);
  }

  /** No wakeup is lost: in no reachable state does the consumer sleep, with no notification
      on its way, while there is a frame to take or the queue is closed. */
  lemma NoLostWakeup(input: seq<InputLine>, capacity: nat, passthrough: bool, schedule: seq<Action>)
    requires Sound(input)
    requires Run(Init(input, capacity, passthrough), schedule).Some?
    ensures var s := Run(Init(input, capacity, passthrough), schedule).value;
            s.consumer == Waiting && !s.producer.Notifying? && !s.producer.CloseNotifying? ==>
              s.queue.items == [] && !s.queue.closed
  {
    RunInv(input, capacity, passthrough, schedule);
  }

  // ----- Conservation -----

  lemma {:induction false} FatesAddUp(fates: seq<Fate>)
    ensures |fates| == |AcceptedFrames(fates)| + CountMalformed(fates) + CountDropped(fates)
  {
    if fates != [] {
      FatesAddUp(fates[..|fates| - 1]);
    }
  }

  /** At every moment of every run each counted event is in exactly one place, and accepted
      frames pass to the file in the order in which they arrived. */
  lemma EventsConserved(s: State)
    requires Inv(s)
    ensures s.seen == s.malformed + s.dropped + |s.written| + |s.queue.items| + |InHand(s.consumer)|
                      + (if HoldsEvent(s.producer) then 1 else 0)
    ensures s.written + InHand(s.consumer) + s.queue.items == AcceptedFrames(s.fates)
  {
    FatesAddUp(s.fates);
  }

  lemma {:induction false} AllAccepted(fates: seq<Fate>)
    requires CountMalformed(fates) == 0 && CountDropped(fates) == 0
    ensures |AcceptedFrames(fates)| == |fates|
    ensures forall i :: 0 <= i < |fates| ==> fates[i] == Accepted(AcceptedFrames(fates)[i])
  {
    if fates != [] {
      AllAccepted(fates[..|fates| - 1]);
    }
  }

  /** The frames are those of the events, one for one and in order, each stamped. */
  predicate Hold(frames: seq<RadioFrame>, events: seq<Option<RadioFrame>>) {
    && |frames| == |events|
    && forall i :: 0 <= i < |events| ==> events[i] == Some(Unstamped(frames[i]))
  }

  /** When both threads have finished, the queue is drained, the counters add up, and the
      command succeeds exactly if every event it saw is in the file. */
  lemma CompletionAccounts(s: State)
    requires Inv(s) && Finished(s)
    ensures s.queue.items == [] && s.written == AcceptedFrames(s.fates)
    ensures s.frameCount + s.malformed + s.dropped == s.seen == |s.events|
    ensures ExitsWithSuccess(s) <==> Hold(s.written, s.events)
    ensures !s.stop ==> s.events == FrameEvents(s.input)
    ensures s.printed == if s.passthrough then s.written else []
    ensures NonDecreasing(s.written) && AllFit(s.written)
  {
    FatesAddUp(s.fates);
    assert s.written + [] + [] == s.written;
    assert s.printed + [] == s.printed;
    SuccessMeansHeld(s.events, s.fates);
    if !s.stop {
      assert s.input[..|s.input|] == s.input;
    }
  }

  /** Nothing was malformed or dropped exactly if the accepted frames are those of all events. */
  lemma SuccessMeansHeld(events: seq<Option<RadioFrame>>, fates: seq<Fate>)
    requires Judged(events, fates) && |events| == |fates|
    ensures CountMalformed(fates) == 0 && CountDropped(fates) == 0 <==> Hold(AcceptedFrames(fates), events)
  {
    FatesAddUp(fates);
    if CountMalformed(fates) == 0 && CountDropped(fates) == 0 {
      AllAccepted(fates);
      forall i | 0 <= i < |events|
        ensures events[i] == Some(Unstamped(AcceptedFrames(fates)[i]))
      {
        assert FateOf(events[i], fates[i]);
      }
    }
  }

  // ----- Room in the queue -----

  /** The producer carries a frame that the queue has refused. */
  predicate Refused(p: Producer) {
    p.Dropping? || (p.Unlocking? && p.refused.Some?)
  }

  /** A push is refused if and only if the queue is full at that very step. */
  lemma RefusedExactlyWhenFull(s: State, now: u64)
    requires Inv(s) && s.producer.Pushing?
    ensures Enabled(s, Produce(now))
    ensures var t := ProducerStep(s, now);
            && (Refused(t.producer) <==> |s.queue.items| == s.queue.capacity)
            && t.queue.items == s.queue.items + (if Refused(t.producer) then [] else [s.producer.frame])
  {
  }

  lemma CapacityStays(s: State, a: Action)
    requires Enabled(s, a)
    ensures Step(s, a).queue.capacity == s.queue.capacity
  {
  }

  /** After a refusal, or with one in hand, at least `capacity` frames have been accepted. */
  predicate RefusedBehindFull(s: State) {
    Refused(s.producer) || s.dropped > 0 ==> |AcceptedFrames(s.fates)| >= s.queue.capacity
  }

  lemma AcceptedGrow(s: State, now: u64)
    requires Enabled(s, Produce(now))
    ensures |AcceptedFrames(ProducerStep(s, now).fates)| >= |AcceptedFrames(s.fates)|
  {
    DecidedIsAppended(s, now);
    if Decided(s).Some? {
      FateAppended(s.fates, Decided(s).value);
    }
  }

  lemma DroppingComesFromRefusal(s: State, now: u64)
    requires Enabled(s, Produce(now)) && !s.producer.Pushing?
    ensures var t := ProducerStep(s, now); Refused(t.producer) || t.dropped > 0 ==> Refused(s.producer) || s.dropped > 0
  {
  }

  lemma DroppedOnlyInDropping(s: State, now: u64)
    requires Enabled(s, Produce(now)) && s.producer.Pushing?
    ensures ProducerStep(s, now).dropped == s.dropped
  {
  }

  lemma RefusedBehindFullByStep(s: State, a: Action)
    requires Inv(s) && RefusedBehindFull(s) && Enabled(s, a)
    ensures RefusedBehindFull(Step(s, a))
  {
    CapacityStays(s, a);
    match a {
      case Produce(now) =>
        AcceptedGrow(s, now);
        if s.producer.Pushing? {
          RefusedExactlyWhenFull(s, now);
          DroppedOnlyInDropping(s, now);
        } else {
          DroppingComesFromRefusal(s, now);
        }
      case Consume => ConsumerLeaves(s);
      case _ =>
    }
  }

  /** In every run: frames are only dropped if the queue has been full, that is, if at least
      `capacity` frames were accepted before. So nothing is dropped if there are no more frame
      events than the queue has room for. */
  lemma DroppedOnlyBehindFullQueue(input: seq<InputLine>, capacity: nat, passthrough: bool, schedule: seq<Action>)
    requires Sound(input)
    requires Run(Init(input, capacity, passthrough), schedule).Some?
    ensures var s := Run(Init(input, capacity, passthrough), schedule).value;
            && s.queue.capacity == capacity && |s.queue.items| <= capacity
            && (s.dropped > 0 ==> |AcceptedFrames(s.fates)| >= capacity)
            && (|FrameEvents(input)| <= capacity ==> s.dropped == 0)
  {
    var start := Init(input, capacity, passthrough);
    InitInv(input, capacity, passthrough);
    RefusedBehindFullKept(start, schedule);
    var s := Run(start, schedule).value;
    FatesAddUp(s.fates);
    EventsWithinInput(s);
  }

  lemma {:induction false} RefusedBehindFullKept(s: State, schedule: seq<Action>)
    requires Inv(s) && RefusedBehindFull(s) && Run(s, schedule).Some?
    ensures var t := Run(s, schedule).value;
            Inv(t) && RefusedBehindFull(t) && t.queue.capacity == s.queue.capacity && t.input == s.input
    decreases |schedule|
  {
    if schedule != [] {
      StepInv(s, schedule[0]);
      RefusedBehindFullByStep(s, schedule[0]);
      CapacityStays(s, schedule[0]);
      InputStays(s, schedule[0]);
      RefusedBehindFullKept(Step(s, schedule[0]), schedule[1..]);
    }
  }

  lemma InputStays(s: State, a: Action)
    requires Enabled(s, a)
    ensures Step(s, a).input == s.input && Step(s, a).passthrough == s.passthrough
  {
    match a
    case Produce(now) => ProducerLeaves(s, now);
    case Consume => ConsumerLeaves(s);
    case _ =>
  }

  lemma EventsWithinInput(s: State)
    requires Inv(s)
    ensures |s.events| <= |FrameEvents(s.input)|
  {
    FrameEventsGrow(s.input, s.taken);
  }

  lemma {:induction false} FrameEventsGrow(lines: seq<InputLine>, n: nat)
    requires n <= |lines|
    ensures |FrameEvents(lines[..n])| <= |FrameEvents(lines)|
    decreases |lines| - n
  {
    if n == |lines| {
      assert lines[..n] == lines;
    } else {
      FrameEventsAppended(lines, n);
      FrameEventsGrow(lines, n + 1);
    }
  }

  // ----- Capture times -----

  /** The clock readings of a run's stamping steps. */
  function Readings(s: State, schedule: seq<Action>): seq<u64>
    requires Run(s, schedule).Some?
    decreases |schedule|
  {
    if schedule == [] then []
    else ReadingOf(s, schedule[0]) + Readings(Step(s, schedule[0]), schedule[1..])
  }

  function ReadingOf(s: State, a: Action): seq<u64> {
    if a.Produce? && s.producer.Stamping? then [a.now] else []
  }

  /** The capture times of all frames that were accepted or dropped, in order. */
  function Times(fates: seq<Fate>): seq<u64> {
    if fates == [] then []
    else
      var last := fates[|fates| - 1];
      Times(fates[..|fates| - 1]) + if last.Malformed? then [] else [last.frame.captureTime]
  }

  lemma TimesAppended(fates: seq<Fate>, fate: Fate)
    ensures Times(fates + [fate]) == Times(fates) + if fate.Malformed? then [] else [fate.frame.captureTime]
  {
    assert (fates + [fate])[..|fates|] == fates;
  }

  /** The time of the frame that is stamped but has no fate yet. */
  function TimeInHand(p: Producer): seq<u64> {
    match p
    case Locking(frame) => [frame.captureTime]
    case Pushing(frame) => [frame.captureTime]
    case Unlocking(Some(frame)) => [frame.captureTime]
    case Dropping(frame) => [frame.captureTime]
    case _ => []
  }

  function AllTimes(s: State): seq<u64> {
    Times(s.fates) + TimeInHand(s.producer)
  }

  lemma TimesByFate(s: State, now: u64)
    requires Enabled(s, Produce(now)) && Decided(s).Some?
    ensures AllTimes(ProducerStep(s, now)) == AllTimes(s) + ReadingOf(s, Produce(now))
  {
    var t, fate := ProducerStep(s, now), Decided(s).value;
    DecidedIsAppended(s, now);
    TimesAppended(s.fates, fate);
    HandByFate(s, now);
    PassedOn(Times(s.fates), TimeInHand(s.producer));
  }

  lemma PassedOn(front: seq<u64>, hand: seq<u64>)
    ensures front + hand + [] == front + hand
  {
  }

  lemma HandByFate(s: State, now: u64)
    requires Enabled(s, Produce(now)) && Decided(s).Some?
    ensures var fate := Decided(s).value;
            && TimeInHand(s.producer) == (if fate.Malformed? then [] else [fate.frame.captureTime])
            && TimeInHand(ProducerStep(s, now).producer) == [] && ReadingOf(s, Produce(now)) == []
  {
  }

  lemma TimesByProducer(s: State, now: u64)
    requires Enabled(s, Produce(now))
    ensures AllTimes(ProducerStep(s, now)) == AllTimes(s) + ReadingOf(s, Produce(now))
  {
    if Decided(s).Some? {
      TimesByFate(s, now);
    } else {
      DecidedIsAppended(s, now);
      HandByProducer(s, now);
    }
  }

  lemma HandByProducer(s: State, now: u64)
    requires Enabled(s, Produce(now)) && Decided(s) == None
    ensures TimeInHand(ProducerStep(s, now).producer) == TimeInHand(s.producer) + ReadingOf(s, Produce(now))
  {
  }

  /** In every run, the times of the frames accepted and dropped, and of the one in hand, are
      exactly the clock readings of the stamping steps, one each and in order. */
  lemma TimesAreReadings(input: seq<InputLine>, capacity: nat, passthrough: bool, schedule: seq<Action>)
    requires Run(Init(input, capacity, passthrough), schedule).Some?
    ensures var start := Init(input, capacity, passthrough);
            var s := Run(start, schedule).value;
            Times(s.fates) + TimeInHand(s.producer) == Readings(start, schedule)
  {
    var start := Init(input, capacity, passthrough);
    TimesAddReadings(start, schedule);
    assert AllTimes(start) == [];
  }

  lemma {:induction false} TimesAddReadings(s: State, schedule: seq<Action>)
    requires Run(s, schedule).Some?
    ensures AllTimes(Run(s, schedule).value) == AllTimes(s) + Readings(s, schedule)
    decreases |schedule|
  {
    if schedule != [] {
      var a := schedule[0];
      match a {
        case Produce(now) => TimesByProducer(s, now);
        case Consume => ConsumerLeaves(s);
        case _ =>
      }
      assert AllTimes(Step(s, a)) == AllTimes(s) + ReadingOf(s, a);
      TimesAddReadings(Step(s, a), schedule[1..]);
    }
  }

  // ----- Stop requests -----

  /** How many frames have been accepted or dropped. */
  function Disposed(s: State): nat {
    |Times(s.fates)|
  }

  /** Whether the producer can still dispose of a frame before it looks for a stop request. */
  function Outstanding(p: Producer): nat {
    match p
    case Reading => 1
    case Counting(_) => 1
    case Rejecting => 1
    case Stamping(_) => 1
    case Locking(_) => 1
    case Pushing(_) => 1
    case Unlocking(refused) => if refused.Some? then 1 else 0
    case Dropping(_) => 1
    case _ => 0
  }

  lemma DisposedByProducer(s: State, now: u64)
    requires Enabled(s, Produce(now)) && s.stop
    ensures var t := ProducerStep(s, now);
            t.stop && Disposed(t) + Outstanding(t.producer) <= Disposed(s) + Outstanding(s.producer)
  {
    DecidedIsAppended(s, now);
    ProducerLeaves(s, now);
    if Decided(s).Some? {
      TimesAppended(s.fates, Decided(s).value);
      OutstandingFate(s, now);
    } else {
      NothingDecided(s, now);
    }
  }

  lemma OutstandingFate(s: State, now: u64)
    requires Enabled(s, Produce(now)) && Decided(s).Some?
    ensures Outstanding(ProducerStep(s, now).producer) + (if Decided(s).value.Malformed? then 0 else 1)
            <= Outstanding(s.producer)
  {
  }

  lemma NothingDecided(s: State, now: u64)
    requires Enabled(s, Produce(now)) && Decided(s) == None && s.stop
    ensures Outstanding(ProducerStep(s, now).producer) <= Outstanding(s.producer)
  {
  }

  /** After a stop request, at most one more frame is accepted or dropped. */
  lemma {:induction false} StopEndsWithinOneFrame(s: State, schedule: seq<Action>)
    requires s.stop && Run(s, schedule).Some?
    ensures Disposed(Run(s, schedule).value) <= Disposed(s) + Outstanding(s.producer) <= Disposed(s) + 1
    ensures var t := Run(s, schedule).value;
            t.stop && Disposed(t) + Outstanding(t.producer) <= Disposed(s) + Outstanding(s.producer)
    decreases |schedule|
  {
    if schedule != [] {
      match schedule[0] {
        case Produce(now) => DisposedByProducer(s, now);
        case Consume => ConsumerLeaves(s);
        case _ =>
      }
      StopEndsWithinOneFrame(Step(s, schedule[0]), schedule[1..]);
    }
  }

  predicate ClosingUp(p: Producer) {
    p in {CloseLocking, Closing, CloseNotifying, CloseUnlocking, ProducerDone}
  }

  predicate BehindFrame(s: State) {
    0 < s.taken <= |s.input| && s.input[s.taken - 1].Event? && s.input[s.taken - 1].parsed.Some?
  }

  /** While a frame is under way, and when the producer has stopped before the end of the
      input, the line read last is that of a frame that parsed. */
  predicate StopsBehindFrame(s: State) {
    match s.producer
    case Reading => true
    case Counting(parsed) => 0 < s.taken <= |s.input| && s.input[s.taken - 1] == Event(parsed)
    case Rejecting => true
    case _ => BehindFrame(s) || (ClosingUp(s.producer) && s.taken >= |s.input|)
  }

  lemma StopsBehindFrameByStep(s: State, a: Action)
    requires StopsBehindFrame(s) && Enabled(s, a)
    ensures StopsBehindFrame(Step(s, a))
  {
    match a
    case Produce(now) =>
    case Consume => ConsumerLeaves(s);
    case _ =>
  }

  /** In every run, a stop request takes effect only behind a frame that parsed: malformed
      events and other lines are passed over without looking for it. */
  lemma StopWaitsForFrame(input: seq<InputLine>, capacity: nat, passthrough: bool, schedule: seq<Action>)
    requires Run(Init(input, capacity, passthrough), schedule).Some?
    ensures var s := Run(Init(input, capacity, passthrough), schedule).value;
            ClosingUp(s.producer) ==> BehindFrame(s) || s.taken >= |s.input|
  {
    StopsBehindFrameKept(Init(input, capacity, passthrough), schedule);
  }

  lemma {:induction false} StopsBehindFrameKept(s: State, schedule: seq<Action>)
    requires StopsBehindFrame(s) && Run(s, schedule).Some?
    ensures StopsBehindFrame(Run(s, schedule).value)
    decreases |schedule|
  {
    if schedule != [] {
      StopsBehindFrameByStep(s, schedule[0]);
      StopsBehindFrameKept(Step(s, schedule[0]), schedule[1..]);
    }
  }

  // ----- Progress and termination -----

  /** No reachable state is stuck: until both threads are done, one of them can step. */
  lemma NeverStuck(s: State)
    requires Inv(s) && !Finished(s)
    ensures Enabled(s, Consume) || Enabled(s, Produce(s.clock))
  {
    if s.producer == ProducerDone {
      assert s.consumer != Waiting && s.consumer != WriteFailed && s.consumer != ConsumerDone;
      assert s.owner != Some(ProducerThread);
      assert s.consumer in {Acquiring, Woken} ==> s.owner != Some(ConsumerThread);
      OwnerCases(s.owner);
    } else if s.owner == Some(ConsumerThread) {
      assert s.consumer.Checking? || s.consumer.Taking? || s.consumer.Releasing?;
    } else {
      assert s.producer.Locking? || s.producer.CloseLocking? ==> s.owner != Some(ProducerThread);
      OwnerCases(s.owner);
    }
  }

  lemma OwnerCases(owner: Option<Thread>)
    ensures owner == None || owner == Some(ProducerThread) || owner == Some(ConsumerThread)
  {
    match owner
    case None =>
    case Some(ProducerThread) =>
    case Some(ConsumerThread) =>
  }

  function ProducerRank(p: Producer): nat {
    match p
    case ProducerDone => 0
    case CloseUnlocking => 1
    case CloseNotifying => 5
    case Closing => 6
    case CloseLocking => 7
    case Reading => 8
    case Rejecting => 9
    case CheckingStop => 9
    case Dropping(_) => 10
    case Unlocking(_) => 11
    case Notifying => 15
    case Pushing(_) => 22
    case Locking(_) => 23
    case Stamping(_) => 24
    case Counting(_) => 25
  }

  function ConsumerRank(c: Consumer): nat {
    match c
    case ConsumerDone => 0
    case WriteFailed => 0
    case Flushing => 1
    case Joining => 2
    case Waiting => 3
    case Taking => 4
    case Checking => 5
    case Acquiring => 6
    case Woken => 6
    case Printing(_) => 7
    case Writing(_) => 8
    case Releasing(got) => if got == None then 3 else 9
  }

  /** A bound on the steps that are left, spurious wakeups aside. */
  function Rank(s: State): nat
    requires s.taken <= |s.input|
  {
    18 * (|s.input| - s.taken) + ProducerRank(s.producer) + ConsumerRank(s.consumer) + 6 * |s.queue.items|
    + if s.stop then 0 else 1
  }

  lemma ProducerLowersRank(s: State, now: u64)
    requires s.taken <= |s.input| && Enabled(s, Produce(now))
    ensures ProducerStep(s, now).taken <= |s.input|
    ensures Rank(ProducerStep(s, now)) < Rank(s)
  {
    ProducerLeaves(s, now);
  }

  lemma ConsumerLowersRank(s: State)
    requires s.taken <= |s.input| && Enabled(s, Consume)
    ensures ConsumerStep(s).taken == s.taken && ConsumerStep(s).input == s.input
    ensures Rank(ConsumerStep(s)) < Rank(s)
  {
    ConsumerLeaves(s);
  }

  /** Every step lowers the rank, except that a spurious wakeup raises it by three. */
  lemma StepLowersRank(s: State, a: Action)
    requires s.taken <= |s.input| && Enabled(s, a)
    ensures Step(s, a).taken <= |Step(s, a).input|
    ensures a != WakeSpuriously ==> Rank(Step(s, a)) < Rank(s)
    ensures a == WakeSpuriously ==> Rank(Step(s, a)) == Rank(s) + 3
  {
    match a
    case Produce(now) =>
      ProducerLeaves(s, now);
      ProducerLowersRank(s, now);
    case Consume => ConsumerLowersRank(s);
    case _ =>
  }

  function SpuriousWakes(schedule: seq<Action>): nat {
    if schedule == [] then 0 else (if schedule[0] == WakeSpuriously then 1 else 0) + SpuriousWakes(schedule[1..])
  }

  /** No run goes on for ever: its length is bounded by the input and its spurious wakeups. */
  lemma {:induction false} RunsAreBounded(s: State, schedule: seq<Action>)
    requires s.taken <= |s.input| && Run(s, schedule).Some?
    ensures |schedule| <= Rank(s) + 4 * SpuriousWakes(schedule)
    decreases |schedule|
  {
    if schedule != [] {
      StepLowersRank(s, schedule[0]);
      RunsAreBounded(Step(s, schedule[0]), schedule[1..]);
    }
  }

  lemma {:induction false} RunsCompose(s: State, first: seq<Action>, second: seq<Action>)
    requires Run(s, first).Some?
    ensures Run(s, first + second) == Run(Run(s, first).value, second)
    decreases |first|
  {
    if first == [] {
      assert first + second == second;
    } else {
      assert (first + second)[1..] == first[1..] + second;
      RunsCompose(Step(s, first[0]), first[1..], second);
    }
  }

  /** From every reachable state the two threads can run to their end. */
  lemma {:induction false} CanFinish(s: State) returns (schedule: seq<Action>)
    requires Inv(s)
    ensures Run(s, schedule).Some? && Finished(Run(s, schedule).value)
    decreases Rank(s)
  {
    if Finished(s) {
      return [];
    }
    NeverStuck(s);
    var a := if Enabled(s, Consume) then Consume else Produce(s.clock);
    StepInv(s, a);
    StepLowersRank(s, a);
    var rest := CanFinish(Step(s, a));
    schedule := [a] + rest;
    assert schedule[1..] == rest;
  }

  /** Every run, however far it has got, can be continued until both threads are done. */
  lemma EveryRunCanFinish(input: seq<InputLine>, capacity: nat, passthrough: bool, schedule: seq<Action>)
    returns (rest: seq<Action>)
    requires Sound(input) && Run(Init(input, capacity, passthrough), schedule).Some?
    ensures var run := Run(Init(input, capacity, passthrough), schedule + rest); run.Some? && Finished(run.value)
  {
    var s := Init(input, capacity, passthrough);
    RunInv(input, capacity, passthrough, schedule);
    rest := CanFinish(Run(s, schedule).value);
    RunsCompose(s, schedule, rest);
  }
}
