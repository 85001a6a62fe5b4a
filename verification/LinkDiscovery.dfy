/** How the bridge finds its link: frames go to the aggregator of a configured channel, or to
    candidate aggregators until one of them authenticates a session. Aggregators are oracles:
    all that is known of one is that its session count may grow when it is handed a frame. */
module LinkDiscovery {
  import opened Numbers
  import opened Frames
  import opened FrameText
  import opened RtpPackets

  type u24 = x: int | 0 <= x < 0x100_0000

  const MAXIMUM_CANDIDATES: nat := 8
  /** The first body byte of a session packet. */
  const SESSION: u8 := 2

  // ----- Channels -----

  datatype ChannelIdentity = ChannelIdentity(channel: u32, link: u24, port: u8)

  function IdentityOf(source: Address): Option<ChannelIdentity> {
    if source[0] != 0x57 || source[1] != 0x42 then None
    else
      var channel := Word32(source[2], source[3], source[4], source[5]);
      Some(ChannelIdentity(channel, channel / 0x100, channel % 0x100))
  }

  function ChannelOf(link: u24, port: u8): u32 {
    link * 0x100 + port
  }

  function SourceOf(link: u24, port: u8): Address {
    [0x57, 0x42] + Bytes32(ChannelOf(link, port))
  }

  /** Source addresses of a link and a port are exactly those of the form that encodes them. */
  lemma IdentityInvertsSource(source: Address, link: u24, port: u8)
    ensures IdentityOf(source) == Some(ChannelIdentity(ChannelOf(link, port), link, port))
            <==> source == SourceOf(link, port)
  {
    SplitChannel(link, port);
    if source[0] == 0x57 && source[1] == 0x42 {
      Bytes32OfWord32(source[2], source[3], source[4], source[5]);
      assert source == [0x57, 0x42] + [source[2], source[3], source[4], source[5]];
    }
  }

  /** A source address of the WFB prefix is that of a channel with its high octet first; the low
      octet is the radio port and the other three are the link. */
  lemma IdentityInOctets(source: Address)
    ensures IdentityOf(source).Some? <==> source[0] == 0x57 && source[1] == 0x42
    ensures IdentityOf(source).Some? ==>
              var id, link := IdentityOf(source).value, ((source[2] as int) * 256 + source[3]) * 256 + source[4];
              id.channel == link * 256 + source[5] && id.link == link && id.port == source[5]
  {
  }

  lemma SourceInOctets(link: u24, port: u8)
    ensures SourceOf(link, port) == [0x57, 0x42, link / 65536, link / 256 % 256, link % 256, port]
  {
    var source := [0x57, 0x42, link / 65536, link / 256 % 256, link % 256, port];
    assert (link / 65536 * 256 + link / 256 % 256) * 256 + link % 256 == link;
    IdentityInOctets(source);
    SplitChannel(link, port);
    IdentityInvertsSource(source, link, port);
  }

  lemma SplitChannel(link: u24, port: u8)
    ensures ChannelOf(link, port) / 0x100 == link && ChannelOf(link, port) % 0x100 == port
  {
  }

  lemma JoinChannel(channel: u32)
    ensures ChannelOf(channel / 0x100, channel % 0x100) == channel
  {
  }

  // ----- State and steps -----

  /** Without a link the bridge discovers one. */
  datatype Options = Options(link: Option<u24>, port: u8, acceptAny: bool)

  datatype Aggregator = Aggregator(channel: u32, sessions: nat)

  /** A frame with a channel: the one its source address encodes, or the one whose aggregator
      it is handed to. */
  datatype Sent = Sent(channel: u32, frame: RadioFrame)

  /** An input line, and how many sessions an aggregator gains if it is handed the frame. */
  datatype Input = Input(line: InputLine, growth: nat)

  /** `handed` and `announced` record history: the frames handed to aggregators, and the link
      selections reported. */
  datatype State = State(
    selected: Option<Aggregator>, candidates: map<u32, Aggregator>,
    malformed: nat, filtered: nat, wifiFrames: nat, limitDrops: nat,
    handed: seq<Sent>, announced: seq<ChannelIdentity>)

  function Init(options: Options): State {
    match options.link
    case None => State(None, map[], 0, 0, 0, 0, [], [])
    case Some(link) =>
      var channel := ChannelOf(link, options.port);
      State(Some(Aggregator(channel, 0)), map[], 0, 0, 0, 0, [], [ChannelIdentity(channel, link, options.port)])
  }

  /** The frame of a line and its channel, if the line parses, the frame is longer than its
      checksum, and its source address is that of a channel. */
  function Sender(line: InputLine): Option<Sent> {
    match line
    case Event(Some(frame)) =>
      if |frame.body| <= 4 then None
      else
        (match IdentityOf(frame.source)
         case None => None
         case Some(id) => Some(Sent(id.channel, frame)))
    case _ => None
  }

  /** A line is sent on the channel of a link and a port exactly if it is an event whose frame
      is longer than its checksum and comes from the source address of the two. */
  lemma SentOnLink(line: InputLine, link: u24, port: u8)
    ensures Sender(line).Some? && Sender(line).value.channel == link * 256 + port
            <==> line.Event? && line.parsed.Some? && |line.parsed.value.body| > 4
                 && line.parsed.value.source == [0x57, 0x42, link / 65536, link / 256 % 256, link % 256, port]
    ensures Sender(line).Some? ==> line == Event(Some(Sender(line).value.frame))
  {
    if line.Event? && line.parsed.Some? {
      IdentityInvertsSource(line.parsed.value.source, link, port);
      SplitChannel(link, port);
      SourceInOctets(link, port);
    }
  }

  predicate IsSession(frame: RadioFrame) {
    frame.body != [] && frame.body[0] == SESSION
  }

  function Step(options: Options, s: State, input: Input): State {
    match input.line
    case Other => s
    case Event(None) => s.(malformed := s.malformed + 1)
    case Event(Some(frame)) =>
      if |frame.body| <= 4 then s.(malformed := s.malformed + 1)
      else
        match IdentityOf(frame.source)
        case None => s.(filtered := s.filtered + 1)
        case Some(id) => Routed(options, s.(wifiFrames := s.wifiFrames + 1), id, frame, input.growth)
  }

  function Routed(options: Options, s: State, id: ChannelIdentity, frame: RadioFrame, growth: nat): State {
    if options.link == None && id.port != options.port then s.(filtered := s.filtered + 1)
    else
      match s.selected
      case Some(a) =>
        if !options.acceptAny && id.channel != a.channel then s.(filtered := s.filtered + 1)
        else s.(handed := s.handed + [Sent(a.channel, frame)], selected := Some(a.(sessions := a.sessions + growth)))
      case None =>
        if id.channel in s.candidates then Tried(s, s.candidates[id.channel], id, frame, growth)
        else if !IsSession(frame) then s.(filtered := s.filtered + 1)
        else if |s.candidates| >= MAXIMUM_CANDIDATES then s.(limitDrops := s.limitDrops + 1)
        else Tried(s, Aggregator(id.channel, 0), id, frame, growth)
  }

  /** A candidate is handed a frame, and selected if it has authenticated a session. */
  function Tried(s: State, a: Aggregator, id: ChannelIdentity, frame: RadioFrame, growth: nat): State {
    var grown := a.(sessions := a.sessions + growth);
    var t := s.(handed := s.handed + [Sent(a.channel, frame)]);
    if grown.sessions > 0 then t.(selected := Some(grown), candidates := map[], announced := s.announced + [id])
    else t.(candidates := s.candidates[id.channel := grown])
  }

  function Run(options: Options, inputs: seq<Input>): State {
    if inputs == [] then Init(options)
    else Step(options, Run(options, inputs[..|inputs| - 1]), inputs[|inputs| - 1])
  }

  // ----- Accounting -----

  function CountEvents(inputs: seq<Input>): nat {
    if inputs == [] then 0
    else CountEvents(inputs[..|inputs| - 1]) + if inputs[|inputs| - 1].line.Event? then 1 else 0
  }

  /** An event that does not parse, or whose frame is no longer than its checksum. */
  predicate Unusable(line: InputLine) {
    line.Event? && (line.parsed.None? || |line.parsed.value.body| <= 4)
  }

  function CountUnusable(inputs: seq<Input>): nat {
    if inputs == [] then 0
    else CountUnusable(inputs[..|inputs| - 1]) + if Unusable(inputs[|inputs| - 1].line) then 1 else 0
  }

  /** All frames that were sent on some channel, in order. */
  function AllSent(inputs: seq<Input>): seq<Sent> {
    if inputs == [] then []
    else
      match Sender(inputs[|inputs| - 1].line)
      case None => AllSent(inputs[..|inputs| - 1])
      case Some(sent) => AllSent(inputs[..|inputs| - 1]) + [sent]
  }

  function Tally(s: State): nat {
    s.malformed + s.filtered + s.limitDrops + |s.handed|
  }

  /** A line without a sender changes counters only; a sent frame is routed by its channel. */
  lemma StepBySender(options: Options, s: State, input: Input)
    ensures var t := Step(options, s, input);
            match Sender(input.line)
            case None =>
              && t.selected == s.selected && t.candidates == s.candidates
              && t.handed == s.handed && t.announced == s.announced && t.wifiFrames == s.wifiFrames
              && t.malformed == s.malformed + (if Unusable(input.line) then 1 else 0)
              && Tally(t) == Tally(s) + if input.line.Event? then 1 else 0
            case Some(sent) =>
              input.line.Event? && !Unusable(input.line) && t == RoutedByChannel(options, s, sent, input.growth)
  {
  }

  function RoutedByChannel(options: Options, s: State, sent: Sent, growth: nat): State {
    Routed(options, s.(wifiFrames := s.wifiFrames + 1),
           ChannelIdentity(sent.channel, sent.channel / 0x100, sent.channel % 0x100), sent.frame, growth)
  }

  lemma RoutedAddsUp(options: Options, s: State, sent: Sent, growth: nat)
    ensures var t := RoutedByChannel(options, s, sent, growth);
            Tally(t) == Tally(s) + 1 && t.wifiFrames == s.wifiFrames + 1 && t.malformed == s.malformed
  {
  }

  /** Every frame event is counted once, or handed to an aggregator. The malformed ones are
      exactly those that are unusable. */
  lemma {:induction false} EventsAddUp(options: Options, inputs: seq<Input>)
    ensures var s := Run(options, inputs);
            && CountEvents(inputs) == s.malformed + s.filtered + s.limitDrops + |s.handed|
            && s.malformed == CountUnusable(inputs) && s.wifiFrames == |AllSent(inputs)|
  {
    if inputs != [] {
      var front, last := inputs[..|inputs| - 1], inputs[|inputs| - 1];
      var s := Run(options, front);
      EventsAddUp(options, front);
      StepBySender(options, s, last);
      if Sender(last.line).Some? {
        RoutedAddsUp(options, s, Sender(last.line).value, last.growth);
      }
      assert Tally(Run(options, inputs)) == Tally(s) + if last.line.Event? then 1 else 0;
    }
  }

  // ----- A configured link -----

  /** The frames of one channel, in order. */
  function On(sent: seq<Sent>, channel: u32): seq<RadioFrame> {
    if sent == [] then []
    else
      var last := sent[|sent| - 1];
      On(sent[..|sent| - 1], channel) + if last.channel == channel then [last.frame] else []
  }

  lemma OnAppended(sent: seq<Sent>, last: Sent, channel: u32)
    ensures On(sent + [last], channel) == On(sent, channel) + if last.channel == channel then [last.frame] else []
  {
    assert (sent + [last])[..|sent|] == sent;
  }

  lemma AllSentAppended(inputs: seq<Input>, channel: u32)
    requires inputs != []
    ensures var front, last := inputs[..|inputs| - 1], Sender(inputs[|inputs| - 1].line);
            On(AllSent(inputs), channel) ==
              On(AllSent(front), channel)
              + if last.Some? && last.value.channel == channel then [last.value.frame] else []
  {
    var last := Sender(inputs[|inputs| - 1].line);
    if last.Some? {
      OnAppended(AllSent(inputs[..|inputs| - 1]), last.value, channel);
    }
  }

  /** A configured link is selected from the start and for good. */
  lemma {:induction false} ConfiguredStaysSelected(options: Options, inputs: seq<Input>)
    requires options.link.Some?
    ensures var s := Run(options, inputs);
            var channel := options.link.value * 256 + options.port;
            && s.selected.Some? && s.selected.value.channel == channel
            && s.announced == [ChannelIdentity(channel, options.link.value, options.port)]
            && s.candidates == map[] && s.limitDrops == 0
  {
    if inputs != [] {
      ConfiguredStaysSelected(options, inputs[..|inputs| - 1]);
    }
  }

  predicate AllOn(sent: seq<Sent>, channel: u32) {
    forall i :: 0 <= i < |sent| ==> sent[i].channel == channel
  }

  /** Exactly these frames, all of one channel, have been handed over. */
  predicate Serves(handed: seq<Sent>, channel: u32, frames: seq<RadioFrame>) {
    AllOn(handed, channel) && On(handed, channel) == frames
  }

  lemma ServesRouted(options: Options, s: State, sent: Sent, growth: nat, frames: seq<RadioFrame>)
    requires options.link.Some? && !options.acceptAny && s.selected.Some?
    requires Serves(s.handed, s.selected.value.channel, frames)
    ensures Serves(RoutedByChannel(options, s, sent, growth).handed, s.selected.value.channel,
                   frames + if sent.channel == s.selected.value.channel then [sent.frame] else [])
  {
    OnAppended(s.handed, sent, s.selected.value.channel);
    assert frames + [] == frames;
  }

  /** With a configured link, exactly the frames of its channel are handed over. */
  lemma {:induction false} ConfiguredHandsItsChannel(options: Options, inputs: seq<Input>)
    requires options.link.Some? && !options.acceptAny
    ensures var channel := ChannelOf(options.link.value, options.port);
            Serves(Run(options, inputs).handed, channel, On(AllSent(inputs), channel))
  {
    if inputs != [] {
      var front, last := inputs[..|inputs| - 1], inputs[|inputs| - 1];
      var channel := ChannelOf(options.link.value, options.port);
      ConfiguredHandsItsChannel(options, front);
      ConfiguredStaysSelected(options, front);
      AllSentAppended(inputs, channel);
      StepBySender(options, Run(options, front), last);
      if Sender(last.line).Some? {
        ServesRouted(options, Run(options, front), Sender(last.line).value, last.growth, On(AllSent(front), channel));
      }
    }
  }

  function FramesOf(sent: seq<Sent>): seq<RadioFrame> {
    if sent == [] then [] else FramesOf(sent[..|sent| - 1]) + [sent[|sent| - 1].frame]
  }

  lemma FramesOfAppended(sent: seq<Sent>, last: Sent)
    ensures FramesOf(sent + [last]) == FramesOf(sent) + [last.frame]
  {
    assert (sent + [last])[..|sent|] == sent;
  }

  lemma AcceptAnyRouted(options: Options, s: State, sent: Sent, growth: nat, frames: seq<RadioFrame>)
    requires options.link.Some? && options.acceptAny && s.selected.Some?
    requires Serves(s.handed, s.selected.value.channel, frames)
    ensures Serves(RoutedByChannel(options, s, sent, growth).handed, s.selected.value.channel, frames + [sent.frame])
  {
    OnAppended(s.handed, Sent(s.selected.value.channel, sent.frame), s.selected.value.channel);
  }

  /** With a configured link that accepts any channel, its aggregator is handed every sent
      frame. */
  lemma {:induction false} AcceptAnyHandsEverything(options: Options, inputs: seq<Input>)
    requires options.link.Some? && options.acceptAny
    ensures Serves(Run(options, inputs).handed, ChannelOf(options.link.value, options.port), FramesOf(AllSent(inputs)))
  {
    if inputs != [] {
      var front, last := inputs[..|inputs| - 1], inputs[|inputs| - 1];
      AcceptAnyHandsEverything(options, front);
      ConfiguredStaysSelected(options, front);
      StepBySender(options, Run(options, front), last);
      if Sender(last.line).Some? {
        FramesOfAppended(AllSent(front), Sender(last.line).value);
        AcceptAnyRouted(options, Run(options, front), Sender(last.line).value, last.growth, FramesOf(AllSent(front)));
      }
    }
  }

  // ----- Discovery -----

  predicate IsCandidate(options: Options, channel: u32, a: Aggregator) {
    a == Aggregator(channel, 0) && channel % 0x100 == options.port
  }

  /** Before selection: at most eight candidates, all on the configured port and without an
      authenticated session. From selection on: no candidates, one authenticated link. */
  predicate Safe(options: Options, s: State) {
    match s.selected
    case None =>
      && s.announced == [] && |s.candidates| <= 8
      && forall c :: c in s.candidates ==> IsCandidate(options, c, s.candidates[c])
    case Some(a) =>
      && s.candidates == map[]
      && a.sessions > 0 && a.channel % 0x100 == options.port
      && s.announced == [ChannelIdentity(a.channel, a.channel / 0x100, options.port)]
  }

  lemma SafeByTrying(options: Options, s: State, a: Aggregator, id: ChannelIdentity, frame: RadioFrame, growth: nat)
    requires Safe(options, s) && s.selected == None && IsCandidate(options, id.channel, a)
    requires id.channel in s.candidates || |s.candidates| < MAXIMUM_CANDIDATES
    requires id == ChannelIdentity(id.channel, id.channel / 0x100, options.port)
    ensures Safe(options, Tried(s, a, id, frame, growth))
  {
    var t := Tried(s, a, id, frame, growth);
    if t.selected == None {
      assert t.candidates.Keys == s.candidates.Keys + {id.channel};
      if id.channel in s.candidates {
        assert t.candidates.Keys == s.candidates.Keys;
      }
    }
  }

  lemma SafeByStep(options: Options, s: State, input: Input)
    requires options.link == None && Safe(options, s)
    ensures Safe(options, Step(options, s, input))
  {
    if Sender(input.line).Some? && s.selected == None {
      var sent := Sender(input.line).value;
      var c := sent.channel;
      var a := if c in s.candidates then s.candidates[c] else Aggregator(c, 0);
      if c % 0x100 == options.port && (c in s.candidates || |s.candidates| < MAXIMUM_CANDIDATES) {
        SafeByTrying(options, s.(wifiFrames := s.wifiFrames + 1), a, ChannelIdentity(c, c / 0x100, options.port),
                     sent.frame, input.growth);
      }
    }
  }

  /** Every discovery run is safe at every moment. */
  lemma {:induction false} DiscoveryIsSafe(options: Options, inputs: seq<Input>)
    requires options.link == None
    ensures Safe(options, Run(options, inputs))
  {
    if inputs != [] {
      DiscoveryIsSafe(options, inputs[..|inputs| - 1]);
      SafeByStep(options, Run(options, inputs[..|inputs| - 1]), inputs[|inputs| - 1]);
    }
  }

  lemma RunAppended(options: Options, inputs: seq<Input>, input: Input)
    ensures Run(options, inputs + [input]) == Step(options, Run(options, inputs), input)
  {
    assert (inputs + [input])[..|inputs|] == inputs;
  }

  /** A selected link is never given up or changed, and selection is reported only once. */
  lemma {:induction false} SelectionIsFinal(options: Options, inputs: seq<Input>, more: seq<Input>)
    requires Run(options, inputs).selected.Some?
    ensures var s, t := Run(options, inputs), Run(options, inputs + more);
            && t.selected.Some? && t.selected.value.channel == s.selected.value.channel
            && t.announced == s.announced
    decreases |more|
  {
    if more == [] {
      assert inputs + more == inputs;
    } else {
      var n := |more| - 1;
      var front := inputs + more[..n];
      SelectionIsFinal(options, inputs, more[..n]);
      assert inputs + more == front + [more[n]];
      RunAppended(options, front, more[n]);
      SelectionKept(options, Run(options, front), more[n]);
    }
  }

  lemma SelectionKept(options: Options, s: State, input: Input)
    requires s.selected.Some?
    ensures var t := Step(options, s, input);
            && t.selected.Some? && t.selected.value.channel == s.selected.value.channel
            && t.announced == s.announced
  {
    StepBySender(options, s, input);
  }

  lemma StepKeepsSlots(options: Options, s: State, input: Input)
    ensures Step(options, s, input).selected == None ==>
              s.selected == None && s.candidates.Keys <= Step(options, s, input).candidates.Keys
  {
    StepBySender(options, s, input);
  }

  /** In every run, channels keep the slots they have for as long as no link is selected. */
  lemma {:induction false} CandidatesStay(options: Options, inputs: seq<Input>, more: seq<Input>)
    requires Run(options, inputs + more).selected == None
    ensures Run(options, inputs).selected == None
    ensures Run(options, inputs).candidates.Keys <= Run(options, inputs + more).candidates.Keys
    decreases |more|
  {
    if more == [] {
      assert inputs + more == inputs;
    } else {
      var n := |more| - 1;
      var front := inputs + more[..n];
      assert inputs + more == front + [more[n]];
      RunAppended(options, front, more[n]);
      StepKeepsSlots(options, Run(options, front), more[n]);
      CandidatesStay(options, inputs, more[..n]);
    }
  }

  // ----- Discovery against a configured link -----

  /** The frames from the first session packet on. */
  function FromFirstSession(frames: seq<RadioFrame>): seq<RadioFrame> {
    if frames == [] || IsSession(frames[0]) then frames else FromFirstSession(frames[1..])
  }

  /** It is the suffix that starts at the first session packet. */
  lemma {:induction false} FromFirstSessionIsSuffix(frames: seq<RadioFrame>)
    ensures var rest := FromFirstSession(frames);
            && |rest| <= |frames|
            && frames[|frames| - |rest|..] == rest
            && (forall i :: 0 <= i < |frames| - |rest| ==> !IsSession(frames[i]))
            && (rest == [] || IsSession(rest[0]))
  {
    if frames != [] && !IsSession(frames[0]) {
      FromFirstSessionIsSuffix(frames[1..]);
    }
  }

  lemma {:induction false} FromFirstSessionAppended(frames: seq<RadioFrame>, last: RadioFrame)
    ensures FromFirstSession(frames + [last]) ==
              if FromFirstSession(frames) != [] || IsSession(last) then FromFirstSession(frames) + [last] else []
  {
    var all := frames + [last];
    if frames == [] {
      assert all[1..] == [];
    } else if IsSession(frames[0]) {
    } else {
      assert all[1..] == frames[1..] + [last];
      FromFirstSessionAppended(frames[1..], last);
    }
  }

  /** How a discovery run treats a channel on its port: it hands over everything since the
      channel's first session packet, or nothing so far. */
  predicate Tracks(options: Options, s: State, channel: u32, sent: seq<RadioFrame>) {
    if channel in s.candidates || (!options.acceptAny && s.selected.Some? && s.selected.value.channel == channel) then
      On(s.handed, channel) == FromFirstSession(sent) != []
    else if s.selected == None then
      && On(s.handed, channel) == []
      && (|s.candidates| < MAXIMUM_CANDIDATES ==> FromFirstSession(sent) == [])
    else true
  }

  /** Routing a frame of another channel. */
  lemma TracksByOther(options: Options, s: State, last: Sent, growth: nat, channel: u32, sent: seq<RadioFrame>)
    requires options.link == None && Safe(options, s) && Tracks(options, s, channel, sent)
    requires last.channel != channel
    ensures Tracks(options, RoutedByChannel(options, s, last, growth), channel, sent)
  {
    SlotsByOther(options, s, last, growth, channel);
    HandedByOther(options, s, last, growth, channel);
    if s.selected.Some? {
      SelectedStays(options, s, last, growth);
    }
  }

  /** No aggregator of this channel is handed another channel's frame, unless any is accepted. */
  lemma HandedByOther(options: Options, s: State, last: Sent, growth: nat, channel: u32)
    requires options.link == None && Safe(options, s) && last.channel != channel
    ensures var t := RoutedByChannel(options, s, last, growth);
            && (s.selected == None || !options.acceptAny ==> On(t.handed, channel) == On(s.handed, channel))
            && (t.selected.Some? && t.selected.value.channel == channel ==> s.selected.Some?)
  {
    OnAppended(s.handed, last, channel);
  }

  lemma SelectedStays(options: Options, s: State, last: Sent, growth: nat)
    requires s.selected.Some?
    ensures var t := RoutedByChannel(options, s, last, growth);
            && t.selected.Some? && t.selected.value.channel == s.selected.value.channel
            && t.candidates == s.candidates
  {
  }

  /** Another channel's frame neither frees slots nor gives this channel one. */
  lemma SlotsByOther(options: Options, s: State, last: Sent, growth: nat, channel: u32)
    requires options.link == None && last.channel != channel
    ensures var t := RoutedByChannel(options, s, last, growth);
            t.selected == None ==>
              && |t.candidates| >= |s.candidates|
              && (channel in t.candidates <==> channel in s.candidates)
  {
    var t := RoutedByChannel(options, s, last, growth);
    if t.selected == None {
      MoreKeys(s.candidates, t.candidates);
    }
  }

  lemma MoreKeys<K, V>(m: map<K, V>, n: map<K, V>)
    requires m.Keys <= n.Keys
    ensures |m| <= |n|
  {
    SubsetIsSmaller(m.Keys, n.Keys);
  }

  lemma SubsetIsSmaller<K>(a: set<K>, b: set<K>)
    requires a <= b
    ensures |a| <= |b|
  {
    assert b == a + (b - a);
  }

  lemma TracksBySent(options: Options, s: State, last: Sent, growth: nat, sent: seq<RadioFrame>)
    requires options.link == None && Safe(options, s) && Tracks(options, s, last.channel, sent)
    requires last.channel % 0x100 == options.port
    ensures Tracks(options, RoutedByChannel(options, s, last, growth), last.channel, sent + [last.frame])
  {
    OnAppended(s.handed, last, last.channel);
    FromFirstSessionAppended(sent, last.frame);
  }

  lemma NothingTracked(options: Options, channel: u32)
    requires options.link == None
    ensures Tracks(options, Init(options), channel, [])
  {
  }

  lemma {:induction false} DiscoveryTracks(options: Options, inputs: seq<Input>, channel: u32)
    requires options.link == None && channel % 0x100 == options.port
    ensures Tracks(options, Run(options, inputs), channel, On(AllSent(inputs), channel))
  {
    if inputs == [] {
      NothingTracked(options, channel);
    } else {
      var front, last := inputs[..|inputs| - 1], inputs[|inputs| - 1];
      DiscoveryTracks(options, front, channel);
      DiscoveryIsSafe(options, front);
      AllSentAppended(inputs, channel);
      TracksByStep(options, Run(options, front), last, channel, On(AllSent(front), channel));
    }
  }

  lemma TracksByStep(options: Options, s: State, input: Input, channel: u32, sent: seq<RadioFrame>)
    requires options.link == None && Safe(options, s) && Tracks(options, s, channel, sent)
    requires channel % 0x100 == options.port
    ensures var last := Sender(input.line);
            Tracks(options, Step(options, s, input), channel,
                   sent + if last.Some? && last.value.channel == channel then [last.value.frame] else [])
  {
    var last := Sender(input.line);
    StepBySender(options, s, input);
    if last.Some? && last.value.channel == channel {
      TracksBySent(options, s, last.value, input.growth, sent);
    } else {
      assert sent + [] == sent;
      if last.Some? {
        TracksByOther(options, s, last.value, input.growth, channel, sent);
      }
    }
  }

  /** Every candidate was admitted by a session packet of its channel, and has been handed all
      that was sent on the channel since. */
  lemma CandidatesAdmittedBySession(options: Options, inputs: seq<Input>, channel: u32)
    requires options.link == None && channel in Run(options, inputs).candidates
    ensures var frames := On(Run(options, inputs).handed, channel);
            && frames != [] && frames[0].body != [] && frames[0].body[0] == 2
            && frames == FromFirstSession(On(AllSent(inputs), channel))
  {
    DiscoveryIsSafe(options, inputs);
    assert IsCandidate(options, channel, Run(options, inputs).candidates[channel]);
    DiscoveryTracks(options, inputs, channel);
    FromFirstSessionIsSuffix(On(AllSent(inputs), channel));
  }

  /** Eight channels other than this one hold slots, each admitted by a session packet of its
      own. */
  ghost predicate SlotsHeldByOthers(s: State, channel: u32) {
    && channel !in s.candidates && |s.candidates| == 8
    && forall c :: c in s.candidates ==>
         c != channel && On(s.handed, c) != [] && On(s.handed, c)[0].body != [] && On(s.handed, c)[0].body[0] == 2
  }

  /** Before selection, in every run, a session packet (first body byte 2) on the configured port
      is refused if and only if eight other channels, each admitted by its own session packet,
      hold all slots. Refusal changes nothing but two counters. */
  lemma RefusedOnlyWhenFull(options: Options, inputs: seq<Input>, input: Input)
    requires options.link == None && Run(options, inputs).selected == None && Sender(input.line).Some?
    requires var sent := Sender(input.line).value; sent.channel % 256 == options.port && sent.frame.body[0] == 2
    ensures var sent, s, t := Sender(input.line).value, Run(options, inputs), Run(options, inputs + [input]);
            if SlotsHeldByOthers(s, sent.channel)
            then t == s.(wifiFrames := s.wifiFrames + 1, limitDrops := s.limitDrops + 1)
            else t.handed == s.handed + [sent] && t.limitDrops == s.limitDrops
  {
    var sent, s := Sender(input.line).value, Run(options, inputs);
    DiscoveryIsSafe(options, inputs);
    RunAppended(options, inputs, input);
    StepBySender(options, s, input);
    SessionRouted(options, s, sent, input.growth);
    forall c | c in s.candidates
      ensures On(s.handed, c) != [] && On(s.handed, c)[0].body != [] && On(s.handed, c)[0].body[0] == 2
    {
      CandidatesAdmittedBySession(options, inputs, c);
    }
  }

  /** Authentication selects: before selection, in every discovery run, a candidate is selected
      by the very frame with which its aggregator gains a session, and by no other. */
  lemma AuthenticationSelects(options: Options, inputs: seq<Input>, input: Input)
    requires options.link == None && Run(options, inputs).selected == None
    ensures var s, t := Run(options, inputs), Run(options, inputs + [input]);
            match Sender(input.line)
            case None => t.selected == None && t.handed == s.handed
            case Some(sent) =>
              if t.handed == s.handed + [sent] then
                t.selected == (if input.growth > 0 then Some(Aggregator(sent.channel, input.growth)) else None)
              else t.selected == None && t.handed == s.handed
  {
    var s := Run(options, inputs);
    RunAppended(options, inputs, input);
    DiscoveryIsSafe(options, inputs);
    StepBySender(options, s, input);
    if Sender(input.line).Some? {
      SelectedByRouting(options, s, Sender(input.line).value, input.growth);
    }
  }

  lemma SelectedByRouting(options: Options, s: State, sent: Sent, growth: nat)
    requires options.link == None && Safe(options, s) && s.selected == None
    ensures var t := RoutedByChannel(options, s, sent, growth);
            if t.handed == s.handed + [sent] then
              t.selected == (if growth > 0 then Some(Aggregator(sent.channel, growth)) else None)
            else t.selected == None && t.handed == s.handed
  {
    if sent.channel in s.candidates {
      assert IsCandidate(options, sent.channel, s.candidates[sent.channel]);
    }
  }

  /** When a frame is filtered: in discovery, if it was sent on another port; with a link, if it
      was sent on another channel and that is not accepted; before, if it is the first of its
      channel and no session packet. */
  predicate Filters(options: Options, s: State, sent: Sent) {
    || (options.link == None && sent.channel % 256 != options.port)
    || (match s.selected
        case Some(a) => !options.acceptAny && a.channel != sent.channel
        case None => sent.channel !in s.candidates && (sent.frame.body == [] || sent.frame.body[0] != 2))
  }

  /** In every run of either mode, exactly the filtered frames change nothing but two counters.
      With a link, every other frame is handed to its aggregator, which keeps its sessions. */
  lemma FilteredExactly(options: Options, inputs: seq<Input>, input: Input)
    requires Sender(input.line).Some?
    ensures var sent, s, t := Sender(input.line).value, Run(options, inputs), Run(options, inputs + [input]);
            && (Filters(options, s, sent) <==> t.filtered == s.filtered + 1)
            && (Filters(options, s, sent) ==> t == s.(wifiFrames := s.wifiFrames + 1, filtered := s.filtered + 1))
            && (!Filters(options, s, sent) && s.selected.Some? ==>
                  var a := s.selected.value;
                  && t.selected == Some(Aggregator(a.channel, a.sessions + input.growth))
                  && t.handed == s.handed + [Sent(a.channel, sent.frame)])
  {
    RunAppended(options, inputs, input);
    StepBySender(options, Run(options, inputs), input);
    FilteredRouting(options, Run(options, inputs), Sender(input.line).value, input.growth);
  }

  lemma FilteredRouting(options: Options, s: State, sent: Sent, growth: nat)
    ensures var t := RoutedByChannel(options, s, sent, growth);
            && (Filters(options, s, sent) <==> t.filtered == s.filtered + 1)
            && (Filters(options, s, sent) ==> t == s.(wifiFrames := s.wifiFrames + 1, filtered := s.filtered + 1))
            && (!Filters(options, s, sent) && s.selected.Some? ==>
                  var a := s.selected.value;
                  && t.selected == Some(Aggregator(a.channel, a.sessions + growth))
                  && t.handed == s.handed + [Sent(a.channel, sent.frame)])
  {
  }

  lemma SessionRouted(options: Options, s: State, sent: Sent, growth: nat)
    requires options.link == None && Safe(options, s) && s.selected == None
    requires sent.channel % 0x100 == options.port && IsSession(sent.frame)
    ensures var t := RoutedByChannel(options, s, sent, growth);
            if sent.channel !in s.candidates && |s.candidates| == MAXIMUM_CANDIDATES
            then t == s.(wifiFrames := s.wifiFrames + 1, limitDrops := s.limitDrops + 1)
            else t.handed == s.handed + [sent] && t.limitDrops == s.limitDrops
  {
  }

  /** Discovery refines configuration: the link that discovery selects has been handed what a
      bridge configured for that link would have been handed, from the first session packet
      on. */
  lemma DiscoveryRefinesConfiguration(options: Options, inputs: seq<Input>)
    requires options.link == None && !options.acceptAny && Run(options, inputs).selected.Some?
    ensures var channel := Run(options, inputs).selected.value.channel;
            var configured := Run(options.(link := Some(channel / 0x100)), inputs);
            && configured.selected.Some? && configured.selected.value.channel == channel
            && Serves(configured.handed, channel, On(AllSent(inputs), channel))
            && On(Run(options, inputs).handed, channel) == FromFirstSession(On(configured.handed, channel)) != []
  {
    var channel := Run(options, inputs).selected.value.channel;
    DiscoveryIsSafe(options, inputs);
    JoinChannel(channel);
    DiscoveryTracks(options, inputs, channel);
    ConfiguredHandsItsChannel(options.(link := Some(channel / 0x100)), inputs);
    ConfiguredStaysSelected(options.(link := Some(channel / 0x100)), inputs);
  }

  // ----- The bridge as it runs -----

  class Bridge {
    const options: Options
    var selected: Option<Aggregator>
    var candidates: map<u32, Aggregator>
    var malformed: nat
    var filtered: nat
    var wifiFrames: nat
    var limitDrops: nat
    ghost var handed: seq<Sent>
    ghost var announced: seq<ChannelIdentity>

    ghost function Value(): State
      reads this
    {
      State(selected, candidates, malformed, filtered, wifiFrames, limitDrops, handed, announced)
    }

    constructor (options: Options)
      ensures this.options == options && Value() == Init(options)
    {
      this.options := options;
      selected, candidates := None, map[];
      malformed, filtered, wifiFrames, limitDrops := 0, 0, 0, 0;
      handed, announced := [], [];
      new;
      if options.link.Some? {
        var channel: int := options.link.value * 0x100 + options.port;
        selected := Some(Aggregator(channel, 0));
        SelectLink(ChannelIdentity(channel, options.link.value, options.port));
      }
    }

    method SelectLink(identity: ChannelIdentity)
      modifies this`announced
      ensures announced == old(announced) + [identity]
    {
      announced := announced + [identity];
    }

    /** Hands a frame to an aggregator, which gains `growth` sessions. */
    method ProcessFrame(a: Aggregator, frame: RadioFrame, growth: nat) returns (b: Aggregator)
      requires |frame.body| > 4
      modifies this`handed
      ensures b == a.(sessions := a.sessions + growth)
      ensures handed == old(handed) + [Sent(a.channel, frame)]
    {
      handed := handed + [Sent(a.channel, frame)];
      b := a.(sessions := a.sessions + growth);
    }

    method Consume(line: string, growth: nat)
      modifies this
      ensures Value() == Step(options, old(Value()), Input(Classify(line), growth))
    {
      var event := ReadLine(line);
      Take(event, growth);
    }

    method Take(line: InputLine, growth: nat)
      modifies this
      ensures Value() == Step(options, old(Value()), Input(line, growth))
    {
      if line == Other {
        return;
      }
      if line.parsed == None || |line.parsed.value.body| <= 4 {
        malformed := malformed + 1;
        return;
      }
      var frame := line.parsed.value;
      var identity := IdentityOf(frame.source);
      if identity == None {
        filtered := filtered + 1;
        return;
      }
      wifiFrames := wifiFrames + 1;
      Route(identity.value, frame, growth);
    }

    method Route(identity: ChannelIdentity, frame: RadioFrame, growth: nat)
      requires |frame.body| > 4
      modifies this
      ensures Value() == Routed(options, old(Value()), identity, frame, growth)
    {
      if options.link == None && identity.port != options.port {
        filtered := filtered + 1;
        return;
      }
      if selected.Some? {
        if !options.acceptAny && identity.channel != selected.value.channel {
          filtered := filtered + 1;
          return;
        }
        var served := ProcessFrame(selected.value, frame, growth);
        selected := Some(served);
        return;
      }
      if identity.channel !in candidates {
        if frame.body[0] != SESSION {
          filtered := filtered + 1;
          return;
        }
        if |candidates| >= MAXIMUM_CANDIDATES {
          limitDrops := limitDrops + 1;
          return;
        }
        candidates := candidates[identity.channel := Aggregator(identity.channel, 0)];
      }
      var candidate := ProcessFrame(candidates[identity.channel], frame, growth);
      candidates := candidates[identity.channel := candidate];
      if candidate.sessions > 0 {
        SelectLink(identity);
        selected := Some(candidate);
        candidates := map[];
      }
    }

    /** Reads lines until they end or the bridge is stopped. */
    method Serve(lines: seq<string>, growth: seq<nat>)
      requires |growth| == |lines|
      requires Value() == Init(options)
      modifies this
      ensures Value() == Run(options, Inputs(lines, growth))
    {
      for i := 0 to |lines|
        invariant Value() == Run(options, Inputs(lines, growth)[..i])
      {
        Consume(lines[i], growth[i]);
        assert Inputs(lines, growth)[..i + 1][..i] == Inputs(lines, growth)[..i];
      }
      assert Inputs(lines, growth)[..|lines|] == Inputs(lines, growth);
    }
  }

  function Inputs(lines: seq<string>, growth: seq<nat>): (inputs: seq<Input>)
    requires |growth| == |lines|
    ensures |inputs| == |lines|
  {
    seq(|lines|, i requires 0 <= i < |lines| => Input(Classify(lines[i]), growth[i]))
  }
}
