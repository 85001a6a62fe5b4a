/** The bridge's main thread storing metrics while a reporter loads them. Every step is one
    access to shared state or one reading of the clock, and the two interleave freely. */
module HealthSnapshots {
  import opened Numbers

  // ----- Phases -----

  datatype Phase = WaitingRadio | WaitingSession | Authenticated | Receiving | Stalled

  function HealthPhase(wifiFrames: nat, sessions: nat, rtpPackets: nat, rtpAge: nat): Phase {
    if wifiFrames == 0 then WaitingRadio
    else if sessions == 0 then WaitingSession
    else if rtpPackets == 0 then Authenticated
    else if rtpAge <= 3000 then Receiving
    else Stalled
  }

  /** Receiving and stalled are the two sides of the last stage. */
  function Stage(phase: Phase): nat {
    match phase
    case WaitingRadio => 0
    case WaitingSession => 1
    case Authenticated => 2
    case Receiving => 3
    case Stalled => 3
  }

  function Age(now: nat, last: nat): nat {
    if now >= last then now - last else 0
  }

  // ----- State -----

  /** Where the main thread is. It publishes from `StampingWifi` on and from `SyncSessions`
      on; in between it waits for the aggregator, which may emit payloads. */
  datatype Main =
    | Idle
    | StampingWifi
    | StoringWifi(stamp: nat)
    | Routing
    | Processing
    | StoringRtp(stamp: nat)
    | StampingUdp
    | StoringUdp(stamp: nat)
    | PublishingRtp
    | SyncSessions
    | SyncUdp
    | SyncRtp

  /** Where the reporter is, in the order of its loads. */
  datatype Reporter =
    | Resting
    | LoadingWifi
    | LoadingSessions
    | LoadingUdp
    | LoadingRtp
    | LoadingLastWifi
    | LoadingLastUdp
    | LoadingLastRtp
    | ReloadingRtp
    | Reporting

  datatype Counters = Counters(wifi: nat, sessions: nat, udp: nat, rtp: nat)

  const NO_COUNTS := Counters(0, 0, 0, 0)

  /** What a reporter has loaded. The phase and the ages come from the first eight values.
      The RTP counter is loaded a second time while the report is formatted, and it is that
      value, `shownRtp`, which the report prints. The last three record history: how many frame
      times had been stored when `lastWifi` was loaded, and the counters as they were when the
      report began and when it was printed. */
  datatype View = View(now: nat, wifi: nat, sessions: nat, udp: nat, rtp: nat,
                       lastWifi: nat, lastUdp: nat, lastRtp: nat, shownRtp: nat,
                       storedWifi: int, start: Counters, end: Counters)
  {
    function RtpAge(): nat {
      if rtp > 0 then Age(now, lastRtp) else 0
    }

    /** The RTP age as it is printed, `None` being null. */
    function ShownAge(): Option<nat> {
      if rtp > 0 then Some(RtpAge()) else None
    }

    function Phase(): Phase {
      HealthPhase(wifi, sessions, rtp, RtpAge())
    }
  }

  /** The shared metrics, the counts private to the aggregator, and both threads. The stamps
      record when each frame, datagram and RTP packet was stamped; there are as many RTP
      stamps as the observer counts packets. `snapshots` are the views of the reports so far. */
  datatype State = State(
    clock: nat,
    wifiFrames: nat, sessions: nat, udpPackets: nat, rtpPackets: nat,
    lastWifi: nat, lastUdp: nat, lastRtp: nat,
    liveSessions: nat, wifiStamps: seq<nat>, udpStamps: seq<nat>, rtpStamps: seq<nat>,
    main: Main, reporter: Reporter, view: View, snapshots: seq<View>)

  function Init(): State {
    State(0, 0, 0, 0, 0, 0, 0, 0, 0, [], [], [], Idle, Resting,
          View(0, 0, 0, 0, 0, 0, 0, 0, 0, 0, NO_COUNTS, NO_COUNTS), [])
  }

  function CountersOf(s: State): Counters {
    Counters(s.wifiFrames, s.sessions, s.udpPackets, s.rtpPackets)
  }

  /** `now` is what a step reads from the clock, if it reads it. */
  datatype Action =
    | Advance(now: nat)
    | Filter
    | Process
    | Authenticate(more: nat)
    | Payload(isRtp: bool, now: nat)
    | Finish(sync: bool)
    | Report(now: nat)

  predicate Enabled(s: State, a: Action) {
    match a
    case Advance(now) => s.main != Routing && s.main != Processing && s.clock <= now
    case Filter => s.main == Routing
    case Process => s.main == Routing
    case Authenticate(_) => s.main == Processing
    case Payload(_, now) => s.main == Processing && s.liveSessions > 0 && s.clock <= now
    case Finish(sync) => s.main == Processing && (s.liveSessions > 0 ==> sync)
    case Report(now) => s.clock <= now
  }

  function Step(s: State, a: Action): State
    requires Enabled(s, a)
  {
    match a
    case Advance(now) => MainStep(s, now)
    case Filter => s.(main := Idle)
    case Process => s.(main := Processing)
    case Authenticate(more) => s.(liveSessions := s.liveSessions + more)
    case Payload(isRtp, now) =>
      if isRtp then s.(clock := now, rtpStamps := s.rtpStamps + [now], main := StoringRtp(now))
      else s.(main := StampingUdp)
    case Finish(sync) => s.(main := if sync then SyncSessions else Idle)
    case Report(now) => ReporterStep(s, now)
  }

  /** A frame arrives when the main thread is idle. */
  function MainStep(s: State, now: nat): State {
    match s.main
    case Idle => s.(wifiFrames := s.wifiFrames + 1, main := StampingWifi)
    case StampingWifi => s.(clock := now, wifiStamps := s.wifiStamps + [now], main := StoringWifi(now))
    case StoringWifi(stamp) => s.(lastWifi := stamp, main := Routing)
    case StoringRtp(stamp) => s.(lastRtp := stamp, main := StampingUdp)
    case StampingUdp => s.(clock := now, udpStamps := s.udpStamps + [now], main := StoringUdp(now))
    case StoringUdp(stamp) => s.(lastUdp := stamp, main := PublishingRtp)
    case PublishingRtp => s.(rtpPackets := |s.rtpStamps|, main := Processing)
    case SyncSessions => s.(sessions := s.liveSessions, main := SyncUdp)
    case SyncUdp => s.(udpPackets := |s.udpStamps|, main := SyncRtp)
    case SyncRtp => s.(rtpPackets := |s.rtpStamps|, main := Idle)
    case _ => s
  }

  function ReporterStep(s: State, now: nat): State {
    match s.reporter
    case Resting =>
      s.(clock := now, view := View(now, 0, 0, 0, 0, 0, 0, 0, 0, 0, CountersOf(s), NO_COUNTS), reporter := LoadingWifi)
    case LoadingWifi => s.(view := s.view.(wifi := s.wifiFrames), reporter := LoadingSessions)
    case LoadingSessions => s.(view := s.view.(sessions := s.sessions), reporter := LoadingUdp)
    case LoadingUdp => s.(view := s.view.(udp := s.udpPackets), reporter := LoadingRtp)
    case LoadingRtp => s.(view := s.view.(rtp := s.rtpPackets), reporter := LoadingLastWifi)
    case LoadingLastWifi =>
      s.(view := s.view.(lastWifi := s.lastWifi, storedWifi := StoredWifi(s)), reporter := LoadingLastUdp)
    case LoadingLastUdp => s.(view := s.view.(lastUdp := s.lastUdp), reporter := LoadingLastRtp)
    case LoadingLastRtp => s.(view := s.view.(lastRtp := s.lastRtp), reporter := ReloadingRtp)
    case ReloadingRtp => s.(view := s.view.(shownRtp := s.rtpPackets), reporter := Reporting)
    case Reporting => s.(snapshots := s.snapshots + [s.view.(end := CountersOf(s))], reporter := Resting)
  }

  /** The state after a schedule, if every step of it was possible. */
  function Run(s: State, schedule: seq<Action>): Option<State>
    decreases |schedule|
  {
    if schedule == [] then Some(s)
    else if !Enabled(s, schedule[0]) then None
    else Run(Step(s, schedule[0]), schedule[1..])
  }

  // ----- The invariant -----

  predicate Sorted(stamps: seq<nat>) {
    forall i, j :: 0 <= i < j < |stamps| ==> stamps[i] <= stamps[j]
  }

  /** Stamps follow the clock; a counter shows at most those that have been stored, and the
      last one stored is what the time variable holds. */
  predicate Published(stamps: seq<nat>, stored: nat, count: nat, last: nat, clock: nat) {
    && Sorted(stamps)
    && (stamps != [] ==> stamps[|stamps| - 1] <= clock)
    && count <= stored <= |stamps|
    && last == if stored > 0 then stamps[stored - 1] else 0
  }

  predicate Pending(stamps: seq<nat>, stamp: nat) {
    stamps != [] && stamps[|stamps| - 1] == stamp
  }

  function StoredRtp(s: State): int {
    |s.rtpStamps| - if s.main.StoringRtp? then 1 else 0
  }

  function StoredUdp(s: State): int {
    |s.udpStamps| - if s.main.StoringUdp? then 1 else 0
  }

  function StoredWifi(s: State): int {
    |s.wifiStamps| - if s.main.StoringWifi? then 1 else 0
  }

  predicate RtpPublished(s: State) {
    && (s.main.StoringRtp? ==> Pending(s.rtpStamps, s.main.stamp))
    && 0 <= StoredRtp(s) && Published(s.rtpStamps, StoredRtp(s), s.rtpPackets, s.lastRtp, s.clock)
  }

  predicate UdpPublished(s: State) {
    && (s.main.StoringUdp? ==> Pending(s.udpStamps, s.main.stamp))
    && 0 <= StoredUdp(s) && Published(s.udpStamps, StoredUdp(s), s.udpPackets, s.lastUdp, s.clock)
  }

  /** Frames are counted before they are stamped, so their count may run ahead by one. */
  predicate WifiPublished(s: State) {
    && (s.main.StoringWifi? ==> Pending(s.wifiStamps, s.main.stamp))
    && 0 <= StoredWifi(s) && Published(s.wifiStamps, StoredWifi(s), 0, s.lastWifi, s.clock)
    && s.wifiFrames == |s.wifiStamps| + if s.main == StampingWifi then 1 else 0
  }

  /** The time variable is the stamp of packet `count` or of a later one. */
  predicate Coherent(stamps: seq<nat>, count: nat, last: nat) {
    count <= |stamps| && (count > 0 ==> stamps[count - 1] <= last)
  }

  /** The Wi-Fi time is that of the last frame stored at its load, and the frame counted had
      been stored then, or was the next one. */
  predicate WifiStored(v: View, wifiStamps: seq<nat>) {
    && 0 <= v.storedWifi <= |wifiStamps| && v.wifi - 1 <= v.storedWifi
    && v.lastWifi == if v.storedWifi > 0 then wifiStamps[v.storedWifi - 1] else 0
  }

  predicate CoherentView(v: View, rtpStamps: seq<nat>, udpStamps: seq<nat>, wifiStamps: seq<nat>) {
    && Coherent(rtpStamps, v.rtp, v.lastRtp) && Coherent(udpStamps, v.udp, v.lastUdp)
    && WifiStored(v, wifiStamps)
    && v.rtp <= v.shownRtp <= |rtpStamps|
    && WithinReport(v)
  }

  /** Each counter loaded lies between its values at the start and at the end of the report. */
  predicate WithinReport(v: View) {
    && v.start.wifi <= v.wifi <= v.end.wifi && v.start.sessions <= v.sessions <= v.end.sessions
    && v.start.udp <= v.udp <= v.end.udp && v.start.rtp <= v.rtp <= v.shownRtp <= v.end.rtp
  }

  /** How many loads the reporter has made. */
  function Loads(r: Reporter): nat {
    match r
    case Resting => 0
    case LoadingWifi => 0
    case LoadingSessions => 1
    case LoadingUdp => 2
    case LoadingRtp => 3
    case LoadingLastWifi => 4
    case LoadingLastUdp => 5
    case LoadingLastRtp => 6
    case ReloadingRtp => 7
    case Reporting => 8
  }

  /** A counter that has been loaded is not above its present value, and a time that has been
      loaded suits its counter. */
  predicate Loaded(s: State) {
    var n := Loads(s.reporter);
    && (n >= 1 ==> s.view.wifi <= s.wifiFrames)
    && (n >= 2 ==> s.view.sessions <= s.sessions)
    && (n >= 3 ==> s.view.udp <= s.udpPackets)
    && (n >= 4 ==> s.view.rtp <= s.rtpPackets)
    && (n >= 5 ==> WifiStored(s.view, s.wifiStamps))
    && (n >= 6 ==> Coherent(s.udpStamps, s.view.udp, s.view.lastUdp))
    && (n >= 7 ==> Coherent(s.rtpStamps, s.view.rtp, s.view.lastRtp))
    && (n >= 8 ==> s.view.rtp <= s.view.shownRtp <= s.rtpPackets)
  }

  /** A counter that has been loaded is not below its value at the start of the report. */
  predicate LoadedSinceStart(s: State) {
    var n, start := Loads(s.reporter), s.view.start;
    s.reporter != Resting ==>
      && start.wifi <= (if n >= 1 then s.view.wifi else s.wifiFrames)
      && start.sessions <= (if n >= 2 then s.view.sessions else s.sessions)
      && start.udp <= (if n >= 3 then s.view.udp else s.udpPackets)
      && start.rtp <= (if n >= 4 then s.view.rtp else s.rtpPackets)
  }

  /** The main thread is not with the aggregator, nor publishing what it did. */
  predicate Quiet(m: Main) {
    m.Idle? || m.StampingWifi? || m.StoringWifi? || m.Routing?
  }

  /** What the main thread has published, by where it is. */
  predicate UpToDate(s: State) {
    && (s.liveSessions == 0 ==> s.sessions == 0 && s.udpStamps == [] && s.rtpStamps == [])
    && (Quiet(s.main) || s.main.SyncUdp? || s.main.SyncRtp? ==> s.sessions == s.liveSessions)
    && (Quiet(s.main) || s.main.SyncRtp? ==> s.udpPackets == |s.udpStamps|)
    && (s.main.StoringRtp? || s.main.StampingUdp? || s.main.StoringUdp? || s.main.PublishingRtp?
        || s.rtpPackets == |s.rtpStamps|)
    && (s.main.StoringRtp? || s.main.StampingUdp? || s.main.StoringUdp? || s.main.PublishingRtp? ==> s.liveSessions > 0)
  }

  predicate NotAbove(v: View, wifi: nat, sessions: nat, rtp: nat) {
    v.wifi <= wifi && v.sessions <= sessions && v.rtp <= rtp
  }

  predicate Ordered(snapshots: seq<View>) {
    forall i, j :: 0 <= i < j < |snapshots| ==>
      NotAbove(snapshots[i], snapshots[j].wifi, snapshots[j].sessions, snapshots[j].rtp)
  }

  /** Counters only grow, also from one snapshot to the next. */
  predicate Growing(s: State) {
    && s.sessions <= s.liveSessions
    && Ordered(s.snapshots)
    && (s.snapshots != [] ==>
          var last, n := s.snapshots[|s.snapshots| - 1], Loads(s.reporter);
          NotAbove(last, if n >= 1 then s.view.wifi else s.wifiFrames,
                   if n >= 2 then s.view.sessions else s.sessions,
                   if n >= 4 then s.view.rtp else s.rtpPackets))
  }

  predicate AllCoherent(s: State) {
    forall i :: 0 <= i < |s.snapshots| ==> CoherentView(s.snapshots[i], s.rtpStamps, s.udpStamps, s.wifiStamps)
  }

  predicate Inv(s: State) {
    RtpPublished(s) && UdpPublished(s) && WifiPublished(s) && Loaded(s) && Growing(s) && AllCoherent(s)
    && LoadedSinceStart(s) && UpToDate(s)
  }

  // ----- Every step keeps the invariant -----

  lemma SortedAppended(stamps: seq<nat>, now: nat)
    requires Sorted(stamps) && (stamps != [] ==> stamps[|stamps| - 1] <= now)
    ensures Sorted(stamps + [now])
  {
    var all := stamps + [now];
    forall i, j | 0 <= i < j < |all|
      ensures all[i] <= all[j]
    {
      if j == |stamps| && i < |stamps| - 1 {
        assert stamps[i] <= stamps[|stamps| - 1];
      }
    }
  }

  lemma RtpPublishedByStep(s: State, a: Action)
    requires RtpPublished(s) && Enabled(s, a)
    ensures RtpPublished(Step(s, a))
  {
    if a.Payload? {
      SortedAppended(s.rtpStamps, a.now);
    }
  }

  lemma UdpPublishedByStep(s: State, a: Action)
    requires UdpPublished(s) && Enabled(s, a)
    ensures UdpPublished(Step(s, a))
  {
    if a.Advance? && s.main == StampingUdp {
      SortedAppended(s.udpStamps, a.now);
    }
  }

  lemma WifiPublishedByStep(s: State, a: Action)
    requires WifiPublished(s) && Enabled(s, a)
    ensures WifiPublished(Step(s, a))
  {
    if a.Advance? && s.main == StampingWifi {
      SortedAppended(s.wifiStamps, a.now);
    }
  }

  /** No counter ever falls, and stamps are only added. */
  lemma StepGrows(s: State, a: Action)
    requires RtpPublished(s) && UdpPublished(s) && s.sessions <= s.liveSessions && Enabled(s, a)
    ensures var t := Step(s, a);
            && s.wifiFrames <= t.wifiFrames && s.sessions <= t.sessions <= t.liveSessions
            && s.udpPackets <= t.udpPackets && s.rtpPackets <= t.rtpPackets
            && s.rtpStamps <= t.rtpStamps && s.udpStamps <= t.udpStamps && s.wifiStamps <= t.wifiStamps
  {
  }

  lemma NotReporter(s: State, a: Action)
    requires Enabled(s, a) && !a.Report?
    ensures var t := Step(s, a); t.reporter == s.reporter && t.view == s.view && t.snapshots == s.snapshots
  {
  }

  /** What the published stamps say about a counter that was loaded earlier. */
  lemma LaterTimeIsCoherent(stamps: seq<nat>, stored: nat, count: nat, last: nat, clock: nat, loaded: nat)
    requires Published(stamps, stored, count, last, clock) && loaded <= count
    ensures Coherent(stamps, loaded, last)
  {
    if 0 < loaded < stored {
      assert stamps[loaded - 1] <= stamps[stored - 1];
    }
  }

  lemma LoadedByMain(s: State, a: Action)
    requires Inv(s) && Enabled(s, a) && !a.Report?
    ensures Loaded(Step(s, a))
  {
    StepGrows(s, a);
    NotReporter(s, a);
  }

  lemma LoadedByReporter(s: State, now: nat)
    requires Inv(s)
    ensures Loaded(ReporterStep(s, now))
  {
    if s.reporter == LoadingLastWifi {
      assert StoredWifi(s) >= s.wifiFrames - 1;
    } else if s.reporter == LoadingLastUdp {
      LaterTimeIsCoherent(s.udpStamps, StoredUdp(s), s.udpPackets, s.lastUdp, s.clock, s.view.udp);
    } else if s.reporter == LoadingLastRtp {
      LaterTimeIsCoherent(s.rtpStamps, StoredRtp(s), s.rtpPackets, s.lastRtp, s.clock, s.view.rtp);
    }
  }

  lemma GrowingByMain(s: State, a: Action)
    requires Inv(s) && Enabled(s, a) && !a.Report?
    ensures Growing(Step(s, a))
  {
    StepGrows(s, a);
    NotReporter(s, a);
  }

  lemma OrderedAppended(snapshots: seq<View>, v: View)
    requires Ordered(snapshots)
    requires snapshots != [] ==> NotAbove(snapshots[|snapshots| - 1], v.wifi, v.sessions, v.rtp)
    ensures Ordered(snapshots + [v])
  {
    var all := snapshots + [v];
    forall i, j | 0 <= i < j < |all|
      ensures NotAbove(all[i], all[j].wifi, all[j].sessions, all[j].rtp)
    {
      if j == |snapshots| && i < |snapshots| - 1 {
        var last := snapshots[|snapshots| - 1];
        assert NotAbove(snapshots[i], last.wifi, last.sessions, last.rtp);
      }
    }
  }

  lemma GrowingByReporter(s: State, now: nat)
    requires Inv(s)
    ensures Growing(ReporterStep(s, now))
  {
    if s.reporter == Reporting {
      OrderedAppended(s.snapshots, s.view.(end := CountersOf(s)));
    }
  }

  lemma CoherentStays(stamps: seq<nat>, more: seq<nat>, count: nat, last: nat)
    requires Coherent(stamps, count, last) && stamps <= more
    ensures Coherent(more, count, last)
  {
  }

  lemma AllCoherentByStep(s: State, a: Action)
    requires Inv(s) && Enabled(s, a)
    ensures AllCoherent(Step(s, a))
  {
    var t := Step(s, a);
    StepGrows(s, a);
    SnapshotsByStep(s, a);
    forall i | 0 <= i < |t.snapshots|
      ensures CoherentView(t.snapshots[i], t.rtpStamps, t.udpStamps, t.wifiStamps)
    {
      var v := t.snapshots[i];
      if i == |s.snapshots| {
        ReportedView(s);
      }
      assert CoherentView(v, s.rtpStamps, s.udpStamps, s.wifiStamps);
      CoherentStays(s.rtpStamps, t.rtpStamps, v.rtp, v.lastRtp);
      CoherentStays(s.udpStamps, t.udpStamps, v.udp, v.lastUdp);
    }
  }

  lemma ReportedView(s: State)
    requires RtpPublished(s) && Loaded(s) && LoadedSinceStart(s) && s.reporter == Reporting
    ensures CoherentView(s.view.(end := CountersOf(s)), s.rtpStamps, s.udpStamps, s.wifiStamps)
  {
  }

  lemma LoadedSinceStartByStep(s: State, a: Action)
    requires Inv(s) && Enabled(s, a)
    ensures LoadedSinceStart(Step(s, a))
  {
    StepGrows(s, a);
    if !a.Report? {
      NotReporter(s, a);
    }
  }

  lemma UpToDateByStep(s: State, a: Action)
    requires UpToDate(s) && s.rtpPackets <= |s.rtpStamps| && s.udpPackets <= |s.udpStamps| && Enabled(s, a)
    ensures UpToDate(Step(s, a))
  {
    match a
    case Advance(now) => UpToDateByMain(s, now);
    case Report(now) => ReporterLeaves(s, now);
    case _ => UpToDateByAggregator(s, a);
  }

  lemma UpToDateByMain(s: State, now: nat)
    requires UpToDate(s) && s.main != Routing && s.main != Processing
    ensures UpToDate(MainStep(s, now))
  {
  }

  lemma UpToDateByAggregator(s: State, a: Action)
    requires UpToDate(s) && s.udpPackets <= |s.udpStamps| && Enabled(s, a) && !a.Advance? && !a.Report?
    ensures UpToDate(Step(s, a))
  {
  }

  lemma ReporterLeaves(s: State, now: nat)
    ensures var t := ReporterStep(s, now);
            && t.main == s.main && CountersOf(t) == CountersOf(s) && t.liveSessions == s.liveSessions
            && t.wifiStamps == s.wifiStamps && t.udpStamps == s.udpStamps && t.rtpStamps == s.rtpStamps
  {
  }

  lemma SnapshotsByStep(s: State, a: Action)
    requires Enabled(s, a)
    ensures Step(s, a).snapshots ==
              s.snapshots
              + if a.Report? && s.reporter == Reporting then [s.view.(end := CountersOf(s))] else []
  {
    if !a.Report? {
      NotReporter(s, a);
    }
  }

  lemma StepInv(s: State, a: Action)
    requires Inv(s) && Enabled(s, a)
    ensures Inv(Step(s, a))
  {
    RtpPublishedByStep(s, a);
    UdpPublishedByStep(s, a);
    WifiPublishedByStep(s, a);
    AllCoherentByStep(s, a);
    LoadedSinceStartByStep(s, a);
    UpToDateByStep(s, a);
    if a.Report? {
      LoadedByReporter(s, a.now);
      GrowingByReporter(s, a.now);
    } else {
      LoadedByMain(s, a);
      GrowingByMain(s, a);
    }
  }

  lemma {:induction false} InvKept(s: State, schedule: seq<Action>)
    requires Inv(s) && Run(s, schedule).Some?
    ensures Inv(Run(s, schedule).value)
    decreases |schedule|
  {
    if schedule != [] {
      StepInv(s, schedule[0]);
      InvKept(Step(s, schedule[0]), schedule[1..]);
    }
  }

  lemma RunInv(schedule: seq<Action>)
    requires Run(Init(), schedule).Some?
    ensures Inv(Run(Init(), schedule).value)
  {
    InvKept(Init(), schedule);
  }

  lemma SnapshotInv(schedule: seq<Action>, i: nat)
    requires var run := Run(Init(), schedule); run.Some? && i < |run.value.snapshots|
    ensures var s := Run(Init(), schedule).value;
            && CoherentView(s.snapshots[i], s.rtpStamps, s.udpStamps, s.wifiStamps)
            && Sorted(s.rtpStamps) && Sorted(s.wifiStamps)
  {
    RunInv(schedule);
  }

  // ----- What the phase is computed from -----

  /** Under every interleaving, if the phase computation counted `k` RTP packets, the time it
      used is that of packet `k` or of a later one; the same holds for datagrams and their
      age. */
  lemma SnapshotsAreCoherent(schedule: seq<Action>, i: nat)
    requires var run := Run(Init(), schedule); run.Some? && i < |run.value.snapshots|
    ensures var s := Run(Init(), schedule).value;
            && Coherent(s.rtpStamps, s.snapshots[i].rtp, s.snapshots[i].lastRtp)
            && Coherent(s.udpStamps, s.snapshots[i].udp, s.snapshots[i].lastUdp)
  {
    SnapshotInv(schedule, i);
  }

  /** The phase is only stalled if the packet that the phase computation counted is more than
      three seconds old. */
  lemma StalledIsTrue(schedule: seq<Action>, i: nat)
    requires var run := Run(Init(), schedule);
             run.Some? && i < |run.value.snapshots| && run.value.snapshots[i].Phase() == Stalled
    ensures var s := Run(Init(), schedule).value;
            var v := s.snapshots[i];
            0 < v.rtp <= |s.rtpStamps| && s.rtpStamps[v.rtp - 1] + 3000 < v.now
  {
    SnapshotsAreCoherent(schedule, i);
  }

  /** The five phases by what was loaded. */
  lemma PhaseByCounts(v: View)
    ensures v.Phase() == WaitingRadio <==> v.wifi == 0
    ensures v.Phase() == WaitingSession <==> v.wifi > 0 && v.sessions == 0
    ensures v.Phase() == Authenticated <==> v.wifi > 0 && v.sessions > 0 && v.rtp == 0
    ensures v.Phase() == Receiving <==> v.wifi > 0 && v.sessions > 0 && v.rtp > 0 && v.now <= v.lastRtp + 3000
    ensures v.Phase() == Stalled <==> v.wifi > 0 && v.sessions > 0 && v.rtp > 0 && v.now > v.lastRtp + 3000
  {
  }

  /** The phases by what had been published, in every report of every run. A phase means that its
      stage had been reached when the report ended, and that no later stage had been reached when
      it began. */
  lemma PhaseTellsStage(schedule: seq<Action>, i: nat)
    requires var run := Run(Init(), schedule); run.Some? && i < |run.value.snapshots|
    ensures var v := Run(Init(), schedule).value.snapshots[i];
            && WithinReport(v)
            && match v.Phase()
               case WaitingRadio => v.start.wifi == 0
               case WaitingSession => v.end.wifi > 0 && v.start.sessions == 0
               case Authenticated => v.end.wifi > 0 && v.end.sessions > 0 && v.start.rtp == 0
               case _ => v.end.wifi > 0 && v.end.sessions > 0 && v.end.rtp > 0
  {
    SnapshotInv(schedule, i);
    PhaseByCounts(Run(Init(), schedule).value.snapshots[i]);
  }

  /** Whenever the main thread is not with the aggregator, in every run, all metrics are exact:
      every session, datagram and RTP packet has been published, with the time of the last. */
  lemma MetricsExactWhenQuiet(schedule: seq<Action>)
    requires var run := Run(Init(), schedule); run.Some? && Quiet(run.value.main)
    ensures var s := Run(Init(), schedule).value;
            && s.sessions == s.liveSessions && s.udpPackets == |s.udpStamps| && s.rtpPackets == |s.rtpStamps|
            && s.wifiFrames == |s.wifiStamps| + (if s.main.StampingWifi? then 1 else 0)
            && (s.rtpStamps != [] ==> s.lastRtp == s.rtpStamps[|s.rtpStamps| - 1])
            && (s.udpStamps != [] ==> s.lastUdp == s.udpStamps[|s.udpStamps| - 1])
            && (s.main.Idle? && s.wifiStamps != [] ==> s.lastWifi == s.wifiStamps[|s.wifiStamps| - 1])
  {
    RunInv(schedule);
  }

  /** The stages of one reporter's snapshots never go back. */
  lemma StagesNeverGoBack(schedule: seq<Action>, i: nat, j: nat)
    requires var run := Run(Init(), schedule); run.Some? && i < j < |run.value.snapshots|
    ensures var s := Run(Init(), schedule).value;
            Stage(s.snapshots[i].Phase()) <= Stage(s.snapshots[j].Phase())
  {
    RunInv(schedule);
    var s := Run(Init(), schedule).value;
    assert NotAbove(s.snapshots[i], s.snapshots[j].wifi, s.snapshots[j].sessions, s.snapshots[j].rtp);
  }

  // ----- What a report prints -----

  /** The packets published between the two loads of the RTP counter, those after packet
      `v.rtp` up to packet `v.shownRtp`, were all stamped by the time that was loaded. */
  predicate NothingNewer(v: View, rtpStamps: seq<nat>)
    requires v.shownRtp <= |rtpStamps|
  {
    forall k :: v.rtp <= k < v.shownRtp ==> rtpStamps[k] <= v.lastRtp
  }

  /** The printed age is null for no packets, and otherwise no older than the last packet of
      the printed count. */
  predicate CountSuitsAge(v: View, rtpStamps: seq<nat>) {
    match v.ShownAge()
    case None => v.shownRtp == 0
    case Some(_) => v.shownRtp > 0 && Coherent(rtpStamps, v.shownRtp, v.lastRtp)
  }

  /** A report never prints fewer RTP packets than its phase computation counted. The time
      loaded suits the printed count if and only if no packet with a later stamp was published
      between the two loads of the counter; for the printed age it must also not be null
      while a first packet was published. */
  lemma PrintedCountSuitsExactly(schedule: seq<Action>, i: nat)
    requires var run := Run(Init(), schedule); run.Some? && i < |run.value.snapshots|
    ensures var s := Run(Init(), schedule).value;
            var v := s.snapshots[i];
            && v.rtp <= v.shownRtp <= |s.rtpStamps|
            && (Coherent(s.rtpStamps, v.shownRtp, v.lastRtp) <==> NothingNewer(v, s.rtpStamps))
            && (CountSuitsAge(v, s.rtpStamps) <==>
                  NothingNewer(v, s.rtpStamps) && (v.rtp == 0 ==> v.shownRtp == 0))
  {
    SnapshotInv(schedule, i);
    var s := Run(Init(), schedule).value;
    NewestIsLast(s.rtpStamps, s.snapshots[i]);
  }

  lemma NewestIsLast(stamps: seq<nat>, v: View)
    requires Sorted(stamps) && v.rtp <= v.shownRtp <= |stamps| && Coherent(stamps, v.rtp, v.lastRtp)
    ensures Coherent(stamps, v.shownRtp, v.lastRtp) <==> NothingNewer(v, stamps)
  {
    if v.rtp < v.shownRtp {
      assert NothingNewer(v, stamps) ==> stamps[v.shownRtp - 1] <= v.lastRtp;
    }
  }

  // ----- Wi-Fi frames -----

  /** A reporter about to load the time of the last frame will find that of the frame it
      counted, or of a later one, unless the main thread is between counting and stamping
      that very frame; then it finds the time of the frame before. */
  lemma WifiTimeMayLag(s: State)
    requires Inv(s) && s.reporter == LoadingLastWifi
    ensures var between := s.view.wifi == s.wifiFrames && (s.main == StampingWifi || s.main.StoringWifi?);
            && (StoredWifi(s) >= s.view.wifi <==> !between)
            && StoredWifi(s) >= s.view.wifi - 1
            && (!between ==> Coherent(s.wifiStamps, s.view.wifi, s.lastWifi))
            && (between && s.view.wifi > 1 ==> s.wifiStamps[s.view.wifi - 2] == s.lastWifi)
  {
    if StoredWifi(s) >= s.view.wifi {
      LaterTimeIsCoherent(s.wifiStamps, StoredWifi(s), 0, s.lastWifi, s.clock, 0);
      SortedAt(s.wifiStamps, s.view.wifi, StoredWifi(s));
    }
  }

  lemma SortedAt(stamps: seq<nat>, i: nat, j: nat)
    requires Sorted(stamps) && i <= j <= |stamps|
    ensures i > 0 ==> stamps[i - 1] <= stamps[j - 1]
  {
    assert 0 < i < j ==> stamps[i - 1] <= stamps[j - 1];
  }

  /** In every report of every run, the time of the last frame is at least that of the frame
      before the one counted. It is that of the frame counted or of a later one if and only if
      that frame had been stored when the time was loaded, or was stamped later with the very
      time of the frame before, or with zero if there was none. */
  lemma WifiTimeLagsByOneFrame(schedule: seq<Action>, i: nat)
    requires var run := Run(Init(), schedule); run.Some? && i < |run.value.snapshots|
    ensures var s := Run(Init(), schedule).value;
            var v := s.snapshots[i];
            && v.wifi <= |s.wifiStamps| + 1
            && (v.wifi > 1 ==> s.wifiStamps[v.wifi - 2] <= v.lastWifi)
            && (Coherent(s.wifiStamps, v.wifi, v.lastWifi) <==>
                  v.wifi <= v.storedWifi
                  || (0 < v.wifi <= |s.wifiStamps|
                      && s.wifiStamps[v.wifi - 1] == if v.wifi > 1 then s.wifiStamps[v.wifi - 2] else 0))
  {
    SnapshotInv(schedule, i);
    var s := Run(Init(), schedule).value;
    LagOfView(s.snapshots[i], s.wifiStamps);
  }

  lemma LagOfView(v: View, stamps: seq<nat>)
    requires Sorted(stamps) && WifiStored(v, stamps)
    ensures v.wifi > 1 ==> stamps[v.wifi - 2] <= v.lastWifi
    ensures Coherent(stamps, v.wifi, v.lastWifi) <==>
              v.wifi <= v.storedWifi
              || (0 < v.wifi <= |stamps| && stamps[v.wifi - 1] == if v.wifi > 1 then stamps[v.wifi - 2] else 0)
  {
    if v.wifi <= v.storedWifi {
      SortedAt(stamps, v.wifi, v.storedWifi);
      if v.wifi > 1 {
        SortedAt(stamps, v.wifi - 1, v.storedWifi);
      }
    } else if 1 < v.wifi <= |stamps| {
      SortedAt(stamps, v.wifi - 1, v.wifi);
    }
  }

  // ----- Particular runs -----

  predicate Leads(s: State, schedule: seq<Action>, t: State) {
    Run(s, schedule) == Some(t)
  }

  lemma {:induction false} LeadsFurther(s: State, a: Action, rest: seq<Action>, t: State)
    requires Enabled(s, a) && Leads(Step(s, a), rest, t)
    ensures Leads(s, [a] + rest, t)
  {
    assert ([a] + rest)[1..] == rest;
  }

  lemma {:induction false} LeadsOn(s: State, first: seq<Action>, t: State, second: seq<Action>, u: State)
    requires Leads(s, first, t) && Leads(t, second, u)
    ensures Leads(s, first + second, u)
    decreases |first|
  {
    if first == [] {
      assert first + second == second;
    } else {
      LeadsOn(Step(s, first[0]), first[1..], t, second, u);
      assert (first + second)[1..] == first[1..] + second;
    }
  }

  lemma OneStep(s: State, a: Action)
    requires Enabled(s, a)
    ensures Leads(s, [a], Step(s, a))
  {
    assert [a][1..] == [];
  }

  function Reports(now: nat, n: nat): seq<Action> {
    if n == 0 then [] else [Report(now)] + Reports(now, n - 1)
  }

  function Reported(s: State, now: nat, n: nat): State
    decreases n
  {
    if n == 0 then s else Reported(ReporterStep(s, now), now, n - 1)
  }

  /** Steps of the reporter without a step of the main thread. */
  lemma {:induction false} ReportSteps(s: State, now: nat, n: nat)
    requires s.clock <= now && (s.reporter == Resting || s.clock == now)
    ensures Leads(s, Reports(now, n), Reported(s, now, n))
    decreases n
  {
    if n > 0 {
      ReportSteps(ReporterStep(s, now), now, n - 1);
      LeadsFurther(s, Report(now), Reports(now, n - 1), Reported(s, now, n));
    }
  }

  /** What a reporter has loaded when it is about to load the RTP counter again. */
  function LoadedAlone(s: State, now: nat): View {
    View(now, s.wifiFrames, s.sessions, s.udpPackets, s.rtpPackets, s.lastWifi, s.lastUdp, s.lastRtp, 0, StoredWifi(s),
         CountersOf(s), NO_COUNTS)
  }

  lemma ReportedToReload(s: State, now: nat)
    requires s.reporter == Resting
    ensures Reported(s, now, 8) == s.(clock := now, view := LoadedAlone(s, now), reporter := ReloadingRtp)
  {
    CountersLoaded(s, now);
    var counted := Reported(s, now, 5);
    ReportedOn(s, now, 5, 3);
    TimesLoaded(counted, now);
  }

  lemma {:induction false} ReportedOn(s: State, now: nat, m: nat, n: nat)
    ensures Reported(s, now, m + n) == Reported(Reported(s, now, m), now, n)
    decreases m
  {
    if m > 0 {
      ReportedOn(ReporterStep(s, now), now, m - 1, n);
    }
  }

  lemma CountersLoaded(s: State, now: nat)
    requires s.reporter == Resting
    ensures Reported(s, now, 5) ==
              s.(clock := now, reporter := LoadingLastWifi,
                 view := View(now, s.wifiFrames, s.sessions, s.udpPackets, s.rtpPackets, 0, 0, 0, 0, 0,
                              CountersOf(s), NO_COUNTS))
  {
    var s2 := ReporterStep(ReporterStep(s, now), now);
    var s4 := ReporterStep(ReporterStep(s2, now), now);
    assert Reported(s, now, 5) == Reported(ReporterStep(s, now), now, 4) == Reported(s2, now, 3);
    assert Reported(s2, now, 3) == Reported(ReporterStep(s2, now), now, 2) == Reported(s4, now, 1);
  }

  lemma TimesLoaded(s: State, now: nat)
    requires s.reporter == LoadingLastWifi
    ensures Reported(s, now, 3) ==
              s.(reporter := ReloadingRtp,
                 view := s.view.(lastWifi := s.lastWifi, storedWifi := StoredWifi(s), lastUdp := s.lastUdp,
                                 lastRtp := s.lastRtp))
  {
    var s1 := ReporterStep(s, now);
    assert Reported(s, now, 3) == Reported(s1, now, 2) == Reported(ReporterStep(s1, now), now, 1);
  }

  lemma ReportedFromReload(s: State, now: nat)
    requires s.reporter == ReloadingRtp
    ensures var v := s.view.(shownRtp := s.rtpPackets);
            Reported(s, now, 2) ==
              s.(view := v, snapshots := s.snapshots + [v.(end := CountersOf(s))], reporter := Resting)
  {
    assert Reported(s, now, 2) == Reported(ReporterStep(s, now), now, 1);
  }

  /** The main thread takes in a frame and hands it to the aggregator. */
  lemma FrameIn(s: State) returns (schedule: seq<Action>, t: State)
    requires s.main == Idle
    ensures Leads(s, schedule, t)
    ensures t == s.(wifiFrames := s.wifiFrames + 1, wifiStamps := s.wifiStamps + [s.clock], lastWifi := s.clock,
                    main := Processing)
  {
    var now := s.clock;
    var s1 := MainStep(s, now);
    var s2 := MainStep(s1, now);
    var s3 := MainStep(s2, now);
    t := s3.(main := Processing);
    OneStep(s3, Process);
    LeadsFurther(s2, Advance(now), [Process], t);
    LeadsFurther(s1, Advance(now), [Advance(now)] + [Process], t);
    LeadsFurther(s, Advance(now), [Advance(now)] + ([Advance(now)] + [Process]), t);
    schedule := [Advance(now)] + ([Advance(now)] + ([Advance(now)] + [Process]));
  }

  /** The aggregator emits an RTP packet, and the main thread publishes it. */
  lemma PacketOut(s: State) returns (schedule: seq<Action>, t: State)
    requires s.main == Processing && s.liveSessions > 0
    ensures Leads(s, schedule, t)
    ensures t == s.(rtpStamps := s.rtpStamps + [s.clock], lastRtp := s.clock,
                    udpStamps := s.udpStamps + [s.clock], lastUdp := s.clock, rtpPackets := |s.rtpStamps| + 1)
  {
    var now := s.clock;
    var s1 := Step(s, Payload(true, now));
    var s2 := MainStep(s1, now);
    var s3 := MainStep(s2, now);
    var s4 := MainStep(s3, now);
    t := MainStep(s4, now);
    OneStep(s4, Advance(now));
    LeadsFurther(s3, Advance(now), [Advance(now)], t);
    LeadsFurther(s2, Advance(now), [Advance(now)] + [Advance(now)], t);
    LeadsFurther(s1, Advance(now), [Advance(now)] + ([Advance(now)] + [Advance(now)]), t);
    var rest := [Advance(now)] + ([Advance(now)] + ([Advance(now)] + [Advance(now)]));
    LeadsFurther(s, Payload(true, now), rest, t);
    schedule := [Payload(true, now)] + rest;
  }

  /** The aggregator authenticates a session and returns, and the main thread publishes. */
  lemma SessionOut(s: State) returns (schedule: seq<Action>, t: State)
    requires s.main == Processing && s.rtpPackets == |s.rtpStamps|
    ensures Leads(s, schedule, t)
    ensures t == s.(liveSessions := s.liveSessions + 1, sessions := s.liveSessions + 1, udpPackets := |s.udpStamps|,
                    main := Idle)
  {
    var now := s.clock;
    var s1 := Step(s, Authenticate(1));
    var s2 := Step(s1, Finish(true));
    var s3 := MainStep(s2, now);
    var s4 := MainStep(s3, now);
    t := MainStep(s4, now);
    OneStep(s4, Advance(now));
    LeadsFurther(s3, Advance(now), [Advance(now)], t);
    LeadsFurther(s2, Advance(now), [Advance(now)] + [Advance(now)], t);
    var rest := [Advance(now)] + ([Advance(now)] + [Advance(now)]);
    LeadsFurther(s1, Finish(true), rest, t);
    LeadsFurther(s, Authenticate(1), [Finish(true)] + rest, t);
    schedule := [Authenticate(1)] + ([Finish(true)] + rest);
  }

  /** A report during which one more RTP packet is stamped and published, after the loads for
      the phase and before the counter is loaded again. */
  lemma ReportAroundPacket(s: State, now: nat) returns (schedule: seq<Action>, t: State)
    requires s.main == Processing && s.reporter == Resting && s.liveSessions > 0 && s.clock <= now
    ensures Leads(s, schedule, t)
    ensures t.snapshots ==
              s.snapshots + [LoadedAlone(s, now).(shownRtp := |s.rtpStamps| + 1, end := CountersOf(t))]
    ensures t.rtpStamps == s.rtpStamps + [now]
  {
    var loaded := Reported(s, now, 8);
    ReportSteps(s, now, 8);
    ReportedToReload(s, now);
    var packet, published := PacketOut(loaded);
    ReportSteps(published, now, 2);
    ReportedFromReload(published, now);
    t := Reported(published, now, 2);
    LeadsOn(loaded, packet, published, Reports(now, 2), t);
    LeadsOn(s, Reports(now, 8), loaded, packet + Reports(now, 2), t);
    schedule := Reports(now, 8) + (packet + Reports(now, 2));
  }

  /** The first frame brings a session, and a second one is with the aggregator. */
  lemma SecondFrameIn() returns (schedule: seq<Action>, t: State)
    ensures Leads(Init(), schedule, t)
    ensures t == Init().(wifiFrames := 2, wifiStamps := [0, 0], liveSessions := 1, sessions := 1, main := Processing)
  {
    var first, s1 := FrameIn(Init());
    var session, s2 := SessionOut(s1);
    var second, s3 := FrameIn(s2);
    t := s3;
    LeadsOn(s1, session, s2, second, t);
    LeadsOn(Init(), first, s1, session + second, t);
    schedule := first + (session + second);
  }

  /** A report can say authenticated, with a null age, and show an RTP packet. */
  lemma NullAgeCanShowPacket(now: nat) returns (schedule: seq<Action>)
    ensures var run := Run(Init(), schedule);
            && run.Some? && |run.value.snapshots| == 1
            && var v := run.value.snapshots[0];
            && v.Phase() == Authenticated && v.ShownAge() == None && v.shownRtp == 1
            && !CountSuitsAge(v, run.value.rtpStamps)
  {
    var start, s := SecondFrameIn();
    var report, t := ReportAroundPacket(s, now);
    LeadsOn(Init(), start, s, report, t);
    schedule := start + report;
  }

  /** A report can say stalled, with an age of more than three seconds, and count a packet
      that was stamped at the very time of the report. */
  lemma StalledCanShowFreshPacket(now: nat) returns (schedule: seq<Action>)
    requires now > 3000
    ensures var run := Run(Init(), schedule);
            && run.Some? && |run.value.snapshots| == 1
            && var v := run.value.snapshots[0];
            && v.Phase() == Stalled && v.now == now && v.ShownAge() == Some(now)
            && v.rtp == 1 && v.shownRtp == 2 && run.value.rtpStamps == [0, now]
            && !Coherent(run.value.rtpStamps, v.shownRtp, v.lastRtp)
  {
    var start, s := SecondFrameIn();
    var packet, s1 := PacketOut(s);
    var report, t := ReportAroundPacket(s1, now);
    LeadsOn(s, packet, s1, report, t);
    LeadsOn(Init(), start, s, packet + report, t);
    schedule := start + (packet + report);
  }

  /** The age of the last frame can be wrong by any amount: in this run a report shows one
      frame and an age of `now`, although the frame is stamped only afterwards. */
  lemma WifiAgeCanBeWrong(now: nat) returns (schedule: seq<Action>)
    ensures var run := Run(Init(), schedule);
            && run.Some? && |run.value.snapshots| == 1
            && var v := run.value.snapshots[0];
            && v.wifi == 1 && v.now == now && Age(v.now, v.lastWifi) == now
            && run.value.wifiStamps == [now]
  {
    var counted := MainStep(Init(), 0);
    var loaded := Reported(counted, now, 8);
    var reported := Reported(loaded, now, 2);
    ReportSteps(counted, now, 8);
    ReportedToReload(counted, now);
    ReportSteps(loaded, now, 2);
    ReportedFromReload(loaded, now);
    var t := MainStep(reported, now);
    OneStep(reported, Advance(now));
    LeadsOn(loaded, Reports(now, 2), reported, [Advance(now)], t);
    LeadsOn(counted, Reports(now, 8), loaded, Reports(now, 2) + [Advance(now)], t);
    LeadsFurther(Init(), Advance(0), Reports(now, 8) + (Reports(now, 2) + [Advance(now)]), t);
    schedule := [Advance(0)] + (Reports(now, 8) + (Reports(now, 2) + [Advance(now)]));
  }
}
