/** Loss accounting over RTP streams: the 16-bit gap rule, its meaning on unbounded sequence
    numbers, the split of a mixed stream by SSRC, and the observer that keeps the counters. */
module RtpLoss {
  import opened Numbers
  import opened RtpPackets

  // ----- One stream -----

  /** The 16-bit difference between two successive sequence numbers. */
  function Delta(previous: u16, next: u16): u16 {
    (next - previous) % 0x1_0000
  }

  /** What one step adds to the gap counter. */
  function Gap(previous: u16, next: u16): nat {
    var delta := Delta(previous, next);
    if 1 < delta < 0x8000 then delta - 1 else 0
  }

  function StreamGaps(s: seq<u16>): nat {
    if |s| < 2 then 0
    else StreamGaps(s[..|s| - 1]) + Gap(s[|s| - 2], s[|s| - 1])
  }

  lemma GapOfAppended(s: seq<u16>, next: u16)
    requires s != []
    ensures StreamGaps(s + [next]) == StreamGaps(s) + Gap(s[|s| - 1], next)
  {
    assert (s + [next])[..|s|] == s;
  }

  // ----- Sequence numbers lifted to the integers -----

  /** Every step is the signed reading of a 16-bit difference. */
  predicate IsLift(l: seq<int>) {
    forall i, j :: 0 <= i < |l| && j == i + 1 < |l| ==> -0x8000 <= l[j] - l[i] < 0x8000
  }

  function Wrap(l: seq<int>): (s: seq<u16>)
    ensures |s| == |l|
  {
    seq(|l|, i requires 0 <= i < |l| => l[i] % 0x1_0000)
  }

  lemma WrapAppended(l: seq<int>, x: int)
    ensures Wrap(l + [x]) == Wrap(l) + [x % 0x1_0000]
  {
  }

  function Signed(delta: u16): int {
    if delta < 0x8000 then delta else delta - 0x1_0000
  }

  /** The lift that starts at the first number as it was sent. */
  function Lift(s: seq<u16>): (l: seq<int>)
    ensures |l| == |s|
  {
    if |s| == 0 then []
    else if |s| == 1 then [s[0]]
    else
      var l := Lift(s[..|s| - 1]);
      l + [l[|l| - 1] + Signed(Delta(s[|s| - 2], s[|s| - 1]))]
  }

  lemma {:induction false} LiftIsLift(s: seq<u16>)
    ensures IsLift(Lift(s)) && Wrap(Lift(s)) == s
  {
    if |s| == 1 {
      LiftOfOne(s);
    } else if |s| > 1 {
      var p := s[..|s| - 1];
      LiftIsLift(p);
      assert s == p + [s[|s| - 1]];
      LiftExtended(p, Lift(p), s[|s| - 1]);
      assert p[|p| - 1] == s[|s| - 2];
    }
  }

  lemma LiftOfOne(s: seq<u16>)
    requires |s| == 1
    ensures IsLift(Lift(s)) && Wrap(Lift(s)) == s
  {
  }

  lemma LiftExtended(s: seq<u16>, l: seq<int>, next: u16)
    requires l != [] && IsLift(l) && Wrap(l) == s
    ensures var x := l[|l| - 1] + Signed(Delta(s[|s| - 1], next)); IsLift(l + [x]) && Wrap(l + [x]) == s + [next]
  {
    assert l[|l| - 1] % 0x1_0000 == Wrap(l)[|l| - 1] == s[|s| - 1];
    SignedStep(l[|l| - 1], next);
    WrapAppended(l, l[|l| - 1] + Signed(Delta(s[|s| - 1], next)));
  }

  lemma SignedStep(a: int, next: u16)
    ensures (a + Signed(Delta(a % 0x1_0000, next))) % 0x1_0000 == next
  {
    var p := a % 0x1_0000;
    var d := Delta(p, next);
    assert d == next - p || d == next - p + 0x1_0000;
    assert a == a / 0x1_0000 * 0x1_0000 + p;
  }

  /** A stream has one lift for each reading of its first number. */
  lemma {:induction false} LiftIsUnique(l: seq<int>, m: seq<int>)
    requires IsLift(l) && IsLift(m) && Wrap(l) == Wrap(m)
    requires l != [] ==> m != [] && l[0] == m[0]
    ensures l == m
  {
    assert |l| == |Wrap(l)| == |m|;
    if |l| > 1 {
      var n := |l| - 1;
      assert Wrap(l[..n]) == Wrap(l)[..n] == Wrap(m[..n]);
      LiftIsUnique(l[..n], m[..n]);
      LastIsUnique(l, m);
    }
  }

  lemma LastIsUnique(l: seq<int>, m: seq<int>)
    requires IsLift(l) && IsLift(m) && Wrap(l) == Wrap(m) && |l| == |m| > 1
    requires l[..|l| - 1] == m[..|m| - 1]
    ensures l == m
  {
    var n := |l| - 1;
    assert l[n - 1] == l[..n][n - 1] == m[n - 1];
    assert l[n] % 0x1_0000 == Wrap(l)[n] == m[n] % 0x1_0000;
    SameResidueClose(l[n], m[n]);
    assert l == l[..n] + [l[n]] && m == m[..n] + [m[n]];
  }

  lemma SameResidueClose(a: int, b: int)
    requires a % 0x1_0000 == b % 0x1_0000 && -0x1_0000 < a - b < 0x1_0000
    ensures a == b
  {
  }

  function Highest(l: seq<int>): (m: int)
    requires l != []
    ensures m in l
    ensures forall x :: x in l ==> x <= m
  {
    if |l| == 1 then l[0]
    else
      var m := Highest(l[..|l| - 1]);
      var x := l[|l| - 1];
      assert l == l[..|l| - 1] + [x];
      if x > m then x else m
  }

  /** The numbers strictly between the first and the highest that never arrived. */
  function Missing(l: seq<int>): set<int>
    requires l != []
  {
    set x | l[0] < x < Highest(l) && x !in l
  }

  /** Arrival `i` is accounted for without excess: a forward jump starts at the highest
      number so far, and a number between the first and the highest so far has been seen. */
  predicate TidyArrival(l: seq<int>, i: nat)
    requires 0 < i < |l|
  {
    var highest := Highest(l[..i]);
    && (l[i] > l[i - 1] + 1 ==> l[i - 1] == highest)
    && (l[0] < l[i] <= highest ==> l[i] in l[..i])
  }

  predicate Tidy(l: seq<int>) {
    forall i :: 0 < i < |l| ==> TidyArrival(l, i)
  }

  lemma GapOfLiftedStep(a: int, b: int)
    requires -0x8000 <= b - a < 0x8000
    ensures Gap(a % 0x1_0000, b % 0x1_0000) == if b > a + 1 then b - a - 1 else 0
  {
    var d := Delta(a % 0x1_0000, b % 0x1_0000);
    assert d == (b - a) % 0x1_0000 by {
      assert a == a / 0x1_0000 * 0x1_0000 + a % 0x1_0000;
      assert b == b / 0x1_0000 * 0x1_0000 + b % 0x1_0000;
      assert b - a == (b / 0x1_0000 - a / 0x1_0000) * 0x1_0000 + (b % 0x1_0000 - a % 0x1_0000);
    }
  }

  function Between(low: int, high: int): (between: set<int>)
    ensures forall x :: x in between <==> low < x < high
    decreases high - low
  {
    if low + 1 >= high then {} else Between(low, high - 1) + {high - 1}
  }

  lemma {:induction false} BetweenSize(low: int, high: int)
    requires low < high
    ensures |Between(low, high)| == high - low - 1
    decreases high - low
  {
    if low + 1 < high {
      BetweenSize(low, high - 1);
    }
  }

  lemma HighestAppended(p: seq<int>, v: int)
    requires p != []
    ensures Highest(p + [v]) == if v > Highest(p) then v else Highest(p)
  {
    assert (p + [v])[..|p|] == p;
  }

  /** A new highest number makes missing what it jumps over. */
  lemma MissingAfterHigher(p: seq<int>, v: int)
    requires p != [] && v > Highest(p)
    ensures |Missing(p + [v])| == |Missing(p)| + (v - Highest(p) - 1)
  {
    var l, m := p + [v], Highest(p);
    HighestAppended(p, v);
    MissingGrows(p, v);
    assert Missing(p) !! Between(m, v);
    BetweenSize(m, v);
  }

  lemma MissingGrows(p: seq<int>, v: int)
    requires p != [] && v > Highest(p)
    ensures Missing(p + [v]) == Missing(p) + Between(Highest(p), v)
  {
    var l := p + [v];
    HighestAppended(p, v);
    assert p[0] in p && l[0] == p[0];
    assert forall x :: x in l <==> x in p || x == v;
  }

  /** Any other number is no longer missing. */
  lemma MissingAfterOther(p: seq<int>, v: int)
    requires p != [] && v <= Highest(p)
    ensures Missing(p + [v]) == Missing(p) - {v}
  {
    var l := p + [v];
    HighestAppended(p, v);
    assert l[0] == p[0];
    assert forall x :: x in l <==> x in p || x == v;
  }

  /** What one more arrival adds to the counter, on lifted numbers. */
  lemma CounterAfter(p: seq<int>, v: int)
    requires p != [] && -0x8000 <= v - p[|p| - 1] < 0x8000
    ensures var last := p[|p| - 1];
            StreamGaps(Wrap(p + [v])) == StreamGaps(Wrap(p)) + if v > last + 1 then v - last - 1 else 0
  {
    WrapAppended(p, v);
    GapOfAppended(Wrap(p), v % 0x1_0000);
    GapOfLiftedStep(p[|p| - 1], v);
  }

  /** One more arrival: the counter grows by at least what goes missing, and by exactly
      that when the arrival is tidy. */
  lemma ArrivalExcess(p: seq<int>, v: int)
    requires p != [] && -0x8000 <= v - p[|p| - 1] < 0x8000
    ensures var l := p + [v];
            var grown := StreamGaps(Wrap(l)) - StreamGaps(Wrap(p));
            && grown >= |Missing(l)| - |Missing(p)|
            && (grown == |Missing(l)| - |Missing(p)| <==> TidyArrival(l, |p|))
  {
    var l := p + [v];
    assert l[..|p|] == p;
    CounterAfter(p, v);
    if v > Highest(p) {
      MissingAfterHigher(p, v);
    } else {
      MissingAfterOther(p, v);
      if v in Missing(p) {
        assert |Missing(l)| == |Missing(p)| - 1;
      } else {
        assert Missing(l) == Missing(p);
      }
    }
  }

  /** For every stream, however often its numbers wrap: the gap counter is at least the
      number of lost packets, and equals it exactly for tidy streams. */
  lemma {:induction false} GapsCountMissing(l: seq<int>)
    requires l != [] && IsLift(l)
    ensures StreamGaps(Wrap(l)) >= |Missing(l)|
    ensures StreamGaps(Wrap(l)) == |Missing(l)| <==> Tidy(l)
  {
    if |l| == 1 {
      assert Missing(l) == {};
    } else {
      var p, v := l[..|l| - 1], l[|l| - 1];
      assert l == p + [v];
      LiftPrefix(p, v);
      GapsCountMissing(p);
      ArrivalExcess(p, v);
      TidyAppended(p, v);
    }
  }

  lemma LiftPrefix(p: seq<int>, v: int)
    requires p != [] && IsLift(p + [v])
    ensures IsLift(p) && -0x8000 <= v - p[|p| - 1] < 0x8000
  {
    var l := p + [v];
    assert l[|p|] == v && l[|p| - 1] == p[|p| - 1];
    assert forall i :: 0 <= i < |p| ==> l[i] == p[i];
  }

  lemma TidyAppended(p: seq<int>, v: int)
    requires p != []
    ensures Tidy(p + [v]) <==> Tidy(p) && TidyArrival(p + [v], |p|)
  {
    var l := p + [v];
    forall i | 0 < i < |p|
      ensures TidyArrival(p, i) <==> TidyArrival(l, i)
    {
      assert p[..i] == l[..i];
    }
  }

  predicate NeverBackwards(l: seq<int>) {
    forall i, j :: 0 <= i < |l| && j == i + 1 < |l| ==> l[i] <= l[j]
  }

  /** A stream that never goes backwards is counted exactly. */
  lemma ForwardStreamsAreExact(l: seq<int>)
    requires l != [] && IsLift(l) && NeverBackwards(l)
    ensures StreamGaps(Wrap(l)) == |Missing(l)|
  {
    forall i | 0 < i < |l|
      ensures TidyArrival(l, i)
    {
      HighestIsLast(l[..i]);
    }
    GapsCountMissing(l);
  }

  lemma {:induction false} HighestIsLast(l: seq<int>)
    requires l != [] && NeverBackwards(l)
    ensures Highest(l) == l[|l| - 1]
  {
    if |l| > 1 {
      HighestIsLast(l[..|l| - 1]);
    }
  }

  /** Going forward is enough but not needed: a repeated pair is counted exactly. */
  lemma RepeatsAreExactToo()
    ensures var l := [0, 1, 0, 1];
            IsLift(l) && !NeverBackwards(l) && StreamGaps(Wrap(l)) == |Missing(l)|
  {
    var l := [0, 1, 0, 1];
    assert l[1] > l[2];
    assert l[..1] == [0] && l[..2] == [0, 1] && l[..3] == [0, 1, 0];
    assert Highest([0]) == 0 && Highest([0, 1]) == 1 && Highest([0, 1, 0]) == 1;
    assert Tidy(l);
    GapsCountMissing(l);
  }

  /** A late packet stays counted as a gap although nothing is missing any more. */
  lemma LatePacketStaysCounted()
    ensures var l := [0, 2, 1];
            IsLift(l) && Missing(l) == {} && StreamGaps(Wrap(l)) == 1
  {
    var l := [0, 2, 1];
    assert Highest(l) == 2;
    assert 1 in l;
    assert Missing(l) == {};
    GapOfLiftedStep(0, 2);
    GapOfLiftedStep(2, 1);
    assert Wrap(l) == [0, 2, 1];
    GapOfAppended([0, 2], 1);
    GapOfAppended([0], 2);
    assert [0, 2] + [1] == [0, 2, 1] && [0] + [2] == [0, 2];
  }

  // ----- Many streams -----

  /** An accepted packet: its report and its size in bytes. */
  datatype Arrival = Arrival(info: RtpPacketInfo, size: nat)

  function Ssrcs(h: seq<Arrival>): set<u32> {
    if h == [] then {} else Ssrcs(h[..|h| - 1]) + {h[|h| - 1].info.ssrc}
  }

  /** The arrivals of one SSRC, in order. */
  function Substream(h: seq<Arrival>, ssrc: u32): seq<Arrival> {
    if h == [] then []
    else
      var a := h[|h| - 1];
      Substream(h[..|h| - 1], ssrc) + if a.info.ssrc == ssrc then [a] else []
  }

  function Sequences(s: seq<Arrival>): (q: seq<u16>)
    ensures |q| == |s|
  {
    seq(|s|, i requires 0 <= i < |s| => s[i].info.sequence)
  }

  function Packets(s: seq<Arrival>): nat {
    |s|
  }

  function Bytes(s: seq<Arrival>): nat {
    if s == [] then 0 else Bytes(s[..|s| - 1]) + s[|s| - 1].size
  }

  function Gaps(s: seq<Arrival>): nat {
    StreamGaps(Sequences(s))
  }

  /** The packets of one stream that never arrived. */
  function Lost(s: seq<Arrival>): nat {
    if s == [] then 0 else |Missing(Lift(Sequences(s)))|
  }

  ghost function Sum(keys: set<u32>, f: u32 -> nat): nat {
    if keys == {} then 0
    else
      var k :| k in keys;
      f(k) + Sum(keys - {k}, f)
  }

  lemma {:induction false} SumWithout(keys: set<u32>, f: u32 -> nat, k: u32)
    requires k in keys
    ensures Sum(keys, f) == f(k) + Sum(keys - {k}, f)
    decreases keys
  {
    var c :| c in keys && Sum(keys, f) == f(c) + Sum(keys - {c}, f);
    if c != k {
      SumWithout(keys - {c}, f, k);
      SumWithout(keys - {k}, f, c);
      assert keys - {c} - {k} == keys - {k} - {c};
    }
  }

  lemma {:induction false} SumAtLeast(keys: set<u32>, f: u32 -> nat, g: u32 -> nat)
    requires forall k :: k in keys ==> f(k) >= g(k)
    ensures Sum(keys, f) >= Sum(keys, g)
  {
    if keys != {} {
      var k :| k in keys;
      SumAtLeast(keys - {k}, f, g);
      SumWithout(keys, f, k);
      SumWithout(keys, g, k);
    }
  }

  lemma SumEqual(keys: set<u32>, f: u32 -> nat, g: u32 -> nat)
    requires forall k :: k in keys ==> f(k) == g(k)
    ensures Sum(keys, f) == Sum(keys, g)
  {
    SumAtLeast(keys, f, g);
    SumAtLeast(keys, g, f);
  }

  function PerStream(measure: seq<Arrival> -> nat, h: seq<Arrival>): u32 -> nat {
    ssrc => measure(Substream(h, ssrc))
  }

  /** A measure of single streams, added up over all streams of a history. */
  ghost function Total(measure: seq<Arrival> -> nat, h: seq<Arrival>): nat {
    Sum(Ssrcs(h), PerStream(measure, h))
  }

  lemma {:induction false} SubstreamEmpty(h: seq<Arrival>, ssrc: u32)
    ensures Substream(h, ssrc) == [] <==> ssrc !in Ssrcs(h)
  {
    if h != [] {
      var p := h[..|h| - 1];
      SubstreamEmpty(p, ssrc);
      assert h == p + [h[|h| - 1]];
    }
  }

  lemma SubstreamAppended(h: seq<Arrival>, a: Arrival, ssrc: u32)
    ensures Substream(h + [a], ssrc) == if a.info.ssrc == ssrc then Substream(h, ssrc) + [a] else Substream(h, ssrc)
  {
    assert (h + [a])[..|h|] == h;
  }

  /** One more arrival changes the total by what it changes in its own stream. */
  lemma TotalAppended(measure: seq<Arrival> -> nat, h: seq<Arrival>, a: Arrival)
    requires measure([]) == 0
    ensures var s := Substream(h, a.info.ssrc);
            Total(measure, h + [a]) + measure(s) == Total(measure, h) + measure(s + [a])
  {
    var x := a.info.ssrc;
    var after, before := PerStream(measure, h + [a]), PerStream(measure, h);
    assert Ssrcs(h + [a]) == Ssrcs(h) + {x};
    forall k | k in Ssrcs(h) - {x}
      ensures after(k) == before(k)
    {
      SubstreamAppended(h, a, k);
    }
    SumEqual(Ssrcs(h) - {x}, after, before);
    SubstreamAppended(h, a, x);
    SumWithout(Ssrcs(h) + {x}, after, x);
    assert Ssrcs(h) + {x} - {x} == Ssrcs(h) - {x};
    SubstreamEmpty(h, x);
    if x in Ssrcs(h) {
      SumWithout(Ssrcs(h), before, x);
    } else {
      assert Ssrcs(h) - {x} == Ssrcs(h);
    }
  }

  lemma {:induction false} PacketsAddUp(h: seq<Arrival>)
    ensures Total(Packets, h) == |h|
  {
    if h != [] {
      var p, a := h[..|h| - 1], h[|h| - 1];
      PacketsAddUp(p);
      TotalAppended(Packets, p, a);
      assert h == p + [a];
    }
  }

  lemma BytesAppended(s: seq<Arrival>, a: Arrival)
    ensures Bytes(s + [a]) == Bytes(s) + a.size
  {
    assert (s + [a])[..|s|] == s;
  }

  lemma {:induction false} BytesAddUp(h: seq<Arrival>)
    ensures Total(Bytes, h) == Bytes(h)
  {
    if h != [] {
      var p, a := h[..|h| - 1], h[|h| - 1];
      BytesAddUp(p);
      TotalAppended(Bytes, p, a);
      BytesAppended(Substream(p, a.info.ssrc), a);
      assert h == p + [a];
    }
  }

  /** The gap total after one more arrival. */
  lemma GapsAppended(h: seq<Arrival>, a: Arrival)
    ensures var s := Substream(h, a.info.ssrc);
            Total(Gaps, h + [a]) ==
              Total(Gaps, h) + if s == [] then 0 else Gap(s[|s| - 1].info.sequence, a.info.sequence)
  {
    var s := Substream(h, a.info.ssrc);
    TotalAppended(Gaps, h, a);
    assert Sequences(s + [a]) == Sequences(s) + [a.info.sequence];
    if s != [] {
      GapOfAppended(Sequences(s), a.info.sequence);
    }
  }

  lemma SsrcsAppended(h: seq<Arrival>, a: Arrival)
    ensures Ssrcs(h + [a]) == Ssrcs(h) + {a.info.ssrc}
  {
  }

  lemma GapAtMost(previous: u16, next: u16)
    ensures Gap(previous, next) <= 0x7ffe
  {
  }

  /** One more arrival is the first of its stream, or adds at most 0x7ffe. */
  lemma GapsGrowth(h: seq<Arrival>, a: Arrival)
    ensures |Ssrcs(h + [a])| == |Ssrcs(h)| + if a.info.ssrc in Ssrcs(h) then 0 else 1
    ensures Total(Gaps, h + [a]) <= Total(Gaps, h) + if a.info.ssrc in Ssrcs(h) then 0x7ffe else 0
  {
    GapsAppended(h, a);
    SubstreamEmpty(h, a.info.ssrc);
    SsrcsAppended(h, a);
    var s := Substream(h, a.info.ssrc);
    if s != [] {
      GapAtMost(s[|s| - 1].info.sequence, a.info.sequence);
      assert Ssrcs(h + [a]) == Ssrcs(h);
    }
  }

  /** The gap total is bounded by the packets that are not the first of their stream. */
  lemma {:induction false} GapsBounded(h: seq<Arrival>)
    ensures |Ssrcs(h)| <= |h|
    ensures Total(Gaps, h) <= 0x7ffe * (|h| - |Ssrcs(h)|)
  {
    if h != [] {
      var p, a := h[..|h| - 1], h[|h| - 1];
      GapsBounded(p);
      GapsGrowth(p, a);
      assert h == p + [a];
    }
  }

  /** Two histories that order every single stream alike, however they interleave them. */
  ghost predicate SameStreams(h: seq<Arrival>, k: seq<Arrival>) {
    forall ssrc: u32 :: Substream(h, ssrc) == Substream(k, ssrc)
  }

  lemma SameStreamsSameTotal(measure: seq<Arrival> -> nat, h: seq<Arrival>, k: seq<Arrival>)
    requires SameStreams(h, k)
    ensures Ssrcs(h) == Ssrcs(k) && Total(measure, h) == Total(measure, k)
  {
    forall ssrc: u32
      ensures ssrc in Ssrcs(h) <==> ssrc in Ssrcs(k)
    {
      SubstreamEmpty(h, ssrc);
      SubstreamEmpty(k, ssrc);
    }
    SumEqual(Ssrcs(h), PerStream(measure, h), PerStream(measure, k));
  }

  /** Interleaving does not matter: packet, byte and gap counts are those of the streams. */
  lemma InterleavingIrrelevant(h: seq<Arrival>, k: seq<Arrival>)
    requires SameStreams(h, k)
    ensures |h| == |k| && Bytes(h) == Bytes(k) && Total(Gaps, h) == Total(Gaps, k)
  {
    SameStreamsSameTotal(Packets, h, k);
    SameStreamsSameTotal(Bytes, h, k);
    SameStreamsSameTotal(Gaps, h, k);
    PacketsAddUp(h);
    PacketsAddUp(k);
    BytesAddUp(h);
    BytesAddUp(k);
  }

  lemma GapsCoverLost(s: seq<Arrival>)
    ensures Gaps(s) >= Lost(s)
    ensures s != [] ==> (Gaps(s) == Lost(s) <==> Tidy(Lift(Sequences(s))))
  {
    if s != [] {
      var q := Sequences(s);
      LiftIsLift(q);
      GapsCountMissing(Lift(q));
    }
  }

  /** Two sums, one at least the other term by term, are equal only if all terms are. */
  lemma {:induction false} SumEqualOnlyIf(keys: set<u32>, f: u32 -> nat, g: u32 -> nat)
    requires forall k :: k in keys ==> f(k) >= g(k)
    requires Sum(keys, f) == Sum(keys, g)
    ensures forall k :: k in keys ==> f(k) == g(k)
  {
    forall k | k in keys
      ensures f(k) == g(k)
    {
      SumWithout(keys, f, k);
      SumWithout(keys, g, k);
      SumAtLeast(keys - {k}, f, g);
    }
  }

  /** Every single stream, lifted, is tidy. */
  ghost predicate TidyStreams(h: seq<Arrival>) {
    forall ssrc :: ssrc in Ssrcs(h) ==> Tidy(Lift(Sequences(Substream(h, ssrc))))
  }

  lemma StreamIsExact(h: seq<Arrival>, ssrc: u32)
    requires ssrc in Ssrcs(h)
    ensures PerStream(Gaps, h)(ssrc) >= PerStream(Lost, h)(ssrc)
    ensures PerStream(Gaps, h)(ssrc) == PerStream(Lost, h)(ssrc) <==> Tidy(Lift(Sequences(Substream(h, ssrc))))
  {
    SubstreamEmpty(h, ssrc);
    GapsCoverLost(Substream(h, ssrc));
  }

  /** Over all streams together the gap total is at least the number of lost packets, and
      equals it exactly if every single stream is tidy. */
  lemma GapsCoverLosses(h: seq<Arrival>)
    ensures Total(Gaps, h) >= Total(Lost, h)
    ensures Total(Gaps, h) == Total(Lost, h) <==> TidyStreams(h)
  {
    var gaps, lost := PerStream(Gaps, h), PerStream(Lost, h);
    forall ssrc | ssrc in Ssrcs(h)
      ensures gaps(ssrc) >= lost(ssrc)
      ensures gaps(ssrc) == lost(ssrc) <==> Tidy(Lift(Sequences(Substream(h, ssrc))))
    {
      StreamIsExact(h, ssrc);
    }
    SumAtLeast(Ssrcs(h), gaps, lost);
    if TidyStreams(h) {
      SumEqual(Ssrcs(h), gaps, lost);
    } else if Total(Gaps, h) == Total(Lost, h) {
      SumEqualOnlyIf(Ssrcs(h), gaps, lost);
    }
  }

  // ----- The observer -----

  /** The first codec that any packet gave away. */
  function FirstCodec(h: seq<Arrival>): VideoCodec {
    if h == [] then Unknown
    else if h[0].info.codecHint != Unknown then h[0].info.codecHint
    else FirstCodec(h[1..])
  }

  lemma {:induction false} FirstCodecAppended(h: seq<Arrival>, a: Arrival)
    ensures FirstCodec(h + [a]) == if FirstCodec(h) != Unknown then FirstCodec(h) else a.info.codecHint
  {
    if h != [] {
      FirstCodecAppended(h[1..], a);
      assert (h + [a])[1..] == h[1..] + [a];
    }
  }

  /** It is that of the first packet with a hint, if there is one. */
  lemma {:induction false} FirstCodecIsFirst(h: seq<Arrival>)
    ensures FirstCodec(h) == Unknown <==> forall i :: 0 <= i < |h| ==> h[i].info.codecHint == Unknown
    ensures FirstCodec(h) != Unknown ==>
              exists i :: 0 <= i < |h| && h[i].info.codecHint == FirstCodec(h)
                          && forall j :: 0 <= j < i ==> h[j].info.codecHint == Unknown
  {
    if h != [] {
      FirstCodecIsFirst(h[1..]);
      if h[0].info.codecHint != Unknown {
        assert h[0].info.codecHint == FirstCodec(h);
      } else if FirstCodec(h) != Unknown {
        var i :| 0 <= i < |h[1..]| && h[1..][i].info.codecHint == FirstCodec(h)
                 && forall j :: 0 <= j < i ==> h[1..][j].info.codecHint == Unknown;
        assert h[i + 1] == h[1..][i];
        assert forall j :: 0 <= j < i + 1 ==> h[j].info.codecHint == Unknown by {
          forall j | 0 <= j < i + 1
            ensures h[j].info.codecHint == Unknown
          {
            if j > 0 {
              assert h[j] == h[1..][j - 1];
            }
          }
        }
      } else {
        assert forall i :: 0 < i < |h| ==> h[i] == h[1..][i - 1];
      }
    }
  }

  /** The history that observing these packets leaves, and their accepted octets. */
  function Observed(packets: seq<seq<u8>>): seq<Arrival> {
    if packets == [] then []
    else
      var front, last := Observed(packets[..|packets| - 1]), packets[|packets| - 1];
      match Inspect(last)
      case None => front
      case Some(info) => front + [Arrival(info, |last|)]
  }

  function AcceptedOctets(packets: seq<seq<u8>>): seq<u8> {
    if packets == [] then []
    else
      var last := packets[|packets| - 1];
      if Inspect(last).Some? then AcceptedOctets(packets[..|packets| - 1]) + last
      else AcceptedOctets(packets[..|packets| - 1])
  }

  /** The byte count is the number of octets of all accepted packets. */
  lemma {:induction false} BytesAreOctets(packets: seq<seq<u8>>)
    ensures Bytes(Observed(packets)) == |AcceptedOctets(packets)|
  {
    if packets != [] {
      var front, last := packets[..|packets| - 1], packets[|packets| - 1];
      BytesAreOctets(front);
      if Inspect(last).Some? {
        BytesAppended(Observed(front), Arrival(Inspect(last).value, |last|));
      }
    }
  }

  /** The map holds, for every stream, the sequence number that arrived last. */
  ghost predicate LastSequences(h: seq<Arrival>, last: map<u32, u16>) {
    && last.Keys == Ssrcs(h)
    && forall ssrc :: ssrc in last ==>
         var s := Substream(h, ssrc);
         s != [] && last[ssrc] == s[|s| - 1].info.sequence
  }

  lemma LastSequencesAppended(h: seq<Arrival>, a: Arrival, last: map<u32, u16>)
    requires LastSequences(h, last)
    ensures LastSequences(h + [a], last[a.info.ssrc := a.info.sequence])
  {
    var next := last[a.info.ssrc := a.info.sequence];
    assert Ssrcs(h + [a]) == Ssrcs(h) + {a.info.ssrc};
    forall ssrc | ssrc in next
      ensures var s := Substream(h + [a], ssrc); s != [] && next[ssrc] == s[|s| - 1].info.sequence
    {
      SubstreamAppended(h, a, ssrc);
    }
  }

  function LastOf(h: seq<Arrival>): map<u32, u16> {
    if h == [] then map[]
    else
      var last := h[|h| - 1].info;
      LastOf(h[..|h| - 1])[last.ssrc := last.sequence]
  }

  lemma {:induction false} LastOfHistory(h: seq<Arrival>)
    ensures LastSequences(h, LastOf(h))
  {
    if h != [] {
      var p, a := h[..|h| - 1], h[|h| - 1];
      assert h == p + [a];
      LastOfHistory(p);
      LastSequencesAppended(p, a, LastOf(p));
      assert LastOf(h) == LastOf(p)[a.info.ssrc := a.info.sequence];
    }
  }

  /** The gap total after one more arrival, from the map of last sequence numbers. */
  lemma GapsByLastSequence(h: seq<Arrival>, a: Arrival, last: map<u32, u16>)
    requires LastSequences(h, last)
    ensures Total(Gaps, h + [a]) ==
              Total(Gaps, h) + if a.info.ssrc in last then Gap(last[a.info.ssrc], a.info.sequence) else 0
  {
    SubstreamEmpty(h, a.info.ssrc);
    GapsAppended(h, a);
  }

  /** Every counter is the value that the whole history determines. */
  ghost predicate Tracks(h: seq<Arrival>, codec: VideoCodec, payloadType: Option<u8>, packets: nat, bytes: nat,
                         gaps: nat, last: map<u32, u16>)
  {
    && codec == FirstCodec(h)
    && payloadType == (if h == [] then None else Some(h[|h| - 1].info.payloadType))
    && packets == |h|
    && bytes == Bytes(h)
    && gaps == Total(Gaps, h)
    && last == LastOf(h)
  }

  /** How each counter must move when one more packet arrives. */
  lemma TracksAppended(h: seq<Arrival>, a: Arrival, codec: VideoCodec, payloadType: Option<u8>, packets: nat,
                       bytes: nat, gaps: nat, last: map<u32, u16>)
    requires Tracks(h, codec, payloadType, packets, bytes, gaps, last)
    ensures Tracks(h + [a], if codec != Unknown then codec else a.info.codecHint, Some(a.info.payloadType),
                   packets + 1, bytes + a.size,
                   gaps + if a.info.ssrc in last then Gap(last[a.info.ssrc], a.info.sequence) else 0,
                   last[a.info.ssrc := a.info.sequence])
  {
    LastOfHistory(h);
    GapsByLastSequence(h, a, last);
    assert (h + [a])[..|h|] == h;
    BytesAppended(h, a);
    FirstCodecAppended(h, a);
  }

  /** The counters of one output, with the history of accepted packets as a ghost. */
  class RtpObserver {
    var codec: VideoCodec
    var payloadType: Option<u8>
    var packetCount: nat
    var byteCount: nat
    var sequenceGaps: nat
    var lastSequenceBySsrc: map<u32, u16>
    ghost var history: seq<Arrival>

    ghost predicate Valid()
      reads this
    {
      Tracks(history, codec, payloadType, packetCount, byteCount, sequenceGaps, lastSequenceBySsrc)
    }

    constructor ()
      ensures Valid() && history == []
    {
      codec, payloadType, packetCount, byteCount, sequenceGaps := Unknown, None, 0, 0, 0;
      lastSequenceBySsrc := map[];
      history := [];
    }

    /** Returns whether this packet revealed the codec. A packet that is not RTP changes
        nothing. */
    method Observe(packet: seq<u8>) returns (detected: bool)
      requires Valid()
      modifies this
      ensures Valid()
      ensures history == old(history) + if Inspect(packet).Some? then [Arrival(Inspect(packet).value, |packet|)] else []
      ensures detected <==> old(codec) == Unknown && codec != Unknown
    {
      var inspected := InspectRtpPacket(packet);
      if inspected == None {
        return false;
      }
      detected := Account(inspected.value, |packet|);
    }

    /** The accounting part of `Observe`, for an accepted packet. */
    method Account(info: RtpPacketInfo, size: nat) returns (detected: bool)
      requires Valid()
      modifies this
      ensures Valid()
      ensures history == old(history) + [Arrival(info, size)]
      ensures detected <==> old(codec) == Unknown && codec != Unknown
    {
      ghost var a := Arrival(info, size);
      TracksAppended(history, a, codec, payloadType, packetCount, byteCount, sequenceGaps, lastSequenceBySsrc);
      packetCount := packetCount + 1;
      byteCount := byteCount + size;
      payloadType := Some(info.payloadType);
      CountGap(info);
      detected := LatchCodec(info.codecHint);
      history := history + [a];
    }

    /** Keeps the first codec that any packet gives away. */
    method LatchCodec(hint: VideoCodec) returns (detected: bool)
      modifies this`codec
      ensures codec == if old(codec) != Unknown then old(codec) else hint
      ensures detected <==> old(codec) == Unknown && codec != Unknown
    {
      if codec == Unknown && hint != Unknown {
        codec := hint;
        return true;
      }
      return false;
    }

    /** Adds the gap before a packet of a stream that has been seen, and remembers its number. */
    method CountGap(info: RtpPacketInfo)
      modifies this`sequenceGaps, this`lastSequenceBySsrc
      ensures var last := old(lastSequenceBySsrc);
              sequenceGaps == old(sequenceGaps) + if info.ssrc in last then Gap(last[info.ssrc], info.sequence) else 0
      ensures lastSequenceBySsrc == old(lastSequenceBySsrc)[info.ssrc := info.sequence]
    {
      if info.ssrc in lastSequenceBySsrc {
        var delta: nat := Delta(lastSequenceBySsrc[info.ssrc], info.sequence);
        if delta > 1 && delta < 0x8000 {
          sequenceGaps := sequenceGaps + (delta - 1);
        }
      }
      lastSequenceBySsrc := lastSequenceBySsrc[info.ssrc := info.sequence];
    }
  }
}
