/** The `rx.frame` lines character by character: what the serialiser prints, and what the
    parser makes of a line that it did not print. */
module FrameLines {
  import opened Numbers
  import opened Frames
  import opened TextScanning
  import opened FrameText

  // ----- The printed line, spelt out -----

  function BoolDigit(b: bool): string {
    if b then "1" else "0"
  }

  function PairText(p: (i8, i8)): string {
    "[" + SignedDecimal(p.0) + "," + SignedDecimal(p.1) + "]"
  }

  function QuotedHex(bytes: seq<u8>): string {
    "\"" + HexText(bytes) + "\""
  }

  lemma BoolPrinted(b: bool)
    ensures Bool(b).Text() == BoolDigit(b)
  {
    DecimalByDigits(if b then 1 else 0);
  }

  lemma PairPrinted(p: (i8, i8))
    ensures Value.Pair(p).Text() == PairText(p)
  {
  }

  lemma HexPrinted(bytes: seq<u8>)
    ensures Hex(bytes).Text() == QuotedHex(bytes)
  {
  }

  /** `tails[k]` is what the line holds from its `k`-th member on. */
  ghost predicate AreTails(f: RadioFrame, tails: seq<string>) {
    && |tails| == 15
    && forall i, j :: 0 <= i < 14 && j == i + 1 ==> tails[i] == "," + MemberOf(f, ORDER[i]).Text() + tails[j]
  }

  lemma {:induction false} TailsOf(f: RadioFrame, k: nat) returns (tails: seq<string>)
    requires k <= 14
    ensures |tails| == 15 - k && tails[0] == Members(FrameMembers(f)[k..]) && tails[14 - k] == "}"
    ensures forall i, j :: 0 <= i < 14 - k && j == i + 1 ==>
              tails[i] == "," + MemberOf(f, ORDER[k + i]).Text() + tails[j]
    decreases 14 - k
  {
    var ms := FrameMembers(f)[k..];
    if k == 14 {
      return ["}"];
    }
    var rest := TailsOf(f, k + 1);
    assert ms[1..] == FrameMembers(f)[k + 1..];
    tails := [Members(ms)] + rest;
    forall i, j | 0 <= i < 14 - k && j == i + 1
      ensures tails[i] == "," + MemberOf(f, ORDER[k + i]).Text() + tails[j]
    {
      if i > 0 {
        assert rest[i - 1] == "," + MemberOf(f, ORDER[(k + 1) + (i - 1)]).Text() + rest[i];
      }
    }
  }

  lemma AllTails(f: RadioFrame) returns (tails: seq<string>)
    ensures AreTails(f, tails) && Serialize(f) == EVENT_TAG + tails[0] && tails[14] == "}"
  {
    tails := TailsOf(f, 0);
    assert FrameMembers(f)[0..] == FrameMembers(f);
    forall i, j | 0 <= i < 14 && j == i + 1
      ensures tails[i] == "," + MemberOf(f, ORDER[i]).Text() + tails[j]
    {
      assert ORDER[0 + i] == ORDER[i];
    }
  }

  /** One member, with the comma before it, in front of the rest. */
  lemma Printed(f: RadioFrame, tails: seq<string>, k: nat, name: string, value: string)
    requires AreTails(f, tails) && k < 14
    requires "," + Needle(KeyText(ORDER[k])) == name && ValueOf(f, ORDER[k]).Text() == value
    ensures tails[k] == name + value + tails[k + 1]
  {
    var next := k + 1;
    assert tails[k] == "," + MemberOf(f, ORDER[k]).Text() + tails[next];
    Regroup(",", Needle(KeyText(ORDER[k])), ValueOf(f, ORDER[k]).Text(), tails[next]);
  }

  lemma Regroup(a: string, b: string, c: string, d: string)
    ensures a + (b + c) + d == a + b + c + d
  {
  }

  lemma PrintRate(f: RadioFrame, tails: seq<string>)
    requires AreTails(f, tails)
    ensures tails[0] == ",\"rate\":" + SignedDecimal(f.rate) + tails[1]
  {
    RateAt();
    Printed(f, tails, 0, ",\"rate\":", SignedDecimal(f.rate));
  }

  lemma RateAt()
    ensures ORDER[0] == Rate && "," + Needle(KeyText(Rate)) == ",\"rate\":"
  {
  }

  lemma PrintLen(f: RadioFrame, tails: seq<string>)
    requires AreTails(f, tails)
    ensures tails[1] == ",\"len\":" + SignedDecimal(|f.body| + 24) + tails[2]
  {
    LenAt();
    Printed(f, tails, 1, ",\"len\":", SignedDecimal(|f.body| + 24));
  }

  lemma LenAt()
    ensures ORDER[1] == Len && "," + Needle(KeyText(Len)) == ",\"len\":"
  {
  }

  lemma PrintCrc(f: RadioFrame, tails: seq<string>)
    requires AreTails(f, tails)
    ensures tails[2] == ",\"crc\":" + BoolDigit(f.crcError) + tails[3]
  {
    CrcAt();
    BoolPrinted(f.crcError);
    Printed(f, tails, 2, ",\"crc\":", BoolDigit(f.crcError));
  }

  lemma CrcAt()
    ensures ORDER[2] == Crc && "," + Needle(KeyText(Crc)) == ",\"crc\":"
  {
  }

  lemma PrintIcv(f: RadioFrame, tails: seq<string>)
    requires AreTails(f, tails)
    ensures tails[3] == ",\"icv\":" + BoolDigit(f.icvError) + tails[4]
  {
    IcvAt();
    BoolPrinted(f.icvError);
    Printed(f, tails, 3, ",\"icv\":", BoolDigit(f.icvError));
  }

  lemma IcvAt()
    ensures ORDER[3] == Icv && "," + Needle(KeyText(Icv)) == ",\"icv\":"
  {
  }

  lemma PrintRssi(f: RadioFrame, tails: seq<string>)
    requires AreTails(f, tails)
    ensures tails[4] == ",\"rssi\":" + PairText(f.rssi) + tails[5]
  {
    RssiAt();
    PairPrinted(f.rssi);
    Printed(f, tails, 4, ",\"rssi\":", PairText(f.rssi));
  }

  lemma RssiAt()
    ensures ORDER[4] == Rssi && "," + Needle(KeyText(Rssi)) == ",\"rssi\":"
  {
  }

  lemma PrintEvm(f: RadioFrame, tails: seq<string>)
    requires AreTails(f, tails)
    ensures tails[5] == ",\"evm\":" + PairText(f.evm) + tails[6]
  {
    EvmAt();
    PairPrinted(f.evm);
    Printed(f, tails, 5, ",\"evm\":", PairText(f.evm));
  }

  lemma EvmAt()
    ensures ORDER[5] == Evm && "," + Needle(KeyText(Evm)) == ",\"evm\":"
  {
  }

  lemma PrintSnr(f: RadioFrame, tails: seq<string>)
    requires AreTails(f, tails)
    ensures tails[6] == ",\"snr\":" + PairText(f.snr) + tails[7]
  {
    SnrAt();
    PairPrinted(f.snr);
    Printed(f, tails, 6, ",\"snr\":", PairText(f.snr));
  }

  lemma SnrAt()
    ensures ORDER[6] == Snr && "," + Needle(KeyText(Snr)) == ",\"snr\":"
  {
  }

  lemma PrintSeq(f: RadioFrame, tails: seq<string>)
    requires AreTails(f, tails)
    ensures tails[7] == ",\"seq\":" + SignedDecimal(f.sequence) + tails[8]
  {
    SeqAt();
    Printed(f, tails, 7, ",\"seq\":", SignedDecimal(f.sequence));
  }

  lemma SeqAt()
    ensures ORDER[7] == Seq && "," + Needle(KeyText(Seq)) == ",\"seq\":"
  {
  }

  lemma PrintTsfl(f: RadioFrame, tails: seq<string>)
    requires AreTails(f, tails)
    ensures tails[8] == ",\"tsfl\":" + SignedDecimal(f.tsfl) + tails[9]
  {
    TsflAt();
    Printed(f, tails, 8, ",\"tsfl\":", SignedDecimal(f.tsfl));
  }

  lemma TsflAt()
    ensures ORDER[8] == Tsfl && "," + Needle(KeyText(Tsfl)) == ",\"tsfl\":"
  {
  }

  lemma PrintBw(f: RadioFrame, tails: seq<string>)
    requires AreTails(f, tails)
    ensures tails[9] == ",\"bw\":" + SignedDecimal(f.bandwidth) + tails[10]
  {
    BwAt();
    Printed(f, tails, 9, ",\"bw\":", SignedDecimal(f.bandwidth));
  }

  lemma BwAt()
    ensures ORDER[9] == Bw && "," + Needle(KeyText(Bw)) == ",\"bw\":"
  {
  }

  lemma PrintLdpc(f: RadioFrame, tails: seq<string>)
    requires AreTails(f, tails)
    ensures tails[10] == ",\"ldpc\":" + BoolDigit(f.ldpc) + tails[11]
  {
    LdpcAt();
    BoolPrinted(f.ldpc);
    Printed(f, tails, 10, ",\"ldpc\":", BoolDigit(f.ldpc));
  }

  lemma LdpcAt()
    ensures ORDER[10] == Ldpc && "," + Needle(KeyText(Ldpc)) == ",\"ldpc\":"
  {
  }

  lemma PrintSgi(f: RadioFrame, tails: seq<string>)
    requires AreTails(f, tails)
    ensures tails[11] == ",\"sgi\":" + BoolDigit(f.shortGuardInterval) + tails[12]
  {
    SgiAt();
    BoolPrinted(f.shortGuardInterval);
    Printed(f, tails, 11, ",\"sgi\":", BoolDigit(f.shortGuardInterval));
  }

  lemma SgiAt()
    ensures ORDER[11] == Sgi && "," + Needle(KeyText(Sgi)) == ",\"sgi\":"
  {
  }

  lemma PrintSa(f: RadioFrame, tails: seq<string>)
    requires AreTails(f, tails)
    ensures tails[12] == ",\"sa\":" + QuotedHex(f.source) + tails[13]
  {
    SaAt();
    HexPrinted(f.source);
    Printed(f, tails, 12, ",\"sa\":", QuotedHex(f.source));
  }

  lemma SaAt()
    ensures ORDER[12] == Sa && "," + Needle(KeyText(Sa)) == ",\"sa\":"
  {
  }

  lemma PrintBody(f: RadioFrame, tails: seq<string>)
    requires AreTails(f, tails)
    ensures tails[13] == ",\"body\":" + QuotedHex(f.body) + tails[14]
  {
    BodyAt();
    HexPrinted(f.body);
    Printed(f, tails, 13, ",\"body\":", QuotedHex(f.body));
  }

  lemma BodyAt()
    ensures ORDER[13] == Body && "," + Needle(KeyText(Body)) == ",\"body\":"
  {
  }

  lemma MovedOver(front: string, name: string, value: string, rest: string)
    ensures front + (name + value + rest) == front + name + value + rest
  {
  }

  lemma PrintFirstMembers(front: string, f: RadioFrame, tails: seq<string>)
    requires AreTails(f, tails)
    ensures front + tails[0] ==
              front
              + ",\"rate\":" + SignedDecimal(f.rate)
              + ",\"len\":" + SignedDecimal(|f.body| + 24)
              + ",\"crc\":" + BoolDigit(f.crcError)
              + ",\"icv\":" + BoolDigit(f.icvError)
              + tails[4]
  {
    var s0 := front;
    PrintRate(f, tails);
    MovedOver(s0, ",\"rate\":", SignedDecimal(f.rate), tails[1]);
    var s1 := s0 + ",\"rate\":" + SignedDecimal(f.rate);
    PrintLen(f, tails);
    MovedOver(s1, ",\"len\":", SignedDecimal(|f.body| + 24), tails[2]);
    var s2 := s1 + ",\"len\":" + SignedDecimal(|f.body| + 24);
    PrintCrc(f, tails);
    MovedOver(s2, ",\"crc\":", BoolDigit(f.crcError), tails[3]);
    var s3 := s2 + ",\"crc\":" + BoolDigit(f.crcError);
    PrintIcv(f, tails);
    MovedOver(s3, ",\"icv\":", BoolDigit(f.icvError), tails[4]);
  }

  lemma PrintSecondMembers(front: string, f: RadioFrame, tails: seq<string>)
    requires AreTails(f, tails)
    ensures front + tails[4] ==
              front
              + ",\"rssi\":" + PairText(f.rssi)
              + ",\"evm\":" + PairText(f.evm)
              + ",\"snr\":" + PairText(f.snr)
              + tails[7]
  {
    var s0 := front;
    PrintRssi(f, tails);
    MovedOver(s0, ",\"rssi\":", PairText(f.rssi), tails[5]);
    var s1 := s0 + ",\"rssi\":" + PairText(f.rssi);
    PrintEvm(f, tails);
    MovedOver(s1, ",\"evm\":", PairText(f.evm), tails[6]);
    var s2 := s1 + ",\"evm\":" + PairText(f.evm);
    PrintSnr(f, tails);
    MovedOver(s2, ",\"snr\":", PairText(f.snr), tails[7]);
  }

  lemma PrintThirdMembers(front: string, f: RadioFrame, tails: seq<string>)
    requires AreTails(f, tails)
    ensures front + tails[7] ==
              front
              + ",\"seq\":" + SignedDecimal(f.sequence)
              + ",\"tsfl\":" + SignedDecimal(f.tsfl)
              + ",\"bw\":" + SignedDecimal(f.bandwidth)
              + tails[10]
  {
    var s0 := front;
    PrintSeq(f, tails);
    MovedOver(s0, ",\"seq\":", SignedDecimal(f.sequence), tails[8]);
    var s1 := s0 + ",\"seq\":" + SignedDecimal(f.sequence);
    PrintTsfl(f, tails);
    MovedOver(s1, ",\"tsfl\":", SignedDecimal(f.tsfl), tails[9]);
    var s2 := s1 + ",\"tsfl\":" + SignedDecimal(f.tsfl);
    PrintBw(f, tails);
    MovedOver(s2, ",\"bw\":", SignedDecimal(f.bandwidth), tails[10]);
  }

  lemma PrintFourthMembers(front: string, f: RadioFrame, tails: seq<string>)
    requires AreTails(f, tails)
    ensures front + tails[10] ==
              front
              + ",\"ldpc\":" + BoolDigit(f.ldpc)
              + ",\"sgi\":" + BoolDigit(f.shortGuardInterval)
              + ",\"sa\":" + QuotedHex(f.source)
              + ",\"body\":" + QuotedHex(f.body)
              + tails[14]
  {
    var s0 := front;
    PrintLdpc(f, tails);
    MovedOver(s0, ",\"ldpc\":", BoolDigit(f.ldpc), tails[11]);
    var s1 := s0 + ",\"ldpc\":" + BoolDigit(f.ldpc);
    PrintSgi(f, tails);
    MovedOver(s1, ",\"sgi\":", BoolDigit(f.shortGuardInterval), tails[12]);
    var s2 := s1 + ",\"sgi\":" + BoolDigit(f.shortGuardInterval);
    PrintSa(f, tails);
    MovedOver(s2, ",\"sa\":", QuotedHex(f.source), tails[13]);
    var s3 := s2 + ",\"sa\":" + QuotedHex(f.source);
    PrintBody(f, tails);
    MovedOver(s3, ",\"body\":", QuotedHex(f.body), tails[14]);
  }

  /** The line printed for a frame, character by character. */
  lemma SerializedText(f: RadioFrame)
    ensures Serialize(f) ==
              "{\"ev\":\"rx.frame\""
              + ",\"rate\":" + SignedDecimal(f.rate)
              + ",\"len\":" + SignedDecimal(|f.body| + 24)
              + ",\"crc\":" + BoolDigit(f.crcError)
              + ",\"icv\":" + BoolDigit(f.icvError)
              + ",\"rssi\":" + PairText(f.rssi)
              + ",\"evm\":" + PairText(f.evm)
              + ",\"snr\":" + PairText(f.snr)
              + ",\"seq\":" + SignedDecimal(f.sequence)
              + ",\"tsfl\":" + SignedDecimal(f.tsfl)
              + ",\"bw\":" + SignedDecimal(f.bandwidth)
              + ",\"ldpc\":" + BoolDigit(f.ldpc)
              + ",\"sgi\":" + BoolDigit(f.shortGuardInterval)
              + ",\"sa\":" + QuotedHex(f.source)
              + ",\"body\":" + QuotedHex(f.body)
              + "}"
  {
    var tails := AllTails(f);
    var s0 := "{\"ev\":\"rx.frame\"";
    PrintFirstMembers(s0, f, tails);
    var s1 := s0
              + ",\"rate\":" + SignedDecimal(f.rate)
              + ",\"len\":" + SignedDecimal(|f.body| + 24)
              + ",\"crc\":" + BoolDigit(f.crcError)
              + ",\"icv\":" + BoolDigit(f.icvError);
    PrintSecondMembers(s1, f, tails);
    var s2 := s1
              + ",\"rssi\":" + PairText(f.rssi)
              + ",\"evm\":" + PairText(f.evm)
              + ",\"snr\":" + PairText(f.snr);
    PrintThirdMembers(s2, f, tails);
    var s3 := s2
              + ",\"seq\":" + SignedDecimal(f.sequence)
              + ",\"tsfl\":" + SignedDecimal(f.tsfl)
              + ",\"bw\":" + SignedDecimal(f.bandwidth);
    PrintFourthMembers(s3, f, tails);
  }

  // ----- What a line says -----

  predicate FirstAt(line: string, needle: string, at: nat) {
    Occurs(line, needle, at) && forall j :: 0 <= j < at ==> !Occurs(line, needle, j)
  }

  /** The quoted name with its colon stands somewhere in the line. */
  ghost predicate Mentions(line: string, name: string) {
    exists at :: Occurs(line, "\"" + name + "\":", at)
  }

  /** The text behind the first mention of the name. */
  ghost predicate Says(line: string, name: string, text: string) {
    exists at: nat :: FirstAt(line, "\"" + name + "\":", at) && line[at + |name| + 3..] == text
  }

  /** The text starts with a number, and no further digit follows. */
  ghost predicate StartsWithNumber(text: string, n: int) {
    exists k :: 0 <= k <= |text| && text[..k] == SignedDecimal(n) && (k < |text| ==> !('0' <= text[k] <= '9'))
  }

  lemma SaidIsFound(line: string, name: string, text: string)
    requires Says(line, name, text)
    ensures FindValue(line, name) == Some(text)
  {
    var at: nat :| FirstAt(line, "\"" + name + "\":", at) && line[at + |name| + 3..] == text;
    FindIs(line, Needle(name), 0, at);
  }

  lemma FoundIsMentioned(line: string, name: string)
    requires FindValue(line, name).Some?
    ensures Mentions(line, name)
  {
    var at := Find(line, Needle(name), 0).value;
    assert Occurs(line, "\"" + name + "\":", at);
  }

  lemma UnmentionedIsNotFound(line: string, name: string)
    requires !Mentions(line, name)
    ensures FindValue(line, name) == None
  {
    if FindValue(line, name).Some? {
      FoundIsMentioned(line, name);
    }
  }

  lemma NumberRead(text: string, n: int)
    requires StartsWithNumber(text, n) && IsInt64(n)
    ensures FromChars(text) == Some(n)
  {
    var k :| 0 <= k <= |text| && text[..k] == SignedDecimal(n) && (k < |text| ==> !('0' <= text[k] <= '9'));
    assert text == SignedDecimal(n) + text[k..];
    FromCharsReadsDecimal(n, text[k..]);
  }

  /** Any number that a line gives for a name is taken if it is within range, and is zero
      otherwise. */
  lemma UnsignedAsSaid(line: string, name: string, text: string, n: int, maximum: nat)
    requires Says(line, name, text) && StartsWithNumber(text, n) && IsInt64(n)
    ensures Unsigned(line, name, maximum) == if 0 <= n <= maximum then n else 0
  {
    SaidIsFound(line, name, text);
    NumberRead(text, n);
  }

  lemma NothingSaidIsZero(line: string, name: string, maximum: nat)
    requires !Mentions(line, name) || exists text :: Says(line, name, text) && FromChars(text) == None
    ensures Unsigned(line, name, maximum) == 0
  {
    if Mentions(line, name) {
      var text :| Says(line, name, text) && FromChars(text) == None;
      SaidIsFound(line, name, text);
    } else {
      UnmentionedIsNotFound(line, name);
    }
  }

  lemma NumberNames()
    ensures KeyText(Tsfl) == "tsfl" && KeyText(Seq) == "seq" && KeyText(Rate) == "rate" && KeyText(Bw) == "bw"
    ensures KeyText(Crc) == "crc" && KeyText(Icv) == "icv" && KeyText(Ldpc) == "ldpc" && KeyText(Sgi) == "sgi"
  {
  }

  lemma PartNames()
    ensures KeyText(Body) == "body" && KeyText(Sa) == "sa"
    ensures KeyText(Rssi) == "rssi" && KeyText(Snr) == "snr" && KeyText(Evm) == "evm"
  {
  }

  /** Where the numbers of an accepted frame come from. */
  lemma NumbersOfAccepted(line: string)
    ensures ParseFrame(line).Success? ==>
            var f := ParseFrame(line).value;
            && f.captureTime == 0
            && f.tsfl == Unsigned(line, "tsfl", 0xffff_ffff) && f.sequence == Unsigned(line, "seq", 0xffff)
            && f.rate == Unsigned(line, "rate", 0xffff) && f.bandwidth == Unsigned(line, "bw", 0xff)
            && f.crcError == (Unsigned(line, "crc", 0xff) != 0) && f.icvError == (Unsigned(line, "icv", 0xff) != 0)
            && f.ldpc == (Unsigned(line, "ldpc", 0xff) != 0)
            && f.shortGuardInterval == (Unsigned(line, "sgi", 0xff) != 0)
  {
    NumberNames();
  }

  /** The field that a name stands for, as a number. */
  function Field(f: RadioFrame, name: string): int {
    if name == "tsfl" then f.tsfl
    else if name == "seq" then f.sequence
    else if name == "rate" then f.rate
    else if name == "bw" then f.bandwidth
    else -1
  }

  function FlagField(f: RadioFrame, name: string): bool {
    if name == "crc" then f.crcError
    else if name == "icv" then f.icvError
    else if name == "ldpc" then f.ldpc
    else name == "sgi" && f.shortGuardInterval
  }

  function Maximum(name: string): nat {
    if name == "tsfl" then 4294967295 else if name in {"seq", "rate"} then 65535 else 255
  }

  /** In every accepted line: a number given for a numeric field is its value if it is within the
      field's range, and the field is zero otherwise, also if it is not given or is no number. */
  lemma NumbersAsSaid(line: string, name: string, text: string, n: int)
    requires name in {"tsfl", "seq", "rate", "bw"}
    ensures ParseFrame(line).Success? && Says(line, name, text) && StartsWithNumber(text, n) && IsInt64(n) ==>
              Field(ParseFrame(line).value, name) == if 0 <= n <= Maximum(name) then n else 0
    ensures ParseFrame(line).Success? && Says(line, name, text) && FromChars(text) == None ==>
              Field(ParseFrame(line).value, name) == 0
    ensures ParseFrame(line).Success? && !Mentions(line, name) ==> Field(ParseFrame(line).value, name) == 0
  {
    FieldRead(line, name);
    if Says(line, name, text) && StartsWithNumber(text, n) && IsInt64(n) {
      UnsignedAsSaid(line, name, text, n, Maximum(name));
    }
    if !Mentions(line, name) || (Says(line, name, text) && FromChars(text) == None) {
      NothingSaidIsZero(line, name, Maximum(name));
    }
  }

  lemma FieldRead(line: string, name: string)
    requires name in {"tsfl", "seq", "rate", "bw"}
    ensures ParseFrame(line).Success? ==>
              Field(ParseFrame(line).value, name) == Unsigned(line, name, Maximum(name))
  {
    NumbersOfAccepted(line);
  }

  /** A flag is set by every number from 1 to 255, and by nothing else. */
  lemma FlagsAsSaid(line: string, name: string, text: string, n: int)
    requires name in {"crc", "icv", "ldpc", "sgi"}
    ensures ParseFrame(line).Success? && Says(line, name, text) && StartsWithNumber(text, n) && IsInt64(n) ==>
              (FlagField(ParseFrame(line).value, name) <==> 1 <= n <= 255)
    ensures ParseFrame(line).Success? && Says(line, name, text) && FromChars(text) == None ==>
              !FlagField(ParseFrame(line).value, name)
    ensures ParseFrame(line).Success? && !Mentions(line, name) ==> !FlagField(ParseFrame(line).value, name)
  {
    FlagRead(line, name);
    if Says(line, name, text) && StartsWithNumber(text, n) && IsInt64(n) {
      UnsignedAsSaid(line, name, text, n, 255);
    }
    if !Mentions(line, name) || (Says(line, name, text) && FromChars(text) == None) {
      NothingSaidIsZero(line, name, 255);
    }
  }

  lemma FlagRead(line: string, name: string)
    requires name in {"crc", "icv", "ldpc", "sgi"}
    ensures ParseFrame(line).Success? ==>
              FlagField(ParseFrame(line).value, name) == (Unsigned(line, name, 255) != 0)
  {
    NumbersOfAccepted(line);
  }

  // ----- Lines that are refused -----

  lemma TagSpelt(line: string)
    ensures IsFrameEvent(line) <==> |line| >= 16 && line[..16] == "{\"ev\":\"rx.frame\""
  {
    assert |EVENT_TAG| == 16;
  }

  /** A line that does not start with the tag is passed over; one that does, but lacks a required
      member, is malformed. */
  lemma UnfitLines(line: string)
    ensures !(|line| >= 16 && line[..16] == "{\"ev\":\"rx.frame\"") <==> Classify(line) == Other
    ensures Classify(line) == Other <==> ParseFrame(line) == Failure(NotFrameEvent)
    ensures Classify(line) != Other ==> Classify(line) == Event(OptionOf(ParseFrame(line)))
    ensures ParseFrame(line).Success? ==>
              && Mentions(line, "body") && Mentions(line, "sa")
              && Mentions(line, "rssi") && Mentions(line, "snr") && Mentions(line, "evm")
  {
    TagSpelt(line);
    PartNames();
    if !Mentions(line, "body") {
      UnmentionedIsNotFound(line, "body");
    }
    if !Mentions(line, "sa") {
      UnmentionedIsNotFound(line, "sa");
    }
    if !Mentions(line, "rssi") {
      UnmentionedIsNotFound(line, "rssi");
    }
    if !Mentions(line, "snr") {
      UnmentionedIsNotFound(line, "snr");
    }
    if !Mentions(line, "evm") {
      UnmentionedIsNotFound(line, "evm");
    }
  }

  function OptionOf(r: Result<RadioFrame, ParseError>): Option<RadioFrame> {
    match r case Success(frame) => Some(frame) case Failure(_) => None
  }

  // ----- Lines that give all required members -----

  /** Quoted text without inner quotes. */
  ghost predicate SaysQuoted(line: string, name: string, text: string) {
    NoQuote(text) && exists rest :: Says(line, name, "\"" + text + "\"" + rest)
  }

  predicate AllOpening(text: string) {
    forall i :: 0 <= i < |text| ==> text[i] in {'[', ' ', '\t', '\n', '\r', 11 as char, 12 as char}
  }

  /** Two numbers in brackets, with white space or further opening brackets in front of each. */
  ghost predicate SaysPair(line: string, name: string, first: int, second: int) {
    exists a, b, rest :: AllOpening(a) && AllOpening(b) &&
      Says(line, name, "[" + (a + SignedDecimal(first)) + "," + (b + SignedDecimal(second)) + "]" + rest)
  }

  lemma QuotedRead(line: string, name: string, text: string)
    requires SaysQuoted(line, name, text)
    ensures StringValue(line, name) == Some(text)
  {
    var rest :| Says(line, name, "\"" + text + "\"" + rest);
    SaidIsFound(line, name, "\"" + text + "\"" + rest);
    QuotedReadBack(line, name, text, rest);
  }

  /** Exactly the opening brackets and white space in front are removed. */
  lemma {:induction false} OpeningTrimmed(front: string, text: string)
    requires AllOpening(front)
    requires text != "" ==> text[0] !in {'[', ' ', '\t', '\n', '\r', 11 as char, 12 as char}
    ensures TrimOpening(front + text) == text
  {
    if front == "" {
      assert front + text == text;
    } else {
      assert (front + text)[1..] == front[1..] + text;
      OpeningTrimmed(front[1..], text);
    }
  }

  lemma SignedRead(front: string, n: int)
    requires AllOpening(front) && IsInt64(n)
    ensures ReadSigned(front + SignedDecimal(n)) == if -128 <= n <= 127 then Some(n) else None
  {
    var digits := SignedDecimal(n);
    SignedDecimalCharacters(n);
    assert digits[0] in digits;
    OpeningTrimmed(front, digits);
    FromCharsReadsDecimal(n, "");
    assert digits + "" == digits;
  }

  lemma NumberLacksPunctuation(front: string, n: int, c: char)
    requires AllOpening(front) && c in {',', ']'}
    ensures Lacks(front + SignedDecimal(n), c)
  {
    NumberLacks(n, c);
  }

  /** A pair is read if both numbers are signed bytes. */
  lemma PairAsSaid(line: string, name: string, first: int, second: int)
    requires SaysPair(line, name, first, second) && IsInt64(first) && IsInt64(second)
    ensures IntegerPair(line, name) ==
              if -128 <= first <= 127 && -128 <= second <= 127 then Some((first, second)) else None
  {
    var a, b, rest :| AllOpening(a) && AllOpening(b) &&
      Says(line, name, "[" + (a + SignedDecimal(first)) + "," + (b + SignedDecimal(second)) + "]" + rest);
    var x, y := a + SignedDecimal(first), b + SignedDecimal(second);
    SaidIsFound(line, name, "[" + x + "," + y + "]" + rest);
    NumberLacksPunctuation(a, first, ',');
    NumberLacksPunctuation(a, first, ']');
    NumberLacksPunctuation(b, second, ']');
    PairTaken(line, name, x, y, rest);
    FirstRead(a, first);
    SignedRead(b, second);
  }

  lemma FirstRead(a: string, n: int)
    requires AllOpening(a) && IsInt64(n)
    ensures ReadSigned("[" + (a + SignedDecimal(n))) == if -128 <= n <= 127 then Some(n) else None
  {
    SignedRead("[" + a, n);
    assert "[" + (a + SignedDecimal(n)) == "[" + a + SignedDecimal(n);
  }

  lemma PairTaken(line: string, name: string, x: string, y: string, rest: string)
    requires Lacks(x, ',') && Lacks(x, ']') && Lacks(y, ']')
    requires FindValue(line, name) == Some("[" + x + "," + y + "]" + rest)
    ensures IntegerPair(line, name) == PairFrom(ReadSigned("[" + x), ReadSigned(y))
  {
    PairPunctuation(x, y, rest);
    PairFromParts(line, name, x, y, rest);
  }

  /** What a line gives for the five required members. */
  datatype Parts = Parts(body: string, source: string, rssi: (int, int), snr: (int, int), evm: (int, int)) {
    predicate InRange() {
      && -128 <= rssi.0 <= 127 && -128 <= rssi.1 <= 127
      && -128 <= snr.0 <= 127 && -128 <= snr.1 <= 127
      && -128 <= evm.0 <= 127 && -128 <= evm.1 <= 127
    }

    predicate Readable() {
      && IsInt64(rssi.0) && IsInt64(rssi.1) && IsInt64(snr.0) && IsInt64(snr.1) && IsInt64(evm.0) && IsInt64(evm.1)
    }
  }

  ghost predicate Gives(line: string, p: Parts) {
    && SaysQuoted(line, "body", p.body) && SaysQuoted(line, "sa", p.source)
    && SaysPair(line, "rssi", p.rssi.0, p.rssi.1)
    && SaysPair(line, "snr", p.snr.0, p.snr.1)
    && SaysPair(line, "evm", p.evm.0, p.evm.1)
  }

  lemma PartsRead(line: string, p: Parts)
    requires Gives(line, p) && p.Readable()
    ensures StringValue(line, "body") == Some(p.body) && StringValue(line, "sa") == Some(p.source)
    ensures p.InRange() ==>
              && IntegerPair(line, "rssi") == Some(p.rssi) && IntegerPair(line, "snr") == Some(p.snr)
              && IntegerPair(line, "evm") == Some(p.evm)
    ensures !p.InRange() ==>
              IntegerPair(line, "rssi") == None || IntegerPair(line, "snr") == None || IntegerPair(line, "evm") == None
  {
    QuotedRead(line, "body", p.body);
    QuotedRead(line, "sa", p.source);
    PairAsSaid(line, "rssi", p.rssi.0, p.rssi.1);
    PairAsSaid(line, "snr", p.snr.0, p.snr.1);
    PairAsSaid(line, "evm", p.evm.0, p.evm.1);
  }

  /** Every event line that gives the five required members: it is malformed exactly if the body
      or the address is no hexadecimal text, the address has not six bytes or a reading is no
      signed byte; too large exactly if otherwise the body exceeds 16 KiB; and else accepted with
      these very values. */
  lemma AcceptedExactly(line: string, p: Parts)
    requires |line| >= 16 && line[..16] == "{\"ev\":\"rx.frame\"" && Gives(line, p) && p.Readable()
    ensures var sound := HexBytes(p.body).Some? && HexBytes(p.source).Some? && |p.source| == 12 && p.InRange();
            && (ParseFrame(line) == Failure(MissingOrMalformed) <==> !sound)
            && (ParseFrame(line) == Failure(BodyTooLarge) <==> sound && |p.body| > 32768)
            && (ParseFrame(line).Success? <==> sound && |p.body| <= 32768)
            && (ParseFrame(line).Success? ==>
                  var f := ParseFrame(line).value;
                  && f.body == HexBytes(p.body).value && f.source == HexBytes(p.source).value
                  && f.rssi == p.rssi && f.snr == p.snr && f.evm == p.evm)
  {
    TagSpelt(line);
    PartNames();
    PartsRead(line, p);
    HexAccepts(p.body);
    HexAccepts(p.source);
  }
}
