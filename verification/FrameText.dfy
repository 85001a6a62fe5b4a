/** The `rx.frame` line format: a serialiser that writes a fixed list of members, and a
    parser that finds every member by searching the whole line for its key. */
module FrameText {
  import opened Numbers
  import opened Frames
  import opened TextScanning

  datatype ParseError = NotFrameEvent | MissingOrMalformed | BodyTooLarge

  const EVENT_TAG := "{\"ev\":\"rx.frame\""

  // ----- Keyed lookup -----

  function Needle(key: string): string {
    "\"" + key + "\":"
  }

  /** What follows the first occurrence of the quoted key and its colon. */
  function FindValue(line: string, key: string): Option<string> {
    match Find(line, Needle(key), 0)
    case None => None
    case Some(at) => Some(line[at + |Needle(key)|..])
  }

  function StringValue(line: string, key: string): Option<string> {
    match FindValue(line, key)
    case None => None
    case Some(value) =>
      if value == "" || value[0] != '"' then None
      else
        match Find(value, "\"", 1)
        case None => None
        case Some(end) => Some(value[1..end])
  }

  function InRange(value: Option<int>, low: int, high: int): Option<int> {
    if value.Some? && low <= value.value <= high then value else None
  }

  function IntegerValue(line: string, key: string, low: int, high: int): Option<int> {
    match FindValue(line, key)
    case None => None
    case Some(value) => InRange(FromChars(value), low, high)
  }

  predicate IsSpace(c: char) {
    c in {' ', '\t', '\n', '\r', 11 as char, 12 as char}
  }

  /** The text without leading opening brackets and white space. */
  function TrimOpening(text: string): string {
    if text != "" && (text[0] == '[' || IsSpace(text[0])) then TrimOpening(text[1..]) else text
  }

  function IntegerPair(line: string, key: string): Option<(i8, i8)> {
    match FindValue(line, key)
    case None => None
    case Some(value) =>
      if value == "" || value[0] != '[' then None
      else
        match (Find(value, ",", 0), Find(value, "]", 0))
        case (Some(comma), Some(close)) =>
          if comma > close then None
          else
            assert value[comma..comma + 1] == "," && value[close..close + 1] == "]";
            PairFrom(ReadSigned(value[..comma]), ReadSigned(value[comma + 1..close]))
        case _ => None
  }

  function ReadSigned(text: string): Option<int> {
    InRange(FromChars(TrimOpening(text)), -0x80, 0x7f)
  }

  function PairFrom(first: Option<int>, second: Option<int>): Option<(i8, i8)>
    requires first.Some? ==> -0x80 <= first.value <= 0x7f
    requires second.Some? ==> -0x80 <= second.value <= 0x7f
  {
    if first.Some? && second.Some? then Some((first.value, second.value)) else None
  }

  function HexValue(line: string, key: string): Option<seq<u8>> {
    match StringValue(line, key)
    case None => None
    case Some(text) => HexBytes(text)
  }

  function Unsigned(line: string, key: string, maximum: nat): (value: nat)
    ensures value <= maximum
  {
    match IntegerValue(line, key, 0, maximum)
    case None => 0
    case Some(value) => value
  }

  function Flag(line: string, key: string): bool {
    Unsigned(line, key, 0xff) != 0
  }

  predicate IsFrameEvent(line: string) {
    |EVENT_TAG| <= |line| && line[..|EVENT_TAG|] == EVENT_TAG
  }

  /** The frame with the given parts; a missing or unusable number reads as zero. */
  function WithNumbers(line: string, rssi: (i8, i8), snr: (i8, i8), evm: (i8, i8), source: Address,
                       body: seq<u8>): RadioFrame
  {
    RadioFrame(
      0, Unsigned(line, KeyText(Tsfl), 0xffff_ffff), Unsigned(line, KeyText(Seq), 0xffff),
      Unsigned(line, KeyText(Rate), 0xffff), Unsigned(line, KeyText(Bw), 0xff),
      Flag(line, KeyText(Crc)), Flag(line, KeyText(Icv)), Flag(line, KeyText(Ldpc)), Flag(line, KeyText(Sgi)),
      rssi, snr, evm, source, body)
  }

  /** What a line means: the frame its members spell out, or why there is none. */
  function ParseFrame(line: string): Result<RadioFrame, ParseError> {
    if !IsFrameEvent(line) then Failure(NotFrameEvent)
    else
      match (HexValue(line, KeyText(Body)), HexValue(line, KeyText(Sa)), IntegerPair(line, KeyText(Rssi)),
             IntegerPair(line, KeyText(Snr)), IntegerPair(line, KeyText(Evm)))
      case (Some(body), Some(source), Some(rssi), Some(snr), Some(evm)) =>
        if |source| != 6 then Failure(MissingOrMalformed)
        else if |body| > MAXIMUM_BODY_SIZE then Failure(BodyTooLarge)
        else
          Success(WithNumbers(line, rssi, snr, evm, source, body))
      case _ => Failure(MissingOrMalformed)
  }

  /** What the readers of receiver output make of a line. */
  function Classify(line: string): InputLine {
    if !IsFrameEvent(line) then Other
    else match ParseFrame(line) case Success(frame) => Event(Some(frame)) case Failure(_) => Event(None)
  }

  // ----- The serialiser -----

  /** A member value: a number, a pair of numbers or a hexadecimal string, or any other bare
      or quoted text. */
  datatype Value = Number(n: int) | Pair(p: (i8, i8)) | Hex(bytes: seq<u8>) | Bare(text: string) | Quoted(text: string)
  {
    predicate HasQuotes() {
      Hex? || Quoted?
    }

    function Inner(): string {
      match this
      case Number(n) => SignedDecimal(n)
      case Pair(p) => "[" + SignedDecimal(p.0) + "," + SignedDecimal(p.1) + "]"
      case Hex(bytes) => HexText(bytes)
      case Bare(text) => text
      case Quoted(text) => text
    }

    function Text(): string {
      if HasQuotes() then "\"" + Inner() + "\"" else Inner()
    }
  }

  datatype Member = Member(key: string, value: Value) {
    function Text(): string {
      Needle(key) + value.Text()
    }
  }

  function Members(fs: seq<Member>): string {
    if fs == [] then "}" else "," + fs[0].Text() + Members(fs[1..])
  }

  /** A frame event line with the given members after the event tag. */
  function Line(fs: seq<Member>): string {
    EVENT_TAG + Members(fs)
  }

  function Bool(b: bool): Value {
    Number(if b then 1 else 0)
  }

  datatype Key = Rate | Len | Crc | Icv | Rssi | Evm | Snr | Seq | Tsfl | Bw | Ldpc | Sgi | Sa | Body

  function KeyText(key: Key): string {
    match key
    case Rate => "rate"
    case Len => "len"
    case Crc => "crc"
    case Icv => "icv"
    case Rssi => "rssi"
    case Evm => "evm"
    case Snr => "snr"
    case Seq => "seq"
    case Tsfl => "tsfl"
    case Bw => "bw"
    case Ldpc => "ldpc"
    case Sgi => "sgi"
    case Sa => "sa"
    case Body => "body"
  }

  function ValueOf(frame: RadioFrame, key: Key): Value {
    match key
    case Rate => Number(frame.rate)
    case Len => Number(|frame.body| + 24)
    case Crc => Bool(frame.crcError)
    case Icv => Bool(frame.icvError)
    case Rssi => Pair(frame.rssi)
    case Evm => Pair(frame.evm)
    case Snr => Pair(frame.snr)
    case Seq => Number(frame.sequence)
    case Tsfl => Number(frame.tsfl)
    case Bw => Number(frame.bandwidth)
    case Ldpc => Bool(frame.ldpc)
    case Sgi => Bool(frame.shortGuardInterval)
    case Sa => Hex(frame.source)
    case Body => Hex(frame.body)
  }

  function MemberOf(frame: RadioFrame, key: Key): Member {
    Member(KeyText(key), ValueOf(frame, key))
  }

  /** The order in which the serialiser writes the members. */
  const ORDER: seq<Key> := [Rate, Len, Crc, Icv, Rssi, Evm, Snr, Seq, Tsfl, Bw, Ldpc, Sgi, Sa, Body]

  function FrameMembers(frame: RadioFrame): (ms: seq<Member>)
    ensures |ms| == |ORDER|
  {
    seq(|ORDER|, i requires 0 <= i < |ORDER| => MemberOf(frame, ORDER[i]))
  }

  function Serialize(frame: RadioFrame): string {
    Line(FrameMembers(frame))
  }

  // ----- No needle occurs early -----

  predicate NoQuote(text: string) {
    forall i :: 0 <= i < |text| ==> text[i] != '"'
  }

  /** A key that is a plain word: neither a quote nor the punctuation around members. */
  predicate PlainKey(key: string) {
    && key != "" && NoQuote(key)
    && key[0] !in {':', ',', '}'}
  }

  predicate Clean(f: Member) {
    PlainKey(f.key) && NoQuote(f.value.Inner())
  }

  /** The characters that an occurrence of a needle pins down. */
  lemma OccurrenceCharacters(hay: string, key: string, at: nat)
    requires Occurs(hay, Needle(key), at)
    ensures at + |key| + 3 <= |hay|
    ensures hay[at] == '"'
    ensures forall i :: 0 <= i < |key| ==> hay[at + 1 + i] == key[i]
    ensures hay[at + 1 + |key|] == '"' && hay[at + 2 + |key|] == ':'
  {
    var n := Needle(key);
    assert forall i :: 0 <= i < |n| ==> hay[at + i] == n[i];
    assert forall i :: 0 <= i < |key| ==> n[1 + i] == key[i];
  }

  /** The text of one member, between the character before it and the rest of the line,
      with the places of its quotes. */
  lemma MemberQuotes(lead: char, f: Member, rest: string)
    requires Clean(f) && lead != '"'
    ensures var hay := [lead] + f.Text() + rest;
            var k := |f.key|;
            && |f.Text()| == k + 3 + |f.value.Text()|
            && hay[1] == '"' && hay[2 + k] == '"' && hay[3 + k] == ':'
            && (forall i :: 0 <= i < k ==> hay[2 + i] == f.key[i])
            && (forall i :: 0 <= i < |f.value.Text()| ==> hay[4 + k + i] == f.value.Text()[i])
  {
    var hay := [lead] + f.Text() + rest;
    var n := Needle(f.key);
    Placed(lead, n, f.value.Text(), rest);
    assert forall i :: 0 <= i < |f.key| ==> n[1 + i] == f.key[i];
    assert hay[1 + 0] == n[0] && hay[1 + (1 + |f.key|)] == n[1 + |f.key|] && hay[1 + (2 + |f.key|)] == n[2 + |f.key|];
  }

  lemma Placed(lead: char, n: string, v: string, rest: string)
    ensures var hay := [lead] + (n + v) + rest;
            && (forall i :: 0 <= i < |n| ==> hay[1 + i] == n[i])
            && (forall i :: 0 <= i < |v| ==> hay[1 + |n| + i] == v[i])
  {
  }

  /** No quote stands inside a quote-free word. */
  lemma InsideWord(hay: string, start: nat, word: string, n: nat)
    requires NoQuote(word) && n < |word| && start + |word| <= |hay|
    requires forall i :: 0 <= i < |word| ==> hay[start + i] == word[i]
    ensures hay[start + n] != '"'
  {
    assert hay[start + n] == word[n];
  }

  /** Two quote-free words read from the same place up to a quote are the same word. */
  lemma WordsBetweenQuotes(hay: string, start: nat, word: string, key: string)
    requires NoQuote(word) && NoQuote(key)
    requires start + |word| < |hay| && start + |key| < |hay|
    requires forall i :: 0 <= i < |word| ==> hay[start + i] == word[i]
    requires forall i :: 0 <= i < |key| ==> hay[start + i] == key[i]
    requires hay[start + |word|] == '"' && hay[start + |key|] == '"'
    ensures word == key
  {
    if |word| < |key| {
      InsideWord(hay, start, key, |word|);
    } else if |key| < |word| {
      InsideWord(hay, start, word, |key|);
    }
  }

  /** A needle that starts on a member's key is the needle of that key. */
  lemma NeedleOnKey(hay: string, word: string, key: string, at: nat)
    requires PlainKey(key) && PlainKey(word)
    requires |word| + 3 < |hay| && hay[0] != '"' && hay[2 + |word|] == '"' && hay[3 + |word|] == ':'
    requires forall i :: 0 <= i < |word| ==> hay[2 + i] == word[i]
    requires at <= 3 + |word| && Occurs(hay, Needle(key), at)
    ensures at == 1 && key == word
  {
    OccurrenceCharacters(hay, key, at);
    if 2 <= at < 2 + |word| {
      InsideWord(hay, 2, word, at - 2);
    } else if at == 1 {
      WordsBetweenQuotes(hay, 2, word, key);
    }
  }

  /** No needle starts inside a value. */
  lemma NoNeedleInValue(hay: string, start: nat, value: Value, key: string, at: nat)
    requires PlainKey(key) && NoQuote(value.Inner())
    requires start <= at < start + |value.Text()| < |hay|
    requires forall i :: 0 <= i < |value.Text()| ==> hay[start + i] == value.Text()[i]
    requires hay[start + |value.Text()|] in {',', '}'}
    ensures !Occurs(hay, Needle(key), at)
  {
    var v, inner := value.Text(), value.Inner();
    assert hay[at] == v[at - start];
    if Occurs(hay, Needle(key), at) {
      OccurrenceCharacters(hay, key, at);
      if value.HasQuotes() {
        QuotedCharacters(hay, start, inner);
        if at == start {
          WordsBetweenQuotes(hay, start + 1, inner, key);
        }
      }
    }
  }

  lemma QuotedCharacters(hay: string, start: nat, inner: string)
    requires start + |inner| + 2 <= |hay|
    requires var v := "\"" + inner + "\""; forall i :: 0 <= i < |v| ==> hay[start + i] == v[i]
    ensures hay[start + 1 + |inner|] == '"'
    ensures forall i :: 0 <= i < |inner| ==> hay[start + 1 + i] == inner[i]
  {
    var v := "\"" + inner + "\"";
    assert hay[start + (1 + |inner|)] == v[1 + |inner|];
    forall i | 0 <= i < |inner|
      ensures hay[start + 1 + i] == inner[i]
    {
      assert hay[start + (1 + i)] == v[1 + i];
    }
  }

  /** The needle of another key does not occur at any place inside a member. */
  lemma NoOtherNeedle(lead: char, f: Member, rest: string, key: string, at: nat)
    requires Clean(f) && PlainKey(key) && key != f.key && lead != '"'
    requires rest != "" && rest[0] in {',', '}'}
    requires at < 1 + |f.Text()|
    ensures !Occurs([lead] + f.Text() + rest, Needle(key), at)
  {
    var hay := [lead] + f.Text() + rest;
    MemberQuotes(lead, f, rest);
    assert hay[1 + |f.Text()|] == rest[0];
    if at <= 3 + |f.key| {
      if Occurs(hay, Needle(key), at) {
        NeedleOnKey(hay, f.key, key, at);
      }
    } else {
      NoNeedleInValue(hay, 4 + |f.key|, f.value, key, at);
    }
  }

  lemma SearchPasses(lead: char, f: Member, rest: string, key: string)
    requires Clean(f) && PlainKey(key) && key != f.key && lead != '"'
    requires rest != "" && rest[0] in {',', '}'}
    ensures FindValue([lead] + f.Text() + rest, key) == FindValue(rest, key)
  {
    var front := [lead] + f.Text();
    forall at | 0 <= at < |front|
      ensures !Occurs(front + rest, Needle(key), at)
    {
      NoOtherNeedle(lead, f, rest, key, at);
    }
    FindBehind(front, rest, Needle(key));
    if Find(rest, Needle(key), 0).Some? {
      var at := Find(rest, Needle(key), 0).value;
      assert (front + rest)[|front| + at + |Needle(key)|..] == rest[at + |Needle(key)|..];
    }
  }

  lemma SearchHits(lead: char, f: Member, rest: string)
    requires Clean(f) && lead != '"'
    ensures FindValue([lead] + f.Text() + rest, f.key) == Some(f.value.Text() + rest)
  {
    var hay := [lead] + f.Text() + rest;
    var n := Needle(f.key);
    assert hay == [lead] + n + (f.value.Text() + rest);
    assert hay[1..1 + |n|] == n;
    assert !Occurs(hay, n, 0) by {
      if Occurs(hay, n, 0) {
        OccurrenceCharacters(hay, f.key, 0);
      }
    }
    FindIs(hay, n, 0, 1);
  }

  lemma MembersStart(fs: seq<Member>)
    ensures Members(fs) != "" && Members(fs)[0] in {',', '}'}
  {
  }

  predicate AllClean(fs: seq<Member>) {
    forall i :: 0 <= i < |fs| ==> Clean(fs[i])
  }

  lemma FirstMemberPassed(fs: seq<Member>, key: string)
    requires fs != [] && Clean(fs[0]) && PlainKey(key) && fs[0].key != key
    ensures FindValue(Members(fs), key) == FindValue(Members(fs[1..]), key)
  {
    assert Members(fs) == [','] + fs[0].Text() + Members(fs[1..]);
    MembersStart(fs[1..]);
    SearchPasses(',', fs[0], Members(fs[1..]), key);
  }

  /** A search for a key, begun at an earlier member, stops at the member that has it. */
  lemma {:induction false} LookupFrom(fs: seq<Member>, k: nat, i: nat)
    requires AllClean(fs) && k <= i < |fs|
    requires forall j :: k <= j < i ==> fs[j].key != fs[i].key
    ensures FindValue(Members(fs[k..]), fs[i].key) == Some(fs[i].value.Text() + Members(fs[i + 1..]))
    decreases i - k
  {
    var tail := fs[k..];
    assert tail[0] == fs[k] && tail[1..] == fs[k + 1..];
    if k == i {
      assert Members(tail) == [','] + tail[0].Text() + Members(tail[1..]);
      SearchHits(',', fs[k], Members(fs[k + 1..]));
    } else {
      assert Clean(fs[k]) && Clean(fs[i]);
      FirstMemberPassed(tail, fs[i].key);
      LookupFrom(fs, k + 1, i);
    }
  }

  /** A search for a key stops at the one member that has it, wherever that member is. */
  lemma LookupInMembers(fs: seq<Member>, i: nat)
    requires AllClean(fs) && i < |fs|
    requires forall j :: 0 <= j < i ==> fs[j].key != fs[i].key
    ensures FindValue(Members(fs), fs[i].key) == Some(fs[i].value.Text() + Members(fs[i + 1..]))
  {
    assert fs[0..] == fs;
    LookupFrom(fs, 0, i);
  }

  lemma EventTagIsMember()
    ensures var event := Member("ev", Quoted("rx.frame"));
            Clean(event) && EVENT_TAG == ['{'] + event.Text()
  {
    assert NoQuote("rx.frame") && NoQuote("ev");
  }

  /** The event tag in front does not catch a search for any other key. */
  lemma LookupInLine(fs: seq<Member>, i: nat)
    requires AllClean(fs) && i < |fs| && fs[i].key != "ev"
    requires forall j :: 0 <= j < i ==> fs[j].key != fs[i].key
    ensures FindValue(Line(fs), fs[i].key) == Some(fs[i].value.Text() + Members(fs[i + 1..]))
  {
    var event := Member("ev", Quoted("rx.frame"));
    EventTagIsMember();
    MembersStart(fs);
    SearchPasses('{', event, Members(fs), fs[i].key);
    LookupInMembers(fs, i);
  }

  // ----- Reading values back -----

  lemma QuotedReadBack(line: string, key: string, text: string, rest: string)
    requires NoQuote(text) && FindValue(line, key) == Some("\"" + text + "\"" + rest)
    ensures StringValue(line, key) == Some(text)
  {
    var front := "\"" + text;
    var value := "\"" + text + "\"" + rest;
    assert value == front + ['"'] + rest;
    FindCharacter(front, '"', rest, 1);
    assert value[1..1 + |text|] == text;
  }

  lemma NumberReadBack(line: string, key: string, n: int, rest: string, low: int, high: int)
    requires IsInt64(n) && low <= n <= high
    requires rest != "" && rest[0] in {',', '}'}
    requires FindValue(line, key) == Some(SignedDecimal(n) + rest)
    ensures IntegerValue(line, key, low, high) == Some(n)
  {
    FromCharsReadsDecimal(n, rest);
  }

  lemma ReadSignedReadsDecimal(front: string, n: i8)
    requires front in {"", "["}
    ensures ReadSigned(front + SignedDecimal(n)) == Some(n)
  {
    var digits := SignedDecimal(n);
    SignedDecimalCharacters(n);
    assert digits[0] in digits;
    assert TrimOpening(digits) == digits;
    if front == "[" {
      assert (front + digits)[1..] == digits;
    } else {
      assert front + digits == digits;
    }
    FromCharsReadsDecimal(n, "");
    assert digits + "" == digits;
  }

  predicate Lacks(text: string, c: char) {
    forall i :: 0 <= i < |text| ==> text[i] != c
  }

  lemma NumberLacks(n: int, c: char)
    requires c != '-' && !IsDigit(c)
    ensures Lacks(SignedDecimal(n), c)
  {
    var digits := SignedDecimal(n);
    SignedDecimalCharacters(n);
    forall i | 0 <= i < |digits|
      ensures digits[i] != c
    {
      assert digits[i] in digits;
    }
  }

  /** Where the comma and the closing bracket of a written pair are found. */
  lemma PairPunctuation(a: string, b: string, rest: string)
    requires Lacks(a, ',') && Lacks(a, ']') && Lacks(b, ']')
    ensures var value := "[" + a + "," + b + "]" + rest;
            && Find(value, ",", 0) == Some(1 + |a|)
            && Find(value, "]", 0) == Some(2 + |a| + |b|)
  {
    var value := "[" + a + "," + b + "]" + rest;
    assert value == ("[" + a) + [','] + (b + "]" + rest) by {
      assert "," == [','];
    }
    FindCharacter("[" + a, ',', b + "]" + rest, 0);
    assert value == ("[" + a + "," + b) + [']'] + rest;
    FindCharacter("[" + a + "," + b, ']', rest, 0);
  }

  lemma PairParts(a: string, b: string, rest: string)
    ensures var value := "[" + a + "," + b + "]" + rest;
            && |value| >= 3 + |a| + |b| && value[0] == '['
            && value[..1 + |a|] == "[" + a
            && value[2 + |a|..2 + |a| + |b|] == b
  {
  }

  lemma PairReadBack(line: string, key: string, pair: (i8, i8), rest: string)
    requires FindValue(line, key) == Some(Pair(pair).Inner() + rest)
    ensures IntegerPair(line, key) == Some(pair)
  {
    var a, b := SignedDecimal(pair.0), SignedDecimal(pair.1);
    NumberLacks(pair.0, ',');
    NumberLacks(pair.0, ']');
    NumberLacks(pair.1, ']');
    PairPunctuation(a, b, rest);
    PairParts(a, b, rest);
    ReadSignedReadsDecimal("[", pair.0);
    ReadSignedReadsDecimal("", pair.1);
    assert "" + b == b;
    PairFromParts(line, key, a, b, rest);
  }

  lemma PairFromParts(line: string, key: string, a: string, b: string, rest: string)
    requires var value := "[" + a + "," + b + "]" + rest;
             && FindValue(line, key) == Some(value)
             && Find(value, ",", 0) == Some(1 + |a|) && Find(value, "]", 0) == Some(2 + |a| + |b|)
    ensures IntegerPair(line, key) == PairFrom(ReadSigned("[" + a), ReadSigned(b))
  {
    PairParts(a, b, rest);
  }

  predicate DistinctKeys(fs: seq<Member>) {
    forall i, j :: 0 <= i < j < |fs| ==> fs[i].key != fs[j].key
  }

  lemma HexTextHasNoQuote(bytes: seq<u8>)
    ensures NoQuote(HexText(bytes))
  {
    var text := HexText(bytes);
    forall i | 0 <= i < |text|
      ensures text[i] != '"'
    {
      assert text[i] in text;
    }
  }

  /** The members of a frame are on the line, among possibly others. */
  predicate Carries(fs: seq<Member>, frame: RadioFrame) {
    && AllClean(fs) && DistinctKeys(fs)
    && forall key: Key :: MemberOf(frame, key) in fs
  }

  lemma KeyNotEvent(key: Key)
    ensures KeyText(key) != "ev"
  {
  }

  /** A search of the line for this key ends at the frame's value for it. */
  ghost predicate Answers(line: string, frame: RadioFrame, key: Key) {
    exists rest :: EndsValue(rest) && FindValue(line, KeyText(key)) == Some(ValueOf(frame, key).Text() + rest)
  }

  predicate EndsValue(rest: string) {
    rest != "" && rest[0] in {',', '}'}
  }

  lemma CarriedMembersAnswer(fs: seq<Member>, frame: RadioFrame, key: Key)
    requires Carries(fs, frame)
    ensures Answers(Line(fs), frame, key)
  {
    assert MemberOf(frame, key) in fs;
    var i :| 0 <= i < |fs| && fs[i] == MemberOf(frame, key);
    KeyNotEvent(key);
    LookupInLine(fs, i);
    MembersStart(fs[i + 1..]);
    assert EndsValue(Members(fs[i + 1..]));
  }

  lemma HexFound(line: string, frame: RadioFrame, key: Key, bytes: seq<u8>)
    requires Answers(line, frame, key) && ValueOf(frame, key) == Hex(bytes)
    ensures HexValue(line, KeyText(key)) == Some(bytes)
  {
    var rest :| EndsValue(rest) && FindValue(line, KeyText(key)) == Some(ValueOf(frame, key).Text() + rest);
    HexTextHasNoQuote(bytes);
    QuotedReadBack(line, KeyText(key), HexText(bytes), rest);
    HexRoundTrip(bytes);
  }

  lemma NumberFound(line: string, frame: RadioFrame, key: Key, n: nat, maximum: nat)
    requires Answers(line, frame, key) && ValueOf(frame, key) == Number(n)
    requires n <= maximum <= 0xffff_ffff
    ensures Unsigned(line, KeyText(key), maximum) == n
  {
    var rest :| EndsValue(rest) && FindValue(line, KeyText(key)) == Some(ValueOf(frame, key).Text() + rest);
    NumberReadBack(line, KeyText(key), n, rest, 0, maximum);
  }

  lemma FlagFound(line: string, frame: RadioFrame, key: Key, b: bool)
    requires Answers(line, frame, key) && ValueOf(frame, key) == Bool(b)
    ensures Flag(line, KeyText(key)) == b
  {
    NumberFound(line, frame, key, if b then 1 else 0, 0xff);
  }

  lemma PairFound(line: string, frame: RadioFrame, key: Key, pair: (i8, i8))
    requires Answers(line, frame, key) && ValueOf(frame, key) == Pair(pair)
    ensures IntegerPair(line, KeyText(key)) == Some(pair)
  {
    var rest :| EndsValue(rest) && FindValue(line, KeyText(key)) == Some(ValueOf(frame, key).Text() + rest);
    PairReadBack(line, KeyText(key), pair, rest);
  }

  /** Reading the key's value from the line gives the frame's field. */
  ghost predicate Yields(line: string, frame: RadioFrame, key: Key) {
    match key
    case Rate => Unsigned(line, KeyText(Rate), 0xffff) == frame.rate
    case Len => true
    case Crc => Flag(line, KeyText(Crc)) == frame.crcError
    case Icv => Flag(line, KeyText(Icv)) == frame.icvError
    case Rssi => IntegerPair(line, KeyText(Rssi)) == Some(frame.rssi)
    case Evm => IntegerPair(line, KeyText(Evm)) == Some(frame.evm)
    case Snr => IntegerPair(line, KeyText(Snr)) == Some(frame.snr)
    case Seq => Unsigned(line, KeyText(Seq), 0xffff) == frame.sequence
    case Tsfl => Unsigned(line, KeyText(Tsfl), 0xffff_ffff) == frame.tsfl
    case Bw => Unsigned(line, KeyText(Bw), 0xff) == frame.bandwidth
    case Ldpc => Flag(line, KeyText(Ldpc)) == frame.ldpc
    case Sgi => Flag(line, KeyText(Sgi)) == frame.shortGuardInterval
    case Sa => HexValue(line, KeyText(Sa)) == Some(frame.source)
    case Body => HexValue(line, KeyText(Body)) == Some(frame.body)
  }

  lemma AnswerYields(line: string, frame: RadioFrame, key: Key)
    requires Answers(line, frame, key)
    ensures Yields(line, frame, key)
  {
    match key
    case Rate => NumberFound(line, frame, Rate, frame.rate, 0xffff);
    case Len =>
    case Crc => FlagFound(line, frame, Crc, frame.crcError);
    case Icv => FlagFound(line, frame, Icv, frame.icvError);
    case Rssi => PairFound(line, frame, Rssi, frame.rssi);
    case Evm => PairFound(line, frame, Evm, frame.evm);
    case Snr => PairFound(line, frame, Snr, frame.snr);
    case Seq => NumberFound(line, frame, Seq, frame.sequence, 0xffff);
    case Tsfl => NumberFound(line, frame, Tsfl, frame.tsfl, 0xffff_ffff);
    case Bw => NumberFound(line, frame, Bw, frame.bandwidth, 0xff);
    case Ldpc => FlagFound(line, frame, Ldpc, frame.ldpc);
    case Sgi => FlagFound(line, frame, Sgi, frame.shortGuardInterval);
    case Sa => HexFound(line, frame, Sa, frame.source);
    case Body => HexFound(line, frame, Body, frame.body);
  }

  lemma NumbersYielded(line: string, frame: RadioFrame)
    requires forall key: Key :: Yields(line, frame, key)
    ensures WithNumbers(line, frame.rssi, frame.snr, frame.evm, frame.source, frame.body) == Unstamped(frame)
  {
    assert Yields(line, frame, Tsfl) && Yields(line, frame, Seq);
    assert Yields(line, frame, Rate) && Yields(line, frame, Bw);
    assert Yields(line, frame, Crc) && Yields(line, frame, Icv);
    assert Yields(line, frame, Ldpc) && Yields(line, frame, Sgi);
  }

  lemma ParsesWhatItYields(line: string, frame: RadioFrame)
    requires IsFrameEvent(line)
    requires forall key: Key :: Yields(line, frame, key)
    ensures ParseFrame(line) == if FitsLimit(frame) then Success(Unstamped(frame)) else Failure(BodyTooLarge)
  {
    assert Yields(line, frame, Body) && Yields(line, frame, Sa);
    assert Yields(line, frame, Rssi) && Yields(line, frame, Snr) && Yields(line, frame, Evm);
    NumbersYielded(line, frame);
  }

  /** Any line that carries a frame's members, in any order and among others, parses to that
      frame without its capture time; only an oversized body is refused. */
  lemma ParsesWhatItCarries(fs: seq<Member>, frame: RadioFrame)
    requires Carries(fs, frame)
    ensures ParseFrame(Line(fs)) == if FitsLimit(frame) then Success(Unstamped(frame)) else Failure(BodyTooLarge)
  {
    LineIsFrameEvent(fs);
    forall key: Key
      ensures Yields(Line(fs), frame, key)
    {
      CarriedMembersAnswer(fs, frame, key);
      AnswerYields(Line(fs), frame, key);
    }
    ParsesWhatItYields(Line(fs), frame);
  }

  lemma LineIsFrameEvent(fs: seq<Member>)
    ensures IsFrameEvent(Line(fs))
  {
  }

  lemma BareTextHasNoQuote(text: string)
    requires forall c :: c in text ==> c in {'-', '[', ',', ']'} || IsDigit(c)
    ensures NoQuote(text)
  {
    forall i | 0 <= i < |text|
      ensures text[i] != '"'
    {
      assert text[i] in text;
    }
  }

  lemma ValueHasNoInnerQuote(frame: RadioFrame, key: Key)
    ensures NoQuote(ValueOf(frame, key).Inner())
  {
    match ValueOf(frame, key)
    case Number(n) =>
      SignedDecimalCharacters(n);
      BareTextHasNoQuote(SignedDecimal(n));
    case Pair(p) =>
      SignedDecimalCharacters(p.0);
      SignedDecimalCharacters(p.1);
      BareTextHasNoQuote(Pair(p).Inner());
    case Hex(bytes) =>
      HexTextHasNoQuote(bytes);
  }

  lemma KeyIsPlain(key: Key)
    ensures PlainKey(KeyText(key))
  {
  }

  /** Two characters tell the keys of a frame apart. */
  function KeyFrom(key: string): Key
    requires |key| >= 2
  {
    if key[0] == 'r' && key[1] == 'a' then Rate
    else if key[0] == 'l' && key[1] == 'e' then Len
    else if key[0] == 'c' && key[1] == 'r' then Crc
    else if key[0] == 'i' && key[1] == 'c' then Icv
    else if key[0] == 'r' && key[1] == 's' then Rssi
    else if key[0] == 'e' && key[1] == 'v' then Evm
    else if key[0] == 's' && key[1] == 'n' then Snr
    else if key[0] == 's' && key[1] == 'e' then Seq
    else if key[0] == 't' && key[1] == 's' then Tsfl
    else if key[0] == 'b' && key[1] == 'w' then Bw
    else if key[0] == 'l' && key[1] == 'd' then Ldpc
    else if key[0] == 's' && key[1] == 'g' then Sgi
    else if key[0] == 's' && key[1] == 'a' then Sa
    else Body
  }

  lemma KeyTextInverts(key: Key)
    ensures |KeyText(key)| >= 2 && KeyFrom(KeyText(key)) == key
  {
  }

  function Position(key: Key): nat {
    match key
    case Rate => 0
    case Len => 1
    case Crc => 2
    case Icv => 3
    case Rssi => 4
    case Evm => 5
    case Snr => 6
    case Seq => 7
    case Tsfl => 8
    case Bw => 9
    case Ldpc => 10
    case Sgi => 11
    case Sa => 12
    case Body => 13
  }

  lemma OrderListsEveryKeyOnce()
    ensures forall key: Key :: Position(key) < |ORDER| && ORDER[Position(key)] == key
    ensures forall i :: 0 <= i < |ORDER| ==> Position(ORDER[i]) == i
  {
  }

  lemma MemberIsClean(frame: RadioFrame, key: Key)
    ensures Clean(MemberOf(frame, key))
  {
    KeyIsPlain(key);
    ValueHasNoInnerQuote(frame, key);
  }

  /** The serialiser's own members qualify. */
  lemma FrameMembersCarry(frame: RadioFrame)
    ensures Carries(FrameMembers(frame), frame)
  {
    var ms := FrameMembers(frame);
    OrderListsEveryKeyOnce();
    forall i | 0 <= i < |ms|
      ensures Clean(ms[i])
    {
      MemberIsClean(frame, ORDER[i]);
    }
    forall i, j | 0 <= i < j < |ms|
      ensures ms[i].key != ms[j].key
    {
      KeyTextInverts(ORDER[i]);
      KeyTextInverts(ORDER[j]);
      assert Position(ORDER[i]) != Position(ORDER[j]);
    }
    forall key: Key
      ensures MemberOf(frame, key) in ms
    {
      assert ms[Position(key)] == MemberOf(frame, key);
    }
  }

  /** Parsing what the serialiser wrote gives the frame back, without its capture time. */
  lemma TextRoundTrip(frame: RadioFrame)
    ensures ParseFrame(Serialize(frame)) ==
              if |frame.body| <= 16384 then Success(frame.(captureTime := 0)) else Failure(BodyTooLarge)
  {
    FrameMembersCarry(frame);
    ParsesWhatItCarries(FrameMembers(frame), frame);
  }

  /** Every accepted line means the same as the line written for its frame. */
  lemma ReserializedLineMeansTheSame(line: string)
    ensures ParseFrame(line).Success? ==> ParseFrame(Serialize(ParseFrame(line).value)) == ParseFrame(line)
  {
    if ParseFrame(line).Success? {
      TextRoundTrip(ParseFrame(line).value);
    }
  }

  /** The order of the members after the event tag does not matter. */
  lemma MemberOrderIrrelevant(fs: seq<Member>, frame: RadioFrame)
    requires multiset(fs) == multiset(FrameMembers(frame))
    ensures ParseFrame(Line(fs)) == ParseFrame(Serialize(frame))
  {
    var ms := FrameMembers(frame);
    FrameMembersCarry(frame);
    PermutedMembers(ms, fs);
    forall key: Key
      ensures MemberOf(frame, key) in fs
    {
      assert MemberOf(frame, key) in multiset(ms);
    }
    ParsesWhatItCarries(fs, frame);
    TextRoundTrip(frame);
  }

  lemma PermutedMembers(ms: seq<Member>, fs: seq<Member>)
    requires multiset(fs) == multiset(ms) && AllClean(ms) && DistinctKeys(ms)
    ensures AllClean(fs) && DistinctKeys(fs)
  {
    forall i | 0 <= i < |fs|
      ensures fs[i] in ms
    {
      assert fs[i] in multiset(ms);
    }
    forall i, j | 0 <= i < j < |fs|
      ensures fs[i].key != fs[j].key
    {
      if fs[i] == fs[j] {
        TwicePresent(fs, i, j);
        OncePresent(ms, fs[i]);
      }
    }
  }

  lemma TwicePresent(fs: seq<Member>, i: nat, j: nat)
    requires i < j < |fs| && fs[i] == fs[j]
    ensures multiset(fs)[fs[i]] >= 2
  {
    assert fs == fs[..i] + [fs[i]] + fs[i + 1..j] + [fs[j]] + fs[j + 1..];
  }

  lemma {:induction false} OncePresent(ms: seq<Member>, m: Member)
    requires DistinctKeys(ms)
    ensures multiset(ms)[m] <= 1
  {
    if ms != [] {
      OncePresent(ms[1..], m);
      assert ms == [ms[0]] + ms[1..];
      if ms[0] == m {
        assert m !in ms[1..];
      }
    }
  }

  // ----- The parser and serialiser as they run -----

  method TrimOpeningInPlace(text: string) returns (view: string)
    ensures view == TrimOpening(text)
  {
    view := text;
    while view != "" && (view[0] == '[' || IsSpace(view[0]))
      invariant TrimOpening(view) == TrimOpening(text)
      decreases |view|
    {
      view := view[1..];
    }
  }

  method ParseIntegerPair(line: string, key: string) returns (pair: Option<(i8, i8)>)
    ensures pair == IntegerPair(line, key)
  {
    var value := FindValue(line, key);
    if value == None || value.value == "" || value.value[0] != '[' {
      return None;
    }
    var comma, close := Find(value.value, ",", 0), Find(value.value, "]", 0);
    if comma == None || close == None || comma.value > close.value {
      return None;
    }
    assert value.value[comma.value..comma.value + 1] == "," && value.value[close.value..close.value + 1] == "]";
    var firstView := TrimOpeningInPlace(value.value[..comma.value]);
    var secondView := TrimOpeningInPlace(value.value[comma.value + 1..close.value]);
    var first, second := InRange(FromChars(firstView), -0x80, 0x7f), InRange(FromChars(secondView), -0x80, 0x7f);
    if first == None || second == None {
      return None;
    }
    return Some((first.value, second.value));
  }

  method ParseDevourerFrame(line: string) returns (r: Result<RadioFrame, ParseError>)
    ensures r == ParseFrame(line)
  {
    if !IsFrameEvent(line) {
      return Failure(NotFrameEvent);
    }
    var body := ReadHex(line, KeyText(Body));
    var source := ReadHex(line, KeyText(Sa));
    var rssi := ParseIntegerPair(line, KeyText(Rssi));
    var snr := ParseIntegerPair(line, KeyText(Snr));
    var evm := ParseIntegerPair(line, KeyText(Evm));
    if body == None || source == None || |source.value| != 6 || rssi == None || snr == None || evm == None {
      return Failure(MissingOrMalformed);
    }
    if |body.value| > MAXIMUM_BODY_SIZE {
      return Failure(BodyTooLarge);
    }
    var frame := RadioFrame(0, 0, 0, 0, 0, false, false, false, false, rssi.value, snr.value, evm.value,
                            source.value, body.value);
    frame := ReadNumbers(line, frame);
    return Success(frame);
  }

  method ReadHex(line: string, key: string) returns (bytes: Option<seq<u8>>)
    ensures bytes == HexValue(line, key)
  {
    var text := StringValue(line, key);
    if text == None {
      return None;
    }
    bytes := DecodeHex(text.value);
  }

  method ReadNumbers(line: string, start: RadioFrame) returns (frame: RadioFrame)
    requires start.captureTime == 0
    ensures frame == WithNumbers(line, start.rssi, start.snr, start.evm, start.source, start.body)
  {
    frame := start;
    frame := frame.(tsfl := Unsigned(line, KeyText(Tsfl), 0xffff_ffff));
    frame := frame.(sequence := Unsigned(line, KeyText(Seq), 0xffff));
    frame := frame.(rate := Unsigned(line, KeyText(Rate), 0xffff));
    frame := frame.(bandwidth := Unsigned(line, KeyText(Bw), 0xff));
    frame := frame.(crcError := Flag(line, KeyText(Crc)));
    frame := frame.(icvError := Flag(line, KeyText(Icv)));
    frame := frame.(ldpc := Flag(line, KeyText(Ldpc)));
    frame := frame.(shortGuardInterval := Flag(line, KeyText(Sgi)));
  }

  method ReadLine(line: string) returns (event: InputLine)
    ensures event == Classify(line)
  {
    if !IsFrameEvent(line) {
      return Other;
    }
    var frame := ParseDevourerFrame(line);
    return match frame case Success(f) => Event(Some(f)) case Failure(_) => Event(None);
  }
}
