/** Searching text, and decimal and hexadecimal numbers in text. */
module TextScanning {
  import opened Numbers

  // ----- Searching -----

  predicate Occurs(hay: string, needle: string, at: nat) {
    at + |needle| <= |hay| && hay[at..at + |needle|] == needle
  }

  /** The first occurrence of `needle` at or after `from`. */
  function Find(hay: string, needle: string, from: nat): (r: Option<nat>)
    ensures r.Some? ==> from <= r.value && Occurs(hay, needle, r.value)
    decreases |hay| - from
  {
    if from > |hay| then None
    else if Occurs(hay, needle, from) then Some(from)
    else Find(hay, needle, from + 1)
  }

  /** No occurrence comes before the one found, and none is left out. */
  lemma {:induction false} FindIsFirst(hay: string, needle: string, from: nat)
    ensures match Find(hay, needle, from)
            case None => forall j :: from <= j ==> !Occurs(hay, needle, j)
            case Some(at) => forall j :: from <= j < at ==> !Occurs(hay, needle, j)
    decreases |hay| - from
  {
    if from <= |hay| && !Occurs(hay, needle, from) {
      FindIsFirst(hay, needle, from + 1);
    }
  }

  lemma FindIs(hay: string, needle: string, from: nat, at: nat)
    requires from <= at && Occurs(hay, needle, at)
    requires forall j :: from <= j < at ==> !Occurs(hay, needle, j)
    ensures Find(hay, needle, from) == Some(at)
  {
    FindIsFirst(hay, needle, from);
  }

  lemma OccursBehind(front: string, hay: string, needle: string, at: nat)
    ensures Occurs(front + hay, needle, |front| + at) <==> Occurs(hay, needle, at)
  {
    if at + |needle| <= |hay| {
      assert (front + hay)[|front| + at..|front| + at + |needle|] == hay[at..at + |needle|];
    }
  }

  /** Text in front that holds no occurrence only shifts the search. */
  lemma FindBehind(front: string, hay: string, needle: string)
    requires forall j :: 0 <= j < |front| ==> !Occurs(front + hay, needle, j)
    ensures Find(front + hay, needle, 0) ==
              match Find(hay, needle, 0) case None => None case Some(at) => Some(|front| + at)
  {
    var found := Find(hay, needle, 0);
    var all := Find(front + hay, needle, 0);
    FindIsFirst(hay, needle, 0);
    match found
    case Some(at) =>
      OccursBehind(front, hay, needle, at);
      forall j | 0 <= j < |front| + at
        ensures !Occurs(front + hay, needle, j)
      {
        if j >= |front| {
          OccursBehind(front, hay, needle, j - |front|);
        }
      }
      FindIs(front + hay, needle, 0, |front| + at);
    case None =>
      if all.Some? {
        OccursBehind(front, hay, needle, all.value - |front|);
      }
  }

  /** A single character is found at its first place. */
  lemma FindCharacter(front: string, c: char, rest: string, from: nat)
    requires from <= |front|
    requires forall i :: from <= i < |front| ==> front[i] != c
    ensures Find(front + [c] + rest, [c], from) == Some(|front|)
  {
    var hay := front + [c] + rest;
    assert hay[|front|..|front| + 1] == [c];
    forall j | from <= j < |front|
      ensures !Occurs(hay, [c], j)
    {
      assert hay[j..j + 1][0] == front[j];
    }
    FindIs(hay, [c], from, |front|);
  }

  // ----- Decimal numbers -----

  predicate IsDigit(c: char) {
    '0' <= c <= '9'
  }

  function DigitValue(c: char): nat
    requires IsDigit(c)
  {
    c as int - '0' as int
  }

  function Digit(d: nat): (c: char)
    requires d < 10
    ensures IsDigit(c) && DigitValue(c) == d
  {
    ('0' as int + d) as char
  }

  /** The longest prefix of digits. */
  function DigitRun(text: string): (run: string)
    ensures forall c :: c in run ==> IsDigit(c)
  {
    if text == "" || !IsDigit(text[0]) then "" else [text[0]] + DigitRun(text[1..])
  }

  function DecimalValue(digits: string): nat
    requires forall c :: c in digits ==> IsDigit(c)
  {
    if digits == "" then 0
    else DecimalValue(digits[..|digits| - 1]) * 10 + DigitValue(digits[|digits| - 1])
  }

  predicate IsInt64(value: int) {
    -0x8000_0000_0000_0000 <= value < 0x8000_0000_0000_0000
  }

  /** Reads a signed 64-bit number at the start of the text: an optional minus sign and the
      longest run of digits. No digit, or a value out of range, is a failure. */
  function FromChars(text: string): Option<int> {
    var negative := text != "" && text[0] == '-';
    var digits := DigitRun(if negative then text[1..] else text);
    if digits == "" then None
    else
      var value := if negative then -(DecimalValue(digits) as int) else DecimalValue(digits);
      if IsInt64(value) then Some(value) else None
  }

  function Decimal(n: nat): (digits: string)
    ensures digits != "" && forall c :: c in digits ==> IsDigit(c)
    ensures DecimalValue(digits) == n
  {
    if n < 10 then [Digit(n)]
    else
      var front, last := Decimal(n / 10), Digit(n % 10);
      assert (front + [last])[..|front|] == front;
      front + [last]
  }

  function SignedDecimal(n: int): string {
    if n < 0 then "-" + Decimal(-n) else Decimal(n)
  }

  lemma {:induction false} DigitRunStops(digits: string, rest: string)
    requires forall c :: c in digits ==> IsDigit(c)
    requires rest != "" ==> !IsDigit(rest[0])
    ensures DigitRun(digits + rest) == digits
  {
    if digits == "" {
      assert digits + rest == rest;
    } else {
      assert digits[0] in digits;
      DigitRunStops(digits[1..], rest);
      assert (digits + rest)[1..] == digits[1..] + rest;
    }
  }

  /** Every 64-bit number is read back from its decimal text, whatever non-digit follows. */
  lemma FromCharsReadsDecimal(n: int, rest: string)
    requires IsInt64(n)
    requires rest != "" ==> !IsDigit(rest[0])
    ensures FromChars(SignedDecimal(n) + rest) == Some(n)
  {
    if n < 0 {
      DigitRunStops(Decimal(-n), rest);
      FromCharsOfNegative(Decimal(-n), rest);
      MinusInFront(Decimal(-n), rest);
    } else {
      DigitRunStops(Decimal(n), rest);
      FromCharsOfDigits(Decimal(n), rest);
    }
  }

  lemma MinusInFront(digits: string, rest: string)
    ensures "-" + digits + rest == "-" + (digits + rest)
  {
  }

  lemma FromCharsOfNegative(digits: string, rest: string)
    requires digits != "" && DigitRun(digits + rest) == digits && IsInt64(-(DecimalValue(digits) as int))
    ensures FromChars("-" + (digits + rest)) == Some(-(DecimalValue(digits) as int))
  {
    var text := "-" + (digits + rest);
    assert text[0] == '-' && text[1..] == digits + rest;
  }

  lemma FromCharsOfDigits(digits: string, rest: string)
    requires digits != "" && DigitRun(digits + rest) == digits && IsInt64(DecimalValue(digits))
    ensures FromChars(digits + rest) == Some(DecimalValue(digits))
  {
    assert (digits + rest)[0] == digits[0] && digits[0] in digits;
  }

  lemma SignedDecimalCharacters(n: int)
    ensures SignedDecimal(n) != ""
    ensures forall c :: c in SignedDecimal(n) ==> c == '-' || IsDigit(c)
  {
  }

  /** Decimal text is written with the usual digits, the last of which is the remainder by ten. */
  lemma DecimalByDigits(n: int)
    ensures n < 0 ==> SignedDecimal(n) == "-" + SignedDecimal(-n)
    ensures 0 <= n < 10 ==> SignedDecimal(n) == ["0123456789"[n]]
    ensures n >= 10 ==> SignedDecimal(n) == SignedDecimal(n / 10) + ["0123456789"[n % 10]]
  {
    if n >= 0 {
      DigitOfTable(n % 10);
    }
  }

  lemma DigitOfTable(d: nat)
    requires d < 10
    ensures Digit(d) == "0123456789"[d]
  {
  }

  /** A number that is read is an optional minus sign and digits up to the first other character.
      It is refused if there is no digit, or if it is no 64-bit number. */
  lemma FromCharsExactly(negative: bool, digits: string, rest: string)
    requires forall c :: c in digits ==> '0' <= c <= '9'
    requires rest != "" ==> !('0' <= rest[0] <= '9')
    requires digits == "" && !negative && rest != "" ==> rest[0] != '-'
    ensures var value := if negative then -(DecimalValue(digits) as int) else DecimalValue(digits);
            var text := if negative then "-" + (digits + rest) else digits + rest;
            FromChars(text) ==
              if digits != "" && -9223372036854775808 <= value <= 9223372036854775807 then Some(value) else None
  {
    DigitRunStops(digits, rest);
    var text := if negative then "-" + (digits + rest) else digits + rest;
    if negative {
      assert text[0] == '-' && text[1..] == digits + rest;
    } else if digits != "" {
      assert text[0] == digits[0] && digits[0] in digits;
    } else {
      assert text == rest;
    }
  }

  lemma DecimalValueByDigits(digits: string, d: nat)
    requires d < 10 && forall c :: c in digits ==> '0' <= c <= '9'
    ensures DecimalValue("") == 0
    ensures forall c :: c in digits + ["0123456789"[d]] ==> '0' <= c <= '9'
    ensures DecimalValue(digits + ["0123456789"[d]]) == 10 * DecimalValue(digits) + d
  {
    DigitOfTable(d);
    assert (digits + [Digit(d)])[..|digits|] == digits;
  }

  // ----- Hexadecimal bytes -----

  function HexNibble(c: char): (v: int)
    ensures -1 <= v < 16
  {
    if '0' <= c <= '9' then c as int - '0' as int
    else if 'a' <= c <= 'f' then c as int - 'a' as int + 10
    else if 'A' <= c <= 'F' then c as int - 'A' as int + 10
    else -1
  }

  function HexDigit(v: nat): (c: char)
    requires v < 16
    ensures HexNibble(c) == v && (IsDigit(c) || 'a' <= c <= 'f')
  {
    if v < 10 then ('0' as int + v) as char else ('a' as int + (v - 10)) as char
  }

  function HexText(bytes: seq<u8>): (text: string)
    ensures |text| == 2 * |bytes|
    ensures forall c :: c in text ==> IsDigit(c) || 'a' <= c <= 'f'
  {
    if bytes == [] then ""
    else HexText(bytes[..|bytes| - 1]) + HexPair(bytes[|bytes| - 1])
  }

  function HexPair(b: u8): (pair: string)
    ensures |pair| == 2 && HexNibble(pair[0]) == b / 16 && HexNibble(pair[1]) == b % 16
    ensures forall c :: c in pair ==> IsDigit(c) || 'a' <= c <= 'f'
  {
    [HexDigit(b / 16), HexDigit(b % 16)]
  }

  function HexBytes(text: string): Option<seq<u8>> {
    if text == "" then Some([])
    else if |text| % 2 != 0 then None
    else
      var n := |text| - 2;
      var high, low := HexNibble(text[n]), HexNibble(text[n + 1]);
      match HexBytes(text[..n])
      case None => None
      case Some(front) => if high < 0 || low < 0 then None else Some(front + [high * 16 + low])
  }

  lemma {:induction false} HexRoundTrip(bytes: seq<u8>)
    ensures HexBytes(HexText(bytes)) == Some(bytes)
  {
    if bytes != [] {
      var n := |bytes| - 1;
      HexRoundTrip(bytes[..n]);
      HexTextAppended(bytes[..n], bytes[n]);
      HexByteAppended(HexText(bytes[..n]), bytes[..n], HexPair(bytes[n]), bytes[n]);
      SameText(bytes, bytes[..n] + [bytes[n]]);
    }
  }

  lemma HexTextAppended(bytes: seq<u8>, last: u8)
    ensures HexText(bytes + [last]) == HexText(bytes) + HexPair(last)
  {
    assert (bytes + [last])[..|bytes|] == bytes;
  }

  lemma SameText(a: seq<u8>, b: seq<u8>)
    requires a == b
    ensures HexText(a) == HexText(b)
  {
  }

  lemma HexByteAppended(text: string, bytes: seq<u8>, pair: string, last: u8)
    requires |text| % 2 == 0 && HexBytes(text) == Some(bytes)
    requires |pair| == 2 && HexNibble(pair[0]) == last / 16 && HexNibble(pair[1]) == last % 16
    ensures HexBytes(text + pair) == Some(bytes + [last])
  {
    var all := text + pair;
    assert all[..|all| - 2] == text;
    assert last / 16 * 16 + last % 16 == last;
  }

  /** Decoding succeeds exactly on an even number of hexadecimal digits. */
  lemma {:induction false} HexAccepts(text: string)
    ensures HexBytes(text).Some? <==> |text| % 2 == 0 && forall i :: 0 <= i < |text| ==> HexNibble(text[i]) >= 0
    ensures HexBytes(text).Some? ==> |HexBytes(text).value| == |text| / 2
  {
    if text != "" && |text| % 2 == 0 {
      var n := |text| - 2;
      HexAccepts(text[..n]);
      assert text == text[..n] + [text[n], text[n + 1]];
    }
  }

  /** Two digits make a byte, the high half first. */
  lemma {:induction false} HexBytesByPairs(text: string, i: nat)
    requires HexBytes(text).Some? && 2 * i + 1 < |text|
    ensures i < |HexBytes(text).value|
    ensures HexBytes(text).value[i] == 16 * HexNibble(text[2 * i]) + HexNibble(text[2 * i + 1])
    decreases |text|
  {
    var n := |text| - 2;
    HexAccepts(text);
    HexAccepts(text[..n]);
    if 2 * i < n {
      HexBytesByPairs(text[..n], i);
    }
  }

  lemma HexDigitOfTable(v: nat)
    requires v < 16
    ensures HexDigit(v) == "0123456789abcdef"[v]
  {
  }

  /** Byte `i` is written as the two digits of its high and its low half. */
  lemma {:induction false} HexTextByTable(bytes: seq<u8>, i: nat)
    requires i < |bytes|
    ensures HexText(bytes)[2 * i] == "0123456789abcdef"[bytes[i] / 16]
    ensures HexText(bytes)[2 * i + 1] == "0123456789abcdef"[bytes[i] % 16]
    decreases |bytes|
  {
    HexDigitOfTable(bytes[i] / 16);
    HexDigitOfTable(bytes[i] % 16);
    if i < |bytes| - 1 {
      HexTextByTable(bytes[..|bytes| - 1], i);
    }
  }

  /** The digits that are read, in either case, and what they stand for. */
  lemma NibblesByTable(v: nat, c: char)
    requires v < 16
    ensures HexNibble(c) == v <==> c == "0123456789abcdef"[v] || c == "0123456789ABCDEF"[v]
  {
    HexDigitOfTable(v);
    UpperDigitOfTable(v);
  }

  lemma UpperDigitOfTable(v: nat)
    requires v < 16
    ensures "0123456789ABCDEF"[v] ==
              if v < 10 then ('0' as int + v) as char else ('A' as int + (v - 10)) as char
  {
  }

  lemma HexBadPrefix(text: string, n: nat)
    requires |text| % 2 == 0 && n < |text| && HexNibble(text[n]) < 0
    ensures HexBytes(text) == None
  {
    HexAccepts(text);
  }

  method DecodeHex(input: string) returns (output: Option<seq<u8>>)
    ensures output == HexBytes(input)
  {
    if |input| % 2 != 0 {
      return None;
    }
    var bytes: seq<u8> := [];
    var index := 0;
    while index < |input|
      invariant 0 <= index <= |input| && index % 2 == 0
      invariant HexBytes(input[..index]) == Some(bytes)
    {
      var high := HexNibble(input[index]);
      var low := HexNibble(input[index + 1]);
      if high < 0 || low < 0 {
        HexBadPrefix(input, if high < 0 then index else index + 1);
        return None;
      }
      assert input[..index + 2][..index] == input[..index];
      bytes := bytes + [high * 16 + low];
      index := index + 2;
    }
    assert input[..index] == input;
    return Some(bytes);
  }

  method EncodeHex(data: seq<u8>) returns (output: string)
    ensures output == HexText(data)
  {
    var text := new char[2 * |data|](_ => '0');
    for index := 0 to |data|
      invariant text[..2 * index] == HexText(data[..index])
    {
      ghost var before := text[..2 * index];
      text[index * 2] := HexDigit(data[index] / 16);
      text[index * 2 + 1] := HexDigit(data[index] % 16);
      assert data[..index + 1][..index] == data[..index];
      assert text[..2 * (index + 1)] == before + [HexDigit(data[index] / 16), HexDigit(data[index] % 16)];
    }
    assert data[..|data|] == data;
    output := text[..];
  }
}
