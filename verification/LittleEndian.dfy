/** Little-endian integers, as written and read one byte at a time. */
module LittleEndian {
  import opened Numbers

  /** The number of values of `width` bytes. */
  function Bound(width: nat): nat {
    if width == 0 then 1 else 0x100 * Bound(width - 1)
  }

  lemma Bounds()
    ensures Bound(1) == 0x100 && Bound(2) == 0x1_0000
    ensures Bound(4) == 0x1_0000_0000 && Bound(8) == 0x1_0000_0000_0000_0000
  {
    assert Bound(2) == 0x100 * Bound(1);
    assert Bound(3) == 0x100 * Bound(2);
    assert Bound(4) == 0x100 * Bound(3);
    assert Bound(5) == 0x100 * Bound(4);
    assert Bound(6) == 0x100 * Bound(5);
    assert Bound(7) == 0x100 * Bound(6);
  }

  function Little(value: nat, width: nat): (b: seq<u8>)
    ensures |b| == width
  {
    if width == 0 then [] else [value % 0x100] + Little(value / 0x100, width - 1)
  }

  function FromLittle(b: seq<u8>): nat {
    if b == [] then 0 else b[0] + 0x100 * FromLittle(b[1..])
  }

  lemma {:induction false} FromLittleBounded(b: seq<u8>)
    ensures FromLittle(b) < Bound(|b|)
  {
    if b != [] {
      FromLittleBounded(b[1..]);
    }
  }

  lemma {:induction false} FromLittleInverts(value: nat, width: nat)
    requires value < Bound(width)
    ensures FromLittle(Little(value, width)) == value
  {
    if width > 0 {
      FromLittleInverts(value / 0x100, width - 1);
    }
  }

  lemma {:induction false} LittleInverts(b: seq<u8>)
    ensures Little(FromLittle(b), |b|) == b
  {
    if b != [] {
      LittleInverts(b[1..]);
      assert FromLittle(b) % 0x100 == b[0] && FromLittle(b) / 0x100 == FromLittle(b[1..]);
    }
  }

  /** `value >> (index * 8)`. */
  function ShiftRight(value: nat, index: nat): nat {
    if index == 0 then value else ShiftRight(value / 0x100, index - 1)
  }

  /** `byte << (index * 8)`. */
  function ShiftLeft(byte: nat, index: nat): nat {
    if index == 0 then byte else 0x100 * ShiftLeft(byte, index - 1)
  }

  lemma {:induction false} LittleAppended(value: nat, width: nat)
    ensures Little(value, width + 1) == Little(value, width) + [ShiftRight(value, width) % 0x100]
  {
    if width > 0 {
      LittleAppended(value / 0x100, width - 1);
    }
  }

  /** The shifted byte lies above everything read before, so combining is adding. */
  lemma {:induction false} FromLittleAppended(b: seq<u8>, last: u8)
    ensures FromLittle(b + [last]) == FromLittle(b) + ShiftLeft(last, |b|)
  {
    if b == [] {
      assert [] + [last] == [last] && [last][1..] == [];
    } else {
      FromLittleAppended(b[1..], last);
      assert (b + [last])[1..] == b[1..] + [last];
    }
  }

  // ----- The widths that are used, as sums -----

  lemma FromTwo(b: seq<u8>)
    requires |b| == 2
    ensures FromLittle(b) == b[0] + 0x100 * (b[1] as int)
  {
    assert b[1..][1..] == [];
    assert FromLittle(b[1..]) == b[1] + 0x100 * FromLittle([]);
  }

  lemma FromFour(b: seq<u8>)
    requires |b| == 4
    ensures FromLittle(b) == b[0] + 0x100 * (b[1] as int) + 0x1_0000 * (b[2] as int) + 0x100_0000 * (b[3] as int)
  {
    assert b[1..][1..] == b[2..4];
    FromTwo(b[2..4]);
  }

  lemma FromEight(b: seq<u8>)
    requires |b| == 8
    ensures FromLittle(b) ==
              b[0] + 0x100 * (b[1] as int) + 0x1_0000 * (b[2] as int) + 0x100_0000 * (b[3] as int)
              + 0x1_0000_0000 * (b[4] as int) + 0x100_0000_0000 * (b[5] as int)
              + 0x1_0000_0000_0000 * (b[6] as int) + 0x100_0000_0000_0000 * (b[7] as int)
  {
    FourAhead(b);
    FromFour(b[4..8]);
  }

  lemma FourAhead(b: seq<u8>)
    requires |b| == 8
    ensures FromLittle(b) ==
              b[0] + 0x100 * (b[1] as int) + 0x1_0000 * (b[2] as int) + 0x100_0000 * (b[3] as int)
              + 0x1_0000_0000 * FromLittle(b[4..8])
  {
    var b1, b2, b3, b4 := b[1..], b[2..], b[3..], b[4..8];
    assert b1[1..] == b2 && b2[1..] == b3 && b3[1..] == b4;
    assert FromLittle(b1) == b[1] + 0x100 * FromLittle(b2);
    assert FromLittle(b2) == b[2] + 0x100 * FromLittle(b3);
    assert FromLittle(b3) == b[3] + 0x100 * FromLittle(b4);
  }
}
