/** The bit layout of an identifier: interval count, machine id and sequence
    number, most significant first (`newID`, generator.go:180-184).

    `Pack` is the source's expression as written, with Go's shift and OR and
    no masking. `Unpack` is its inverse on the fields that fit their widths;
    the lemmas below say when packing is positional, reversible and ordered. */
module IdLayout {
  import opened GoInts

  /** `(timeCounter << (machineBit + sequenceBit)) | (machineID << sequenceBit)
      | sequenceNum`, where the `uint16` width sum wraps and nothing is masked. */
  function Pack(timeCounter: u64, machineID: u64, sequenceNum: u64, machineBit: u16, sequenceBit: u16): (id: u64)
  {
    Or(Or(Shl(timeCounter, WrapU16(machineBit + sequenceBit)), Shl(machineID, sequenceBit)), sequenceNum)
  }

  /** Every field fits its width and the whole value fits in 64 bits. */
  predicate FieldsFit(timeCounter: nat, machineID: nat, sequenceNum: nat, machineBit: nat, sequenceBit: nat) {
    && machineBit + sequenceBit <= 64
    && sequenceNum < Pow2(sequenceBit)
    && machineID < Pow2(machineBit)
    && ShiftLeft(timeCounter, machineBit + sequenceBit) < U64_LIMIT
  }

  /** The three fields of an identifier, most significant first. */
  datatype Fields = Fields(timeCounter: nat, machineID: nat, sequenceNum: nat)

  /** Reads the three fields back from an identifier. */
  function Unpack(id: nat, machineBit: nat, sequenceBit: nat): (f: Fields)
  {
    var high := ShiftRight(id, sequenceBit);
    Fields(ShiftRight(high, machineBit), LowBits(high, machineBit), LowBits(id, sequenceBit))
  }

  /** When the fields fit, neither shift in `Pack` loses a bit, and the
      shifted machine id stays below the interval count's shift. */
  lemma FieldsFitShifts(tc: u64, mid: u64, sn: u64, mb: u16, sb: u16)
    requires FieldsFit(tc, mid, sn, mb, sb)
    ensures Shl(tc, mb + sb) == ShiftLeft(tc, mb + sb)
    ensures Shl(mid, sb) == ShiftLeft(mid, sb) < Pow2(mb + sb)
  {
    ShiftLeftBound(mid, mb, sb);
    Pow2Monotone(mb + sb, 64);
    Pow2Of64();
    ShlExact(tc, mb + sb);
    ShlExact(mid, sb);
  }

  /** When the fields fit, OR-ing the shifted fields is positional notation:
      no bit is lost or shared between fields. */
  lemma PackIsPositional(tc: u64, mid: u64, sn: u64, mb: u16, sb: u16)
    requires FieldsFit(tc, mid, sn, mb, sb)
    ensures Pack(tc, mid, sn, mb, sb) == ShiftLeft(ShiftLeft(tc, mb) + mid, sb) + sn
  {
    var a := ShiftLeft(tc, mb) + mid;
    var hi, mi := ShiftLeft(tc, mb + sb), ShiftLeft(mid, sb);
    FieldsFitShifts(tc, mid, sn, mb, sb);
    OrShifted(tc, hi, mi, mb + sb);
    ShiftLeftAdd(tc, mb, sb);
    ShiftLeftSum(ShiftLeft(tc, mb), mid, sb);
    OrShifted(a, hi + mi, sn, sb);
  }

  /** Unpacking a packed identifier returns the fields that went in. */
  lemma UnpackPack(tc: u64, mid: u64, sn: u64, mb: u16, sb: u16)
    requires FieldsFit(tc, mid, sn, mb, sb)
    ensures Unpack(Pack(tc, mid, sn, mb, sb), mb, sb) == Fields(tc, mid, sn)
  {
    PackIsPositional(tc, mid, sn, mb, sb);
    ShiftRoundTrip(ShiftLeft(tc, mb) + mid, sn, sb);
    ShiftRoundTrip(tc, mid, mb);
  }

  /** Packing is injective on fields that fit. */
  lemma PackInjective(tc1: u64, mid1: u64, sn1: u64, tc2: u64, mid2: u64, sn2: u64, mb: u16, sb: u16)
    requires FieldsFit(tc1, mid1, sn1, mb, sb) && FieldsFit(tc2, mid2, sn2, mb, sb)
    requires Fields(tc1, mid1, sn1) != Fields(tc2, mid2, sn2)
    ensures Pack(tc1, mid1, sn1, mb, sb) != Pack(tc2, mid2, sn2, mb, sb)
  {
    UnpackPack(tc1, mid1, sn1, mb, sb);
    UnpackPack(tc2, mid2, sn2, mb, sb);
  }

  /** For one machine, identifiers are ordered like the pair
      (interval count, sequence number), compared lexicographically. */
  lemma PackMonotone(tc1: u64, sn1: u64, tc2: u64, sn2: u64, mid: u64, mb: u16, sb: u16)
    requires FieldsFit(tc1, mid, sn1, mb, sb) && FieldsFit(tc2, mid, sn2, mb, sb)
    requires tc1 < tc2 || (tc1 == tc2 && sn1 < sn2)
    ensures Pack(tc1, mid, sn1, mb, sb) < Pack(tc2, mid, sn2, mb, sb)
  {
    PackIsPositional(tc1, mid, sn1, mb, sb);
    PackIsPositional(tc2, mid, sn2, mb, sb);
    if tc1 < tc2 {
      var a1, a2 := ShiftLeft(tc1, mb) + mid, ShiftLeft(tc2, mb) + mid;
      ShiftLeftSum(tc1, 1, mb);
      ShiftLeftOne(mb);
      ShiftLeftMonotone(tc1 + 1, tc2, mb);
      assert a1 + 1 <= a2;
      ShiftLeftSum(a1, 1, sb);
      ShiftLeftOne(sb);
      ShiftLeftMonotone(a1 + 1, a2, sb);
    }
  }

  /** The concrete values `newID` is expected to produce for the layout
      38/16/10 with machine id 1 (generator_test.go:80-91). The second packs
      a sequence number of 1024, which does not fit 10 bits and is OR-ed into
      the machine field's lowest bit. */
  lemma PackExamples()
    ensures Pack(0, 1, 0, 16, 10) == 1024
    ensures Pack(9, 1, 1024, 16, 10) == 9 * 67108864 + 1024
  {
    assert Pow2(8) == 256;
    assert Pow2(10) == 1024 && Pow2(11) == 2048;
    assert Pow2(16) == 65536 by { Pow2Add(8, 8); }
    assert Pow2(26) == 67108864 by { Pow2Add(16, 10); }
    ShiftLeftOne(10);
    Pow2Of64();
    ShiftLeftZero(26);
    ShiftLeftZero(16);
    assert FieldsFit(0, 1, 0, 16, 10);
    PackIsPositional(0, 1, 0, 16, 10);

    ShiftLeftIsProduct(9, 26);
    assert Shl(9, 26) == 9 * 67108864;
    assert Shl(1, 10) == 1024;
    DisjointOrIsSum(9, 1024, 26);
    assert Or(Shl(9, 26), Shl(1, 10)) == 9 * 67108864 + 1024;
    ShiftLeftAdd(9, 15, 11);
    BitOrSplit(ShiftLeft(9, 15), 1024, 1024, 11);
    BitOrSelf(1024);
  }
}
