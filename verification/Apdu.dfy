/**
 Decoding of command APDUs, and the encoder it inverts. The forms are those of section 5.1 of
 ISO/IEC 7816-4:2005 that the decoder supports, and three extended forms with Le fields of one,
 two or three bytes.
 */
module Apdus {
  import opened Wrappers

  type byte = n: nat | n < 256

  datatype Header = Header(cla: byte, ins: byte, p1: byte, p2: byte)

  datatype ApduType =
    | Instruction
    | ShortLe1 | ShortLc1Data | ShortLc1DataLe1
    | ExtendedLc3Data | ExtendedLc3DataLe1 | ExtendedLc3DataLe2 | ExtendedLe3

  datatype Apdu = Apdu(header: Header, lc: nat, data: seq<byte>, le: nat, caseType: ApduType)

  datatype Status = WrongData | WrongLength | InternalException

  const HEADER_LENGTH: nat := 4

  function Word(hi: byte, lo: byte): nat { 256 * hi + lo }

  /** A length field of zero stands for the maximum. */
  function OrMax(n: nat, max: nat): nat { if n == 0 then max else n }

  function Decode(frame: seq<byte>): Result<Apdu, Status> {
    if |frame| < HEADER_LENGTH then Err(WrongData)
    else DecodePayload(Header(frame[0], frame[1], frame[2], frame[3]), frame[HEADER_LENGTH..])
  }

  function DecodePayload(header: Header, payload: seq<byte>): Result<Apdu, Status> {
    var n := |payload|;
    if n == 0 then Ok(Apdu(header, 0, [], 0, Instruction))
    else
      var first: nat := payload[0];
      if n == 1 then Ok(Apdu(header, 0, [], OrMax(first, 0x100), ShortLe1))
      else if n == 1 + first && first != 0 then Ok(Apdu(header, first, payload[1..], 0, ShortLc1Data))
      else if n == 2 + first && first != 0 then
        Ok(Apdu(header, first, payload[1..n - 1], OrMax(payload[n - 1], 0x100), ShortLc1DataLe1))
      else if n > 2 then
        var lc := Word(payload[1], payload[2]);
        if n < lc + 3 then Err(WrongLength)
        else if n - (lc + 3) > 3 then Err(WrongLength)
        else if first == 0 then DecodeExtended(header, payload, lc, n - (lc + 3))
        else Err(InternalException)
      else Err(InternalException)
  }

  function DecodeExtended(header: Header, payload: seq<byte>, lc: nat, leLength: nat): Result<Apdu, Status>
    requires |payload| == 3 + lc + leLength && leLength <= 3
  {
    var n := |payload|;
    var data := payload[3..n - leLength];
    if leLength == 0 then Ok(Apdu(header, lc, data, 0, ExtendedLc3Data))
    else if leLength == 1 then Ok(Apdu(header, lc, data, OrMax(payload[n - 1], 0x100), ExtendedLc3DataLe1))
    else if leLength == 2 then
      Ok(Apdu(header, lc, data, OrMax(Word(payload[n - 2], payload[n - 1]), 0x10000), ExtendedLc3DataLe2))
    else if payload[n - 3] != 0 then Err(InternalException)
    else Ok(Apdu(header, lc, data, OrMax(Word(payload[n - 2], payload[n - 1]), 0x10000), ExtendedLe3))
  }

  /** The APDUs that have an encoding with their case tag. */
  predicate WellFormed(a: Apdu) {
    && a.lc == |a.data|
    && match a.caseType
       case Instruction => a.data == [] && a.le == 0
       case ShortLe1 => a.data == [] && 1 <= a.le <= 0x100
       case ShortLc1Data => 1 <= |a.data| <= 0xff && a.le == 0
       case ShortLc1DataLe1 => 1 <= |a.data| <= 0xff && 1 <= a.le <= 0x100
       case ExtendedLc3Data => |a.data| <= 0xffff && a.le == 0
       case ExtendedLc3DataLe1 => |a.data| <= 0xffff && 1 <= a.le <= 0x100
       case ExtendedLc3DataLe2 => |a.data| <= 0xffff && 1 <= a.le <= 0x10000
       case ExtendedLe3 => |a.data| <= 0xffff && 1 <= a.le <= 0x10000
  }

  /** One byte of Le; the maximum, 0x100, is sent as zero. */
  function ShortLe(le: nat): byte
    requires le <= 0x100
  {
    if le == 0x100 then 0 else le
  }

  lemma SplitWord(n: int, hi: int, lo: int)
    requires n == 0x100 * hi + lo && 0 <= lo < 0x100
    ensures n / 0x100 == hi && n % 0x100 == lo
  {
  }

  /** The two bytes of a length, high byte first; the maximum, 0x10000, is sent as zero. */
  function HighByte(n: nat): byte
    requires n <= 0x10000
  {
    if n == 0x10000 then 0 else n / 0x100
  }

  function LowByte(n: nat): byte
    requires n <= 0x10000
  {
    n % 0x100
  }

  lemma WordOfBytes(n: nat)
    requires n <= 0x10000
    ensures Word(HighByte(n), LowByte(n)) == if n == 0x10000 then 0 else n
  {
  }

  lemma BytesOfWord(hi: byte, lo: byte)
    ensures HighByte(Word(hi, lo)) == hi && LowByte(Word(hi, lo)) == lo
    ensures HighByte(OrMax(Word(hi, lo), 0x10000)) == hi && LowByte(OrMax(Word(hi, lo), 0x10000)) == lo
  {
    if Word(hi, lo) == 0 {
      assert hi == 0 && lo == 0;
    } else {
      SplitWord(Word(hi, lo), hi, lo);
    }
  }

  function HeaderBytes(h: Header): seq<byte> { [h.cla, h.ins, h.p1, h.p2] }

  function Extended(data: seq<byte>, le: seq<byte>): seq<byte>
    requires |data| <= 0xffff
  {
    [0, HighByte(|data|), LowByte(|data|)] + data + le
  }

  function LongLe(le: nat): seq<byte>
    requires le <= 0x10000
  {
    [HighByte(le), LowByte(le)]
  }

  function LeBytes(a: Apdu): seq<byte>
    requires WellFormed(a)
  {
    match a.caseType
    case ExtendedLc3DataLe1 => [ShortLe(a.le)]
    case ExtendedLc3DataLe2 => LongLe(a.le)
    case ExtendedLe3 => [0] + LongLe(a.le)
    case _ => []
  }

  predicate IsExtended(t: ApduType) {
    t.ExtendedLc3Data? || t.ExtendedLc3DataLe1? || t.ExtendedLc3DataLe2? || t.ExtendedLe3?
  }

  function Payload(a: Apdu): seq<byte>
    requires WellFormed(a)
  {
    match a.caseType
    case Instruction => []
    case ShortLe1 => [ShortLe(a.le)]
    case ShortLc1Data => [|a.data|] + a.data
    case ShortLc1DataLe1 => [|a.data|] + a.data + [ShortLe(a.le)]
    case _ => Extended(a.data, LeBytes(a))
  }

  function Encode(a: Apdu): seq<byte>
    requires WellFormed(a)
  {
    HeaderBytes(a.header) + Payload(a)
  }

  /** The parts of an extended payload are found where the decoder looks for them. */
  lemma ExtendedParts(data: seq<byte>, le: seq<byte>)
    requires |data| <= 0xffff
    ensures var p := Extended(data, le);
            && |p| == 3 + |data| + |le| && p[0] == 0 && Word(p[1], p[2]) == |data|
            && p[3..|p| - |le|] == data && forall i :: 0 <= i < |le| ==> p[3 + |data| + i] == le[i]
  {
    WordOfBytes(|data|);
  }

  lemma DecodeShort(a: Apdu)
    requires WellFormed(a) && (a.caseType.ShortLc1Data? || a.caseType.ShortLc1DataLe1?)
    ensures DecodePayload(a.header, Payload(a)) == Ok(a)
  {
    var p := Payload(a);
    if a.caseType.ShortLc1Data? {
      assert p[1..] == a.data;
    } else {
      assert p[1..|p| - 1] == a.data;
    }
  }

  lemma DecodeLeBytes(a: Apdu, p: seq<byte>, k: nat)
    requires WellFormed(a) && IsExtended(a.caseType) && k == |LeBytes(a)|
    requires |p| == 3 + a.lc + k && p[3..|p| - k] == a.data
    requires forall i :: 0 <= i < k ==> p[3 + a.lc + i] == LeBytes(a)[i]
    ensures DecodeExtended(a.header, p, a.lc, k) == Ok(a)
  {
    var n := |p|;
    match a.caseType
    case ExtendedLc3Data =>
    case ExtendedLc3DataLe1 =>
      assert p[n - 1] == LeBytes(a)[0];
    case ExtendedLc3DataLe2 =>
      WordOfBytes(a.le);
      assert p[n - 2] == LeBytes(a)[0] && p[n - 1] == LeBytes(a)[1];
    case ExtendedLe3 =>
      WordOfBytes(a.le);
      assert p[n - 3] == LeBytes(a)[0] && p[n - 2] == LeBytes(a)[1] && p[n - 1] == LeBytes(a)[2];
  }

  lemma DecodeLongForm(header: Header, p: seq<byte>, lc: nat, k: nat)
    requires |p| == 3 + lc + k && k <= 3 && p[0] == 0 && Word(p[1], p[2]) == lc
    ensures DecodePayload(header, p) == DecodeExtended(header, p, lc, k)
  {
  }

  lemma DecodeExtendedData(a: Apdu)
    requires WellFormed(a) && IsExtended(a.caseType)
    ensures DecodePayload(a.header, Extended(a.data, LeBytes(a))) == Ok(a)
  {
    var le := LeBytes(a);
    var p := Extended(a.data, le);
    ExtendedParts(a.data, le);
    DecodeLongForm(a.header, p, a.lc, |le|);
    DecodeLeBytes(a, p, |le|);
  }

  /** Every well-formed APDU decodes from its own encoding. */
  lemma DecodeEncode(a: Apdu)
    requires WellFormed(a)
    ensures Decode(Encode(a)) == Ok(a)
  {
    var f := Encode(a);
    assert f[HEADER_LENGTH..] == Payload(a);
    if IsExtended(a.caseType) {
      DecodeExtendedData(a);
    } else if a.caseType.ShortLc1Data? || a.caseType.ShortLc1DataLe1? {
      DecodeShort(a);
    }
  }

  lemma EncodeLeBytes(header: Header, p: seq<byte>, lc: nat, leLength: nat)
    requires |p| == 3 + lc + leLength && leLength <= 3 && lc <= 0xffff
    requires DecodeExtended(header, p, lc, leLength).Ok?
    ensures var a := DecodeExtended(header, p, lc, leLength).value;
            WellFormed(a) && IsExtended(a.caseType) && LeBytes(a) == p[|p| - leLength..]
  {
    var n := |p|;
    if leLength >= 2 {
      BytesOfWord(p[n - 2], p[n - 1]);
    }
  }

  lemma ThreeParts(p: seq<byte>, k: nat)
    requires 3 + k <= |p|
    ensures p == [p[0], p[1], p[2]] + p[3..|p| - k] + p[|p| - k..]
  {
  }

  lemma LengthBytes(n: nat, hi: byte, lo: byte)
    requires n == Word(hi, lo)
    ensures n <= 0xffff && HighByte(n) == hi && LowByte(n) == lo
  {
    BytesOfWord(hi, lo);
  }

  lemma Reassembled(p: seq<byte>, data: seq<byte>, le: seq<byte>)
    requires |p| == 3 + |data| + |le| && p[0] == 0 && |data| == Word(p[1], p[2])
    requires p[3..|p| - |le|] == data && p[|p| - |le|..] == le
    ensures |data| <= 0xffff && Extended(data, le) == p
  {
    LengthBytes(|data|, p[1], p[2]);
    ThreeParts(p, |le|);
  }

  lemma EncodeExtended(header: Header, p: seq<byte>, lc: nat, leLength: nat)
    requires |p| == 3 + lc + leLength && leLength <= 3
    requires p[0] == 0 && lc == Word(p[1], p[2])
    requires DecodeExtended(header, p, lc, leLength).Ok?
    ensures var a := DecodeExtended(header, p, lc, leLength).value;
            WellFormed(a) && Payload(a) == p
  {
    var a := DecodeExtended(header, p, lc, leLength).value;
    EncodeLeBytes(header, p, lc, leLength);
    Reassembled(p, a.data, p[|p| - leLength..]);
  }

  lemma EncodeShort(header: Header, p: seq<byte>, lc: nat)
    requires |p| > 1 && p[0] == lc && lc != 0 && (|p| == 1 + lc || |p| == 2 + lc)
    ensures DecodePayload(header, p).Ok?
    ensures var a := DecodePayload(header, p).value;
            a.header == header && WellFormed(a) && Payload(a) == p
  {
    if |p| == 1 + lc {
      assert p == [p[0]] + p[1..];
    } else {
      assert p == [p[0]] + p[1..|p| - 1] + [p[|p| - 1]];
    }
  }

  lemma EncodeDecodedPayload(header: Header, p: seq<byte>)
    requires DecodePayload(header, p).Ok?
    ensures var a := DecodePayload(header, p).value;
            a.header == header && WellFormed(a) && Payload(a) == p
  {
    var n := |p|;
    if n > 1 {
      var first: nat := p[0];
      if first != 0 && (n == 1 + first || n == 2 + first) {
        EncodeShort(header, p, first);
      } else {
        var lc := Word(p[1], p[2]);
        EncodeExtended(header, p, lc, n - (lc + 3));
      }
    }
  }

  /** Whatever decodes is well formed, and encoding it gives the frame back, byte for byte. */
  lemma EncodeDecode(frame: seq<byte>)
    requires Decode(frame).Ok?
    ensures WellFormed(Decode(frame).value) && Encode(Decode(frame).value) == frame
  {
    EncodeDecodedPayload(Header(frame[0], frame[1], frame[2], frame[3]), frame[HEADER_LENGTH..]);
  }

  /** Decoding is a bijection between the accepted frames and the well-formed APDUs. */
  lemma DecodeIff(frame: seq<byte>, a: Apdu)
    ensures Decode(frame) == Ok(a) <==> WellFormed(a) && Encode(a) == frame
  {
    if Decode(frame) == Ok(a) {
      EncodeDecode(frame);
    }
    if WellFormed(a) {
      DecodeEncode(a);
    }
  }

  /** The fifth byte is a length that the rest of the frame has, with or without one more byte. */
  predicate IsShort(frame: seq<byte>)
    requires |frame| >= 5
  {
    var lc: nat := frame[4];
    lc != 0 && (|frame| == lc + 5 || |frame| == lc + 6)
  }

  /** The length that the sixth and seventh byte announce. */
  function Announced(frame: seq<byte>): nat
    requires |frame| >= 7
  {
    var hi: nat, lo: nat := frame[5], frame[6];
    256 * hi + lo
  }

  /** The frame has that much data, and an Le field of at most three bytes. */
  predicate FitsExtended(frame: seq<byte>)
    requires |frame| >= 7
  {
    Announced(frame) + 7 <= |frame| <= Announced(frame) + 10
  }

  /**
   The frames refused with each status, told from the frame alone: too short for a header; announcing
   a length that the frame does not have; and, of the others, those of six bytes, those whose first
   length byte is not zero, and those of the longest form whose first Le byte is not zero.
   */
  lemma ErrorsIff(frame: seq<byte>)
    ensures Decode(frame) == Err(WrongData) <==> |frame| < 4
    ensures Decode(frame) == Err(WrongLength) <==> |frame| >= 7 && !IsShort(frame) && !FitsExtended(frame)
    ensures Decode(frame) == Err(InternalException) <==>
            && |frame| >= 6 && !IsShort(frame)
            && (|frame| == 6
                || (FitsExtended(frame)
                    && (frame[4] != 0
                        || (|frame| == Announced(frame) + 10 && frame[|frame| - 3] != 0))))
  {
    if |frame| >= 4 {
      var p := frame[HEADER_LENGTH..];
      assert |p| == |frame| - 4 && forall i :: 0 <= i < |p| ==> p[i] == frame[i + 4];
    }
  }

  /** A decoded APDU carries the data its length announces, and an expected length within the protocol's range. */
  lemma DecodedLengths(frame: seq<byte>)
    requires Decode(frame).Ok?
    ensures var a := Decode(frame).value;
            a.lc == |a.data| <= 0xffff && a.le <= 0x10000 && HEADER_LENGTH + |a.data| <= |frame|
  {
    EncodeDecode(frame);
  }

  /** No two well-formed APDUs, whatever their cases, share an encoding. */
  lemma EncodingsDistinct(a: Apdu, b: Apdu)
    requires WellFormed(a) && WellFormed(b) && Encode(a) == Encode(b)
    ensures a == b
  {
    DecodeEncode(a);
    DecodeEncode(b);
  }

  lemma DataMissing(h: Header, p: seq<byte>)
    requires |p| > 2 && p[0] == 0 && |p| < Word(p[1], p[2]) + 3
    ensures DecodePayload(h, p) == Err(WrongLength)
  {
  }

  lemma NoData(h: Header, p: seq<byte>)
    requires |p| == 3 && p[0] == 0 && Word(p[1], p[2]) == 0
    ensures DecodePayload(h, p) == Ok(Apdu(h, 0, [], 0, ExtendedLc3Data))
  {
    DecodeLongForm(h, p, 0, 0);
    assert p[3..|p| - 0] == [];
  }

  /**
   The standard's extended form with Le alone is header, 00, and two bytes of Le. Of all these
   frames only Le = 0000 is accepted, and then as an empty data field with nothing expected.
   */
  lemma ExtendedLeAloneUnsupported(h: Header, hi: byte, lo: byte)
    ensures Decode(HeaderBytes(h) + [0, hi, lo]) ==
            if hi == 0 && lo == 0 then Ok(Apdu(h, 0, [], 0, ExtendedLc3Data)) else Err(WrongLength)
  {
    var f := HeaderBytes(h) + [0, hi, lo];
    assert f[HEADER_LENGTH..] == [0, hi, lo];
    if Word(hi, lo) == 0 {
      NoData(h, f[HEADER_LENGTH..]);
    } else {
      DataMissing(h, f[HEADER_LENGTH..]);
    }
  }
}
