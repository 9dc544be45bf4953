/** Byte format of one write-ahead-log entry (all integers little-endian):
    txn_id (8) | op_code (1) | payload_len (4) | payload | crc32 (4).
    The checksum is a parameter: every result holds for every checksum function. */
module WalCodec {

  type byte = x: int | 0 <= x < 256
  type u32 = x: int | 0 <= x < 0x1_0000_0000
  type u64 = x: int | 0 <= x < 0x1_0000_0000_0000_0000
  type Checksum = seq<byte> -> u32

  const MIN_LEN: nat := 17  // header (8 + 1 + 4) plus trailing checksum (4)

  datatype Entry = Entry(txnId: u64, opCode: byte, payload: seq<byte>)

  datatype DecodeResult =
    | Decoded(entry: Entry, consumed: nat)
    | PayloadTruncated(expected: nat, actual: nat)
    | CrcMismatch(stored: u32, computed: u32)

  // ---------- little-endian integers ----------

  function LeBytes(v: nat, n: nat): (s: seq<byte>)
    ensures |s| == n
  {
    if n == 0 then [] else [v % 256] + LeBytes(v / 256, n - 1)
  }

  function LeValue(s: seq<byte>): nat {
    if s == [] then 0 else s[0] + 256 * LeValue(s[1..])
  }

  function Pow256(n: nat): nat {
    if n == 0 then 1 else 256 * Pow256(n - 1)
  }

  /** Reading back what was written gives the value, whenever it fits the width. */
  lemma {:induction false} LeValueOfBytes(v: nat, n: nat)
    requires v < Pow256(n)
    ensures LeValue(LeBytes(v, n)) == v
  {
    if n > 0 {
      LeValueOfBytes(v / 256, n - 1);
      assert LeBytes(v, n)[1..] == LeBytes(v / 256, n - 1);
    }
  }

  /** Every byte string is the encoding of its own value. */
  lemma {:induction false} LeBytesOfValue(s: seq<byte>)
    ensures LeValue(s) < Pow256(|s|)
    ensures LeBytes(LeValue(s), |s|) == s
  {
    if s != [] {
      LeBytesOfValue(s[1..]);
      assert LeValue(s) / 256 == LeValue(s[1..]);
      assert LeValue(s) % 256 == s[0];
      assert s == [s[0]] + s[1..];
    }
  }

  lemma Widths()
    ensures Pow256(4) == 0x1_0000_0000 && Pow256(8) == 0x1_0000_0000_0000_0000
  {
    assert Pow256(4) == 256 * 256 * 256 * 256;
    assert Pow256(8) == 256 * 256 * 256 * 256 * Pow256(4);
  }

  // ---------- specification of the codec ----------

  /** The bytes the checksum covers. The payload length is cast to 32 bits, so it wraps. */
  function Fields(e: Entry): (s: seq<byte>)
    ensures |s| == 13 + |e.payload|
  {
    LeBytes(e.txnId, 8) + [e.opCode] + LeBytes(|e.payload| % 0x1_0000_0000, 4) + e.payload
  }

  function Encode(crc: Checksum, e: Entry): (s: seq<byte>)
    ensures |s| == MIN_LEN + |e.payload|
  {
    Fields(e) + LeBytes(crc(Fields(e)), 4)
  }

  /** Fixed-width fields of a header or trailer, read at an offset. */
  function ReadU64(data: seq<byte>, at: nat): u64
    requires at + 8 <= |data|
  {
    Widths();
    LeBytesOfValue(data[at..at + 8]);
    LeValue(data[at..at + 8])
  }

  function ReadU32(data: seq<byte>, at: nat): u32
    requires at + 4 <= |data|
  {
    Widths();
    LeBytesOfValue(data[at..at + 4]);
    LeValue(data[at..at + 4])
  }

  function Decode(crc: Checksum, data: seq<byte>): (r: DecodeResult)
    ensures r.Decoded? ==> MIN_LEN <= r.consumed <= |data|
  {
    if |data| < MIN_LEN then PayloadTruncated(MIN_LEN, |data|) else
    var len := ReadU32(data, 9);
    if |data| < MIN_LEN + len then PayloadTruncated(MIN_LEN + len, |data|) else
    var e := Entry(ReadU64(data, 0), data[8], data[13..13 + len]);
    var stored := ReadU32(data, 13 + len);
    if stored != crc(Fields(e)) then CrcMismatch(stored, crc(Fields(e)))
    else Decoded(e, MIN_LEN + len)
  }

  // ---------- the buffer-building and offset-advancing code ----------

  method ToBytes(crc: Checksum, e: Entry) returns (buf: seq<byte>)
    ensures buf == Encode(crc, e)
  {
    var payloadLen := |e.payload| % 0x1_0000_0000;
    buf := [];
    buf := buf + LeBytes(e.txnId, 8);
    buf := buf + [e.opCode];
    buf := buf + LeBytes(payloadLen, 4);
    buf := buf + e.payload;
    assert buf == Fields(e);
    var sum := crc(buf);
    buf := buf + LeBytes(sum, 4);
  }

  method FromBytes(crc: Checksum, data: seq<byte>) returns (r: DecodeResult)
    ensures r == Decode(crc, data)
  {
    hide LeBytes, LeValue;
    if |data| < MIN_LEN {
      return PayloadTruncated(MIN_LEN, |data|);
    }
    var offset: nat := 0;
    var txnId := ReadU64(data, offset);
    offset := offset + 8;
    var opCode := data[offset];
    offset := offset + 1;
    var payloadLen := ReadU32(data, offset);
    offset := offset + 4;
    var needed := offset + payloadLen + 4;
    if |data| < needed {
      return PayloadTruncated(needed, |data|);
    }
    var payload := data[offset..offset + payloadLen];
    offset := offset + payloadLen;
    var stored := ReadU32(data, offset);
    offset := offset + 4;
    var covered := LeBytes(txnId, 8) + [opCode] + LeBytes(payloadLen, 4) + payload;
    assert covered == Fields(Entry(txnId, opCode, payload)) by {
      assert |payload| % 0x1_0000_0000 == payloadLen;
    }
    var computed := crc(covered);
    if stored != computed {
      return CrcMismatch(stored, computed);
    }
    r := Decoded(Entry(txnId, opCode, payload), offset);
  }

  // ---------- the byte format ----------

  /** The value of four or eight bytes, least significant first. */
  function Four(s: seq<byte>, at: nat): nat
    requires at + 4 <= |s|
  {
    var b0: int, b1: int, b2: int, b3: int := s[at], s[at + 1], s[at + 2], s[at + 3];
    b0 + 0x100 * b1 + 0x1_0000 * b2 + 0x100_0000 * b3
  }

  function Eight(s: seq<byte>, at: nat): nat
    requires at + 8 <= |s|
  {
    Four(s, at) + 0x1_0000_0000 * Four(s, at + 4)
  }

  lemma FourFirst(s: seq<byte>)
    requires |s| >= 4
    ensures LeValue(s) == Four(s, 0) + 0x1_0000_0000 * LeValue(s[4..])
  {
    assert s[1..][1..] == s[2..] && s[2..][1..] == s[3..] && s[3..][1..] == s[4..];
    assert LeValue(s[3..]) == s[3] + 256 * LeValue(s[4..]);
    assert LeValue(s[2..]) == s[2] + 256 * LeValue(s[3..]);
  }

  lemma FourIs(s: seq<byte>, at: nat)
    requires at + 4 <= |s|
    ensures LeValue(s[at..at + 4]) == Four(s, at)
  {
    FourFirst(s[at..at + 4]);
  }

  lemma EightIs(s: seq<byte>, at: nat)
    requires at + 8 <= |s|
    ensures LeValue(s[at..at + 8]) == Eight(s, at)
  {
    FourFirst(s[at..at + 8]);
    assert s[at..at + 8][4..] == s[at + 4..at + 8];
    FourIs(s, at + 4);
  }

  /** Every byte of an encoded entry: the checksum covers all bytes before it. */
  lemma Layout(crc: Checksum, e: Entry)
    ensures var s, n := Encode(crc, e), |e.payload|;
            && |s| == 17 + n
            && Eight(s, 0) == e.txnId && s[8] == e.opCode
            && Four(s, 9) == n % 0x1_0000_0000 && s[13..13 + n] == e.payload
            && Four(s, 13 + n) == crc(s[..13 + n])
  {
    hide LeBytes, LeValue, Four, Eight;
    var s, n := Encode(crc, e), |e.payload|;
    Widths();
    assert s[..13 + n] == Fields(e) && s[13 + n..17 + n] == LeBytes(crc(Fields(e)), 4);
    assert s[0..8] == LeBytes(e.txnId, 8) && s[9..13] == LeBytes(n % 0x1_0000_0000, 4);
    LeValueOfBytes(e.txnId, 8);
    LeValueOfBytes(n % 0x1_0000_0000, 4);
    LeValueOfBytes(crc(Fields(e)), 4);
    EightIs(s, 0);
    FourIs(s, 9);
    FourIs(s, 13 + n);
  }

  /** Damage that leaves the length and the checksum bytes alone, but changes the checksum computed over
      the bytes before them, is reported as a mismatch of the two checksums. */
  lemma DamageIsReported(crc: Checksum, e: Entry, data: seq<byte>)
    requires FitsU32(e) && |data| >= |Encode(crc, e)|
    requires var s, n := Encode(crc, e), |e.payload|;
             data[9..13] == s[9..13] && data[13 + n..17 + n] == s[13 + n..] && crc(data[..13 + n]) != crc(s[..13 + n])
    ensures var n := |e.payload|;
            Decode(crc, data) == CrcMismatch(crc(Encode(crc, e)[..13 + n]), crc(data[..13 + n]))
  {
    hide LeBytes, LeValue;
    var s, n := Encode(crc, e), |e.payload|;
    Widths();
    HeaderOf(crc, e, s);
    assert s[..13 + n] == Fields(e) && s[13 + n..] == LeBytes(crc(Fields(e)), 4);
    LeValueOfBytes(crc(Fields(e)), 4);
    FieldsOfHeader(data, Entry(ReadU64(data, 0), data[8], data[13..13 + n]));
  }

  // ---------- round trips ----------

  ghost predicate FitsU32(e: Entry) {
    |e.payload| < 0x1_0000_0000
  }

  /** The header of an encoded entry, read from any buffer that starts with it. */
  lemma HeaderOf(crc: Checksum, e: Entry, data: seq<byte>)
    requires FitsU32(e) && 13 <= |data|
    requires Encode(crc, e) <= data || data <= Encode(crc, e)
    ensures ReadU64(data, 0) == e.txnId && data[8] == e.opCode && ReadU32(data, 9) == |e.payload|
  {
    hide Encode, LeBytes, LeValue;
    Widths();
    var s := Encode(crc, e);
    HeaderBytes(crc, e);
    assert forall i :: 0 <= i < 13 ==> data[i] == s[i];
    assert data[0..8] == s[0..8];
    assert data[9..13] == s[9..13];
    LeValueOfBytes(e.txnId, 8);
    LeValueOfBytes(|e.payload|, 4);
  }

  lemma HeaderBytes(crc: Checksum, e: Entry)
    requires FitsU32(e)
    ensures var s := Encode(crc, e);
            s[0..8] == LeBytes(e.txnId, 8) && s[8] == e.opCode && s[9..13] == LeBytes(|e.payload|, 4)
  {
    hide LeBytes;
  }

  lemma DecodeOfEncode(crc: Checksum, e: Entry, rest: seq<byte>)
    requires FitsU32(e)
    ensures Decode(crc, Encode(crc, e) + rest) == Decoded(e, |Encode(crc, e)|)
  {
    Widths();
    var s := Encode(crc, e);
    var data := s + rest;
    HeaderOf(crc, e, data);
    var n := |e.payload|;
    assert data[13..13 + n] == s[13..13 + n] == e.payload;
    assert data[13 + n..17 + n] == s[13 + n..17 + n] == LeBytes(crc(Fields(e)), 4);
    LeValueOfBytes(crc(Fields(e)), 4);
  }

  /** An entry comes back exactly when its payload length fits the 32-bit length field. */
  lemma RoundTripIff(crc: Checksum, e: Entry, rest: seq<byte>)
    ensures Decode(crc, Encode(crc, e) + rest) == Decoded(e, |Encode(crc, e)|) <==> FitsU32(e)
  {
    if FitsU32(e) {
      DecodeOfEncode(crc, e, rest);
    }
  }

  /** Conversely, whatever decodes is the encoding of its result: no second byte form exists. */
  lemma EncodeOfDecode(crc: Checksum, data: seq<byte>)
    requires Decode(crc, data).Decoded?
    ensures var r := Decode(crc, data);
            FitsU32(r.entry) && Encode(crc, r.entry) == data[..r.consumed]
  {
    hide LeBytes, LeValue, Fields;
    var e := Decode(crc, data).entry;
    var n := |e.payload|;
    Widths();
    LeBytesOfValue(data[9..13]);
    LeBytesOfValue(data[13 + n..17 + n]);
    FieldsOfHeader(data, e);
    assert data[..17 + n] == data[..13 + n] + data[13 + n..17 + n];
  }

  lemma FieldsOfHeader(data: seq<byte>, e: Entry)
    requires 13 + |e.payload| <= |data| && FitsU32(e)
    requires e == Entry(ReadU64(data, 0), data[8], data[13..13 + |e.payload|]) && ReadU32(data, 9) == |e.payload|
    ensures Fields(e) == data[..13 + |e.payload|]
  {
    hide LeBytes, LeValue;
    LeBytesOfValue(data[0..8]);
    LeBytesOfValue(data[9..13]);
    var n := |e.payload|;
    assert data[..13 + n] == data[0..8] + [data[8]] + data[9..13] + data[13..13 + n];
  }

  /** A torn entry is always reported as truncated, never as a checksum failure or as another entry. */
  lemma StrictPrefixIsTruncated(crc: Checksum, e: Entry, k: nat)
    requires FitsU32(e) && k < |Encode(crc, e)|
    ensures Decode(crc, Encode(crc, e)[..k]).PayloadTruncated?
  {
    if MIN_LEN <= k {
      HeaderOf(crc, e, Encode(crc, e)[..k]);
    }
  }
}
