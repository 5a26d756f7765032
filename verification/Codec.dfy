/** scripts/bench/pingpong.py: the payload pattern, the "<IQ" header and the multiarray codec. */
module Codec {
  import opened Messages

  // ---------------------------------------------------------------- payload

  /** bytes(i % 256 for i in range(n)): dimos/protocol/pubsub/benchmark/testdata.py, make_data_bytes. */
  function MakeDataBytes(n: int): seq<byte> {
    if n <= 0 then [] else MakeDataBytes(n - 1) + [(n - 1) % 256]
  }

  function Repeat(s: seq<byte>, times: nat): seq<byte> {
    if times == 0 then [] else Repeat(s, times - 1) + s
  }

  /** The block repeated, then its remainder. */
  function PayloadPattern(n: int): seq<byte> {
    if n <= 0 then []
    else
      var pat := seq(256, i requires 0 <= i < 256 => i as byte);
      Repeat(pat, n / 256) + pat[..n % 256]
  }

  lemma {:induction false} DataBytesAt(n: int)
    ensures |MakeDataBytes(n)| == if n <= 0 then 0 else n
    ensures forall i :: 0 <= i < n ==> MakeDataBytes(n)[i] == i % 256
  {
    if n > 0 { DataBytesAt(n - 1); }
  }

  lemma {:induction false} RepeatAt(s: seq<byte>, times: nat)
    requires |s| == 256 && forall i :: 0 <= i < 256 ==> s[i] == i
    ensures |Repeat(s, times)| == 256 * times
    ensures forall i :: 0 <= i < 256 * times ==> Repeat(s, times)[i] == i % 256
  {
    if times > 0 {
      RepeatAt(s, times - 1);
      forall i | 256 * (times - 1) <= i < 256 * times ensures Repeat(s, times)[i] == i % 256 {
        assert i % 256 == i - 256 * (times - 1);
      }
    }
  }

  /** The fast pattern is the simple one. */
  lemma PatternIsData(n: int)
    ensures PayloadPattern(n) == MakeDataBytes(n)
  {
    DataBytesAt(n);
    if n > 0 {
      var pat := seq(256, i requires 0 <= i < 256 => i as byte);
      RepeatAt(pat, n / 256);
      forall i | 0 <= i < n ensures PayloadPattern(n)[i] == MakeDataBytes(n)[i] {
        if i >= 256 * (n / 256) {
          assert i % 256 == i - 256 * (n / 256);
        }
      }
    }
  }

  // ---------------------------------------------------------------- header

  function Pow256(w: nat): (p: nat)
    ensures p >= 1
  {
    if w == 0 then 1 else 256 * Pow256(w - 1)
  }

  /** The w low octets of n, lowest first. */
  function LittleEndian(n: nat, w: nat): (b: seq<byte>)
    ensures |b| == w
  {
    if w == 0 then [] else [(n % 256) as byte] + LittleEndian(n / 256, w - 1)
  }

  function FromLittleEndian(b: seq<byte>): nat {
    if b == [] then 0 else b[0] + 256 * FromLittleEndian(b[1..])
  }

  lemma {:induction false} LittleEndianReads(n: nat, w: nat)
    requires n < Pow256(w)
    ensures FromLittleEndian(LittleEndian(n, w)) == n
  {
    if w > 0 {
      LittleEndianReads(n / 256, w - 1);
      assert LittleEndian(n, w)[1..] == LittleEndian(n / 256, w - 1);
    }
  }

  lemma {:induction false} LittleEndianWrites(b: seq<byte>)
    ensures FromLittleEndian(b) < Pow256(|b|)
    ensures LittleEndian(FromLittleEndian(b), |b|) == b
  {
    if b != [] {
      LittleEndianWrites(b[1..]);
      var n := FromLittleEndian(b);
      assert n % 256 == b[0] && n / 256 == FromLittleEndian(b[1..]);
      assert b == [b[0]] + b[1..];
    }
  }

  /** Octet i is the ith digit to the base 256, the lowest first. */
  lemma {:induction false} LittleEndianAt(n: nat, w: nat, i: nat)
    requires i < w
    ensures LittleEndian(n, w)[i] as int == n / Pow256(i) % 256
  {
    if i > 0 {
      LittleEndianAt(n / 256, w - 1, i - 1);
      DivideTwice(n, Pow256(i - 1));
    }
  }

  lemma DivideTwice(n: nat, b: nat)
    requires b > 0
    ensures n / 256 / b == n / (256 * b)
  {
    var q, r := n / 256 / b, n / 256 % b;
    var s := n % 256;
    assert n == 256 * (q * b + r) + s;
    Quotient(n, 256 * b, q, 256 * r + s);
  }

  lemma Quotient(n: nat, d: nat, q: nat, r: nat)
    requires d > 0 && r < d && n == d * q + r
    ensures n / d == q
  {
    var p := n / d;
    if p < q {
      Below(d, p, q);
    } else if p > q {
      Below(d, q, p);
    }
  }

  lemma TimesMonotone(a: int, b: int, h: nat)
    ensures a <= b ==> a * h <= b * h
  {
  }

  lemma Below(d: nat, p: nat, q: nat)
    requires p < q
    ensures d * p + d <= d * q
  {
    TimesMonotone(p + 1, q, d);
    assert (p + 1) * d == d * p + d;
  }

  const HEADER := 12

  /** struct.pack("<IQ", seq, t0); None for a value out of range, which raises. */
  function PackHeader(number: nat, t0: nat): Option<seq<byte>> {
    if number < 0x1_0000_0000 && t0 < 0x1_0000_0000_0000_0000
    then Some(LittleEndian(number, 4) + LittleEndian(t0, 8))
    else None
  }

  /** What on_pong reads off a blob: nothing if it is shorter than a header. */
  function ReadHeader(blob: seq<byte>): Option<(nat, nat)> {
    if |blob| < HEADER then None
    else Some((FromLittleEndian(blob[..4]), FromLittleEndian(blob[4..HEADER])))
  }

  lemma Widths()
    ensures Pow256(4) == 0x1_0000_0000 && Pow256(8) == 0x1_0000_0000_0000_0000
  {
    assert Pow256(2) == 0x1_0000;
    assert Pow256(4) == 0x1_0000_0000;
    assert Pow256(6) == 0x1_0000_0000_0000;
  }

  /** The number in four octets and then the time in eight, both the lowest octet first. */
  lemma HeaderOctets(number: nat, t0: nat)
    requires PackHeader(number, t0).Some?
    ensures var header := PackHeader(number, t0).value;
            && |header| == 12
            && (forall i | 0 <= i < 4 :: header[i] as int == number / Pow256(i) % 256)
            && (forall i | 0 <= i < 8 :: header[4 + i] as int == t0 / Pow256(i) % 256)
  {
    forall i: nat | i < 4 ensures LittleEndian(number, 4)[i] as int == number / Pow256(i) % 256 {
      LittleEndianAt(number, 4, i);
    }
    forall i: nat | i < 8 ensures LittleEndian(t0, 8)[i] as int == t0 / Pow256(i) % 256 {
      LittleEndianAt(t0, 8, i);
    }
  }

  /** Only what fits in its octets is packed. */
  lemma HeaderFits(number: nat, t0: nat)
    ensures PackHeader(number, t0).Some? <==> number < Pow256(4) && t0 < Pow256(8)
  {
    Widths();
  }

  /** A packed header reads back whatever follows it, and the rest is what follows. */
  lemma HeaderReads(number: nat, t0: nat, pad: seq<byte>)
    requires PackHeader(number, t0).Some?
    ensures var blob := PackHeader(number, t0).value + pad;
            ReadHeader(blob) == Some((number, t0)) && blob[HEADER..] == pad
  {
    Widths();
    LittleEndianReads(number, 4);
    LittleEndianReads(t0, 8);
    var blob := PackHeader(number, t0).value + pad;
    assert blob[..4] == LittleEndian(number, 4) && blob[4..HEADER] == LittleEndian(t0, 8);
  }

  /** A blob long enough to have a header is the packing of the header read off it, followed by the rest. */
  lemma HeaderWrites(blob: seq<byte>)
    requires ReadHeader(blob).Some?
    ensures var (number, t0) := ReadHeader(blob).value;
            PackHeader(number, t0).Some? && PackHeader(number, t0).value + blob[HEADER..] == blob
  {
    Widths();
    LittleEndianWrites(blob[..4]);
    LittleEndianWrites(blob[4..HEADER]);
    assert blob[..4] + blob[4..HEADER] + blob[HEADER..] == blob;
  }

  // ---------------------------------------------------------------- multiarray

  /** The data of a ROS multiarray: one bytes object per octet, or numbers. */
  datatype Data = Octets(items: seq<seq<byte>>) | Numbers(items8: seq<byte>)

  function ByteMultiArrayData(blob: seq<byte>): seq<seq<byte>> {
    if blob == [] then [] else ByteMultiArrayData(blob[..|blob| - 1]) + [[blob[|blob| - 1]]]
  }

  function Join(items: seq<seq<byte>>): seq<byte> {
    if items == [] then [] else Join(items[..|items| - 1]) + items[|items| - 1]
  }

  function Pack(uint8: bool, blob: seq<byte>): Data {
    if uint8 then Numbers(blob) else Octets(ByteMultiArrayData(blob))
  }

  function BlobFromByteMultiArray(d: Data): seq<byte> {
    match d
    case Octets(items) => if items == [] then [] else Join(items)
    case Numbers(ns) => if ns == [] then [] else ns
  }

  /** None where the conversion to bytes raises, on a list of bytes objects. */
  function Unpack(uint8: bool, d: Data): Option<seq<byte>> {
    if uint8 && d.Octets? && d.items != [] then None
    else if uint8 then Some(if d.Numbers? then d.items8 else [])
    else Some(BlobFromByteMultiArray(d))
  }

  lemma {:induction false} JoinOctets(blob: seq<byte>)
    ensures Join(ByteMultiArrayData(blob)) == blob
  {
    if blob != [] {
      var less := blob[..|blob| - 1];
      JoinOctets(less);
      var items := ByteMultiArrayData(blob);
      assert items[..|items| - 1] == ByteMultiArrayData(less);
      assert blob == less + [blob[|blob| - 1]];
    }
  }

  /** Packing and unpacking a multiarray of either kind gives the blob back. */
  lemma UnpackPacked(uint8: bool, blob: seq<byte>)
    ensures Unpack(uint8, Pack(uint8, blob)) == Some(blob)
  {
    JoinOctets(blob);
  }

  lemma {:induction false} OctetsAt(blob: seq<byte>)
    ensures |ByteMultiArrayData(blob)| == |blob|
    ensures forall i | 0 <= i < |blob| :: ByteMultiArrayData(blob)[i] == [blob[i]]
  {
    if blob != [] {
      OctetsAt(blob[..|blob| - 1]);
    }
  }

  /** A byte multiarray holds one bytes object for each octet, a uint8 multiarray the octets as numbers. A reader of
      byte multiarrays takes both; one of uint8 multiarrays fails on a list of bytes objects. */
  lemma PackedForms(blob: seq<byte>)
    ensures Pack(true, blob) == Numbers(blob)
    ensures Pack(false, blob).Octets? && |Pack(false, blob).items| == |blob|
    ensures forall i | 0 <= i < |blob| :: Pack(false, blob).items[i] == [blob[i]]
    ensures Unpack(false, Pack(true, blob)) == Some(blob)
    ensures Unpack(true, Pack(false, blob)) == if blob == [] then Some([]) else None
  {
    OctetsAt(blob);
  }

  /** The ping a measuring loop sends. */
  function Ping(uint8: bool, number: nat, t0: nat, size: int): Option<Data> {
    match PackHeader(number, t0)
    case None => None
    case Some(header) => Some(Pack(uint8, header + MakeDataBytes(if size < HEADER then 0 else size - HEADER)))
  }

  /** The payload behind the header. */
  lemma PadIsPattern(size: int)
    ensures MakeDataBytes(if size < HEADER then 0 else size - HEADER) == PayloadPattern(size - HEADER)
    ensures |PayloadPattern(size - HEADER)| == if size < HEADER then 0 else size - HEADER
  {
    PatternIsData(size - HEADER);
    DataBytesAt(size - HEADER);
  }

  /** Whatever the multiarray kind and the size, a ping that comes back is read with the sequence number
      and time it was sent with, all payload bytes, and a total length of at least a header. */
  lemma PingComesBack(uint8: bool, number: nat, t0: nat, size: int)
    requires number < 0x1_0000_0000 && t0 < 0x1_0000_0000_0000_0000
    ensures Ping(uint8, number, t0, size).Some?
    ensures Unpack(uint8, Ping(uint8, number, t0, size).value).Some?
    ensures var blob := Unpack(uint8, Ping(uint8, number, t0, size).value).value;
            && ReadHeader(blob) == Some((number, t0))
            && |blob| == (if size < HEADER then HEADER else size)
            && blob[HEADER..] == PayloadPattern(size - HEADER)
  {
    var pad := PayloadPattern(size - HEADER);
    PadIsPattern(size);
    HeaderReads(number, t0, pad);
    UnpackPacked(uint8, PackHeader(number, t0).value + pad);
  }
}
