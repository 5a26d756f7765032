/** dimos/protocol/pubsub/benchmark/testdata.py: a nearly square RGB image of nearly the given size. */
module Geometry {
  import opened Codec
  import opened Messages

  /** The integer part of the square root. */
  function Root(n: nat): (r: nat)
    ensures r * r <= n < (r + 1) * (r + 1)
  {
    if n == 0 then 0
    else
      var r := Root(n - 1);
      if (r + 1) * (r + 1) <= n then r + 1 else r
  }

  function Zeros(n: nat): (z: seq<byte>)
    ensures |z| == n
  {
    seq(n, i => 0)
  }

  /** The pattern padded with zeros to a multiple of three. */
  function Padded(size: int): seq<byte> {
    var raw := MakeDataBytes(size);
    raw + Zeros((|raw| + 2) / 3 * 3 - |raw|)
  }

  /** The rows and columns for a number of pixels. */
  function Shape(pixels: nat): (nat, nat) {
    var height := if Root(pixels) < 1 then 1 else Root(pixels);
    (height, pixels / height)
  }

  function RgbImageGeometry(size: int): (nat, nat, seq<byte>) {
    var padded := Padded(size);
    var (height, width) := Shape(|padded| / 3);
    var kept := width * height * 3;
    (height, width, if kept <= |padded| then padded[..kept] else padded)
  }

  lemma Widen(p: nat, h: nat, w: nat)
    requires h >= 1 && h * h <= p < (h + 1) * (h + 1) && w * h <= p < w * h + h
    ensures h <= w <= h + 2
  {
    TimesMonotone(w + 1, h, h);
    TimesMonotone(h + 3, w, h);
    assert (w + 1) * h == w * h + h;
    assert (h + 3) * h == h * h + 3 * h && (h + 1) * (h + 1) == h * h + 2 * h + 1;
  }

  lemma Division(p: nat, h: nat)
    requires h > 0
    ensures p / h * h <= p < p / h * h + h
  {
  }

  lemma RootPositive(p: nat)
    requires p >= 1
    ensures Root(p) >= 1
  {
    TimesMonotone(Root(p) + 1, 1, Root(p) + 1);
  }

  lemma ShapeNearlySquare(p: nat)
    requires p >= 1
    ensures var (h, w) := Shape(p);
            1 <= h <= w <= h + 2 && 0 <= p - w * h < h && h * h <= p < (h + 1) * (h + 1)
  {
    RootPositive(p);
    var r := Root(p);
    Division(p, r);
    Widen(p, r, p / r);
  }

  lemma PaddedSize(size: nat)
    ensures |Padded(size)| == (size + 2) / 3 * 3 && |Padded(size)| / 3 == (size + 2) / 3
  {
    DataBytesAt(size);
  }

  lemma PaddedOctets(size: nat)
    ensures |Padded(size)| == (size + 2) / 3 * 3
    ensures forall i | 0 <= i < |Padded(size)| :: Padded(size)[i] as int == if i < size then i % 256 else 0
  {
    PaddedSize(size);
    DataBytesAt(size);
  }

  lemma CloseToSize(size: nat, p: nat, kept: nat, h: nat)
    requires p == (size + 2) / 3 && 0 <= p - kept < h
    ensures kept * 3 <= p * 3 && size - 3 * (h - 1) <= kept * 3 <= size + 2
  {
  }

  lemma Cut(size: int, h: nat, w: nat, pixels: nat)
    requires Shape(|Padded(size)| / 3) == (h, w) && pixels == w * h && pixels * 3 <= |Padded(size)|
    ensures RgbImageGeometry(size) == (h, w, Padded(size)[..pixels * 3])
  {
  }

  /** For every positive size the image is nearly square, fewer pixels than its height are cut off, and
      the payload is a prefix of the padded pattern, close to the size asked for. */
  lemma NearlySquare(size: int)
    requires size >= 1
    ensures var (h, w, data) := RgbImageGeometry(size);
            && 1 <= h <= w <= h + 2
            && 0 <= |Padded(size)| / 3 - w * h < h
            && |data| == w * h * 3 && data <= Padded(size)
            && size - 3 * (h - 1) <= |data| <= size + 2
    ensures var (h, w, data) := RgbImageGeometry(size);
            && h * h <= (size + 2) / 3 < (h + 1) * (h + 1)
            && forall i | 0 <= i < |data| :: data[i] as int == if i < size then i % 256 else 0
  {
    PaddedSize(size);
    PaddedOctets(size);
    var p := (size + 2) / 3;
    ShapeNearlySquare(p);
    var (h, w) := Shape(p);
    CloseToSize(size, p, w * h, h);
    Cut(size, h, w, w * h);
  }

  /** No data gives an image with one row and no pixels. */
  lemma EmptyImage(size: int)
    requires size <= 0
    ensures RgbImageGeometry(size) == (1, 0, [])
  {
    DataBytesAt(size);
  }
}
