/**
  An icon's pixels: how long a scanline is, and how the image is turned upside down in
  the buffer it was read into.
*/
module Icons {
  import opened Wire

  /** `n & ~m`, bit by bit. */
  function AndNot(n: nat, m: nat): nat {
    if n == 0 then 0
    else (if m % 2 == 1 then 0 else n % 2) + 2 * AndNot(n / 2, m / 2)
  }

  lemma {:induction false} AndNotZero(n: nat)
    ensures AndNot(n, 0) == n
  {
    if n != 0 {
      AndNotZero(n / 2);
    }
  }

  function Pow2(k: nat): (p: nat)
    ensures p > 0
  {
    if k == 0 then 1 else 2 * Pow2(k - 1)
  }

  function LowBits(n: nat, k: nat): nat {
    n % Pow2(k)
  }

  /** Clearing the low `k` bits rounds down to a multiple of 2 to the `k`. */
  lemma {:induction false} AndNotRoundsDown(n: nat, k: nat)
    ensures AndNot(n, Pow2(k) - 1) == n - LowBits(n, k)
  {
    hide LowBits;
    if k == 0 {
      AndNotZero(n);
      NoLowBits(n);
    } else {
      AndNotRoundsDown(n / 2, k - 1);
      OneMoreLowBit(n, k);
      var p := Pow2(k - 1);
      assert Pow2(k) - 1 == 2 * (p - 1) + 1;
      assert (Pow2(k) - 1) / 2 == p - 1 && (Pow2(k) - 1) % 2 == 1;
      assert AndNot(n, Pow2(k) - 1) == 2 * AndNot(n / 2, p - 1);
    }
  }

  lemma NoLowBits(n: nat)
    ensures LowBits(n, 0) == 0
  {
  }

  lemma OneMoreLowBit(n: nat, k: nat)
    requires k > 0
    ensures LowBits(n, k) == n % 2 + 2 * LowBits(n / 2, k - 1)
  {
    var p := Pow2(k - 1);
    var q, r := (n / 2) / p, (n / 2) % p;
    assert n / 2 == q * p + r;
    assert n == q * (2 * p) + (2 * r + n % 2) by {
      assert 2 * (q * p) == q * (2 * p);
    }
    DivMod(n, q, 2 * p, 2 * r + n % 2);
  }

  lemma MulMono(a: int, b: int, d: nat)
    ensures a <= b ==> a * d <= b * d
  {
    if a <= b {
      assert 0 <= (b - a) * d;
    }
  }

  lemma DivMod(p: nat, q: nat, d: nat, r: nat)
    requires r < d && p == q * d + r
    ensures p / d == q && p % d == r
  {
    var q', r' := p / d, p % d;
    assert p == q' * d + r';
    MulMono(q' + 1, q, d);
    MulMono(q + 1, q', d);
    assert (q' + 1) * d == q' * d + d && (q + 1) * d == q * d + d;
  }

  /** The bytes of one scanline. */
  function Stride(width: nat, bitCount: nat): nat {
    AndNot(width * bitCount + 31, 31) / 8
  }

  /** A scanline takes the least number of bytes that is a multiple of 4 and holds its bits. */
  lemma StrideIsLeast(width: nat, bitCount: nat)
    ensures Stride(width, bitCount) % 4 == 0
    ensures 8 * Stride(width, bitCount) >= width * bitCount
    ensures forall s: nat :: s % 4 == 0 && 8 * s >= width * bitCount ==> s >= Stride(width, bitCount)
  {
    var bits := width * bitCount;
    assert Pow2(5) == 32;
    AndNotRoundsDown(bits + 31, 5);
    RoundedUp(bits, Stride(width, bitCount));
  }

  lemma RoundedUp(bits: nat, stride: nat)
    requires stride == (bits + 31 - (bits + 31) % 32) / 8
    ensures stride % 4 == 0 && 8 * stride >= bits
    ensures forall s: nat :: s % 4 == 0 && 8 * s >= bits ==> s >= stride
  {
  }

  lemma StrideOfPixels(width: nat)
    ensures Stride(width, 32) == 4 * width
  {
    StrideIsLeast(width, 32);
    hide Stride;
    assert 8 * (4 * width) >= width * 32;
  }

  // ---------- turning the image upside down ----------

  /** Byte `k` of row `y`. */
  function Place(y: nat, k: nat, stride: nat): nat {
    y * stride + k
  }

  function Row(p: nat, stride: nat): nat
    requires stride > 0
  {
    p / stride
  }

  function Column(p: nat, stride: nat): nat
    requires stride > 0
  {
    p % stride
  }

  function ImageSize(stride: nat, height: nat): nat {
    stride * height
  }

  lemma PlaceInImage(y: nat, k: nat, stride: nat, height: nat)
    requires y < height && k < stride
    ensures Place(y, k, stride) < ImageSize(stride, height)
    ensures Row(Place(y, k, stride), stride) == y && Column(Place(y, k, stride), stride) == k
  {
    MulMono(y + 1, height, stride);
    DivMod(Place(y, k, stride), y, stride, k);
  }

  lemma PlaceOf(p: nat, stride: nat, height: nat)
    requires p < ImageSize(stride, height)
    ensures stride > 0 && Row(p, stride) < height && Column(p, stride) < stride
    ensures p == Place(Row(p, stride), Column(p, stride), stride)
  {
    MulMono(height, p / stride, stride);
  }

  /** The place that holds, after turning, what place `p` held before. */
  function Opposite(p: nat, stride: nat, height: nat): (q: nat)
    requires p < ImageSize(stride, height)
    ensures q < ImageSize(stride, height)
  {
    PlaceOf(p, stride, height);
    PlaceInImage(height - 1 - Row(p, stride), Column(p, stride), stride, height);
    Place(height - 1 - Row(p, stride), Column(p, stride), stride)
  }

  /** The buffer turned upside down; what follows the image in it stays. */
  function Flipped(pixels: seq<Byte>, stride: nat, height: nat): (r: seq<Byte>)
    requires ImageSize(stride, height) <= |pixels|
    ensures |r| == |pixels|
  {
    seq(|pixels|, p requires 0 <= p < |pixels| =>
      if p < ImageSize(stride, height) then pixels[Opposite(p, stride, height)] else pixels[p])
  }

  /** Row `y` of the result is row `height - 1 - y` of the original. */
  lemma {:induction false} FlippedRow(pixels: seq<Byte>, stride: nat, height: nat, y: nat, k: nat)
    requires ImageSize(stride, height) <= |pixels| && y < height && k < stride
    ensures Place(y, k, stride) < |pixels| && Place(height - 1 - y, k, stride) < |pixels|
    ensures Flipped(pixels, stride, height)[Place(y, k, stride)] == pixels[Place(height - 1 - y, k, stride)]
  {
    hide Place, Row, Column, ImageSize;
    PlaceInImage(y, k, stride, height);
    PlaceInImage(height - 1 - y, k, stride, height);
  }

  lemma {:induction false} FlippedTwice(pixels: seq<Byte>, stride: nat, height: nat)
    requires ImageSize(stride, height) <= |pixels|
    ensures Flipped(Flipped(pixels, stride, height), stride, height) == pixels
  {
    hide Place, Row, Column, ImageSize;
    var once := Flipped(pixels, stride, height);
    forall p: nat | p < ImageSize(stride, height)
      ensures Flipped(once, stride, height)[p] == pixels[p]
    {
      PlaceOf(p, stride, height);
      PlaceInImage(height - 1 - Row(p, stride), Column(p, stride), stride, height);
    }
  }

  /** Whether place `p` has been turned once rows below `y`, and `j` bytes of row `y`, are done. */
  predicate Turned(p: nat, stride: nat, height: nat, y: nat, j: nat)
    requires p < ImageSize(stride, height)
  {
    PlaceOf(p, stride, height);
    var row := Row(p, stride);
    var nearer := if row <= height - 1 - row then row else height - 1 - row;
    nearer < y || (nearer == y && Column(p, stride) < j)
  }

  ghost predicate PartlyFlipped(now: seq<Byte>, was: seq<Byte>, stride: nat, height: nat, y: nat, j: nat)
    requires ImageSize(stride, height) <= |was|
  {
    && |now| == |was|
    && (forall p: nat :: p < ImageSize(stride, height) ==>
          now[p] == if Turned(p, stride, height, y, j) then was[Opposite(p, stride, height)] else was[p])
    && (forall p :: ImageSize(stride, height) <= p < |was| ==> now[p] == was[p])
  }

  /** What a swap of the four bytes at `a` and at `b` puts at `p` comes from here. */
  function Source(p: int, a: nat, b: nat): int {
    if a <= p < a + 4 then p - a + b else if b <= p < b + 4 then p - b + a else p
  }

  method SwapPixels(pixels: array<Byte>, a: nat, b: nat)
    requires a + 4 <= b && b + 4 <= pixels.Length
    modifies pixels
    ensures forall p :: 0 <= p < pixels.Length ==> pixels[p] == old(pixels[Source(p, a, b)])
  {
    for i := 0 to 4
      invariant forall p :: 0 <= p < pixels.Length ==>
                  pixels[p] == old(pixels[if a <= p < a + i || b <= p < b + i then Source(p, a, b) else p])
    {
      pixels[a + i], pixels[b + i] := pixels[b + i], pixels[a + i];
    }
  }

  method Flip(pixels: array<Byte>, width: nat, height: nat)
    requires ImageSize(Stride(width, 32), height) <= pixels.Length
    modifies pixels
    ensures pixels[..] == Flipped(old(pixels[..]), Stride(width, 32), height)
  {
    hide Stride, Place, ImageSize, PartlyFlipped, Flipped;
    StrideOfPixels(width);
    var stride := Stride(width, 32);
    ghost var was := pixels[..];
    NothingTurned(was, stride, height);
    for y := 0 to height / 2
      invariant PartlyFlipped(pixels[..], was, stride, height, y, 0)
    {
      for x := 0 to width
        invariant PartlyFlipped(pixels[..], was, stride, height, y, 4 * x)
      {
        ghost var before := pixels[..];
        var top, bot := Place(y, 4 * x, stride), Place(height - y - 1, 4 * x, stride);
        TwoRows(stride, height, y, 4 * x);
        SwapPixels(pixels, top, bot);
        OnePixelMore(before, pixels[..], was, stride, height, y, x);
      }
      RowDone(pixels[..], was, stride, height, y);
    }
    AllDone(pixels[..], was, stride, height);
  }

  /** The pixels to swap do not overlap and lie inside the image. */
  lemma TwoRows(stride: nat, height: nat, y: nat, k: nat)
    requires y < height / 2 && k + 4 <= stride
    ensures Place(y, k, stride) + 4 <= Place(height - y - 1, k, stride)
    ensures Place(height - y - 1, k, stride) + 4 <= ImageSize(stride, height)
  {
    MulMono(y + 1, height - y - 1, stride);
    MulMono(height - y, height, stride);
  }

  lemma NothingTurned(was: seq<Byte>, stride: nat, height: nat)
    requires ImageSize(stride, height) <= |was|
    ensures PartlyFlipped(was, was, stride, height, 0, 0)
  {
    hide Place, Row, Column, ImageSize;
    forall p: nat | p < ImageSize(stride, height)
      ensures !Turned(p, stride, height, 0, 0)
    {
      PlaceOf(p, stride, height);
    }
  }

  lemma OnePixelMore(before: seq<Byte>, after: seq<Byte>, was: seq<Byte>, stride: nat, height: nat, y: nat, x: nat)
    requires ImageSize(stride, height) <= |was| && y < height / 2 && 4 * x + 4 <= stride
    requires PartlyFlipped(before, was, stride, height, y, 4 * x)
    requires |after| == |before|
    requires var a, b := Place(y, 4 * x, stride), Place(height - y - 1, 4 * x, stride);
             a + 4 <= b && b + 4 <= ImageSize(stride, height)
             && forall p :: 0 <= p < |after| ==> after[p] == before[Source(p, a, b)]
    ensures PartlyFlipped(after, was, stride, height, y, 4 * x + 4)
  {
    hide Place, Row, Column, ImageSize, Turned, Opposite;
    forall p: nat | p < ImageSize(stride, height)
      ensures after[p] == if Turned(p, stride, height, y, 4 * x + 4) then was[Opposite(p, stride, height)] else was[p]
    {
      OnePlace(stride, height, y, x, p);
    }
  }

  lemma OnePlace(stride: nat, height: nat, y: nat, x: nat, p: nat)
    requires y < height / 2 && 4 * x + 4 <= stride && p < ImageSize(stride, height)
    requires var a, b := Place(y, 4 * x, stride), Place(height - y - 1, 4 * x, stride);
             a + 4 <= b && b + 4 <= ImageSize(stride, height)
    ensures var from := Source(p, Place(y, 4 * x, stride), Place(height - y - 1, 4 * x, stride));
            && 0 <= from < ImageSize(stride, height)
            && (from != p ==> !Turned(p, stride, height, y, 4 * x) && !Turned(from, stride, height, y, 4 * x)
                              && Turned(p, stride, height, y, 4 * x + 4) && from == Opposite(p, stride, height))
            && (from == p ==> Turned(p, stride, height, y, 4 * x) == Turned(p, stride, height, y, 4 * x + 4))
  {
    hide Row, Column, ImageSize;
    var a, b := Place(y, 4 * x, stride), Place(height - y - 1, 4 * x, stride);
    PlaceOf(p, stride, height);
    if a <= p < a + 4 {
      SamePlace(stride, height, y, 4 * x + (p - a));
    } else if b <= p < b + 4 {
      SamePlace(stride, height, y, 4 * x + (p - b));
    }
  }

  lemma SamePlace(stride: nat, height: nat, y: nat, k: nat)
    requires y < height && k < stride
    ensures Row(Place(y, k, stride), stride) == y && Column(Place(y, k, stride), stride) == k
    ensures Row(Place(height - y - 1, k, stride), stride) == height - y - 1
    ensures Column(Place(height - y - 1, k, stride), stride) == k
  {
    PlaceInImage(y, k, stride, height);
    PlaceInImage(height - y - 1, k, stride, height);
  }

  lemma RowDone(now: seq<Byte>, was: seq<Byte>, stride: nat, height: nat, y: nat)
    requires ImageSize(stride, height) <= |was| && PartlyFlipped(now, was, stride, height, y, stride)
    ensures PartlyFlipped(now, was, stride, height, y + 1, 0)
  {
    hide Place, Row, Column, ImageSize, Opposite;
    forall p: nat | p < ImageSize(stride, height)
      ensures Turned(p, stride, height, y, stride) == Turned(p, stride, height, y + 1, 0)
    {
      PlaceOf(p, stride, height);
    }
  }

  /** The middle row of an odd height is its own opposite. */
  lemma AllDone(now: seq<Byte>, was: seq<Byte>, stride: nat, height: nat)
    requires ImageSize(stride, height) <= |was| && PartlyFlipped(now, was, stride, height, height / 2, 0)
    ensures now == Flipped(was, stride, height)
  {
    hide Place, Row, Column, ImageSize;
    forall p: nat | p < ImageSize(stride, height)
      ensures now[p] == was[Opposite(p, stride, height)]
    {
      PlaceOf(p, stride, height);
    }
  }

  datatype Icon = Icon(width: nat, height: nat, pixels: seq<Byte>)

  /**
    `sizeImage` is the size the device driver computed, 0 if it did not; `bits` is what it
    wrote into a buffer of the size asked for, if it could.
  */
  method EncodeIcon(width: nat, height: nat, sizeImage: nat, bits: Option<seq<Byte>>) returns (icon: Option<Icon>)
    requires sizeImage == 0 || sizeImage >= ImageSize(Stride(width, 32), height)
    requires bits.Some? ==> |bits.value| == if sizeImage == 0 then ImageSize(Stride(width, 32), height) else sizeImage
    ensures icon.Some? <==> bits.Some?
    ensures icon.Some? ==>
              icon.value == Icon(width, height, Flipped(bits.value, Stride(width, 32), height))
  {
    if bits == None {
      return None;
    }
    var size := if sizeImage == 0 then ImageSize(Stride(width, 32), height) else sizeImage;
    var pixels := new Byte[size](i requires 0 <= i < size => bits.value[i]);
    assert pixels[..] == bits.value;
    Flip(pixels, width, height);
    icon := Some(Icon(width, height, pixels[..]));
  }
}
