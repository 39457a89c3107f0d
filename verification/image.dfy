/** An `ImageData` as the portrait animations read it: RGBA bytes in row-major order. */
module Image {

  type byte = b: int | 0 <= b < 256

  /** `data` holds four bytes for each of the `width * height` pixels. */
  predicate IsImage(data: seq<byte>, width: nat, height: nat) {
    |data| == 4 * width * height
  }

  /** Offset of the red byte of pixel (x, y): `(y * width + x) * 4`. */
  function PixelIndex(x: int, y: int, width: nat): int {
    (y * width + x) * 4
  }

  /** Every channel read of an in-canvas pixel stays inside the buffer. */
  lemma PixelIndexInRange(x: int, y: int, width: nat, height: nat)
    requires 0 <= x < width && 0 <= y < height
    ensures 0 <= PixelIndex(x, y, width) && PixelIndex(x, y, width) + 3 < 4 * width * height
  {
    assert y * width <= (height - 1) * width by {
      assert (height - 1 - y) * width >= 0;
    }
    assert (height - 1) * width + width == height * width;
  }
}
