/** Luma and chroma in limited range as ITU-R BT.601 has them, for comparison with the integer formulas of
    package/aloe: 16 + (65.481 R + 128.553 G + 24.966 B) / 255 and so on, here in units of 1/255000. */
module Bt601 {
  import opened Buffers

  predicate Within(d: int, codes: nat) {
    -255000 * codes < d < 255000 * codes
  }

  /** `y` is less than one code away from the luma of red, green and blue. */
  predicate IsLuma(y: int, r: int, g: int, b: int) {
    Within(255000 * (y - 16) - (65481 * r + 128553 * g + 24966 * b), 1)
  }

  /** `u` is less than `codes` codes away from the blue difference, `v` from the red one. */
  predicate IsChroma(u: int, v: int, r: int, g: int, b: int, codes: nat) {
    && Within(255000 * (u - 128) - (-37797 * r - 74203 * g + 112000 * b), codes)
    && Within(255000 * (v - 128) - (112000 * r - 93786 * g - 18214 * b), codes)
  }

  /** Red, green and blue as three bytes at `i`. */
  predicate RgbIs(d: seq<U8>, i: int, c: (int, int, int)) {
    0 <= i < |d| - 2 && d[i] == c.0 && d[i + 1] == c.1 && d[i + 2] == c.2
  }

  /** The byte at `i` is their luma. */
  predicate LumaIs(d: seq<U8>, i: int, c: (int, int, int)) {
    0 <= i < |d| && IsLuma(d[i], c.0, c.1, c.2)
  }

  /** The bytes at `i` of the U and the V plane are their chroma. */
  predicate ChromaIs(u: seq<U8>, v: seq<U8>, i: int, c: (int, int, int), codes: nat) {
    0 <= i < |u| && i < |v| && IsChroma(u[i], v[i], c.0, c.1, c.2, codes)
  }
}
