/** The presenter: converts the rasteriser's RGBA8 pixmap into the packed
    `0x00RRGGBB` words of the presentation buffer (src/main.rs:94-99). */
module Presenter {

  /** A presentation word whose top byte is zero, i.e. a valid `0x00RRGGBB`. */
  const WordLimit: bv32 := 0x100_0000

  /** The per-pixel expression of the conversion loop: blue unshifted, green
      shifted left by 8, red shifted left by 16, alpha not taken. */
  function Pack(r: bv8, g: bv8, b: bv8): (w: bv32)
    ensures w < WordLimit
    ensures Red(w) == r && Green(w) == g && Blue(w) == b
  {
    (b as bv32) | ((g as bv32) << 8) | ((r as bv32) << 16)
  }

  /** Bits 16-23 of a word. */
  function Red(w: bv32): bv8 { ((w >> 16) & 0xFF) as bv8 }

  /** Bits 8-15 of a word. */
  function Green(w: bv32): bv8 { ((w >> 8) & 0xFF) as bv8 }

  /** Bits 0-7 of a word. */
  function Blue(w: bv32): bv8 { (w & 0xFF) as bv8 }

  /** Splits a word into its red, green and blue bytes; on every word with a
      zero top byte this is the inverse of Pack. */
  function Unpack(w: bv32): (rgb: (bv8, bv8, bv8))
    ensures w < WordLimit ==> Pack(rgb.0, rgb.1, rgb.2) == w
  {
    (Red(w), Green(w), Blue(w))
  }

  /** The buffer that the conversion loop produces from a pixmap of `|data| / 4`
      pixels: word `i` packs bytes `4i`, `4i+1` and `4i+2`. */
  function Converted(data: seq<bv8>): (words: seq<bv32>)
    requires |data| % 4 == 0
    ensures 4 * |words| == |data|
    ensures forall i :: 0 <= i < |words| ==>
      words[i] == Pack(data[4 * i], data[4 * i + 1], data[4 * i + 2])
  {
    if data == [] then []
    else [Pack(data[0], data[1], data[2])] + Converted(data[4..])
  }

  /** The two pixmaps agree on every red, green and blue byte. */
  ghost predicate SameColour(d1: seq<bv8>, d2: seq<bv8>)
  {
    |d1| == |d2| && forall k :: 0 <= k < |d1| && k % 4 != 3 ==> d1[k] == d2[k]
  }

  /** Alpha never reaches the presentation buffer, and nothing else is lost:
      two pixmaps give the same buffer exactly when they differ at most in
      their alpha bytes. */
  lemma ConvertedIgnoresOnlyAlpha(d1: seq<bv8>, d2: seq<bv8>)
    requires |d1| % 4 == 0 && |d2| % 4 == 0
    ensures Converted(d1) == Converted(d2) <==> SameColour(d1, d2)
  {
    if SameColour(d1, d2) {
      SameColourConverted(d1, d2);
    }
    if Converted(d1) == Converted(d2) {
      ConvertedSameColour(d1, d2);
    }
  }

  /** Pixmaps with the same colour bytes give the same buffer. */
  lemma SameColourConverted(d1: seq<bv8>, d2: seq<bv8>)
    requires |d1| % 4 == 0 && |d2| % 4 == 0
    requires SameColour(d1, d2)
    ensures Converted(d1) == Converted(d2)
  {
    var c1, c2 := Converted(d1), Converted(d2);
    forall i | 0 <= i < |c1|
      ensures c1[i] == c2[i]
    {
      ChannelIndices(i);
      assert d1[4 * i] == d2[4 * i];
      assert d1[4 * i + 1] == d2[4 * i + 1];
      assert d1[4 * i + 2] == d2[4 * i + 2];
    }
  }

  /** Equal buffers come from pixmaps with the same colour bytes. */
  lemma ConvertedSameColour(d1: seq<bv8>, d2: seq<bv8>)
    requires |d1| % 4 == 0 && |d2| % 4 == 0
    ensures Converted(d1) == Converted(d2) ==> SameColour(d1, d2)
  {
    if Converted(d1) == Converted(d2) {
      forall k | 0 <= k < |d1| && k % 4 != 3
        ensures d1[k] == d2[k]
      {
        if d1[k] != d2[k] {
          ColourChangeShows(d1, d2, k);
        }
      }
    }
  }

  /** A change to a red, green or blue byte `k` changes word `k / 4`. */
  lemma ColourChangeShows(d1: seq<bv8>, d2: seq<bv8>, k: nat)
    requires |d1| == |d2| && |d1| % 4 == 0
    requires k < |d1| && k % 4 != 3 && d1[k] != d2[k]
    ensures k / 4 < |Converted(d1)| == |Converted(d2)|
    ensures Converted(d1)[k / 4] != Converted(d2)[k / 4]
  {
    var i := k / 4;
    PixelOfByte(k);
    var c1, c2 := Converted(d1), Converted(d2);
    assert i < |c1|;
    var w1 := Pack(d1[4 * i], d1[4 * i + 1], d1[4 * i + 2]);
    var w2 := Pack(d2[4 * i], d2[4 * i + 1], d2[4 * i + 2]);
    assert c1[i] == w1 && c2[i] == w2;
    if k % 4 == 0 {
      assert k == 4 * i;
      assert Red(w1) != Red(w2);
    } else if k % 4 == 1 {
      assert k == 4 * i + 1;
      assert Green(w1) != Green(w2);
    } else {
      assert k == 4 * i + 2;
      assert Blue(w1) != Blue(w2);
    }
  }

  /** The colour bytes of pixel `i` are not alpha bytes. */
  lemma ChannelIndices(i: nat)
    ensures (4 * i) % 4 == 0 && (4 * i + 1) % 4 == 1 && (4 * i + 2) % 4 == 2
  {
  }

  /** Byte `k` belongs to pixel `k / 4`, at offset `k % 4`. */
  lemma PixelOfByte(k: nat)
    ensures k == 4 * (k / 4) + k % 4 && 0 <= k % 4 < 4
  {
  }

  /** The loop of src/main.rs:95-99: fills the whole presentation buffer, in
      place, from the pixmap bytes. Nothing of the buffer's previous contents
      survives, so two runs on the same pixmap give the same buffer. */
  method ConvertInto(data: seq<bv8>, width: nat, height: nat, buffer: array<bv32>)
    requires |data| == 4 * (width * height)
    requires buffer.Length == width * height
    modifies buffer
    ensures buffer[..] == Converted(data)
    ensures forall i :: 0 <= i < buffer.Length ==> buffer[i] < WordLimit
  {
    var count := width * height;
    for index := 0 to count
      invariant forall k :: 0 <= k < index ==>
        buffer[k] == Pack(data[4 * k], data[4 * k + 1], data[4 * k + 2])
    {
      buffer[index] := (data[index * 4 + 2] as bv32)
        | ((data[index * 4 + 1] as bv32) << 8)
        | ((data[index * 4] as bv32) << 16);
    }
  }
}
