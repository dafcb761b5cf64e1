/** The run-length decoder of TGAImage::load_rle_data, as functions on the input bytes.
    Image data of types 10 and 11 is a sequence of packets, each a header byte h followed by
    either h+1 literal pixels (h < 128) or one pixel repeated h-127 times (h >= 128).
    The decoder writes pixels to the buffer from byte 0 on, in order, so what it has written
    is a sequence `out` of bytes; `cp` is the number of pixels written (currentpixel).

    The source writes an extra pixel and only then notices that it has too many: a packet
    that runs past width·height pixels writes one pixel beyond the buffer before failing.
    `checkFirst == false` is that order (as written); `checkFirst == true` checks before
    writing (corrected), and is what the image class runs. */
module TgaRle {
  import opened TgaLayout

  /** Decoder state: still good, input position, bytes written, currentpixel. */
  datatype State = State(ok: bool, pos: nat, out: seq<byte>, cp: nat)

  /** The state load_rle_data starts from at input position `start`. */
  function Start(start: nat): (st: State)
    ensures st.ok && st.pos == start && st.out == [] && st.cp == 0
  {
    State(true, start, [], 0)
  }

  /** Every written pixel took exactly bpp bytes. */
  ghost predicate Counted(st: State, bpp: nat)
  {
    |st.out| == st.cp * bpp
  }

  /** Writes one pixel and counts it. */
  function PutPixel(st: State, px: seq<byte>, pc: nat, checkFirst: bool): (r: State)
    requires st.ok
    ensures r.pos == st.pos
    ensures r.ok <==> st.cp < pc
    ensures checkFirst && !r.ok ==> r.out == st.out && r.cp == st.cp
    ensures !checkFirst || r.ok ==> r.out == st.out + px && r.cp == st.cp + 1
  {
    if checkFirst then
      if st.cp + 1 > pc then st.(ok := false) else st.(out := st.out + px, cp := st.cp + 1)
    else
      var written := st.(out := st.out + px, cp := st.cp + 1);
      if written.cp > pc then written.(ok := false) else written
  }

  /** The literal packet: n pixels of bpp bytes each, read one by one from the input. */
  function RawPixels(input: seq<byte>, st: State, n: nat, pc: nat, bpp: nat, checkFirst: bool): (r: State)
    requires st.pos <= |input|
    ensures st.pos <= r.pos <= |input|
    ensures !st.ok ==> r == st
    decreases n
  {
    if !st.ok || n == 0 then st
    else if st.pos + bpp > |input| then st.(ok := false)
    else
      var px := input[st.pos..st.pos + bpp];
      RawPixels(input, PutPixel(st.(pos := st.pos + bpp), px, pc, checkFirst), n - 1, pc, bpp, checkFirst)
  }

  /** The run packet after its pixel was read: the pixel written n times. */
  function RunPixels(px: seq<byte>, st: State, n: nat, pc: nat, checkFirst: bool): (r: State)
    ensures r.pos == st.pos
    ensures !st.ok ==> r == st
    decreases n
  {
    if !st.ok || n == 0 then st
    else RunPixels(px, PutPixel(st, px, pc, checkFirst), n - 1, pc, checkFirst)
  }

  /** One packet: the header byte, then the literal or run pixels. */
  function Packet(input: seq<byte>, st: State, pc: nat, bpp: nat, checkFirst: bool): (r: State)
    requires st.ok && st.pos <= |input|
    ensures r.pos <= |input|
    ensures r.ok ==> r.pos > st.pos
  {
    if st.pos >= |input| then st.(ok := false)
    else
      var header := input[st.pos];
      var st1 := st.(pos := st.pos + 1);
      if header < 128 then RawPixels(input, st1, header as nat + 1, pc, bpp, checkFirst)
      else if st1.pos + bpp > |input| then st1.(ok := false)
      else RunPixels(input[st1.pos..st1.pos + bpp], st1.(pos := st1.pos + bpp), header as nat - 127, pc, checkFirst)
  }

  /** The do-while loop: packets until currentpixel reaches pc or something fails. */
  function Decode(input: seq<byte>, st: State, pc: nat, bpp: nat, checkFirst: bool): (r: State)
    requires st.ok && st.pos <= |input|
    ensures r.pos <= |input|
    decreases |input| - st.pos
  {
    var next := Packet(input, st, pc, bpp, checkFirst);
    if !next.ok || next.cp >= pc then next else Decode(input, next, pc, bpp, checkFirst)
  }

  /** What remains of the loop after a packet has ended in state `r`. */
  function Finish(input: seq<byte>, r: State, pc: nat, bpp: nat, checkFirst: bool): (f: State)
    requires r.pos <= |input|
    ensures !r.ok ==> f == r
  {
    if !r.ok || r.cp >= pc then r else Decode(input, r, pc, bpp, checkFirst)
  }

  /** load_rle_data on the input from `start` for an image of pc pixels of bpp bytes. */
  function Load(input: seq<byte>, start: nat, pc: nat, bpp: nat, checkFirst: bool): (r: State)
    requires start <= |input|
    ensures r.pos <= |input|
  {
    Decode(input, Start(start), pc, bpp, checkFirst)
  }

  /** One round of the do-while loop: a packet, then whatever remains. */
  lemma DecodeStep(input: seq<byte>, st: State, pc: nat, bpp: nat, checkFirst: bool)
    requires st.ok && st.pos <= |input|
    ensures Decode(input, st, pc, bpp, checkFirst) ==
      Finish(input, Packet(input, st, pc, bpp, checkFirst), pc, bpp, checkFirst)
  {
  }

  /** One literal pixel: read bpp bytes, then write them. */
  lemma RawStep(input: seq<byte>, st: State, n: nat, pc: nat, bpp: nat) returns (next: State)
    requires st.ok && n > 0 && st.pos + bpp <= |input|
    ensures next == PutPixel(st.(pos := st.pos + bpp), input[st.pos..st.pos + bpp], pc, true)
    ensures next.pos == st.pos + bpp && (next.ok <==> st.cp < pc)
    ensures next.ok ==> next.out == st.out + input[st.pos..st.pos + bpp] && next.cp == st.cp + 1
    ensures RawPixels(input, st, n, pc, bpp, true) == RawPixels(input, next, n - 1, pc, bpp, true)
  {
    next := PutPixel(st.(pos := st.pos + bpp), input[st.pos..st.pos + bpp], pc, true);
  }

  /** n copies of a pixel. */
  function Repeat(px: seq<byte>, n: nat): (r: seq<byte>)
    ensures |r| == n * |px|
  {
    if n == 0 then [] else px + Repeat(px, n - 1)
  }

  // ---------------------------------------------------------------------------
  // Packet semantics

  /** A literal packet with room for all its pixels copies (n·bpp) input bytes verbatim. */
  lemma RawCopies(input: seq<byte>, st: State, n: nat, pc: nat, bpp: nat, checkFirst: bool)
    requires st.ok && st.pos + n * bpp <= |input| && st.cp + n <= pc
    ensures var r := RawPixels(input, st, n, pc, bpp, checkFirst);
      r.ok && r.pos == st.pos + n * bpp && r.cp == st.cp + n &&
      r.out == st.out + input[st.pos..st.pos + n * bpp]
  {
    CopiesLength(input, st, n, n * bpp, pc, bpp, checkFirst);
  }

  /** RawCopies with the byte count `len` = n·bpp as its own variable. */
  lemma {:induction false} CopiesLength(input: seq<byte>, st: State, n: nat, len: nat, pc: nat, bpp: nat, checkFirst: bool)
    requires len == n * bpp
    requires st.ok && st.pos + len <= |input| && st.cp + n <= pc
    ensures var r := RawPixels(input, st, n, pc, bpp, checkFirst);
      r.ok && r.pos == st.pos + len && r.cp == st.cp + n &&
      r.out == st.out + input[st.pos..st.pos + len]
    decreases n
  {
    if n > 0 {
      MulStep(n, bpp);
      var st1 := RawFirst(input, st, n, pc, bpp, checkFirst);
      CopiesLength(input, st1, n - 1, len - bpp, pc, bpp, checkFirst);
      SliceSplit(input, st.pos, st.pos + bpp, st.pos + len);
      JoinOut(st.out, input[st.pos..st.pos + bpp], input[st.pos + bpp..st.pos + len]);
    }
  }

  /** The first literal pixel of a packet with room for it: read, written, counted. */
  lemma RawFirst(input: seq<byte>, st: State, n: nat, pc: nat, bpp: nat, checkFirst: bool) returns (st1: State)
    requires st.ok && n > 0 && st.pos + bpp <= |input| && st.cp < pc
    ensures st1 == st.(pos := st.pos + bpp, out := st.out + input[st.pos..st.pos + bpp], cp := st.cp + 1)
    ensures RawPixels(input, st, n, pc, bpp, checkFirst) == RawPixels(input, st1, n - 1, pc, bpp, checkFirst)
  {
    st1 := PutPixel(st.(pos := st.pos + bpp), input[st.pos..st.pos + bpp], pc, checkFirst);
  }

  lemma JoinOut(out: seq<byte>, px: seq<byte>, tail: seq<byte>)
    ensures (out + px) + tail == out + (px + tail)
  {
  }

  /** A slice is its first part followed by the rest. */
  lemma SliceSplit(s: seq<byte>, a: nat, b: nat, c: nat)
    requires a <= b <= c <= |s|
    ensures s[a..c] == s[a..b] + s[b..c]
  {
    assert forall i :: 0 <= i < c - a ==> s[a..c][i] == (s[a..b] + s[b..c])[i];
  }

  /** n pixels of bpp bytes are one pixel and n-1 more. */
  lemma MulStep(n: nat, bpp: nat)
    requires n > 0
    ensures n * bpp == bpp + (n - 1) * bpp && (n - 1) * bpp >= 0
  {
  }

  /** A run packet with room for all its pixels writes the pixel n times. */
  lemma {:induction false} RunRepeats(px: seq<byte>, st: State, n: nat, pc: nat, checkFirst: bool)
    requires st.ok && st.cp + n <= pc
    ensures var r := RunPixels(px, st, n, pc, checkFirst);
      r.ok && r.cp == st.cp + n && r.out == st.out + Repeat(px, n)
    decreases n
  {
    if n > 0 {
      var st1 := PutPixel(st, px, pc, checkFirst);
      assert st1 == st.(out := st.out + px, cp := st.cp + 1);
      RunRepeats(px, st1, n - 1, pc, checkFirst);
      assert RunPixels(px, st, n, pc, checkFirst) == RunPixels(px, st1, n - 1, pc, checkFirst);
      assert (st.out + px) + Repeat(px, n - 1) == st.out + Repeat(px, n);
    }
  }

  /** Header h < 128: the next (h+1)·bpp input bytes, copied verbatim. */
  lemma {:induction false} LiteralPacket(input: seq<byte>, st: State, pc: nat, bpp: nat, checkFirst: bool)
    requires st.ok && st.pos < |input| && input[st.pos] < 128
    requires var n := input[st.pos] as nat + 1; st.pos + 1 + n * bpp <= |input| && st.cp + n <= pc
    ensures var n := input[st.pos] as nat + 1; var r := Packet(input, st, pc, bpp, checkFirst);
      r.ok && r.cp == st.cp + n && r.pos == st.pos + 1 + n * bpp &&
      r.out == st.out + input[st.pos + 1..st.pos + 1 + n * bpp]
  {
    RawCopies(input, st.(pos := st.pos + 1), input[st.pos] as nat + 1, pc, bpp, checkFirst);
  }

  /** Header h >= 128: one pixel, written h-127 times. */
  lemma {:induction false} RunPacket(input: seq<byte>, st: State, pc: nat, bpp: nat, checkFirst: bool)
    requires st.ok && st.pos < |input| && input[st.pos] >= 128
    requires st.pos + 1 + bpp <= |input| && st.cp + (input[st.pos] as nat - 127) <= pc
    ensures var n := input[st.pos] as nat - 127; var r := Packet(input, st, pc, bpp, checkFirst);
      r.ok && r.cp == st.cp + n && r.pos == st.pos + 1 + bpp &&
      r.out == st.out + Repeat(input[st.pos + 1..st.pos + 1 + bpp], n)
  {
    var st1 := st.(pos := st.pos + 1 + bpp);
    RunRepeats(input[st.pos + 1..st.pos + 1 + bpp], st1, input[st.pos] as nat - 127, pc, checkFirst);
  }

  // ---------------------------------------------------------------------------
  // How much is written

  /** Bounds on what one pixel write does to the count of written pixels. */
  lemma PutPixelCounts(st: State, px: seq<byte>, pc: nat, bpp: nat, checkFirst: bool)
    requires st.ok && Counted(st, bpp) && |px| == bpp
    ensures Counted(PutPixel(st, px, pc, checkFirst), bpp)
  {
    assert (st.cp + 1) * bpp == st.cp * bpp + bpp;
  }

  /** The bound each decoder keeps on currentpixel: never past pc when checking first,
      at most one past pc as written; and every written pixel took bpp bytes. */
  ghost predicate Bounded(st: State, pc: nat, bpp: nat, checkFirst: bool)
  {
    Counted(st, bpp) && st.cp <= pc + (if checkFirst then 0 else 1) && (st.ok ==> st.cp <= pc)
  }

  lemma {:induction false} RawBounded(input: seq<byte>, st: State, n: nat, pc: nat, bpp: nat, checkFirst: bool)
    requires st.pos <= |input| && Bounded(st, pc, bpp, checkFirst)
    ensures Bounded(RawPixels(input, st, n, pc, bpp, checkFirst), pc, bpp, checkFirst)
    decreases n
  {
    if st.ok && n > 0 && st.pos + bpp <= |input| {
      var px := input[st.pos..st.pos + bpp];
      var st0 := st.(pos := st.pos + bpp);
      PutPixelCounts(st0, px, pc, bpp, checkFirst);
      RawBounded(input, PutPixel(st0, px, pc, checkFirst), n - 1, pc, bpp, checkFirst);
    }
  }

  lemma {:induction false} RunBounded(px: seq<byte>, st: State, n: nat, pc: nat, bpp: nat, checkFirst: bool)
    requires |px| == bpp && Bounded(st, pc, bpp, checkFirst)
    ensures Bounded(RunPixels(px, st, n, pc, checkFirst), pc, bpp, checkFirst)
    decreases n
  {
    if st.ok && n > 0 {
      PutPixelCounts(st, px, pc, bpp, checkFirst);
      RunBounded(px, PutPixel(st, px, pc, checkFirst), n - 1, pc, bpp, checkFirst);
    }
  }

  lemma {:induction false} PacketBounded(input: seq<byte>, st: State, pc: nat, bpp: nat, checkFirst: bool)
    requires st.ok && st.pos <= |input| && Bounded(st, pc, bpp, checkFirst)
    ensures Bounded(Packet(input, st, pc, bpp, checkFirst), pc, bpp, checkFirst)
  {
    if st.pos < |input| {
      var header := input[st.pos];
      var st1 := st.(pos := st.pos + 1);
      if header < 128 {
        RawBounded(input, st1, header as nat + 1, pc, bpp, checkFirst);
      } else if st1.pos + bpp <= |input| {
        RunBounded(input[st1.pos..st1.pos + bpp], st1.(pos := st1.pos + bpp), header as nat - 127, pc, bpp, checkFirst);
      }
    }
  }

  lemma {:induction false} DecodeBounded(input: seq<byte>, st: State, pc: nat, bpp: nat, checkFirst: bool)
    requires st.ok && st.pos <= |input| && Bounded(st, pc, bpp, checkFirst)
    ensures var r := Decode(input, st, pc, bpp, checkFirst);
      Bounded(r, pc, bpp, checkFirst) && (r.ok ==> r.cp == pc)
    decreases |input| - st.pos
  {
    PacketBounded(input, st, pc, bpp, checkFirst);
    var next := Packet(input, st, pc, bpp, checkFirst);
    if next.ok && next.cp < pc {
      DecodeBounded(input, next, pc, bpp, checkFirst);
    }
  }

  /** The corrected decoder never writes past the pc·bpp bytes of the buffer, and when it
      succeeds it has filled the buffer exactly. */
  lemma {:induction false} CorrectedStaysInBuffer(input: seq<byte>, start: nat, pc: nat, bpp: nat)
    requires start <= |input|
    ensures var r := Load(input, start, pc, bpp, true);
      |r.out| <= pc * bpp && (r.ok ==> |r.out| == pc * bpp)
  {
    DecodeBounded(input, Start(start), pc, bpp, true);
    var r := Load(input, start, pc, bpp, true);
    MulMono(r.cp, pc, bpp);
  }

  /** The decoder as written writes at most one pixel past the buffer. */
  lemma {:induction false} AsWrittenOverrunsByAtMostOnePixel(input: seq<byte>, start: nat, pc: nat, bpp: nat)
    requires start <= |input|
    ensures var r := Load(input, start, pc, bpp, false);
      |r.out| <= pc * bpp + bpp && (r.ok ==> |r.out| == pc * bpp)
  {
    DecodeBounded(input, Start(start), pc, bpp, false);
    var r := Load(input, start, pc, bpp, false);
    OnePixelMore(r.cp, pc, bpp, |r.out|);
  }

  /** cp ≤ pc+1 pixels of bpp bytes take at most pc·bpp + bpp bytes. */
  lemma OnePixelMore(cp: nat, pc: nat, bpp: nat, len: nat)
    requires len == cp * bpp && cp <= pc + 1
    ensures len <= pc * bpp + bpp
  {
    MulMono(cp, pc + 1, bpp);
    assert (pc + 1) * bpp == pc * bpp + bpp;
  }


  // ---------------------------------------------------------------------------
  // The two orders agree except on the overflowing pixel

  /** Relation between a corrected state c and an as-written state a run on the same input:
      same outcome and position; equal when still good; otherwise the as-written one may
      hold one more pixel. */
  ghost predicate Agree(c: State, a: State, bpp: nat)
  {
    c.ok == a.ok && c.pos == a.pos && (c.ok ==> c == a) &&
    |c.out| <= |a.out| <= |c.out| + bpp && c.out == a.out[..|c.out|]
  }

  lemma {:induction false} RawAgree(input: seq<byte>, c: State, a: State, n: nat, pc: nat, bpp: nat)
    requires c.pos <= |input| && Agree(c, a, bpp)
    ensures Agree(RawPixels(input, c, n, pc, bpp, true), RawPixels(input, a, n, pc, bpp, false), bpp)
    decreases n
  {
    if c.ok && n > 0 && c.pos + bpp <= |input| {
      var px := input[c.pos..c.pos + bpp];
      var c0 := c.(pos := c.pos + bpp);
      RawAgree(input, PutPixel(c0, px, pc, true), PutPixel(c0, px, pc, false), n - 1, pc, bpp);
    }
  }

  lemma {:induction false} RunAgree(px: seq<byte>, c: State, a: State, n: nat, pc: nat, bpp: nat)
    requires |px| == bpp && Agree(c, a, bpp)
    ensures Agree(RunPixels(px, c, n, pc, true), RunPixels(px, a, n, pc, false), bpp)
    decreases n
  {
    if c.ok && n > 0 {
      RunAgree(px, PutPixel(c, px, pc, true), PutPixel(c, px, pc, false), n - 1, pc, bpp);
    }
  }

  lemma {:induction false} PacketAgree(input: seq<byte>, st: State, pc: nat, bpp: nat)
    requires st.ok && st.pos <= |input|
    ensures Agree(Packet(input, st, pc, bpp, true), Packet(input, st, pc, bpp, false), bpp)
  {
    if st.pos < |input| {
      var header := input[st.pos];
      var st1 := st.(pos := st.pos + 1);
      if header < 128 {
        RawAgree(input, st1, st1, header as nat + 1, pc, bpp);
      } else if st1.pos + bpp <= |input| {
        var st2 := st1.(pos := st1.pos + bpp);
        RunAgree(input[st1.pos..st1.pos + bpp], st2, st2, header as nat - 127, pc, bpp);
      }
    }
  }

  lemma {:induction false} DecodeAgree(input: seq<byte>, st: State, pc: nat, bpp: nat)
    requires st.ok && st.pos <= |input|
    ensures Agree(Decode(input, st, pc, bpp, true), Decode(input, st, pc, bpp, false), bpp)
    decreases |input| - st.pos
  {
    PacketAgree(input, st, pc, bpp);
    var c := Packet(input, st, pc, bpp, true);
    if c.ok && c.cp < pc {
      DecodeAgree(input, c, pc, bpp);
    }
  }

  /** Both orders succeed on exactly the same inputs and then decode the same bytes; when
      they fail, the as-written one has written the corrected one's bytes plus at most one
      more pixel. */
  lemma OrdersAgree(input: seq<byte>, start: nat, pc: nat, bpp: nat)
    requires start <= |input|
    ensures var c := Load(input, start, pc, bpp, true);
      var a := Load(input, start, pc, bpp, false);
      c.ok == a.ok && (c.ok ==> c == a) && c.out <= a.out && |a.out| <= |c.out| + bpp
  {
    DecodeAgree(input, Start(start), pc, bpp);
  }

  // ---------------------------------------------------------------------------
  // The overrun

  /** A 1×1 image of one byte per pixel and the input [0x81, 0xAA] (a run of two pixels):
      as written, the decoder writes two bytes into the one-byte buffer before it reports
      too many pixels; the corrected decoder writes one and stops. */
  lemma RunOverrunsBuffer()
    ensures var a := Load([0x81, 0xAA], 0, 1, 1, false);
      !a.ok && a.out == [0xAA, 0xAA] && |a.out| > 1 * 1
    ensures var c := Load([0x81, 0xAA], 0, 1, 1, true);
      !c.ok && c.out == [0xAA]
  {
    var input: seq<byte> := [0x81, 0xAA];
    var st1 := State(true, 2, [], 0);
    assert Packet(input, Start(0), 1, 1, false) == RunPixels([0xAA], st1, 2, 1, false);
    assert Packet(input, Start(0), 1, 1, true) == RunPixels([0xAA], st1, 2, 1, true);
  }

  /** With no pixels at all (width or height 0) the do-while still decodes one packet: as
      written, a literal packet writes its first pixel into the empty buffer. */
  lemma EmptyImageOverrun()
    ensures var a := Load([0x00, 0x55], 0, 0, 1, false);
      !a.ok && a.out == [0x55]
    ensures var c := Load([0x00, 0x55], 0, 0, 1, true);
      !c.ok && c.out == []
  {
    var input: seq<byte> := [0x00, 0x55];
    var st1 := State(true, 1, [], 0);
    assert Packet(input, Start(0), 0, 1, false) == RawPixels(input, st1, 1, 0, 1, false);
    assert Packet(input, Start(0), 0, 1, true) == RawPixels(input, st1, 1, 0, 1, true);
  }
}
