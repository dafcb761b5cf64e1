/** TGAImage.h: the colour record, the image buffer with its bounds-checked get and set,
    the two in-place flips, the run-length loader and the header dispatch of read_tga_file.
    The file is given as its bytes; opening it and the error messages are not modelled. */
module Tga {
  import opened TgaLayout
  import TgaRle

  /** TGAColor: four colour bytes (b, g, r, a) and how many of them are used. */
  datatype TgaColor = TgaColor(bgra: seq<byte>, bytespp: byte)

  /** What TGAColor() holds: all four bytes zero, one byte per pixel. */
  const Blank: TgaColor := TgaColor([0, 0, 0, 0], 1)

  /** What TGAColor(p, bpp) holds: the first bpp bytes of p, then zeros. */
  function ColorOf(p: seq<byte>, bpp: nat): (c: TgaColor)
    requires bpp <= 4 && bpp <= |p|
    ensures |c.bgra| == 4 && c.bytespp as nat == bpp
    ensures c.bgra[..bpp] == p[..bpp]
    ensures forall t :: bpp <= t < 4 ==> c.bgra[t] == 0
  {
    TgaColor(p[..bpp] + seq(4 - bpp, _ => 0 as byte), bpp as byte)
  }

  /** TGAColor(): the loop zeroing bgra. */
  method NewColor() returns (c: TgaColor)
    ensures c == Blank
  {
    var bgra := new byte[4];
    for i := 0 to 4
      invariant forall k :: 0 <= k < i ==> bgra[k] == 0
    {
      bgra[i] := 0;
    }
    c := TgaColor(bgra[..], 1);
  }

  /** TGAColor(p, bpp): copies bpp bytes and zeroes the rest. A bpp above 4 would write
      past the four-byte array, so it is excluded. */
  method NewColorFrom(p: seq<byte>, bpp: byte) returns (c: TgaColor)
    requires bpp <= 4 && bpp as int <= |p|
    ensures c == ColorOf(p, bpp as nat)
  {
    var bgra := new byte[4];
    var n := bpp as int;
    for i := 0 to n
      invariant forall k :: 0 <= k < i ==> bgra[k] == p[k]
    {
      bgra[i] := p[i];
    }
    for i := n to 4
      invariant forall k :: 0 <= k < n ==> bgra[k] == p[k]
      invariant forall k :: n <= k < i ==> bgra[k] == 0
    {
      bgra[i] := 0;
    }
    c := TgaColor(bgra[..], bpp);
    assert c.bgra == p[..n] + seq(4 - n, _ => 0 as byte);
  }

  /** get(x, y) on buffer contents s of a w×h image with bpp bytes per pixel. */
  function PixelColor(s: seq<byte>, x: int, y: int, w: int, h: int, bpp: int): (c: TgaColor)
    requires Shaped(s, w, h, bpp) && bpp <= 4
    ensures |c.bgra| == 4
  {
    if !InImage(x, y, w, h) then Blank
    else
      PixelRange(x, y, w, h, bpp);
      var off := Off(x, y, 0, w, bpp);
      ColorOf(s[off..off + bpp], bpp)
  }

  /** set(x, y, c) on buffer contents s: the image's bpp bytes of bgra at the pixel's offset. */
  function PutColor(s: seq<byte>, x: int, y: int, w: int, h: int, bpp: int, bgra: seq<byte>): (r: seq<byte>)
    requires Shaped(s, w, h, bpp) && bpp <= |bgra|
    ensures |r| == |s|
  {
    if !InImage(x, y, w, h) then s
    else
      PixelRange(x, y, w, h, bpp);
      Splice(s, Off(x, y, 0, w, bpp), bgra[..bpp])
  }

  /** Byte t of any pixel after set: the colour's byte t at the set pixel, unchanged elsewhere. */
  lemma {:induction false} PutColorAt(s: seq<byte>, x: int, y: int, w: int, h: int, bpp: int, bgra: seq<byte>,
                                      x': int, y': int, t: int)
    requires Shaped(s, w, h, bpp) && bpp <= |bgra| && InImage(x', y', w, h) && 0 <= t < bpp
    ensures 0 <= Off(x', y', t, w, bpp) < |s|
    ensures PutColor(s, x, y, w, h, bpp, bgra)[Off(x', y', t, w, bpp)] ==
      if InImage(x, y, w, h) && x == x' && y == y' then bgra[t] else s[Off(x', y', t, w, bpp)]
  {
    OffRange(x', y', t, w, h, bpp);
    if InImage(x, y, w, h) {
      PixelRange(x, y, w, h, bpp);
      if x != x' || y != y' {
        OffDisjoint(x, y, x', y', t, w, h, bpp);
      }
    }
  }

  /** Byte t of get(x, y) is byte t of the pixel in the buffer. */
  lemma {:induction false} PixelColorAt(s: seq<byte>, x: int, y: int, w: int, h: int, bpp: int, t: int)
    requires Shaped(s, w, h, bpp) && bpp <= 4 && InImage(x, y, w, h) && 0 <= t < bpp
    ensures 0 <= Off(x, y, t, w, bpp) < |s|
    ensures PixelColor(s, x, y, w, h, bpp).bgra[t] == s[Off(x, y, t, w, bpp)]
  {
    OffRange(x, y, t, w, h, bpp);
    var off := Off(x, y, 0, w, bpp);
    assert PixelColor(s, x, y, w, h, bpp).bgra[..bpp] == s[off..off + bpp];
    assert PixelColor(s, x, y, w, h, bpp).bgra[t] == PixelColor(s, x, y, w, h, bpp).bgra[..bpp][t];
  }

  /** get after an in-range set returns the colour's first bpp bytes followed by zeros. */
  lemma {:induction false} GetAfterSet(s: seq<byte>, x: int, y: int, w: int, h: int, bpp: int, c: TgaColor)
    requires Shaped(s, w, h, bpp) && bpp <= 4 && |c.bgra| == 4 && InImage(x, y, w, h)
    ensures PixelColor(PutColor(s, x, y, w, h, bpp, c.bgra), x, y, w, h, bpp) == ColorOf(c.bgra, bpp)
  {
    PixelRange(x, y, w, h, bpp);
    var off := Off(x, y, 0, w, bpp);
    var r := PutColor(s, x, y, w, h, bpp, c.bgra);
    assert r[off..off + bpp] == c.bgra[..bpp];
  }

  /** set leaves every other pixel as get saw it. */
  lemma {:induction false} SetLeavesOthers(s: seq<byte>, x: int, y: int, w: int, h: int, bpp: int, bgra: seq<byte>,
                                           x': int, y': int)
    requires Shaped(s, w, h, bpp) && bpp <= 4 && bpp <= |bgra| && (x != x' || y != y')
    ensures PixelColor(PutColor(s, x, y, w, h, bpp, bgra), x', y', w, h, bpp) == PixelColor(s, x', y', w, h, bpp)
  {
    if InImage(x', y', w, h) {
      PixelRange(x', y', w, h, bpp);
      var off := Off(x', y', 0, w, bpp);
      var r := PutColor(s, x, y, w, h, bpp, bgra);
      var after, before := r[off..off + bpp], s[off..off + bpp];
      forall t | 0 <= t < bpp
        ensures after[t] == before[t]
      {
        PutColorAt(s, x, y, w, h, bpp, bgra, x', y', t);
        assert Off(x', y', t, w, bpp) == off + t;
      }
      assert after == before;
    }
  }

  /** Two gets followed by two sets exchange the two pixels. */
  lemma {:induction false} PixelPairPut(s: seq<byte>, w: int, h: int, bpp: int, x1: int, x2: int, y: int)
    requires Shaped(s, w, h, bpp) && bpp <= 4 && 0 <= x1 < w && 0 <= x2 < w && x1 != x2 && 0 <= y < h
    ensures var c1, c2 := PixelColor(s, x1, y, w, h, bpp), PixelColor(s, x2, y, w, h, bpp);
      PutColor(PutColor(s, x1, y, w, h, bpp, c2.bgra), x2, y, w, h, bpp, c1.bgra) ==
        Gather(s, w, h, bpp, PixelPair(x1, x2, y))
  {
    var c1, c2 := PixelColor(s, x1, y, w, h, bpp), PixelColor(s, x2, y, w, h, bpp);
    var s1 := PutColor(s, x1, y, w, h, bpp, c2.bgra);
    var r := PutColor(s1, x2, y, w, h, bpp, c1.bgra);
    var g := Gather(s, w, h, bpp, PixelPair(x1, x2, y));
    forall x, y', t | InImage(x, y', w, h) && 0 <= t < bpp
      ensures 0 <= Off(x, y', t, w, bpp) < |r| && r[Off(x, y', t, w, bpp)] == g[Off(x, y', t, w, bpp)]
    {
      GatherAt(s, w, h, bpp, PixelPair(x1, x2, y), x, y', t);
      PutColorAt(s1, x2, y, w, h, bpp, c1.bgra, x, y', t);
      PutColorAt(s, x1, y, w, h, bpp, c2.bgra, x, y', t);
      PixelColorAt(s, x1, y, w, h, bpp, t);
      PixelColorAt(s, x2, y, w, h, bpp, t);
    }
    SameAt(r, g, w, h, bpp);
  }

  /** Outcome of read_tga_file: true, false, or an input on which the source's behaviour is
      undefined (negative sizes, more than 4 bytes per pixel, an int-overflowing size). */
  datatype ReadOutcome = Loaded | Failed | Unmodelled

  datatype Option<T> = None | Some(value: T)

  /** The fields of the 18-byte packed TGA_Header that read_tga_file uses. */
  datatype Header = Header(datatypecode: byte, width: int, height: int, bitsperpixel: int, imagedescriptor: byte)

  const HeaderSize: nat := 18

  /** A little-endian signed 16-bit `short` from its two bytes. */
  function Short(lo: byte, hi: byte): (v: int)
    ensures -32768 <= v <= 32767
  {
    var u := lo as int + 256 * hi as int;
    if u >= 32768 then u - 65536 else u
  }

  /** The two bytes of a short, little-endian. */
  function ShortBytes(v: int): (b: (byte, byte))
    requires -32768 <= v <= 32767
  {
    var u := if v < 0 then v + 65536 else v;
    ((u % 256) as byte, (u / 256) as byte)
  }

  /** Reading a short back from its two bytes gives the value. */
  lemma ShortRoundTrip(v: int)
    requires -32768 <= v <= 32767
    ensures Short(ShortBytes(v).0, ShortBytes(v).1) == v
  {
    var u := if v < 0 then v + 65536 else v;
    assert u == u / 256 * 256 + u % 256;
  }

  /** The bytes of a short are the bytes it was read from. */
  lemma {:induction false} ShortBytesRoundTrip(lo: byte, hi: byte)
    ensures ShortBytes(Short(lo, hi)) == (lo, hi)
  {
    var u := lo as int + 256 * hi as int;
    DivModUnique(u, 256, hi as int, lo as int);
  }

  /** A signed `char`. */
  function Char(b: byte): (v: int)
    ensures -128 <= v <= 127
  {
    if b >= 128 then b as int - 256 else b as int
  }

  /** Reading a signed char keeps the byte's value modulo 256. */
  lemma CharBits(b: byte)
    ensures Char(b) % 256 == b as int
  {
  }

  /** The packed header: datatypecode at byte 2, width at 12, height at 14, bitsperpixel
      at 16, imagedescriptor at 17. */
  function ParseHeader(file: seq<byte>): (hd: Header)
    requires |file| >= HeaderSize
    ensures hd.datatypecode == file[2] && hd.imagedescriptor == file[17]
    ensures -32768 <= hd.width <= 32767 && -32768 <= hd.height <= 32767
    ensures -128 <= hd.bitsperpixel <= 127
  {
    Header(file[2], Short(file[12], file[13]), Short(file[14], file[15]), Char(file[16]), file[17])
  }

  /** Width, height and bits per pixel are the header bytes read as little-endian shorts and
      a signed char: encoding the parsed values gives the file's bytes back. */
  lemma HeaderBytes(file: seq<byte>)
    requires |file| >= HeaderSize
    ensures var hd := ParseHeader(file);
      ShortBytes(hd.width) == (file[12], file[13]) &&
      ShortBytes(hd.height) == (file[14], file[15]) &&
      hd.bitsperpixel % 256 == file[16] as int
  {
    ShortBytesRoundTrip(file[12], file[13]);
    ShortBytesRoundTrip(file[14], file[15]);
    CharBits(file[16]);
  }

  /** bitsperpixel >> 3 on a signed char: an arithmetic shift, i.e. division rounding down. */
  function BytesPerPixel(bitsperpixel: int): (r: int)
    ensures r * 8 <= bitsperpixel < r * 8 + 8
  {
    bitsperpixel / 8
  }

  /** Header values on which the model follows the source. */
  predicate Supported(w: int, h: int, bpp: int)
  {
    w >= 0 && h >= 0 && 0 <= bpp <= 4 && w * h * bpp < 0x8000_0000
  }

  predicate IsRaw(code: byte) { code == 2 || code == 3 }
  predicate IsRle(code: byte) { code == 10 || code == 11 }

  /** The pixel bytes the data section decodes to, or None when reading fails. */
  function Decoded(file: seq<byte>, hd: Header): (d: Option<seq<byte>>)
    requires |file| >= HeaderSize && Supported(hd.width, hd.height, BytesPerPixel(hd.bitsperpixel))
    ensures d.Some? ==> |d.value| == hd.width * hd.height * BytesPerPixel(hd.bitsperpixel)
    ensures d.Some? <==> (IsRaw(hd.datatypecode) &&
                          |file| - HeaderSize >= hd.width * hd.height * BytesPerPixel(hd.bitsperpixel)) ||
                         (IsRle(hd.datatypecode) &&
                          TgaRle.Load(file, HeaderSize, hd.width * hd.height, BytesPerPixel(hd.bitsperpixel), true).ok)
  {
    var bpp := BytesPerPixel(hd.bitsperpixel);
    var n := hd.width * hd.height * bpp;
    if IsRaw(hd.datatypecode) then
      if |file| - HeaderSize >= n then Some(file[HeaderSize..HeaderSize + n]) else None
    else if IsRle(hd.datatypecode) then
      TgaRle.CorrectedStaysInBuffer(file, HeaderSize, hd.width * hd.height, bpp);
      var r := TgaRle.Load(file, HeaderSize, hd.width * hd.height, bpp, true);
      if r.ok then Some(r.out) else None
    else None
  }

  /** imagedescriptor bit 0x20: the first stored row is the top one. */
  predicate TopOrigin(descriptor: byte) { descriptor as int / 0x20 % 2 == 1 }

  /** imagedescriptor bit 0x10: the first stored column is the right one. */
  predicate RightOrigin(descriptor: byte) { descriptor as int / 0x10 % 2 == 1 }

  /** The flips read_tga_file applies: vertically unless the origin is at the top, then
      horizontally if it is at the right. */
  function Orient(s: seq<byte>, descriptor: byte, w: int, h: int, bpp: int): (r: seq<byte>)
    requires Shaped(s, w, h, bpp)
    ensures |r| == |s|
  {
    var v := if !TopOrigin(descriptor) then FlipV(s, w, h, bpp) else s;
    if RightOrigin(descriptor) then FlipH(v, w, h, bpp) else v
  }

  /** An image stored top-left first is loaded as stored, and whatever the origin, applying
      the same orientation again restores the stored bytes. */
  lemma {:induction false} OrientInvolution(s: seq<byte>, descriptor: byte, w: int, h: int, bpp: int)
    requires Shaped(s, w, h, bpp)
    ensures TopOrigin(descriptor) && !RightOrigin(descriptor) ==> Orient(s, descriptor, w, h, bpp) == s
    ensures Orient(Orient(s, descriptor, w, h, bpp), descriptor, w, h, bpp) == s
  {
    var v := FlipV(s, w, h, bpp);
    FlipVInvolution(s, w, h, bpp);
    FlipHInvolution(s, w, h, bpp);
    FlipHInvolution(v, w, h, bpp);
    if !TopOrigin(descriptor) && RightOrigin(descriptor) {
      var hv := FlipH(v, w, h, bpp);
      FlipsCommute(hv, w, h, bpp);
      assert FlipV(hv, w, h, bpp) == FlipH(s, w, h, bpp) by {
        FlipsCommute(s, w, h, bpp);
        FlipVInvolution(FlipH(s, w, h, bpp), w, h, bpp);
      }
    }
  }

  /** One more pixel still fits: (cp + 1)·bpp ≤ pc·bpp when cp < pc. */
  lemma StepWithin(cp: int, pc: int, bpp: int)
    requires 0 <= cp < pc && 0 <= bpp
    ensures cp * bpp + bpp <= pc * bpp && (cp + 1) * bpp == cp * bpp + bpp
  {
    StepBelow(cp, pc, bpp);
  }

  /** memmove between two byte ranges that do not overlap. */
  method CopyBytes(src: array<byte>, so: int, dst: array<byte>, dOff: int, n: int)
    requires 0 <= n && 0 <= so && so + n <= src.Length && 0 <= dOff && dOff + n <= dst.Length
    requires src == dst ==> so + n <= dOff || dOff + n <= so
    modifies dst
    ensures dst[..] == Splice(old(dst[..]), dOff, old(src[so..so + n]))
  {
    for k := 0 to n
      invariant dst[..] == Splice(old(dst[..]), dOff, old(src[so..so + k]))
      invariant src[so..so + n] == old(src[so..so + n])
    {
      dst[dOff + k] := src[so + k];
    }
  }

  class TgaImage {
    var data: array?<byte>
    var width: int
    var height: int
    var bytespp: int

    /** The buffer, when there is one, holds width·height pixels of bytespp ≤ 4 bytes. */
    ghost predicate Valid()
      reads this
    {
      data != null ==> width >= 0 && height >= 0 && 0 <= bytespp <= 4 && data.Length == width * height * bytespp
    }

    /** get(x, y): TGAColor() without data or outside the image, else the pixel's bytes. */
    method Get(x: int, y: int) returns (c: TgaColor)
      requires Valid()
      ensures data == null ==> c == Blank
      ensures data != null ==> c == PixelColor(data[..], x, y, width, height, bytespp)
    {
      if data == null || x < 0 || y < 0 || x >= width || y >= height {
        c := NewColor();
        return;
      }
      PixelRange(x, y, width, height, bytespp);
      var off := (x + y * width) * bytespp;
      c := NewColorFrom(data[off..off + bytespp], bytespp as byte);
    }

    /** set(x, y, c): false without data or outside the image; otherwise memcpy of the
        image's bytespp bytes of c.bgra (c.bytespp is not consulted). */
    method Set(x: int, y: int, c: TgaColor) returns (ok: bool)
      requires Valid() && |c.bgra| == 4
      modifies data
      ensures ok <==> data != null && InImage(x, y, width, height)
      ensures data != null ==> data[..] == PutColor(old(data[..]), x, y, width, height, bytespp, c.bgra)
    {
      if data == null || x < 0 || y < 0 || x >= width || y >= height {
        return false;
      }
      PixelRange(x, y, width, height, bytespp);
      var off := (x + y * width) * bytespp;
      for t := 0 to bytespp
        invariant data[..] == Splice(old(data[..]), off, c.bgra[..t])
      {
        data[off + t] := c.bgra[t];
      }
      return true;
    }

    /** flip_vertically: rows j and height-1-j exchanged through a line buffer, j < height/2. */
    method FlipVertically() returns (ok: bool)
      requires Valid()
      modifies data
      ensures ok <==> data != null
      ensures data != null ==> data[..] == FlipV(old(data[..]), width, height, bytespp)
    {
      if data == null {
        return false;
      }
      ghost var orig := data[..];
      RowsEnds(orig, width, height, bytespp);
      var line := new byte[width * bytespp];
      var half := height / 2;
      for j := 0 to half
        invariant data[..] == Gather(orig, width, height, bytespp, RowsUpTo(j))
      {
        SwapRows(j, height - 1 - j, line);
        RowsStep(orig, width, height, bytespp, j);
      }
      return true;
    }

    /** One iteration of flip_vertically: three memmoves through `line`. */
    method SwapRows(j1: int, j2: int, line: array<byte>)
      requires Valid() && data != null && line != data && line.Length == width * bytespp
      requires 0 <= j1 < j2 < height
      modifies data, line
      ensures data[..] == Gather(old(data[..]), width, height, bytespp, RowPair(j1, j2))
    {
      var bpl := width * bytespp;
      var l1, l2 := j1 * bpl, j2 * bpl;
      RowPairSplice(data[..], width, height, bytespp, j1, j2, bpl, l1, l2);
      ExchangeRanges(l1, l2, bpl, line);
    }

    /** The three memmoves: bytes [l1, l1+n) to `line`, [l2, l2+n) to l1, `line` to l2. */
    method ExchangeRanges(l1: int, l2: int, n: int, line: array<byte>)
      requires data != null && line != data && line.Length == n
      requires 0 <= l1 && l1 + n <= l2 && l2 + n <= data.Length
      modifies data, line
      ensures data[..] == Splice(Splice(old(data[..]), l1, old(data[l2..l2 + n])), l2, old(data[l1..l1 + n]))
    {
      ghost var s := data[..];
      CopyBytes(data, l1, line, 0, n);
      ghost var upper := line[..];
      assert upper == s[l1..l1 + n];
      CopyBytes(data, l2, data, l1, n);
      ghost var moved := data[..];
      CopyBytes(line, 0, data, l2, n);
      assert line[0..n] == upper;
    }

    /** flip_horizontally: for each column i < width/2 and each row j, the pixels (i, j) and
        (width-1-i, j) are exchanged with get and set. */
    method FlipHorizontally() returns (ok: bool)
      requires Valid()
      modifies data
      ensures ok <==> data != null
      ensures data != null ==> data[..] == FlipH(old(data[..]), width, height, bytespp)
    {
      if data == null {
        return false;
      }
      ghost var orig := data[..];
      ColumnsEnds(orig, width, height, bytespp, 0);
      var half := width / 2;
      for i := 0 to half
        invariant data[..] == Gather(orig, width, height, bytespp, ColumnsUpTo(i, 0))
      {
        for j := 0 to height
          invariant data[..] == Gather(orig, width, height, bytespp, ColumnsUpTo(i, j))
        {
          SwapPixels(i, width - 1 - i, j);
          ColumnsStep(orig, width, height, bytespp, i, j);
        }
        ColumnsEnds(orig, width, height, bytespp, i);
      }
      ColumnsEnds(orig, width, height, bytespp, half);
      return true;
    }

    /** The body of flip_horizontally's inner loop: two gets and two sets. */
    method SwapPixels(x1: int, x2: int, y: int)
      requires Valid() && data != null && 0 <= x1 < x2 < width && 0 <= y < height
      modifies data
      ensures data[..] == Gather(old(data[..]), width, height, bytespp, PixelPair(x1, x2, y))
    {
      PixelPairPut(data[..], width, height, bytespp, x1, x2, y);
      var c1 := Get(x1, y);
      var c2 := Get(x2, y);
      var _ := Set(x1, y, c2);
      var _ := Set(x2, y, c1);
    }

    /** load_rle_data on the file bytes from `start`, with the pixel-count check made before
        a pixel is written (TgaRle describes the order the source uses): the buffer starts
        with the decoded bytes and keeps its old contents after them. */
    method LoadRleData(input: seq<byte>, start: nat) returns (ok: bool)
      requires Valid() && data != null && start <= |input|
      modifies data
      ensures var r := TgaRle.Load(input, start, width * height, bytespp, true);
        ok == r.ok && |r.out| <= data.Length && data[..] == r.out + old(data[|r.out|..])
    {
      var pixelcount := width * height;
      var currentpixel := 0;
      var currentbyte := 0;
      var pos := start;
      var colorbuffer := new byte[4];
      ghost var orig := data[..];
      ghost var st := TgaRle.Start(start);
      ghost var final := TgaRle.Load(input, start, pixelcount, bytespp, true);
      while true
        invariant st.ok && st.pos == pos && st.cp == currentpixel && |st.out| == currentbyte
        invariant pos <= |input| && currentpixel <= pixelcount && currentbyte == currentpixel * bytespp
        invariant currentbyte <= data.Length && data[..] == st.out + orig[currentbyte..]
        invariant final == TgaRle.Decode(input, st, pixelcount, bytespp, true)
        decreases |input| - pos
      {
        ghost var r := TgaRle.Packet(input, st, pixelcount, bytespp, true);
        TgaRle.DecodeStep(input, st, pixelcount, bytespp, true);
        ok, pos, currentpixel, currentbyte := DecodePacket(input, pos, currentpixel, currentbyte, colorbuffer, st, orig);
        assert final == TgaRle.Finish(input, r, pixelcount, bytespp, true);
        if !ok {
          return false;
        }
        st := r;
        if currentpixel >= pixelcount {
          return true;
        }
      }
    }

    /** One pass of load_rle_data's do-while body: the chunk header, then a literal or a run packet. */
    method DecodePacket(input: seq<byte>, pos0: nat, cp0: nat, cb0: nat, colorbuffer: array<byte>,
                        ghost st: TgaRle.State, ghost orig: seq<byte>)
      returns (ok: bool, pos: nat, currentpixel: nat, currentbyte: nat)
      requires Valid() && data != null && colorbuffer.Length == 4 && colorbuffer != data
      requires st.ok && st.pos == pos0 <= |input| && st.cp == cp0 <= width * height && |st.out| == cb0
      requires cb0 == cp0 * bytespp && cb0 <= data.Length == |orig| && data[..] == st.out + orig[cb0..]
      modifies data, colorbuffer
      ensures var r := TgaRle.Packet(input, st, width * height, bytespp, true);
        ok == r.ok && |r.out| <= data.Length && data[..] == r.out + orig[|r.out|..] &&
        (ok ==> pos == r.pos && currentpixel == r.cp && currentbyte == |r.out| && currentbyte == currentpixel * bytespp)
    {
      var pixelcount := width * height;
      if pos0 >= |input| {
        return false, pos0, cp0, cb0;
      }
      var chunkheader := input[pos0];
      ghost var next := st.(pos := pos0 + 1);
      if chunkheader < 128 {
        ok, pos, currentpixel, currentbyte :=
          RawPacket(input, pos0 + 1, chunkheader as nat + 1, cp0, cb0, colorbuffer, next, orig);
      } else {
        if pos0 + 1 + bytespp > |input| {
          return false, pos0, cp0, cb0;
        }
        ReadPixel(input, pos0 + 1, colorbuffer);
        ghost var px := input[pos0 + 1..pos0 + 1 + bytespp];
        ok, currentpixel, currentbyte :=
          RunPacket(chunkheader as nat - 127, cp0, cb0, colorbuffer, px, next.(pos := pos0 + 1 + bytespp), orig);
        pos := pos0 + 1 + bytespp;
      }
    }

    /** The literal branch of load_rle_data: n pixels, each read and then written. */
    method RawPacket(input: seq<byte>, pos0: nat, n: nat, cp0: nat, cb0: nat, colorbuffer: array<byte>,
                     ghost st: TgaRle.State, ghost orig: seq<byte>)
      returns (ok: bool, pos: nat, currentpixel: nat, currentbyte: nat)
      requires Valid() && data != null && colorbuffer.Length == 4 && colorbuffer != data
      requires st.ok && st.pos == pos0 <= |input| && st.cp == cp0 <= width * height && |st.out| == cb0
      requires cb0 == cp0 * bytespp && cb0 <= data.Length == |orig| && data[..] == st.out + orig[cb0..]
      modifies data, colorbuffer
      ensures var r := TgaRle.RawPixels(input, st, n, width * height, bytespp, true);
        ok == r.ok && pos0 <= pos && |r.out| <= data.Length && data[..] == r.out + orig[|r.out|..] &&
        (ok ==> pos == r.pos && currentpixel == r.cp && currentbyte == |r.out| && currentbyte == currentpixel * bytespp)
    {
      pos, currentpixel, currentbyte := pos0, cp0, cb0;
      ghost var cur := st;
      var pixelcount := width * height;
      for i := 0 to n
        invariant cur.ok && cur.pos == pos && cur.cp == currentpixel && |cur.out| == currentbyte
        invariant pos0 <= pos <= |input| && currentpixel <= pixelcount && currentbyte == currentpixel * bytespp
        invariant currentbyte <= data.Length && data[..] == cur.out + orig[currentbyte..]
        invariant TgaRle.RawPixels(input, st, n, pixelcount, bytespp, true) ==
          TgaRle.RawPixels(input, cur, n - i, pixelcount, bytespp, true)
      {
        var good;
        ghost var next;
        good, pos, currentpixel, currentbyte, next := RawOne(input, pos, currentpixel, currentbyte, colorbuffer, cur, orig, n - i);
        if !good {
          return false, pos, currentpixel, currentbyte;
        }
        cur := next;
      }
      return true, pos, currentpixel, currentbyte;
    }

    /** One pass of the literal loop: read a pixel, count it, and write it. */
    method RawOne(input: seq<byte>, pos0: nat, cp0: nat, cb0: nat, colorbuffer: array<byte>,
                  ghost cur: TgaRle.State, ghost orig: seq<byte>, ghost m: nat)
      returns (ok: bool, pos: nat, currentpixel: nat, currentbyte: nat, ghost next: TgaRle.State)
      requires Valid() && data != null && colorbuffer.Length == 4 && colorbuffer != data && m > 0
      requires cur.ok && cur.pos == pos0 <= |input| && cur.cp == cp0 <= width * height && |cur.out| == cb0
      requires cb0 == cp0 * bytespp && cb0 <= data.Length == |orig| && data[..] == cur.out + orig[cb0..]
      modifies data, colorbuffer
      ensures next.pos <= |input|
      ensures TgaRle.RawPixels(input, cur, m, width * height, bytespp, true) ==
        TgaRle.RawPixels(input, next, m - 1, width * height, bytespp, true)
      ensures ok == next.ok && pos0 <= pos
      ensures !ok ==> next.out == cur.out && data[..] == old(data[..])
      ensures ok ==> (next.pos == pos <= |input| && next.cp == currentpixel <= width * height &&
        |next.out| == currentbyte == currentpixel * bytespp && currentbyte <= data.Length &&
        data[..] == next.out + orig[currentbyte..])
    {
      pos, currentpixel, currentbyte := pos0, cp0, cb0;
      if pos + bytespp > |input| {
        next := cur.(ok := false);
        return false, pos, currentpixel, currentbyte, next;
      }
      ReadPixel(input, pos, colorbuffer);
      next := TgaRle.RawStep(input, cur, m, width * height, bytespp);
      pos := pos + bytespp;
      if currentpixel + 1 > width * height {
        return false, pos, currentpixel, currentbyte, next;
      }
      StepWithin(currentpixel, width * height, bytespp);
      WritePixel(colorbuffer, currentbyte, cur.out, orig);
      currentbyte := currentbyte + bytespp;
      currentpixel := currentpixel + 1;
      ok := true;
    }

    /** The run branch of load_rle_data after its pixel was read: the pixel written n times. */
    method RunPacket(n: nat, cp0: nat, cb0: nat, colorbuffer: array<byte>, ghost px: seq<byte>,
                     ghost st: TgaRle.State, ghost orig: seq<byte>)
      returns (ok: bool, currentpixel: nat, currentbyte: nat)
      requires Valid() && data != null && colorbuffer.Length == 4 && colorbuffer != data
      requires colorbuffer[..bytespp] == px
      requires st.ok && st.cp == cp0 <= width * height && |st.out| == cb0
      requires cb0 == cp0 * bytespp && cb0 <= data.Length == |orig| && data[..] == st.out + orig[cb0..]
      modifies data
      ensures var r := TgaRle.RunPixels(px, st, n, width * height, true);
        ok == r.ok && |r.out| <= data.Length && data[..] == r.out + orig[|r.out|..] &&
        (ok ==> currentpixel == r.cp && currentbyte == |r.out| && currentbyte == currentpixel * bytespp)
    {
      currentpixel, currentbyte := cp0, cb0;
      ghost var cur := st;
      var pixelcount := width * height;
      for i := 0 to n
        invariant cur.ok && cur.pos == st.pos && cur.cp == currentpixel && |cur.out| == currentbyte
        invariant currentpixel <= pixelcount && currentbyte == currentpixel * bytespp
        invariant currentbyte <= data.Length && data[..] == cur.out + orig[currentbyte..]
        invariant TgaRle.RunPixels(px, st, n, pixelcount, true) == TgaRle.RunPixels(px, cur, n - i, pixelcount, true)
      {
        if currentpixel + 1 > pixelcount {
          return false, currentpixel, currentbyte;
        }
        StepWithin(currentpixel, pixelcount, bytespp);
        WritePixel(colorbuffer, currentbyte, cur.out, orig);
        cur := TgaRle.PutPixel(cur, px, pixelcount, true);
        currentbyte := currentbyte + bytespp;
        currentpixel := currentpixel + 1;
      }
      return true, currentpixel, currentbyte;
    }

    /** in.read(colorbuffer.bgra, bytespp). */
    method ReadPixel(input: seq<byte>, pos: int, buffer: array<byte>)
      requires Valid() && buffer.Length == 4 && buffer != data && 0 <= pos && pos + bytespp <= |input|
      requires 0 <= bytespp <= 4
      modifies buffer
      ensures buffer[..bytespp] == input[pos..pos + bytespp]
    {
      for t := 0 to bytespp
        invariant buffer[..t] == input[pos..pos + t]
      {
        buffer[t] := input[pos + t];
      }
    }

    /** The `data[currentbyte++] = colorbuffer.bgra[t]` loop, on a buffer that holds the
        decoded `prefix` followed by the rest of its contents `orig` from before decoding. */
    method WritePixel(buffer: array<byte>, at: int, ghost prefix: seq<byte>, ghost orig: seq<byte>)
      requires Valid() && data != null && buffer.Length == 4 && buffer != data
      requires 0 <= at == |prefix| && at + bytespp <= data.Length == |orig| && data[..] == prefix + orig[at..]
      modifies data
      ensures data[..] == prefix + buffer[..bytespp] + orig[at + bytespp..]
    {
      for t := 0 to bytespp
        invariant data[..] == prefix + buffer[..t] + orig[at + t..]
      {
        data[at + t] := buffer[t];
        assert data[..] == prefix + buffer[..t + 1] + orig[at + t + 1..];
      }
    }

    /** in.read((char *)data, nbytes) when the stream holds the n bytes `bytes`. */
    method ReadBytes(bytes: seq<byte>, n: int)
      requires data != null && 0 <= n == |bytes| <= data.Length
      modifies data
      ensures data[..n] == bytes && data[n..] == old(data[n..])
    {
      for k := 0 to n
        invariant data[..k] == bytes[..k] && data[k..] == old(data[k..])
      {
        data[k] := bytes[k];
      }
    }

    /** read_tga_file on the file's bytes. */
    method ReadTgaFile(file: seq<byte>) returns (r: ReadOutcome)
      requires Valid()
      modifies this
      ensures Valid()
      ensures |file| < HeaderSize ==>
        r == Failed && data == old(data) && width == old(width) && height == old(height) && bytespp == old(bytespp)
      ensures |file| >= HeaderSize ==>
        var hd := ParseHeader(file);
        width == hd.width && height == hd.height && bytespp == BytesPerPixel(hd.bitsperpixel)
      ensures |file| >= HeaderSize && !Supported(width, height, bytespp) ==> r == Unmodelled
      ensures |file| >= HeaderSize && Supported(width, height, bytespp) ==>
        var hd := ParseHeader(file);
        var d := Decoded(file, hd);
        data != null && fresh(data) && r != Unmodelled && (r == Loaded <==> d.Some?) &&
        (d.Some? ==> data[..] == Orient(d.value, hd.imagedescriptor, width, height, bytespp))
    {
      if |file| < HeaderSize {
        return Failed;
      }
      var hd := ParseHeader(file);
      width := hd.width;
      height := hd.height;
      bytespp := BytesPerPixel(hd.bitsperpixel);
      if !Supported(width, height, bytespp) {
        data := null;
        return Unmodelled;
      }
      var nbytes := width * height * bytespp;
      MulMono(0, width, height);
      MulMono(0, width * height, bytespp);
      data := new byte[nbytes];
      var ok := LoadData(file, hd);
      if !ok {
        return Failed;
      }
      ApplyOrigin(hd.imagedescriptor);
      return Loaded;
    }

    /** The two origin bits of the descriptor: flip_vertically unless the origin is at the
        top, then flip_horizontally if it is at the right. */
    method ApplyOrigin(descriptor: byte)
      requires Valid() && data != null
      modifies data
      ensures data[..] == Orient(old(data[..]), descriptor, width, height, bytespp)
    {
      if !TopOrigin(descriptor) {
        var _ := FlipVertically();
      }
      if RightOrigin(descriptor) {
        var _ := FlipHorizontally();
      }
    }

    /** The datatypecode dispatch of read_tga_file: raw data read as is, run-length data
        decoded, any other type refused. */
    method LoadData(file: seq<byte>, hd: Header) returns (ok: bool)
      requires |file| >= HeaderSize && Supported(hd.width, hd.height, BytesPerPixel(hd.bitsperpixel))
      requires data != null && width == hd.width && height == hd.height && bytespp == BytesPerPixel(hd.bitsperpixel)
      requires data.Length == width * height * bytespp
      modifies data
      ensures ok <==> Decoded(file, hd).Some?
      ensures ok ==> data[..] == Decoded(file, hd).value
    {
      var nbytes := width * height * bytespp;
      if IsRaw(hd.datatypecode) {
        var avail := |file| - HeaderSize;
        if avail < nbytes {
          ReadBytes(file[HeaderSize..], avail);
          return false;
        }
        ReadBytes(file[HeaderSize..HeaderSize + nbytes], nbytes);
        assert data[..] == data[..nbytes];
        return true;
      } else if IsRle(hd.datatypecode) {
        ok := LoadRleData(file, HeaderSize);
        TgaRle.CorrectedStaysInBuffer(file, HeaderSize, width * height, bytespp);
        ghost var r := TgaRle.Load(file, HeaderSize, width * height, bytespp, true);
        assert ok ==> old(data[|r.out|..]) == [];
        return;
      }
      return false;
    }
  }
}
