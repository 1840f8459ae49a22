/** The player's frame checker: planes are dumped and checksummed either as one
    dense block or row by row, depending on how the width meets the stride. */
module FrameCheck {
  import opened Words
  import opened Crc32Spec
  import opened Crc32
  import CrcPolynomial

  // ----- rows in memory

  /** Where row i of a plane begins. */
  function RowAt(off: nat, i: nat, stride: nat): nat {
    off + Times(i, stride)
  }

  function Times(i: nat, stride: nat): (n: nat)
    ensures n == i * stride
  {
    i * stride
  }

  lemma RowAtNext(off: nat, i: nat, stride: nat)
    ensures RowAt(off, i + 1, stride) == RowAt(off, i, stride) + stride
    ensures RowAt(off + stride, i, stride) == RowAt(off, i + 1, stride)
    ensures RowAt(off, 0, stride) == off
  {
    assert (i + 1) * stride == i * stride + stride;
  }

  lemma {:induction false} RowAtGrows(off: nat, i: nat, n: nat, stride: nat)
    requires i <= n
    ensures RowAt(off, i, stride) <= RowAt(off, n, stride)
    decreases n - i
  {
    if i < n {
      RowAtNext(off, i, stride);
      RowAtGrows(off, i + 1, n, stride);
    }
  }

  /** The picture inside a strided buffer: n rows of w bytes, stride apart. */
  function Rows(mem: seq<u8>, off: nat, w: nat, n: nat, stride: nat): seq<u8>
    requires w <= stride && RowAt(off, n, stride) <= |mem|
    decreases n
  {
    if n == 0 then []
    else
      RowAtNext(off, n - 1, stride);
      RowAtGrows(off + stride, 0, n - 1, stride);
      RowAtNext(off + stride, 0, stride);
      mem[off..off + w] + Rows(mem, off + stride, w, n - 1, stride)
  }

  lemma NoRows(mem: seq<u8>, off: nat, w: nat, stride: nat)
    requires w <= stride && off <= |mem|
    ensures RowAt(off, 0, stride) == off && Rows(mem, off, w, 0, stride) == []
  {
  }

  lemma RowsParts(mem: seq<u8>, off: nat, w: nat, n: nat, stride: nat)
    requires w <= stride && RowAt(off, n + 1, stride) <= |mem|
    ensures RowAt(off + stride, n, stride) == RowAt(off, n + 1, stride)
    ensures off <= off + stride <= RowAt(off, n + 1, stride)
    ensures Rows(mem, off, w, n + 1, stride) == mem[off..off + w] + Rows(mem, off + stride, w, n, stride)
  {
    hide RowAt, Times;
    RowAtNext(off, n, stride);
    RowAtGrows(off + stride, 0, n, stride);
    RowAtNext(off + stride, 0, stride);
  }

  lemma {:induction false} RowsSnoc(mem: seq<u8>, off: nat, w: nat, n: nat, stride: nat)
    requires w <= stride && RowAt(off, n + 1, stride) <= |mem|
    ensures RowAt(off, n + 1, stride) == RowAt(off, n, stride) + stride
    ensures Rows(mem, off, w, n + 1, stride) ==
            Rows(mem, off, w, n, stride) + mem[RowAt(off, n, stride)..RowAt(off, n, stride) + w]
    decreases n
  {
    hide *;
    RowAtNext(off, n, stride);
    RowsParts(mem, off, w, n, stride);
    if n == 0 {
      RowAtNext(off, 0, stride);
      NoRows(mem, off, w, stride);
      NoRows(mem, off + stride, w, stride);
      assert mem[off..off + w] + [] == [] + mem[off..off + w];
    } else {
      RowAtNext(off, n - 1, stride);
      RowsParts(mem, off, w, n - 1, stride);
      RowsSnoc(mem, off + stride, w, n - 1, stride);
    }
  }

  lemma {:induction false} RowsLength(mem: seq<u8>, off: nat, w: nat, n: nat, stride: nat)
    requires w <= stride && RowAt(off, n, stride) <= |mem|
    ensures |Rows(mem, off, w, n, stride)| == Times(n, w)
    decreases n
  {
    hide *;
    RowAtGrows(off, 0, n, stride);
    RowAtNext(off, 0, stride);
    if n == 0 {
      NoRows(mem, off, w, stride);
      TimesNext(0, w);
    } else {
      RowsParts(mem, off, w, n - 1, stride);
      RowsLength(mem, off + stride, w, n - 1, stride);
      TimesNext(n - 1, w);
    }
  }

  lemma TimesNext(i: nat, w: nat)
    ensures Times(i + 1, w) == Times(i, w) + w && Times(0, w) == 0
  {
    assert (i + 1) * w == i * w + w;
  }

  /** Byte x of row y of the picture is the byte at offset y * stride + x. */
  lemma {:induction false} RowsByte(mem: seq<u8>, off: nat, w: nat, n: nat, stride: nat, y: nat, x: nat)
    requires w <= stride && RowAt(off, n, stride) <= |mem| && y < n && x < w
    ensures |Rows(mem, off, w, n, stride)| == n * w
    ensures y * w + x < n * w && off + y * stride + x < |mem|
    ensures Rows(mem, off, w, n, stride)[y * w + x] == mem[off + y * stride + x]
  {
    RowsLength(mem, off, w, n, stride);
    ByteAt(mem, off, w, n, stride, y, x);
    hide Rows;
  }

  lemma {:induction false} ByteAt(mem: seq<u8>, off: nat, w: nat, n: nat, stride: nat, y: nat, x: nat)
    requires w <= stride && RowAt(off, n, stride) <= |mem| && y < n && x < w
    ensures Times(y, w) + x < |Rows(mem, off, w, n, stride)| && RowAt(off, y, stride) + x < |mem|
    ensures Rows(mem, off, w, n, stride)[Times(y, w) + x] == mem[RowAt(off, y, stride) + x]
    decreases n
  {
    hide *;
    RowsParts(mem, off, w, n - 1, stride);
    RowAtNext(off, y, stride);
    if y == 0 {
      TimesNext(0, w);
    } else {
      TimesNext(y - 1, w);
      RowAtNext(off, y - 1, stride);
      ByteAt(mem, off + stride, w, n - 1, stride, y - 1, x);
    }
  }

  /** When the stride is the width, the picture is one contiguous block. */
  lemma {:induction false} RowsDense(mem: seq<u8>, off: nat, w: nat, n: nat)
    requires RowAt(off, n, w) <= |mem|
    ensures off <= RowAt(off, n, w) && Rows(mem, off, w, n, w) == mem[off..RowAt(off, n, w)]
    decreases n
  {
    hide *;
    RowAtNext(off, 0, w);
    RowAtGrows(off, 0, n, w);
    if n == 0 {
      NoRows(mem, off, w, w);
    } else {
      RowsParts(mem, off, w, n - 1, w);
      RowsDense(mem, off + w, w, n - 1);
      assert mem[off..off + w] + mem[off + w..RowAt(off, n, w)] == mem[off..RowAt(off, n, w)];
    }
  }

  function AlignUp(x: nat): (r: nat)
    ensures x <= r && r % 64 == 0
  {
    (x + 63) / 64 * 64
  }

  /** The multiple of 64 from x on. */
  lemma AlignUpIs(x: nat, r: nat)
    ensures r == AlignUp(x) <==> r % 64 == 0 && x <= r < x + 64
  {
  }

  /** Appends the rows of a plane one by one. */
  method DumpRows(file: seq<u8>, mem: seq<u8>, start: nat, w: nat, h: nat, codedWidth: nat)
    returns (grown: seq<u8>)
    requires w <= codedWidth && RowAt(start, h, codedWidth) <= |mem|
    ensures grown == file + Rows(mem, start, w, h, codedWidth)
  {
    hide Rows, RowAt;
    grown := file;
    var at := start;
    RowAtGrows(start, 0, h, codedWidth);
    RowAtNext(start, 0, codedWidth);
    NoRows(mem, start, w, codedWidth);
    assert grown == file + [];
    for index := 0 to h
      invariant at == RowAt(start, index, codedWidth) <= |mem|
      invariant grown == file + Rows(mem, start, w, index, codedWidth)
    {
      RowAtGrows(start, index + 1, h, codedWidth);
      RowsSnoc(mem, start, w, index, codedWidth);
      grown := grown + mem[at..at + w];
      at := at + codedWidth;
    }
  }

  /** Appends one plane of the picture to the dump file and returns the address of
      the next plane. */
  method DumpPlane(file: seq<u8>, mem: seq<u8>, start: nat, w: nat, h: nat)
    returns (grown: seq<u8>, next: nat)
    requires RowAt(start, h, AlignUp(w)) <= |mem|
    ensures grown == file + Rows(mem, start, w, h, AlignUp(w))
    ensures next == RowAt(start, AlignUp(h), AlignUp(w))
  {
    hide Rows, RowAt, AlignUp, Times;
    var codedWidth, codedHeight := AlignUp(w), AlignUp(h);
    if w != codedWidth {
      grown := DumpRows(file, mem, start, w, h, codedWidth);
    } else {
      RowsDense(mem, start, w, h);
      PlaneSize(start, w, h);
      grown := file + mem[start..start + w * h];
    }
    PlaneSize(start, codedWidth, codedHeight);
    next := start + codedWidth * codedHeight;
  }

  lemma PlaneSize(off: nat, w: nat, h: nat)
    ensures off + w * h == RowAt(off, h, w)
  {
  }

  // ----- the checksums

  /** The chroma bytes the dense branch reads. */
  function DenseChroma(w: nat, h: nat, mjpeg: bool): nat {
    if mjpeg then Times(h, w) / 4 else Times(h, w) / 2
  }

  /** Where the chroma the checker reads ends: behind whole rows of the stride, or, in the
      dense branch, behind that many bytes. */
  function ChromaEnd(off: nat, w: nat, h: nat, stride: nat, mjpeg: bool): nat {
    if w == stride then off + DenseChroma(w, h, mjpeg) else RowAt(off, h / 2, stride)
  }

  /** The chroma plane as the checker reads it: the dense branch takes a half (or,
      for mjpeg, a quarter) of the luma size, the strided branch h / 2 rows. */
  function ChromaRead(mem: seq<u8>, off: nat, w: nat, h: nat, stride: nat, mjpeg: bool): seq<u8>
    requires w <= stride && ChromaEnd(off, w, h, stride, mjpeg) <= |mem|
  {
    if w == stride then mem[off..off + DenseChroma(w, h, mjpeg)]
    else Rows(mem, off, w, h / 2, stride)
  }

  /** A 4:2:0 buffer is big enough: half as many chroma rows as luma rows, rounded up. */
  lemma ChromaFits(off: nat, w: nat, h: nat, stride: nat, mjpeg: bool)
    requires w <= stride
    ensures ChromaEnd(off, w, h, stride, mjpeg) <= RowAt(off, (h + 1) / 2, stride)
  {
    if w == stride {
      HalfRows(h, w);
    } else {
      RowAtGrows(off, h / 2, (h + 1) / 2, stride);
    }
  }

  lemma HalfRows(h: nat, w: nat)
    ensures Times(h, w) == 2 * Times(h / 2, w) + if h % 2 == 0 then 0 else w
    ensures Times((h + 1) / 2, w) == Times(h / 2, w) + if h % 2 == 0 then 0 else w
  {
    var k := h / 2;
    TimesSum(k, k, w);
    TimesSum(2 * k, 1, w);
    TimesSum(k, 1, w);
    hide Times;
    assert h == if h % 2 == 0 then k + k else 2 * k + 1;
    assert (h + 1) / 2 == if h % 2 == 0 then k else k + 1;
  }

  lemma TimesSum(i: nat, j: nat, w: nat)
    ensures Times(i + j, w) == Times(i, w) + Times(j, w) && Times(1, w) == w
  {
    assert (i + j) * w == i * w + j * w;
  }

  /** The two checksums of a frame; with dump, both planes are also written out. */
  method FrameChecksums(sum: Checksum, mem: seq<u8>, addr: nat, w: nat, h: nat, stride: nat,
                        mjpeg: bool, dump: bool, file: seq<u8>)
    returns (crcY: u32, crcUv: u32, grown: seq<u8>)
    requires sum.Valid()
    requires w <= stride
    requires RowAt(0, h, stride) <= |mem|
    requires ChromaEnd(RowAt(0, AlignUp(h), AlignUp(w)), w, h, stride, mjpeg) <= |mem|
    requires dump ==> RowAt(0, h, AlignUp(w)) <= |mem|
                      && RowAt(RowAt(0, AlignUp(h), AlignUp(w)), h / 2, AlignUp(w)) <= |mem|
    modifies sum.table
    ensures sum.Valid()
    ensures crcY == Crc(0, Rows(mem, 0, w, h, stride))
    ensures crcUv == Crc(0, ChromaRead(mem, RowAt(0, AlignUp(h), AlignUp(w)), w, h, stride, mjpeg))
    ensures !dump ==> grown == file
    ensures dump ==> grown == file + Rows(mem, 0, w, h, AlignUp(w))
                              + Rows(mem, RowAt(0, AlignUp(h), AlignUp(w)), w, h / 2, AlignUp(w))
  {
    hide Crc, Rows, RowAt, AlignUp, DenseChroma, CrcPolynomial.IsRemainder;
    PlaneSize(0, AlignUp(w), AlignUp(h));
    var uv := AlignUp(w) * AlignUp(h);
    grown := file;
    if dump {
      grown, uv := DumpPlane(grown, mem, 0, w, h);
      var end;
      grown, end := DumpPlane(grown, mem, uv, w, h / 2);
    }
    if w == stride {
      RowsDense(mem, 0, w, h);
      PlaneSize(0, w, h);
      crcY := sum.Crc32Le(0, addr, mem[0..w * h]);
      crcUv := sum.Crc32Le(0, addr + uv, mem[uv..uv + DenseChroma(w, h, mjpeg)]);
    } else {
      crcY := StridedCrc(sum, mem, addr, 0, w, h, stride);
      crcUv := StridedCrc(sum, mem, addr, uv, w, h / 2, stride);
    }
  }

  /** A plane checksummed row by row, carrying the checksum from row to row. */
  method StridedCrc(sum: Checksum, mem: seq<u8>, addr: nat, off: nat, w: nat, n: nat, stride: nat)
    returns (crc: u32)
    requires sum.Valid() && w <= stride && RowAt(off, n, stride) <= |mem|
    modifies sum.table
    ensures sum.Valid()
    ensures crc == Crc(0, Rows(mem, off, w, n, stride))
  {
    hide Crc, Rows, RowAt, CrcPolynomial.IsRemainder;
    crc := 0;
    var at := off;
    RowAtGrows(off, 0, n, stride);
    RowAtNext(off, 0, stride);
    NoRows(mem, off, w, stride);
    CrcNone(0);
    for i := 0 to n
      invariant sum.Valid()
      invariant at == RowAt(off, i, stride) <= |mem|
      invariant crc == Crc(0, Rows(mem, off, w, i, stride))
    {
      RowAtGrows(off, i + 1, n, stride);
      RowsSnoc(mem, off, w, i, stride);
      CrcAppend(0, Rows(mem, off, w, i, stride), mem[at..at + w]);
      crc := sum.Crc32Le(crc, addr + at, mem[at..at + w]);
      at := at + stride;
    }
  }

  /** The dense branch reads the same chroma plane as the row-by-row branch would,
      exactly under this condition on the frame. */
  lemma ChromaAgreesIff(mem: seq<u8>, off: nat, w: nat, h: nat, mjpeg: bool)
    requires RowAt(off, h / 2, w) <= |mem| && off + DenseChroma(w, h, mjpeg) <= |mem|
    ensures ChromaRead(mem, off, w, h, w, mjpeg) == Rows(mem, off, w, h / 2, w)
       <==> if mjpeg then w == 0 || h == 0 || (h == 1 && w < 4) else h % 2 == 0 || w <= 1
  {
    RowsDense(mem, off, w, h / 2);
    ChromaSizes(w, h, mjpeg);
    hide Rows, DenseChroma, Times;
    var d, r := DenseChroma(w, h, mjpeg), Times(h / 2, w);
    if ChromaRead(mem, off, w, h, w, mjpeg) == Rows(mem, off, w, h / 2, w) {
      assert |mem[off..off + d]| == |mem[off..off + r]|;
    }
  }

  lemma ChromaSizes(w: nat, h: nat, mjpeg: bool)
    ensures DenseChroma(w, h, mjpeg) == Times(h / 2, w)
       <==> if mjpeg then w == 0 || h == 0 || (h == 1 && w < 4) else h % 2 == 0 || w <= 1
  {
    HalfRows(h, w);
    Positive(h / 2, w);
    hide Times;
  }

  lemma Positive(k: nat, w: nat)
    ensures Times(k, w) == 0 <==> k == 0 || w == 0
    ensures k > 0 ==> Times(k, w) >= w
  {
    if k > 0 {
      assert k * w == (k - 1) * w + w && (k - 1) * w >= 0;
    }
  }
}
