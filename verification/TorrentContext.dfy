/** What a download knows about its torrent: sizes, hashes, and how the file is cut into pieces. */
module TorrentContext {
  import opened Bytes

  /** `sha1` stands for the OpenSSL digest; nothing is assumed about it. */
  datatype Context = Context(
    fileSize: uint64,
    pieceSize: uint32,
    pieceCount: uint32,
    pieceHashes: seq<seq<byte>>,
    sha1: seq<byte> -> seq<byte>)
  {
    /** A positive piece size, and a hash for each piece index. */
    ghost predicate Valid() {
      0 < pieceSize && pieceCount <= |pieceHashes|
    }

    /** The pieces cover the file exactly. */
    ghost predicate CoversFile() {
      0 < pieceSize && pieceCount == CeilDiv(fileSize, pieceSize)
    }

    function PieceSize(index: nat): uint32
      requires 0 < pieceSize
    {
      var rounded := fileSize / pieceSize;
      if index < rounded then pieceSize
      else
        assert 0 <= fileSize - rounded * pieceSize < pieceSize;
        fileSize - rounded * pieceSize
    }
  }

  lemma DivBounds(a: nat, b: nat)
    requires 0 < b
    ensures a / b * b <= a < (a / b + 1) * b
  {
  }

  lemma SmallMod(a: nat, m: nat)
    requires a < m
    ensures a % m == a
  {
  }

  lemma SmallDiv(a: nat, b: nat)
    requires a < b
    ensures a / b == 0
  {
    DivBounds(a, b);
    if 1 <= a / b {
      MulMonotone(1, a / b, b);
    }
  }

  lemma MulMonotone(a: nat, b: nat, c: nat)
    requires a <= b
    ensures a * c <= b * c
  {
  }

  lemma MulCancels(a: nat, b: nat, c: nat)
    requires a * c < b * c
    ensures a < b
  {
    if b <= a {
      MulMonotone(b, a, c);
    }
  }

  lemma Distributes(a: int, b: int, c: int)
    ensures (a + b) * c == a * c + b * c
  {
  }

  lemma Associates(a: int, b: int, c: int)
    ensures a * b * c == a * (b * c)
  {
  }

  lemma QuotientLess(a: nat, n: nat, b: nat)
    requires 0 < b && a < n * b
    ensures a / b < n
  {
    DivFloors(a, b);
    LessByProduct(a / b, a, n, b);
  }

  lemma DivFloors(a: nat, b: nat)
    requires 0 < b
    ensures 0 <= a / b && a / b * b <= a
  {
    QuotientAndRemainder(a, b);
  }

  lemma LessByProduct(q: nat, a: nat, n: nat, b: nat)
    requires q * b <= a < n * b
    ensures q < n
  {
    MulCancels(q, n, b);
  }

  lemma QuotientAndRemainder(a: nat, b: nat)
    requires 0 < b
    ensures a / b * b + a % b == a
  {
  }

  lemma QuotientIs(i: nat, q: nat, b: nat)
    requires 0 < b && q * b <= i < q * b + b
    ensures i / b == q && i % b == i - q * b
  {
    DivBounds(i, b);
    Distributes(q, 1, b);
    Distributes(i / b, 1, b);
    MulCancels(i / b, q + 1, b);
    MulCancels(q, i / b + 1, b);
  }

  /** Piece `index` is the part of the file between two consecutive multiples of the piece size. */
  lemma PieceRange(ctx: Context, index: nat)
    requires ctx.CoversFile() && index < ctx.pieceCount
    ensures index * ctx.pieceSize + ctx.PieceSize(index) == Min((index + 1) * ctx.pieceSize, ctx.fileSize)
    ensures 0 < ctx.PieceSize(index) <= ctx.pieceSize
  {
    var fs, ps := ctx.fileSize, ctx.pieceSize;
    DivBounds(fs, ps);
    DivBounds(fs + ps - 1, ps);
    RangeArithmetic(fs, ps, fs / ps, ctx.pieceCount, index);
  }

  /** With `q` whole pieces and `count` pieces in all. */
  lemma RangeArithmetic(fs: nat, ps: nat, q: nat, count: nat, index: nat)
    requires 0 < ps && q * ps <= fs < (q + 1) * ps && count * ps <= fs + ps - 1 && index < count
    ensures (index + 1) * ps == index * ps + ps && index * ps < fs
    ensures if index < q then (index + 1) * ps <= fs else index == q
  {
    MulMonotone(index + 1, count, ps);
    assert (index + 1) * ps == index * ps + ps;
    if index < q {
      MulMonotone(index + 1, q, ps);
    } else {
      MulCancels(index, q + 1, ps);
    }
  }

  /** No piece, at any index, is longer than piece 0: the merge buffer is always large enough. */
  lemma FirstPieceIsLongest(ctx: Context, index: nat)
    requires 0 < ctx.pieceSize
    ensures ctx.PieceSize(index) <= ctx.PieceSize(0)
  {
    var q := ctx.fileSize / ctx.pieceSize;
    DivBounds(ctx.fileSize, ctx.pieceSize);
    if q == 0 {
      assert q * ctx.pieceSize == 0;
    }
  }

  /** Past the last piece the size comes out as the remainder, also when the count is too large. */
  lemma BeyondLast(ctx: Context, n: nat)
    requires 0 < ctx.pieceSize && CeilDiv(ctx.fileSize, ctx.pieceSize) <= n
    ensures ctx.PieceSize(n) == ctx.fileSize % ctx.pieceSize
  {
    var fs: nat, ps: nat := ctx.fileSize, ctx.pieceSize;
    QuotientBelow(fs, ps);
    QuotientAndRemainder(fs, ps);
  }

  lemma QuotientBelow(a: nat, b: nat)
    requires 0 < b
    ensures a / b <= CeilDiv(a, b)
  {
    DivBounds(a + b - 1, b);
    QuotientLess(a, CeilDiv(a, b) + 1, b);
  }
}
