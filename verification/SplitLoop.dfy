/** The loop that splits a piece into requests, with its 32-bit loop variable. */
module SplitLoop {
  import opened Bytes
  import opened TorrentContext
  import opened Download
  import DownloadProofs

  /** The loop variable after `i` rounds, as the 32-bit machine has it. */
  function LoopOffset(i: nat, step: nat): uint32 {
    i * step % U32
  }

  /** At some round the loop's condition fails. */
  ghost predicate Ends(length: uint32, step: uint32) {
    exists i: nat :: LoopOffset(i, step) >= length
  }

  lemma WrapOnce(a: nat)
    requires U32 <= a < 2 * U32
    ensures a % U32 == a - U32
  {
  }

  // ---------- when it ends with each request made once ----------

  /**
   * The loop is still running before round ceil(length / step), and leaves there if and only if that
   * many steps fit into 32 bits; otherwise it starts over inside the piece.
   */
  lemma SplitLoopExits(length: uint32, step: uint32, i: nat)
    requires 0 < step
    ensures i < CeilDiv(length, step) ==> LoopOffset(i, step) == i * step < length
    ensures LoopOffset(CeilDiv(length, step), step) >= length <==> SplitFits(length, step)
  {
    var n := CeilDiv(length, step);
    DivBounds(length + step - 1, step);
    assert (n + 1) * step == n * step + step;
    if i < n {
      MulMonotone(i + 1, n, step);
      assert (i + 1) * step == i * step + step;
      SmallMod(i * step, U32);
    }
    if SplitFits(length, step) {
      SmallMod(n * step, U32);
    } else {
      WrapOnce(n * step);
    }
  }

  lemma CeilDivGrows(a: nat, b: nat, step: nat)
    requires 0 < step && a <= b
    ensures CeilDiv(a, step) <= CeilDiv(b, step)
    ensures CeilDiv(a, step) * step <= CeilDiv(b, step) * step
  {
    var m, n := CeilDiv(a, step), CeilDiv(b, step);
    DivBounds(a + step - 1, step);
    DivBounds(b + step - 1, step);
    MulCancels(m, n + 1, step);
    MulMonotone(m, n, step);
  }

  /** If the blocks of the first piece fit into 32 bits, the loop leaves each piece at its last block. */
  lemma AllSplitsFit(ctx: Context, policy: Policy, p: nat)
    requires DownloadProofs.Setting(ctx, policy) && p < ctx.pieceCount
    ensures SplitFits(ctx.PieceSize(p), policy.maxBlockBytes)
    ensures
      var size, step := ctx.PieceSize(p), policy.maxBlockBytes;
      LoopOffset(CeilDiv(size, step), step) >= size
  {
    FirstPieceIsLongest(ctx, p);
    CeilDivGrows(ctx.PieceSize(p), ctx.PieceSize(0), policy.maxBlockBytes);
    SplitLoopExits(ctx.PieceSize(p), policy.maxBlockBytes, 0);
  }

  /** What is asked of a torrent and a policy is that each piece's own blocks fit into 32 bits. */
  lemma SettingIsPerPiece(ctx: Context, policy: Policy)
    requires ctx.Valid() && 0 < policy.maxBlockBytes
    ensures DownloadProofs.Setting(ctx, policy) <==>
      forall p :: 0 <= p < ctx.pieceCount ==> SplitFits(ctx.PieceSize(p), policy.maxBlockBytes)
  {
    if DownloadProofs.Setting(ctx, policy) {
      forall p | 0 <= p < ctx.pieceCount ensures SplitFits(ctx.PieceSize(p), policy.maxBlockBytes) {
        AllSplitsFit(ctx, policy, p);
      }
    }
  }

  // ---------- when it ends at all ----------

  /** The largest power of two that divides `n`. */
  function TwoPart(n: nat): (g: nat)
    requires 0 < n
    ensures 0 < g <= n
  {
    if n % 2 == 1 then 1 else 2 * TwoPart(n / 2)
  }

  function Power2(k: nat): nat {
    if k == 0 then 1 else 2 * Power2(k - 1)
  }

  lemma Power2Add4(k: nat)
    ensures Power2(k + 4) == 16 * Power2(k)
  {
    assert Power2(k + 4) == 2 * Power2(k + 3) && Power2(k + 3) == 2 * Power2(k + 2);
    assert Power2(k + 2) == 2 * Power2(k + 1);
  }

  lemma Power2Of32()
    ensures Power2(32) == U32
  {
    Power2Add4(0);
    Power2Add4(4);
    Power2Add4(8);
    Power2Add4(12);
    Power2Add4(16);
    Power2Add4(20);
    Power2Add4(24);
    Power2Add4(28);
  }

  lemma {:induction false} TwoPartDivides(n: nat, k: nat) returns (a: nat, b: nat)
    requires 0 < n < Power2(k)
    ensures n == a * TwoPart(n) && Power2(k) == b * TwoPart(n)
  {
    if n % 2 == 1 {
      a, b := n, Power2(k);
    } else {
      a, b := TwoPartDivides(n / 2, k - 1);
      Doubles(a, TwoPart(n / 2));
      Doubles(b, TwoPart(n / 2));
    }
  }

  lemma Doubles(a: int, b: int)
    ensures a * (2 * b) == 2 * (a * b)
  {
  }

  /** Some multiple of an odd number lies one below a multiple of a given power of two. */
  lemma {:induction false} OddMultiple(n: nat, k: nat) returns (i: nat, q: nat)
    requires n % 2 == 1
    ensures i * n + 1 == q * Power2(k)
  {
    if k == 0 {
      i, q := 0, 1;
    } else {
      var half := Power2(k - 1);
      i, q := OddMultiple(n, k - 1);
      if q % 2 == 1 {
        Distributes(i, half, n);
        Distributes(q, n, half);
        Commutes(n, half);
        i, q := i + half, q + n;
      }
      assert i * n + 1 == q * half;
      Doubles(q / 2, half);
      Associates(2, q / 2, half);
      q := q / 2;
    }
  }

  lemma Commutes(a: int, b: int)
    ensures a * b == b * a
  {
  }

  lemma {:induction false} Multiple(n: nat, k: nat) returns (i: nat, q: nat)
    requires 0 < n < Power2(k)
    ensures i * n + TwoPart(n) == q * Power2(k)
  {
    if n % 2 == 1 {
      i, q := OddMultiple(n, k);
    } else {
      i, q := Multiple(n / 2, k - 1);
      Doubles(i, n / 2);
      Doubles(q, Power2(k - 1));
    }
  }

  /** The largest value the loop variable can take is 2^32 less the step's power of two. */
  lemma LargestOffset(step: uint32) returns (i: nat)
    requires 0 < step
    ensures LoopOffset(i, step) == U32 - TwoPart(step)
  {
    Power2Of32();
    var q;
    i, q := Multiple(step, 32);
    assert 0 < q;
    Distributes(q - 1, 1, U32);
    QuotientIs(i * step, q - 1, U32);
  }

  lemma OffsetBound(step: uint32, i: nat)
    requires 0 < step
    ensures LoopOffset(i, step) <= U32 - TwoPart(step)
  {
    Power2Of32();
    var g := TwoPart(step);
    var a, b := TwoPartDivides(step, 32);
    var d := i * step / U32;
    Associates(i, a, g);
    Associates(d, b, g);
    Distributes(i * a - d * b, d * b, g);
    BelowMultiple(i * a - d * b, b, g);
  }

  lemma BelowMultiple(x: int, b: nat, g: nat)
    requires 0 < g && x * g < b * g
    ensures x * g <= b * g - g
  {
    if x + 1 <= b {
      Grows(x + 1, b, g);
      Distributes(x, 1, g);
    } else {
      Grows(b, x, g);
    }
  }

  lemma Grows(a: int, b: int, c: nat)
    requires a <= b
    ensures a * c <= b * c
  {
    Distributes(b - a, a, c);
  }

  /**
   * The loop ends if and only if the piece is no longer than 2^32 less the largest power of two that
   * divides the block size: beyond that no value of the loop variable reaches the length.
   */
  lemma SplitLoopEnds(length: uint32, step: uint32)
    requires 0 < step
    ensures Ends(length, step) <==> length <= U32 - TwoPart(step)
  {
    if length <= U32 - TwoPart(step) {
      var i := LargestOffset(step);
      assert LoopOffset(i, step) >= length;
    } else {
      forall i: nat ensures LoopOffset(i, step) < length {
        OffsetBound(step, i);
      }
    }
  }

  /**
   * With the client's own block size the loop ends if and only if the piece is at most 2^32 - 8192
   * bytes long, and then it always ends at the last block.
   */
  lemma DefaultSplitEnds(length: uint32)
    ensures Ends(length, DEFAULT_POLICY.maxBlockBytes) <==> length <= U32 - 8192
    ensures Ends(length, DEFAULT_POLICY.maxBlockBytes) <==> SplitFits(length, DEFAULT_POLICY.maxBlockBytes)
  {
    assert TwoPart(8192) == 8192;
    SplitLoopEnds(length, 8192);
    DivBounds(length + 8191, 8192);
  }

  /** With another block size the loop can end late: here it starts over at offset 3 and ends in its second pass. */
  lemma SplitCanEndLate()
    ensures
      var length, step, last := U32 - 1, 7, 613566757;
      && CeilDiv(length, step) == last && !SplitFits(length, step)
      && LoopOffset(last, step) == 3 && LoopOffset(1227133513, step) >= length && Ends(length, step)
  {
    assert LoopOffset(1227133513, 7) == U32 - 1;
  }

  // ---------- what it requests, whenever it ends ----------

  lemma {:induction false} LeastRound(length: uint32, step: uint32, i: nat) returns (n: nat)
    requires LoopOffset(i, step) >= length
    ensures LoopOffset(n, step) >= length && forall j: nat :: j < n ==> LoopOffset(j, step) < length
  {
    if j: nat :| j < i && LoopOffset(j, step) >= length {
      n := LeastRound(length, step, j);
    } else {
      n := i;
    }
  }

  lemma LeastRoundExists(length: uint32, step: uint32)
    requires Ends(length, step)
    ensures exists n: nat :: LoopOffset(n, step) >= length && forall j: nat :: j < n ==> LoopOffset(j, step) < length
  {
    var i: nat :| LoopOffset(i, step) >= length;
    var n := LeastRound(length, step, i);
  }

  /** How often the loop's body runs. */
  ghost function Rounds(length: uint32, step: uint32): (n: nat)
    requires Ends(length, step)
    ensures LoopOffset(n, step) >= length && forall j: nat :: j < n ==> LoopOffset(j, step) < length
  {
    LeastRoundExists(length, step);
    var n: nat :| LoopOffset(n, step) >= length && forall j: nat :: j < n ==> LoopOffset(j, step) < length;
    n
  }

  function RequestAt(piece: uint32, length: uint32, step: uint32, i: nat): Block
    requires LoopOffset(i, step) < length
  {
    Block(piece, LoopOffset(i, step), Min(length - LoopOffset(i, step), step))
  }

  /** The requests of a loop that ends, on time or late. */
  ghost function LoopRequests(piece: uint32, length: uint32, step: uint32): seq<Block>
    requires Ends(length, step)
  {
    seq(Rounds(length, step), i requires 0 <= i < Rounds(length, step) => RequestAt(piece, length, step, i))
  }

  lemma NextOffset(i: nat, step: uint32)
    ensures LoopOffset(i + 1, step) == (LoopOffset(i, step) + step) % U32
  {
    Distributes(i, 1, step);
    ModAdds(i * step, step);
  }

  lemma ModAdds(a: nat, b: nat)
    ensures (a % U32 + b) % U32 == (a + b) % U32
  {
  }

  lemma {:induction false} SplitAt(piece: uint32, offset: nat, length: uint32, step: uint32, i: nat)
    requires 0 < step && i < |SplitFrom(piece, offset, length, step)|
    ensures offset + i * step < length
    ensures SplitFrom(piece, offset, length, step)[i]
      == Block(piece, offset + i * step, Min(length - (offset + i * step), step))
    decreases i
  {
    if 0 < i {
      SplitAt(piece, offset + step, length, step, i - 1);
      Distributes(i - 1, 1, step);
    }
  }

  /** A loop that ends on time requests each block once: the blocks that the piece is split into. */
  lemma RequestsAreSplit(piece: uint32, length: uint32, step: uint32)
    requires SplitFits(length, step)
    ensures Ends(length, step) && LoopRequests(piece, length, step) == SplitFrom(piece, 0, length, step)
  {
    var n, blocks := CeilDiv(length, step), SplitFrom(piece, 0, length, step);
    SplitLoopExits(length, step, n);
    assert LoopOffset(n, step) >= length;
    forall i | 0 <= i < n ensures LoopOffset(i, step) == i * step < length {
      SplitLoopExits(length, step, i);
    }
    assert Rounds(length, step) == n;
    DownloadProofs.SplitCount(piece, 0, length, step);
    if length == 0 {
      SmallDiv(step - 1, step);
    }
    forall i | 0 <= i < n ensures blocks[i] == RequestAt(piece, length, step, i) {
      SplitAt(piece, 0, length, step, i);
    }
  }
}
