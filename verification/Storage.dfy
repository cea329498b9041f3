/** The piece vault, one file per index, and the loop that joins the pieces into the output file. */
module Storage {
  import opened Bytes
  import opened TorrentContext

  datatype PullResult = Pulled | Refused | Failed

  /** Writing from the start of a file that is not truncated. */
  function WrittenOver(stored: seq<byte>, data: seq<byte>): seq<byte> {
    if |stored| <= |data| then data else data + stored[|data|..]
  }

  /** What is written comes first; behind it remains what a longer file had there. */
  lemma WrittenOverBytes(stored: seq<byte>, data: seq<byte>)
    ensures
      var file := WrittenOver(stored, data);
      && |file| == (if |stored| <= |data| then |data| else |stored|)
      && (forall i :: 0 <= i < |data| ==> file[i] == data[i])
      && forall i :: |data| <= i < |file| ==> file[i] == stored[i]
  {
  }

  class Vault {
    var files: map<nat, seq<byte>>

    constructor (files: map<nat, seq<byte>>)
      ensures this.files == files
    {
      this.files := files;
    }

    method PushPiece(index: nat, data: seq<byte>, overwrite: bool)
      modifies this
      ensures old(index in files) && !overwrite ==> files == old(files)
      ensures old(index in files) && overwrite ==> files == old(files)[index := WrittenOver(old(files)[index], data)]
      ensures old(index !in files) ==> files == old(files)[index := data]
    {
      if !overwrite && index in files {
        return;
      }
      files := files[index := if index in files then WrittenOver(files[index], data) else data];
    }

    /** A short file fills as much of the buffer as it can, and then the read fails. */
    method PullPiece(index: nat, offset: nat, amount: nat, buffer: array<byte>) returns (result: PullResult)
      modifies buffer
      ensures result == Refused <==> index !in files || buffer.Length < amount
      ensures result == Pulled <==>
        index in files && amount <= buffer.Length && (amount == 0 || offset + amount <= |files[index]|)
      ensures result == Refused ==> buffer[..] == old(buffer[..])
      ensures result == Pulled ==>
        buffer[..] == (if amount == 0 then [] else files[index][offset..offset + amount]) + old(buffer[..])[amount..]
    {
      if index !in files || buffer.Length < amount {
        return Refused;
      }
      var file := files[index];
      var k := 0;
      while k < amount && offset + k < |file|
        invariant 0 <= k <= amount && (0 < k ==> offset + k <= |file|)
        invariant forall j :: 0 <= j < k ==> buffer[j] == file[offset + j]
        invariant forall j :: k <= j < buffer.Length ==> buffer[j] == old(buffer[j])
      {
        buffer[k] := file[offset + k];
        k := k + 1;
      }
      result := if k == amount then Pulled else Failed;
    }

    predicate Exists(index: nat)
      reads this
    {
      index in files
    }
  }

  // ---------- the merge ----------

  /** The first `n` stored pieces, each cut to its size. */
  function Joined(ctx: Context, files: map<nat, seq<byte>>, n: nat): seq<byte>
    requires 0 < ctx.pieceSize && forall i :: 0 <= i < n ==> i in files && ctx.PieceSize(i) <= |files[i]|
  {
    if n == 0 then [] else Joined(ctx, files, n - 1) + files[n - 1][..ctx.PieceSize(n - 1)]
  }

  lemma JoinedNone(ctx: Context, files: map<nat, seq<byte>>)
    requires 0 < ctx.pieceSize
    ensures Joined(ctx, files, 0) == []
  {
  }

  lemma JoinedNext(ctx: Context, files: map<nat, seq<byte>>, n: nat)
    requires 0 < ctx.pieceSize && forall i :: 0 <= i < n ==> i in files && ctx.PieceSize(i) <= |files[i]|
    ensures n in files && ctx.PieceSize(n) <= |files[n]| ==>
      Joined(ctx, files, n + 1) == Joined(ctx, files, n) + files[n][..ctx.PieceSize(n)]
  {
  }

  /** Writing at a position inside a file, or at its end. */
  function WrittenAt(file: seq<byte>, position: nat, data: seq<byte>): seq<byte>
    requires position <= |file|
  {
    file[..position] + data + if position + |data| <= |file| then file[position + |data|..] else []
  }

  lemma WritesOn(existing: seq<byte>, written: seq<byte>, data: seq<byte>)
    ensures WrittenAt(WrittenOver(existing, written), |written|, data) == WrittenOver(existing, written + data)
  {
    var file := WrittenOver(existing, written);
    assert file[..|written|] == written;
    if |written| + |data| < |existing| {
      assert file[|written| + |data|..] == existing[|written| + |data|..];
    }
  }

  /**
   * Joins the pieces from index 0 to the first one not stored, through one reused buffer, and writes
   * them over the output file from its start. Stops early at a file shorter than its piece. `last`
   * names an unstored index: without one the 32-bit loop counter would never leave the stored ones.
   */
  method Merge(ctx: Context, vault: Vault, existing: seq<byte>, ghost last: uint32)
    returns (output: seq<byte>, count: nat, completed: bool)
    requires 0 < ctx.pieceSize && last !in vault.files
    ensures count <= last && forall i :: 0 <= i < count ==> i in vault.files && ctx.PieceSize(i) <= |vault.files[i]|
    ensures output == WrittenOver(existing, Joined(ctx, vault.files, count))
    ensures completed ==> count !in vault.files
    ensures !completed ==> count in vault.files && |vault.files[count]| < ctx.PieceSize(count)
  {
    hide Joined, WrittenOver, WrittenAt, Context.PieceSize;
    JoinedNone(ctx, vault.files);
    NothingWritten(existing);
    var index: uint32, position: nat := 0, 0;
    var buffer := new byte[ctx.PieceSize(0)](_ => 0);
    output := existing;
    while vault.Exists(index)
      invariant index <= last
      invariant forall i :: 0 <= i < index ==> i in vault.files && ctx.PieceSize(i) <= |vault.files[i]|
      invariant position == |Joined(ctx, vault.files, index)|
      invariant output == WrittenOver(existing, Joined(ctx, vault.files, index))
      decreases last - index
    {
      var size := ctx.PieceSize(index);
      FirstPieceIsLongest(ctx, index);
      JoinedNext(ctx, vault.files, index);
      var result := vault.PullPiece(index, 0, size, buffer);
      if result == Failed {
        return output, index, false;
      }
      assert buffer[..size] == vault.files[index][..size];
      WritesOn(existing, Joined(ctx, vault.files, index), buffer[..size]);
      CoversWritten(existing, Joined(ctx, vault.files, index));
      output := WrittenAt(output, position, buffer[..Min(size, buffer.Length)]);
      position := position + size;
      index := (index + 1) % U32;
    }
    return output, index, true;
  }

  lemma NothingWritten(existing: seq<byte>)
    ensures WrittenOver(existing, []) == existing
  {
  }

  lemma CoversWritten(existing: seq<byte>, written: seq<byte>)
    ensures |written| <= |WrittenOver(existing, written)|
  {
  }

  // ---------- how much is written ----------

  /** `n` pieces: `whole` ones of a size first, and from then on each as long as the remainder. */
  function LengthOf(whole: nat, size: nat, rest: nat, n: nat): nat {
    if n <= whole then n * size else whole * size + (n - whole) * rest
  }

  lemma LengthNext(whole: nat, size: nat, rest: nat, n: nat)
    ensures LengthOf(whole, size, rest, 0) == 0
    ensures LengthOf(whole, size, rest, n + 1) == LengthOf(whole, size, rest, n) + if n < whole then size else rest
  {
    if n < whole {
      Distributes(n, 1, size);
    } else {
      Distributes(n - whole, 1, rest);
    }
  }

  lemma SizeIs(ctx: Context, i: nat)
    requires 0 < ctx.pieceSize
    ensures ctx.PieceSize(i) ==
      if i < ctx.fileSize / ctx.pieceSize then ctx.pieceSize else ctx.fileSize % ctx.pieceSize
  {
    QuotientAndRemainder(ctx.fileSize, ctx.pieceSize);
  }

  lemma {:induction false} JoinedLength(ctx: Context, files: map<nat, seq<byte>>, n: nat)
    requires 0 < ctx.pieceSize && forall i :: 0 <= i < n ==> i in files && ctx.PieceSize(i) <= |files[i]|
    ensures |Joined(ctx, files, n)| ==
      LengthOf(ctx.fileSize / ctx.pieceSize, ctx.pieceSize, ctx.fileSize % ctx.pieceSize, n)
  {
    hide LengthOf;
    var whole, rest := ctx.fileSize / ctx.pieceSize, ctx.fileSize % ctx.pieceSize;
    if n == 0 {
      LengthNext(whole, ctx.pieceSize, rest, 0);
    } else {
      JoinedLength(ctx, files, n - 1);
      SizeIs(ctx, n - 1);
      LengthNext(whole, ctx.pieceSize, rest, n - 1);
      hide Context.PieceSize;
    }
  }

  lemma CeilDivIs(a: nat, b: nat)
    requires 0 < b
    ensures CeilDiv(a, b) == a / b + if a % b == 0 then 0 else 1
  {
    QuotientAndRemainder(a, b);
    if a % b == 0 {
      QuotientIs(a + b - 1, a / b, b);
    } else {
      Distributes(a / b, 1, b);
      QuotientIs(a + b - 1, a / b + 1, b);
    }
  }

  /**
   * As many bytes as the file has are written exactly when the right number of pieces is joined, or
   * too many of them after a whole last one.
   */
  lemma LengthExact(ctx: Context, files: map<nat, seq<byte>>, n: nat)
    requires 0 < ctx.pieceSize && forall i :: 0 <= i < n ==> i in files && ctx.PieceSize(i) <= |files[i]|
    ensures
      var needed := CeilDiv(ctx.fileSize, ctx.pieceSize);
      |Joined(ctx, files, n)| == ctx.fileSize <==>
        n == needed || (needed <= n && ctx.fileSize % ctx.pieceSize == 0)
  {
    hide Joined, LengthOf, CeilDiv, Context.PieceSize;
    JoinedLength(ctx, files, n);
    LengthIsExact(ctx.fileSize, ctx.pieceSize, n);
  }

  lemma LengthIsExact(fs: nat, ps: nat, n: nat)
    requires 0 < ps
    ensures LengthOf(fs / ps, ps, fs % ps, n) == fs <==>
      n == CeilDiv(fs, ps) || (CeilDiv(fs, ps) <= n && fs % ps == 0)
  {
    hide LengthOf, CeilDiv;
    CeilDivIs(fs, ps);
    QuotientAndRemainder(fs, ps);
    LengthCases(fs, ps, fs / ps, fs % ps, n);
  }

  lemma LengthCases(fs: nat, ps: nat, whole: nat, rest: nat, n: nat)
    requires rest < ps && whole * ps + rest == fs
    ensures LengthOf(whole, ps, rest, n) == fs <==>
      if n <= whole then n == whole && rest == 0 else n == whole + 1 || rest == 0
  {
    if n < whole {
      Distributes(whole - n, n, ps);
      MulMonotone(1, whole - n, ps);
    }
    if whole + 1 < n {
      Distributes(n - whole - 1, 1, rest);
      if 0 < rest {
        MulMonotone(1, n - whole - 1, rest);
      }
    }
  }

  /** All pieces are there, each with its size. */
  ghost predicate Stocked(ctx: Context, files: map<nat, seq<byte>>) {
    && ctx.CoversFile()
    && forall i :: 0 <= i < ctx.pieceCount ==> i in files && |files[i]| == ctx.PieceSize(i)
  }

  lemma {:induction false} JoinedBytes(ctx: Context, files: map<nat, seq<byte>>, n: nat)
    requires Stocked(ctx, files) && n <= ctx.pieceCount
    ensures
      var out := Joined(ctx, files, n);
      && |out| == Min(n * ctx.pieceSize, ctx.fileSize)
      && forall i :: 0 <= i < |out| ==> ByteOfPiece(ctx, files, i, out[i])
  {
    if n > 0 {
      var ps := ctx.pieceSize;
      JoinedBytes(ctx, files, n - 1);
      PieceRange(ctx, n - 1);
      PrefixLength(ctx, n - 1);
      var before, out := Joined(ctx, files, n - 1), Joined(ctx, files, n);
      assert |before| == (n - 1) * ps;
      forall i | 0 <= i < |out| ensures ByteOfPiece(ctx, files, i, out[i]) {
        if i < |before| {
          assert out[i] == before[i];
        } else {
          QuotientIs(i, n - 1, ps);
        }
      }
    }
  }

  ghost predicate ByteOfPiece(ctx: Context, files: map<nat, seq<byte>>, i: nat, b: byte)
    requires 0 < ctx.pieceSize
  {
    var p, k := i / ctx.pieceSize, i % ctx.pieceSize;
    p in files && k < |files[p]| && b == files[p][k]
  }

  lemma PrefixLength(ctx: Context, n: nat)
    requires ctx.CoversFile() && n < ctx.pieceCount
    ensures n * ctx.pieceSize < ctx.fileSize
  {
    PieceRange(ctx, n);
  }

  lemma CountCovers(ctx: Context)
    requires ctx.CoversFile()
    ensures ctx.fileSize <= ctx.pieceCount * ctx.pieceSize
  {
    DivBounds(ctx.fileSize + ctx.pieceSize - 1, ctx.pieceSize);
    assert (ctx.pieceCount + 1) * ctx.pieceSize == ctx.pieceCount * ctx.pieceSize + ctx.pieceSize;
  }

  /** The joined pieces are the file: its length, and each byte from its place in its piece. */
  lemma MergeIsFile(ctx: Context, files: map<nat, seq<byte>>)
    requires Stocked(ctx, files)
    ensures
      var out := Joined(ctx, files, ctx.pieceCount);
      && |out| == ctx.fileSize
      && forall i :: 0 <= i < ctx.fileSize ==> ByteOfPiece(ctx, files, i, out[i])
  {
    CountCovers(ctx);
    JoinedBytes(ctx, files, ctx.pieceCount);
  }

  lemma {:induction false} JoinedGrows(ctx: Context, files: map<nat, seq<byte>>, m: nat, n: nat)
    requires 0 < ctx.pieceSize && m <= n
    requires forall i :: 0 <= i < n ==> i in files && ctx.PieceSize(i) <= |files[i]|
    ensures |Joined(ctx, files, m)| <= |Joined(ctx, files, n)|
    decreases n
  {
    if m < n {
      JoinedGrows(ctx, files, m, n - 1);
    }
  }

  lemma {:induction false} JoinedPrefix(ctx: Context, files: map<nat, seq<byte>>, m: nat, n: nat)
    requires 0 < ctx.pieceSize && m <= n
    requires forall i :: 0 <= i < n ==> i in files && ctx.PieceSize(i) <= |files[i]|
    ensures Joined(ctx, files, m) <= Joined(ctx, files, n)
    decreases n
  {
    if m < n {
      JoinedPrefix(ctx, files, m, n - 1);
    }
  }

  lemma {:induction false} JoinedBeyond(ctx: Context, files: map<nat, seq<byte>>, n: nat)
    requires Stocked(ctx, files) && ctx.pieceCount <= n && ctx.fileSize % ctx.pieceSize == 0
    requires forall i :: 0 <= i < n ==> i in files && ctx.PieceSize(i) <= |files[i]|
    ensures Joined(ctx, files, n) == Joined(ctx, files, ctx.pieceCount)
    decreases n
  {
    if ctx.pieceCount < n {
      JoinedBeyond(ctx, files, n - 1);
      BeyondLast(ctx, n - 1);
    }
  }

  /**
   * The merge looks for files, not at the piece count. Started on a full vault, it writes exactly the
   * file if and only if it finds no file after the last piece, or the last piece is a whole one, or
   * the file it finds is too short to be read; and it also runs to its end in the first two cases only.
   */
  lemma MergeExact(ctx: Context, files: map<nat, seq<byte>>, count: nat, completed: bool)
    requires Stocked(ctx, files)
    requires forall i :: 0 <= i < count ==> i in files && ctx.PieceSize(i) <= |files[i]|
    requires completed ==> count !in files
    requires !completed ==> count in files && |files[count]| < ctx.PieceSize(count)
    ensures ctx.pieceCount <= count
    ensures
      var written, file := Joined(ctx, files, count), Joined(ctx, files, ctx.pieceCount);
      var noMore := ctx.pieceCount !in files || ctx.fileSize % ctx.pieceSize == 0;
      && (written == file <==>
            noMore || |files[ctx.pieceCount]| < ctx.PieceSize(ctx.pieceCount))
      && (written == file && completed <==> noMore)
  {
    BeyondLast(ctx, ctx.pieceCount);
    BeyondLast(ctx, count);
    if ctx.pieceCount !in files {
      assert count == ctx.pieceCount;
    } else if ctx.fileSize % ctx.pieceSize == 0 {
      JoinedBeyond(ctx, files, count);
    } else if ctx.pieceCount < count {
      JoinedGrows(ctx, files, ctx.pieceCount + 1, count);
    }
  }
}
