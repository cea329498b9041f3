/** What a peer's status says after any messages, read off the messages themselves. */
module PeerHistory {
  import opened Bytes
  import BitFields
  import Download
  import Wire

  // ---------- the bits of a bitfield message ----------

  /** The place value of bit `i` of a byte, the first being the highest. */
  function PlaceValue(i: nat): nat
    requires i < 8
  {
    if i == 0 then 128 else if i == 1 then 64 else if i == 2 then 32 else if i == 3 then 16
    else if i == 4 then 8 else if i == 5 then 4 else if i == 6 then 2 else 1
  }

  /** In the payload of a bitfield message, index 0 is the highest bit of the first byte. */
  predicate Offers(payload: seq<byte>, i: nat) {
    i / 8 < |payload| && payload[i / 8] as int / PlaceValue(i % 8) % 2 == 1
  }

  lemma MaskReadsPlace(b: byte, i: nat)
    requires i < 8
    ensures (BitFields.Mask(i) & (b as bv8)) > 0 <==> b as int / PlaceValue(i) % 2 == 1
  {
    MaskIs(i);
    hide BitFields.Mask;
    if i == 0 { Place0(b); } else if i == 1 { Place1(b); } else if i == 2 { Place2(b); } else if i == 3 { Place3(b); }
    else if i == 4 { Place4(b); } else if i == 5 { Place5(b); } else if i == 6 { Place6(b); } else { Place7(b); }
  }

  lemma MaskIs(i: nat)
    requires i < 8
    ensures BitFields.Mask(i) ==
      if i == 0 then 0x80 else if i == 1 then 0x40 else if i == 2 then 0x20 else if i == 3 then 0x10
      else if i == 4 then 0x08 else if i == 5 then 0x04 else if i == 6 then 0x02 else 0x01
  {
    BitFields.MaskValues(i);
    hide BitFields.Mask;
  }

  lemma Place0(b: byte)
    ensures (0x80 & (b as bv8)) > 0 <==> b / 128 % 2 == 1
  {
  }

  lemma Place1(b: byte)
    ensures (0x40 & (b as bv8)) > 0 <==> b / 64 % 2 == 1
  {
  }

  lemma Place2(b: byte)
    ensures (0x20 & (b as bv8)) > 0 <==> b / 32 % 2 == 1
  {
  }

  lemma Place3(b: byte)
    ensures (0x10 & (b as bv8)) > 0 <==> b / 16 % 2 == 1
  {
  }

  lemma Place4(b: byte)
    ensures (0x08 & (b as bv8)) > 0 <==> b / 8 % 2 == 1
  {
  }

  lemma Place5(b: byte)
    ensures (0x04 & (b as bv8)) > 0 <==> b / 4 % 2 == 1
  {
  }

  lemma Place6(b: byte)
    ensures (0x02 & (b as bv8)) > 0 <==> b / 2 % 2 == 1
  {
  }

  lemma Place7(b: byte)
    ensures (0x01 & (b as bv8)) > 0 <==> b / 1 % 2 == 1
  {
  }

  /** After a bitfield message an index reads true exactly when its bit in the payload is set. */
  lemma BitfieldSetsBits(payload: seq<byte>, i: nat)
    ensures BitFields.Get(Download.RawBits(payload), i) <==> Offers(payload, i)
  {
    if i / 8 < |payload| {
      MaskReadsPlace(payload[i / 8], i % 8);
    }
  }

  // ---------- any messages ----------

  /** The status after the messages, the last of them handled last. */
  function HandledInOrder(status: Download.PeerStatus, ms: seq<Wire.Message>): Download.PeerStatus {
    if ms == [] then status
    else Download.HandledByPeer(HandledInOrder(status, ms[..|ms| - 1]), ms[|ms| - 1])
  }

  lemma {:induction false} HandledFirst(status: Download.PeerStatus, ms: seq<Wire.Message>)
    requires ms != []
    ensures HandledInOrder(status, ms) == HandledInOrder(Download.HandledByPeer(status, ms[0]), ms[1..])
  {
    hide Download.HandledByPeer;
    var front := ms[..|ms| - 1];
    if |ms| > 1 {
      HandledFirst(status, front);
      assert front[1..] == ms[1..][..|ms| - 2];
    } else {
      assert front == [] && HandledInOrder(status, front) == status;
    }
  }

  /** Message `k` is a bitfield, or there is none and `k` is -1; none follows. */
  ghost predicate LastBitfield(ms: seq<Wire.Message>, k: int) {
    && -1 <= k < |ms| && (0 <= k ==> ms[k].BitField?)
    && forall j :: k < j < |ms| ==> !ms[j].BitField?
  }

  /** There is always one such index. */
  function LastBitfieldAt(ms: seq<Wire.Message>): (k: int)
    ensures LastBitfield(ms, k)
  {
    if ms == [] then -1
    else if ms[|ms| - 1].BitField? then |ms| - 1
    else
      assert forall j :: 0 <= j < |ms| - 1 ==> ms[..|ms| - 1][j] == ms[j];
      LastBitfieldAt(ms[..|ms| - 1])
  }

  predicate Announces(m: Wire.Message, i: nat) {
    m.Have? && m.pieceIndex == i
  }

  ghost predicate AnnouncedAfter(ms: seq<Wire.Message>, k: int, i: nat) {
    exists j :: k < j < |ms| && 0 <= j && Announces(ms[j], i)
  }

  /**
   * After any messages an index reads true exactly when a Have for it came after the last bitfield, or
   * when its bit in that bitfield was set, or, if there was none, when it read true at the start.
   */
  lemma {:induction false} BitsAfter(status: Download.PeerStatus, ms: seq<Wire.Message>, i: nat, k: int)
    requires LastBitfield(ms, k)
    ensures BitFields.Get(HandledInOrder(status, ms).remoteBitfield, i) <==>
      || AnnouncedAfter(ms, k, i)
      || if 0 <= k then Offers(ms[k].payload, i) else BitFields.Get(status.remoteBitfield, i)
    decreases |ms|
  {
    hide Offers, BitFields.Get, BitFields.Marked, Download.RawBits;
    if ms != [] {
      var front, m := ms[..|ms| - 1], ms[|ms| - 1];
      var before := HandledInOrder(status, front);
      if m.BitField? {
        assert k == |ms| - 1;
        BitfieldSetsBits(m.payload, i);
      } else {
        BitsAfter(status, front, i, k);
        assert AnnouncedAfter(ms, k, i) <==> AnnouncedAfter(front, k, i) || Announces(m, i) by {
          AnnouncedLast(ms, k, i);
        }
        if m.Have? {
          BitFields.MarkChangesOneBit(before.remoteBitfield, m.pieceIndex, true, i);
        }
      }
    }
  }

  lemma AnnouncedLast(ms: seq<Wire.Message>, k: int, i: nat)
    requires ms != [] && -1 <= k < |ms| - 1
    ensures AnnouncedAfter(ms, k, i) <==>
      AnnouncedAfter(ms[..|ms| - 1], k, i) || Announces(ms[|ms| - 1], i)
  {
    var front := ms[..|ms| - 1];
    if AnnouncedAfter(ms, k, i) {
      var j :| k < j < |ms| && 0 <= j && Announces(ms[j], i);
      assert j < |front| ==> Announces(front[j], i);
    }
    if AnnouncedAfter(front, k, i) {
      var j :| k < j < |front| && 0 <= j && Announces(front[j], i);
      assert Announces(ms[j], i);
    }
    if Announces(ms[|ms| - 1], i) {
      assert AnnouncedAfter(ms, k, i);
    }
  }

  /** After any messages the client is choked, and the peer interested, as the last word on it was. */
  lemma {:induction false} FlagsAfter(status: Download.PeerStatus, ms: seq<Wire.Message>, k: nat)
    requires k <= |ms|
    ensures
      var t := HandledInOrder(status, ms);
      && (0 < k && ms[k - 1].Choke? && NoneFrom(ms, k, true) ==> t.selfChoked)
      && (0 < k && ms[k - 1].Unchoke? && NoneFrom(ms, k, true) ==> !t.selfChoked)
      && (0 < k && ms[k - 1].Interested? && NoneFrom(ms, k, false) ==> t.remoteInterested)
      && (0 < k && ms[k - 1].NotInterested? && NoneFrom(ms, k, false) ==> !t.remoteInterested)
      && (NoneFrom(ms, 0, true) ==> t.selfChoked == status.selfChoked)
      && (NoneFrom(ms, 0, false) ==> t.remoteInterested == status.remoteInterested)
    decreases |ms|
  {
    hide BitFields.Marked, Download.RawBits;
    if ms != [] {
      var front := ms[..|ms| - 1];
      FlagsAfter(status, front, if k < |ms| then k else 0);
      assert forall j, chokes: bool :: 0 <= j < |ms| && NoneFrom(ms, j, chokes) ==> NoneFrom(front, j, chokes);
    }
  }

  /** From index `k` on no message speaks of choking, or of interest. */
  ghost predicate NoneFrom(ms: seq<Wire.Message>, k: nat, choking: bool) {
    forall j :: k <= j < |ms| ==>
      if choking then !ms[j].Choke? && !ms[j].Unchoke? else !ms[j].Interested? && !ms[j].NotInterested?
  }
}
