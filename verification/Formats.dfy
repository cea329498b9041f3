/** The byte formats on literal examples: one frame for each kind of message, one text for each kind of value. */
module Formats {
  import opened Bytes
  import opened Bencode
  import Decimal
  import TorrentFile
  import Wire

  // ---------- the wire ----------

  lemma FlagFrames()
    ensures Wire.Send(Wire.Choke) == [0, 0, 0, 1, 0]
    ensures Wire.Send(Wire.Unchoke) == [0, 0, 0, 1, 1]
    ensures Wire.Send(Wire.Interested) == [0, 0, 0, 1, 2]
    ensures Wire.Send(Wire.NotInterested) == [0, 0, 0, 1, 3]
    ensures Wire.Send(Wire.Keepalive) == []
  {
  }

  lemma RequestFrame()
    ensures Wire.Send(Wire.Request(1, 0x4000, 0x2000)) == [0, 0, 0, 13, 6, 0, 0, 0, 1, 0, 0, 0x40, 0, 0, 0, 0x20, 0]
  {
    assert Wire.BigEndian32(0x4000) == [0, 0, 0x40, 0] && Wire.BigEndian32(0x2000) == [0, 0, 0x20, 0];
  }

  lemma CancelFrame()
    ensures Wire.Send(Wire.Cancel(1, 0x4000, 0x2000)) == [0, 0, 0, 13, 8, 0, 0, 0, 1, 0, 0, 0x40, 0, 0, 0, 0x20, 0]
  {
    assert Wire.BigEndian32(0x4000) == [0, 0, 0x40, 0] && Wire.BigEndian32(0x2000) == [0, 0, 0x20, 0];
  }

  lemma PieceFrame()
    ensures Wire.Send(Wire.Piece(1, 2, [7, 8])) == [0, 0, 0, 11, 7, 0, 0, 0, 1, 0, 0, 0, 2, 7, 8]
  {
  }

  lemma OtherFrames()
    ensures Wire.Send(Wire.Have(0x01020304)) == [0, 0, 0, 5, 4, 1, 2, 3, 4]
    ensures Wire.Send(Wire.BitField([0x80, 1])) == [0, 0, 0, 3, 5, 0x80, 1]
    ensures Wire.Send(Wire.Port(6881)) == [0, 0, 0, 3, 9, 0x1a, 0xe1]
  {
  }

  /** Four zero bytes are a keepalive; ids past the last one are unknown; a short frame is rejected. */
  lemma ReadFrames(host: Wire.Endian)
    ensures Wire.ReadMessage(host, [0, 0, 0, 0]) == Wire.Got(Wire.Ok(Wire.Keepalive), 4)
    ensures Wire.ReadMessage(host, [0, 0, 0, 1, 10]) == Wire.Got(Wire.Rejected(Wire.UnknownId), 5)
    ensures Wire.ReadMessage(host, [0, 0, 0, 2, 4, 0]) == Wire.Got(Wire.Rejected(Wire.LengthMismatch), 6)
  {
    ReadFrame(host, [], [0, 0, 0, 0]);
    ReadFrame(host, [10], [0, 0, 0, 1, 10]);
    ReadFrame(host, [4, 0], [0, 0, 0, 2, 4, 0]);
  }

  lemma ReadFrame(host: Wire.Endian, body: Wire.Body, frame: seq<byte>)
    requires frame == [0, 0, 0, |body|] + body && |body| < 256
    ensures Wire.ReadMessage(host, frame) == Wire.Got(Wire.Meaning(body), 4 + |body|)
  {
    assert Wire.BigEndian32(|body|) == [0, 0, 0, |body|];
    assert frame == Wire.Frame(body) + [];
    Wire.ReadsOneFrame(host, body, []);
  }

  // ---------- bencode ----------

  lemma ShortNumbers()
    ensures Decimal.ToString(0) == [48] && Decimal.ToString(-7) == [45, 55]
  {
  }

  lemma LongNumber()
    ensures Decimal.ToString(12345) == [49, 50, 51, 52, 53]
  {
    assert Decimal.Print(123) == [49, 50, 51];
  }

  /** The texts i-42e, 4:spam, li1e0:e and d1:ai0e2:bblee. */
  lemma Texts()
    ensures Encode(Int(-42)) == [105, 45, 52, 50, 101]
    ensures Encode(Str([115, 112, 97, 109])) == [52, 58, 115, 112, 97, 109]
    ensures Encode(List([Int(1), Str([])])) == [108, 105, 49, 101, 48, 58, 101]
    ensures Encode(Dict([Entry([97], Int(0)), Entry([98, 98], List([]))]))
      == [100, 49, 58, 97, 105, 48, 101, 50, 58, 98, 98, 108, 101, 101]
  {
    assert Decimal.ToString(-42) == [45, 52, 50];
    ListText();
    DictText();
  }

  lemma ListText()
    ensures Encode(List([Int(1), Str([])])) == [108, 105, 49, 101, 48, 58, 101]
  {
    var items := [Int(1), Str([])];
    assert items[1..] == [Str([])] && items[2..] == [];
    assert EncodeItems(items[2..]) == [];
    assert EncodeItems(items[1..]) == [48, 58];
    assert Encode(items[0]) == [105, 49, 101];
  }

  lemma DictText()
    ensures Encode(Dict([Entry([97], Int(0)), Entry([98, 98], List([]))]))
      == [100, 49, 58, 97, 105, 48, 101, 50, 58, 98, 98, 108, 101, 101]
  {
    var entries := [Entry([97], Int(0)), Entry([98, 98], List([]))];
    assert entries[1..] == [Entry([98, 98], List([]))] && entries[1..][1..] == [];
    assert EncodeEntries(entries[1..]) == [50, 58, 98, 98, 108, 101];
    assert Encode(Int(0)) == [105, 48, 101];
  }

  /** Keys are ordered by their first differing byte, and a prefix comes first. */
  lemma KeyOrder()
    ensures Less([97], [98]) && !Less([98], [97, 97])
    ensures Less([97], [97, 0]) && Less([], [0]) && Less([97, 255], [98, 0])
  {
  }

  lemma InfoKey()
    ensures TorrentFile.Ascii("info") == [105, 110, 102, 111]
    ensures TorrentFile.Ascii("piece length") == [112, 105, 101, 99, 101, 32, 108, 101, 110, 103, 116, 104]
  {
  }
}
