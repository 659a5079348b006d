/** Printing and reading MAC frames are inverse, and what a corrupted frame
    looks like to the reader. */
module MacFrameProofs {
  import opened MacFrames

  lemma WordOfBytes(s: seq<byte>, i: nat)
    requires i + 2 <= |s|
    ensures WordBytes(LdWord(s, i)) == [s[i], s[i + 1]]
  {
  }

  lemma Halves(low: word, high: word)
    ensures (low + 0x1_0000 * high) % 0x1_0000 == low && (low + 0x1_0000 * high) / 0x1_0000 == high
  {
  }

  lemma DwordOfBytes(s: seq<byte>, i: nat)
    requires i + 4 <= |s|
    ensures DwordBytes(LdDword(s, i)) == [s[i], s[i + 1], s[i + 2], s[i + 3]]
  {
    Halves(LdWord(s, i), LdWord(s, i + 2));
    WordOfBytes(s, i);
    WordOfBytes(s, i + 2);
  }

  // ----- The MAC part -----

  lemma MacReadBack(m: MacFrame, rest: seq<byte>)
    requires MAC_SIZE + |rest| >= HEADER_SIZE
    ensures MacOf(MacBytes(m) + rest) == m
  {
  }

  lemma MacPrintBack(s: seq<byte>)
    requires |s| >= HEADER_SIZE
    ensures MacBytes(MacOf(s)) == s[..MAC_SIZE]
  {
    WordOfBytes(s, 0);
    WordOfBytes(s, 2);
    WordOfBytes(s, 4);
    WordOfBytes(s, 6);
    DwordOfBytes(s, 8);
    DwordOfBytes(s, 12);
    DwordOfBytes(s, 16);
    assert MacBytes(MacOf(s))
        == [s[0], s[1]] + [s[2], s[3]] + [s[4], s[5]] + [s[6], s[7]]
         + [s[8], s[9], s[10], s[11]] + [s[12], s[13], s[14], s[15]]
         + [s[16], s[17], s[18], s[19]] + [s[20]];
  }

  // ----- Reading what was printed -----

  /** A frame whose start delimiter passes and whose length fits 16 bits is
      accepted, whatever follows it in the buffer. Every MAC field comes back,
      the length being the one that packing computes; with a payload every
      application field and the payload come back too, without one only the
      function and the sum do. */
  lemma UnpackOfPack(mac: MacFrame, app: AppFrame, payload: seq<byte>, rest: seq<byte>)
    requires |payload| == app.len && FrameSize(app.len) <= 0xFFFF
    requires mac.delimiter % 0x100 == START_DELIMITER % 0x100 || mac.delimiter / 0x100 == START_DELIMITER / 0x100
    ensures var s := Packed(mac, app, payload) + rest;
      && Verdict(s, FrameSize(app.len)) == 0
      && MacOf(s) == mac.(len := FrameSize(app.len) - 4)
      && (app.len > 0 ==> AppOf(s) == app && s[HEADER_SIZE..HEADER_SIZE + app.len] == payload)
      && (app.len == 0 ==> AppOf(s).fun == app.fun && AppOf(s).sum == app.sum)
  {
    FieldsOfPacked(mac, app, payload, rest);
    TrailerOfPacked(mac, app, payload, rest);
    var s := Packed(mac, app, payload) + rest;
    assert s[0] == mac.delimiter % 0x100 && s[1] == mac.delimiter / 0x100;
    assert LdWord(s, 2) == FrameSize(app.len) - 4;
  }

  lemma FieldsOfPacked(mac: MacFrame, app: AppFrame, payload: seq<byte>, rest: seq<byte>)
    requires |payload| == app.len && FrameSize(app.len) <= 0xFFFF
    ensures var s := Packed(mac, app, payload) + rest;
      && |s| >= HEADER_SIZE
      && MacOf(s) == mac.(len := FrameSize(app.len) - 4)
      && LdWord(s, 2) == FrameSize(app.len) - 4
      && s[0] == mac.delimiter % 0x100 && s[1] == mac.delimiter / 0x100
      && (app.len > 0 ==> AppOf(s) == app && s[HEADER_SIZE..HEADER_SIZE + app.len] == payload)
      && (app.len == 0 ==> AppOf(s).fun == app.fun && AppOf(s).sum == app.sum)
  {
    var m := mac.(len := LengthField(app.len));
    var packed := Packed(mac, app, payload);
    var s, behind := packed + rest, AppBytes(app, payload) + packed[|Body(mac, app, payload)|..] + rest;
    MacReadBack(m, behind);
    assert s == MacBytes(m) + behind;
    if app.len > 0 {
      assert s[24] == app.len % 0x100 && s[25] == app.len / 0x100;
    }
  }

  lemma TrailerOfPacked(mac: MacFrame, app: AppFrame, payload: seq<byte>, rest: seq<byte>)
    requires |payload| == app.len && FrameSize(app.len) <= 0xFFFF
    ensures var s, n := Packed(mac, app, payload) + rest, FrameSize(app.len);
      && LdWord(s, n - 4) == Sum16(s[..n - 4])
      && s[n - 2] == END_DELIMITER % 0x100 && s[n - 1] == END_DELIMITER / 0x100
  {
    var n, body := FrameSize(app.len), Body(mac, app, payload);
    var s, sum := Packed(mac, app, payload) + rest, Sum16(body);
    ShortPacked(mac, app, payload);
    assert s[..n - 4] == body;
    assert s[n - 4] == sum % 0x100 && s[n - 3] == sum / 0x100;
  }

  // ----- Printing what was read -----

  lemma BodyOfUnpack(s: seq<byte>, len: word)
    requires 30 <= len <= |s|
    requires LdWord(s, 2) == len - 4 && 0 < AppOf(s).len == len - 30
    ensures Body(MacOf(s), AppOf(s), s[HEADER_SIZE..len - 4]) == s[..len - 4]
  {
    var mac, app, payload := MacOf(s), AppOf(s), s[HEADER_SIZE..len - 4];
    MacPrintBack(s);
    WordOfBytes(s, 24);
    assert mac.(len := LengthField(app.len)) == mac;
    assert AppBytes(app, payload) == [s[21], s[22], s[23]] + [s[24], s[25]] + payload;
    assert AppBytes(app, payload) == s[MAC_SIZE..len - 4];
  }

  lemma EndDecides(t: seq<byte>, front: seq<byte>, w: word)
    requires |t| == |front| + 2 && t[..|front|] == front
    ensures front + WordBytes(w) == t
      <==> t[|front|] == w % 0x100 && t[|front| + 1] == w / 0x100
  {
  }

  /** The checksum of a frame within 16 bits covers all of its body. */
  lemma ShortPacked(mac: MacFrame, app: AppFrame, payload: seq<byte>)
    requires |payload| == app.len && FrameSize(app.len) <= 0xFFFF
    ensures var body := Body(mac, app, payload);
      Packed(mac, app, payload) == body + WordBytes(Sum16(body)) + WordBytes(END_DELIMITER)
  {
    var body := Body(mac, app, payload);
    assert |body| % 0x1_0000 == |body|;
    assert body[..|body|] == body;
  }

  lemma RepackedFrame(s: seq<byte>, len: word)
    requires 30 <= len <= |s|
    requires LdWord(s, 2) == len - 4 && 0 < AppOf(s).len == len - 30
    requires LdWord(s, len - 4) == Sum16(s[..len - 4])
    ensures Packed(MacOf(s), AppOf(s), s[HEADER_SIZE..len - 4]) == s[..len - 2] + WordBytes(END_DELIMITER)
  {
    BodyOfUnpack(s, len);
    WordOfBytes(s, len - 4);
    var body := s[..len - 4];
    ShortPacked(MacOf(s), AppOf(s), s[HEADER_SIZE..len - 4]);
    assert s[..len - 2] == body + [s[len - 4], s[len - 3]];
  }

  /** An accepted frame whose application length matches its size is reproduced
      byte for byte by packing the fields read from it, exactly when its end
      delimiter is whole: the reader lets a half-wrong one pass. */
  lemma PackOfUnpack(s: seq<byte>, len: word)
    requires 2 <= len <= |s| && HEADER_SIZE <= |s|
    requires Verdict(s, len) == 0 && 0 < AppOf(s).len == len - 30
    ensures Packed(MacOf(s), AppOf(s), s[HEADER_SIZE..len - 4]) == s[..len]
      <==> s[len - 2] == END_DELIMITER % 0x100 && s[len - 1] == END_DELIMITER / 0x100
  {
    RepackedFrame(s, len);
    assert s[..len][..len - 2] == s[..len - 2];
    EndDecides(s[..len], s[..len - 2], END_DELIMITER);
  }

  /** Two frames with payloads that print alike are alike, except for the length
      field of the MAC struct, which packing overwrites. */
  lemma PackIsInjective(
    mac: MacFrame, app: AppFrame, payload: seq<byte>,
    mac': MacFrame, app': AppFrame, payload': seq<byte>)
    requires |payload| == app.len > 0 && |payload'| == app'.len > 0
    requires Packed(mac, app, payload) == Packed(mac', app', payload')
    ensures mac.(len := 0) == mac'.(len := 0) && app == app' && payload == payload'
  {
    HeaderReadBack(mac, app, payload);
    HeaderReadBack(mac', app', payload');
  }

  /** The header and payload of a printed frame, whatever its delimiter and even
      if its length does not fit 16 bits. */
  lemma HeaderReadBack(mac: MacFrame, app: AppFrame, payload: seq<byte>)
    requires |payload| == app.len > 0
    ensures var s := Packed(mac, app, payload);
      && MacOf(s) == mac.(len := LengthField(app.len)) && AppOf(s) == app
      && s[HEADER_SIZE..|s| - TRAILER_SIZE] == payload
  {
    var m := mac.(len := LengthField(app.len));
    var body := Body(mac, app, payload);
    var s := Packed(mac, app, payload);
    MacReadBack(m, AppBytes(app, payload) + s[|body|..]);
    assert s == MacBytes(m) + (AppBytes(app, payload) + s[|body|..]);
    assert s[24] == app.len % 0x100 && s[25] == app.len / 0x100;
  }

  // ----- Corrupted frames -----

  /** Changing one byte changes the checksum. */
  lemma {:induction false} SumOfChange(s: seq<byte>, i: nat, b: byte)
    requires i < |s|
    ensures SumOf(s[i := b]) == SumOf(s) - s[i] + b
  {
    var n := |s| - 1;
    if i < n {
      SumOfChange(s[..n], i, b);
      assert s[i := b][..n] == s[..n][i := b];
    } else {
      assert s[i := b][..n] == s[..n];
    }
  }

  lemma Sum16OfChange(s: seq<byte>, i: nat, b: byte)
    requires i < |s| && s[i] != b
    ensures Sum16(s[i := b]) != Sum16(s)
  {
    SumOfChange(s, i, b);
  }

  /** A printed frame with one byte changed is refused, with the length error
      for a byte of the length field and the checksum error elsewhere, unless
      that byte belongs to the end delimiter: such a frame is accepted. */
  lemma OneByteCorruption(mac: MacFrame, app: AppFrame, payload: seq<byte>, i: nat, b: byte)
    requires |payload| == app.len && FrameSize(app.len) <= 0xFFFF
    requires mac.delimiter == START_DELIMITER
    requires i < FrameSize(app.len) && Packed(mac, app, payload)[i] != b
    ensures var n := FrameSize(app.len);
      Verdict(Packed(mac, app, payload)[i := b], n)
        == if i >= n - 2 then 0 else if i == 2 || i == 3 then -4 else -3
  {
    var n := FrameSize(app.len);
    var s := Packed(mac, app, payload);
    UnpackOfPack(mac, app, payload, []);
    assert s + [] == s;
    WholeDelimiters(mac, app, payload);
    var t := s[i := b];
    if i < n - 4 {
      assert t[..n - 4] == s[..n - 4][i := b];
      Sum16OfChange(s[..n - 4], i, b);
    } else {
      assert t[..n - 4] == s[..n - 4];
    }
  }

  lemma WholeDelimiters(mac: MacFrame, app: AppFrame, payload: seq<byte>)
    requires |payload| == app.len && mac.delimiter == START_DELIMITER
    ensures var s := Packed(mac, app, payload);
      && s[0] == START_DELIMITER % 0x100 && s[1] == START_DELIMITER / 0x100
      && s[|s| - 2] == END_DELIMITER % 0x100 && s[|s| - 1] == END_DELIMITER / 0x100
  {
  }
}
