/** The MAC frame byte by byte: where every field is printed, what each verdict says
    about the bytes, and what corrupted delimiters lead to. */
module MacLayout {
  import opened MacFrames
  import opened MacFrameProofs

  /** A number of two or four bytes, the low byte first. */
  function Two(s: seq<byte>, i: nat): nat
    requires i + 2 <= |s|
  {
    s[i] as int + 0x100 * s[i + 1] as int
  }

  function Four(s: seq<byte>, i: nat): nat
    requires i + 4 <= |s|
  {
    s[i] as int + 0x100 * s[i + 1] as int + 0x1_0000 * s[i + 2] as int + 0x100_0000 * s[i + 3] as int
  }

  /** The number of bytes of a frame, and what its length field counts. */
  lemma FrameLength(mac: MacFrame, app: AppFrame, payload: seq<byte>)
    requires |payload| == app.len
    ensures |Packed(mac, app, payload)| == if app.len == 0 then 27 else 30 + app.len
    ensures LengthField(app.len) == (|Packed(mac, app, payload)| - 4) % 0x1_0000
  {
  }

  /** The MAC fields, each at its place: delimiter, length, sequence number, control,
      time, device, sensor and kind. */
  lemma FieldLayout(mac: MacFrame, app: AppFrame, payload: seq<byte>)
    requires |payload| == app.len
    ensures var s := Packed(mac, app, payload);
      && Two(s, 0) == mac.delimiter && Two(s, 2) == LengthField(app.len) && Two(s, 4) == mac.seqId
      && Two(s, 6) == mac.ctl && Four(s, 8) == mac.time && Four(s, 12) == mac.devAdr
      && Four(s, 16) == mac.senAdr && s[20] == mac.kind
  {
    var s, m := Packed(mac, app, payload), mac.(len := LengthField(app.len));
    MacReadBack(m, s[MAC_SIZE..]);
    assert s == MacBytes(m) + s[MAC_SIZE..];
    FieldsOfMac(s);
  }

  /** The reader takes the MAC fields from those places. */
  lemma FieldsOfMac(s: seq<byte>)
    requires |s| >= HEADER_SIZE
    ensures MacOf(s)
         == MacFrame(Two(s, 0), Two(s, 2), Two(s, 4), Two(s, 6), Four(s, 8), Four(s, 12), Four(s, 16), s[20])
    ensures AppOf(s) == AppFrame(s[21], s[22], s[23], Two(s, 24))
  {
  }

  /** What follows: with a payload function, sum, index, length and payload, without
      one function and sum; then the sum of all bytes so far, and the end delimiter. */
  lemma AppLayout(mac: MacFrame, app: AppFrame, payload: seq<byte>)
    requires |payload| == app.len && |Packed(mac, app, payload)| <= 0xFFFF
    ensures var s := Packed(mac, app, payload);
      var n := |s|;
      && s[21] == app.fun && s[22] == app.sum
      && (app.len > 0 ==> s[23] == app.idex && Two(s, 24) == app.len && s[26..n - 4] == payload)
      && Two(s, n - 4) == SumOf(s[..n - 4]) % 0x1_0000
      && s[n - 2] == 0x55 && s[n - 1] == 0xAA
  {
    TrailerOfPacked(mac, app, payload, []);
    var s := Packed(mac, app, payload);
    assert s + [] == s;
    assert s[21] == AppBytes(app, payload)[0] && s[22] == AppBytes(app, payload)[1];
    if app.len > 0 {
      FieldsOfPacked(mac, app, payload, []);
      FieldsOfMac(s);
    }
  }

  /** The checksum is the plain sum of the bytes. */
  lemma {:induction false} SumAddsUp(s: seq<byte>, t: seq<byte>)
    ensures SumOf(s + t) == SumOf(s) + SumOf(t)
  {
    if t == [] {
      assert s + t == s;
    } else {
      var n := |t| - 1;
      SumAddsUp(s, t[..n]);
      assert (s + t)[..|s + t| - 1] == s + t[..n];
    }
  }

  lemma SumOfOne(b: byte)
    ensures SumOf([b]) == b
  {
    assert [b][..0] == [];
  }

  /** What each verdict says about the bytes, in the order of the tests: -1 both start
      bytes wrong, -2 both end bytes, -4 the length field, -3 the checksum. */
  lemma VerdictByBytes(s: seq<byte>, len: nat)
    requires 2 <= len <= |s| && 6 <= |s|
    ensures var code := Verdict(s, len);
      var start, end := s[0] != 0xA5 && s[1] != 0x5A, s[len - 2] != 0x55 && s[len - 1] != 0xAA;
      && code in {0, -1, -2, -3, -4}
      && (code == -1 <==> start)
      && (code == -2 <==> !start && end)
      && (code == -4 <==> !start && !end && Two(s, 2) != len - 4)
      && (code == -3 <==> !start && !end && Two(s, 2) == len - 4 && Two(s, len - 4) != SumOf(s[..len - 4]) % 0x1_0000)
  {
  }

  /** A printed frame with both bytes of a delimiter changed is refused, for the start
      delimiter with -1, for the end delimiter with -2. */
  lemma DelimiterCorruption(mac: MacFrame, app: AppFrame, payload: seq<byte>, b: byte, c: byte)
    requires |payload| == app.len && FrameSize(app.len) <= 0xFFFF && mac.delimiter == 0x5AA5
    ensures var s := Packed(mac, app, payload);
      var n := |s|;
      && (b != s[0] && c != s[1] ==> Verdict(s[0 := b][1 := c], n) == -1)
      && (b != s[n - 2] && c != s[n - 1] ==> Verdict(s[n - 2 := b][n - 1 := c], n) == -2)
  {
    WholeDelimiters(mac, app, payload);
  }
}
