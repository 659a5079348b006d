/** The raw MAC frame: how `pack` prints a frame into a buffer, what `unpack`
    accepts and reads back, and what the checksum protects. */
module MacFrames {

  type byte = x: int | 0 <= x < 0x100
  type word = x: int | 0 <= x < 0x1_0000
  type dword = x: int | 0 <= x < 0x1_0000_0000

  const START_DELIMITER: word := 0x5AA5
  const END_DELIMITER: word := 0xAA55

  const MAC_SIZE: nat := 21       // delimiter, length and 17 further bytes
  const HEADER_SIZE: nat := 26    // MAC part, function, sum, index, length
  const SHORT_SIZE: nat := 23     // MAC part, function, sum
  const TRAILER_SIZE: nat := 4    // checksum, end delimiter

  // ----- Words in memory, low byte first -----

  function LdWord(s: seq<byte>, at: nat): word
    requires at + 2 <= |s|
  {
    s[at] as int + 0x100 * (s[at + 1] as int)
  }

  function LdDword(s: seq<byte>, at: nat): dword
    requires at + 4 <= |s|
  {
    LdWord(s, at) as int + 0x1_0000 * (LdWord(s, at + 2) as int)
  }

  /** A double word stored to a 16-bit variable keeps its low word. */
  function Truncated(s: seq<byte>, at: nat): (w: word)
    requires at + 4 <= |s|
    ensures w == LdWord(s, at)
  {
    LdDword(s, at) % 0x1_0000
  }

  function WordBytes(w: word): seq<byte> {
    [w % 0x100, w / 0x100]
  }

  function DwordBytes(d: dword): seq<byte> {
    WordBytes(d % 0x1_0000) + WordBytes(d / 0x1_0000)
  }

  // ----- Frames -----

  datatype MacFrame = MacFrame(
    delimiter: word, len: word, seqId: word, ctl: word,
    time: dword, devAdr: dword, senAdr: dword, kind: byte)

  datatype AppFrame = AppFrame(fun: byte, sum: byte, idex: byte, len: word)

  /** The memory image of the MAC struct, which has no padding before its end. */
  function MacBytes(m: MacFrame): (s: seq<byte>)
    ensures |s| == MAC_SIZE
  {
    WordBytes(m.delimiter) + WordBytes(m.len) + WordBytes(m.seqId) + WordBytes(m.ctl)
      + DwordBytes(m.time) + DwordBytes(m.devAdr) + DwordBytes(m.senAdr) + [m.kind]
  }

  function MacOf(s: seq<byte>): MacFrame
    requires |s| >= HEADER_SIZE
  {
    MacFrame(LdWord(s, 0), LdWord(s, 2), LdWord(s, 4), LdWord(s, 6),
             LdDword(s, 8), LdDword(s, 12), LdDword(s, 16), s[20])
  }

  function AppOf(s: seq<byte>): AppFrame
    requires |s| >= HEADER_SIZE
  {
    AppFrame(s[21], s[22], s[23], LdWord(s, 24))
  }

  /** The whole length of the frame for a payload length. */
  function FrameSize(len: word): nat {
    TRAILER_SIZE + if len > 0 then HEADER_SIZE + len else SHORT_SIZE
  }

  /** What the length field says: everything behind it, in 16 bits. */
  function LengthField(len: word): word {
    (FrameSize(len) - 4) % 0x1_0000
  }

  function SumOf(s: seq<byte>): nat {
    if s == [] then 0 else SumOf(s[..|s| - 1]) + s[|s| - 1]
  }

  function Sum16(s: seq<byte>): word {
    SumOf(s) % 0x1_0000
  }

  function AppBytes(app: AppFrame, payload: seq<byte>): seq<byte>
    requires |payload| == app.len
  {
    if app.len > 0 then [app.fun, app.sum, app.idex] + WordBytes(app.len) + payload
    else [app.fun, app.sum]
  }

  /** Everything that the checksum covers. */
  function Body(mac: MacFrame, app: AppFrame, payload: seq<byte>): (s: seq<byte>)
    requires |payload| == app.len
    ensures |s| == FrameSize(app.len) - TRAILER_SIZE
  {
    MacBytes(mac.(len := LengthField(app.len))) + AppBytes(app, payload)
  }

  lemma LongBody(mac: MacFrame, app: AppFrame, payload: seq<byte>)
    requires |payload| == app.len && 0 < app.len && mac.len == LengthField(app.len)
    ensures Body(mac, app, payload)
         == MacBytes(mac) + [app.fun, app.sum, app.idex] + WordBytes(app.len) + payload
  {
  }

  lemma LengthIsOverwritten(mac: MacFrame, len: word, app: AppFrame, payload: seq<byte>)
    requires |payload| == app.len
    ensures Body(mac.(len := len), app, payload) == Body(mac, app, payload)
  {
  }

  /** The printed frame. The checksum is taken over a 16-bit length. */
  function Packed(mac: MacFrame, app: AppFrame, payload: seq<byte>): (s: seq<byte>)
    requires |payload| == app.len
    ensures |s| == FrameSize(app.len)
  {
    var body := Body(mac, app, payload);
    body + WordBytes(Sum16(body[..|body| % 0x1_0000])) + WordBytes(END_DELIMITER)
  }

  // ----- What unpack accepts -----

  /** Both delimiter tests only refuse when both of their bytes are wrong. */
  predicate HeadPasses(s: seq<byte>)
    requires 2 <= |s|
  {
    s[0] == START_DELIMITER % 0x100 || s[1] == START_DELIMITER / 0x100
  }

  predicate TailPasses(s: seq<byte>, len: nat)
    requires 2 <= len <= |s|
  {
    s[len - 2] == END_DELIMITER % 0x100 || s[len - 1] == END_DELIMITER / 0x100
  }

  /** The result of unpack on the first `len` bytes of a buffer. */
  function Verdict(s: seq<byte>, len: nat): int
    requires 2 <= len <= |s| && 6 <= |s|
  {
    if !HeadPasses(s) then -1
    else if !TailPasses(s, len) then -2
    else if LdWord(s, 2) != len - 4 then -4
    else if LdWord(s, len - 4) != Sum16(s[..len - 4]) then -3
    else 0
  }

  // ----- The routines -----

  /** The struct that pack reads and unpack fills; its payload pointer may point
      into a receive buffer. */
  class FrameCtl {
    var mac: MacFrame
    var app: AppFrame
    var data: array<byte>
    var at: nat

    constructor (mac: MacFrame, app: AppFrame, data: array<byte>, at: nat)
      ensures this.mac == mac && this.app == app && this.data == data && this.at == at
    {
      this.mac, this.app, this.data, this.at := mac, app, data, at;
    }
  }

  lemma WrappedSum(a: nat, b: nat)
    ensures (a % 0x1_0000 + b) % 0x1_0000 == (a + b) % 0x1_0000
  {
  }

  /** A buffer is as it was from position k on. */
  ghost predicate SameFrom(now: seq<byte>, before: seq<byte>, k: nat) {
    |now| == |before| && forall j :: k <= j < |now| ==> now[j] == before[j]
  }

  /** A buffer that starts with a text, and is as it was behind it. */
  ghost predicate Printed(now: seq<byte>, before: seq<byte>, text: seq<byte>) {
    |text| <= |now| && now[..|text|] == text && SameFrom(now, before, |text|)
  }

  lemma PrintedOn(first: seq<byte>, second: seq<byte>, third: seq<byte>, text: seq<byte>, more: seq<byte>)
    requires Printed(second, first, text) && Printed(third, second, more) && |text| <= |more|
    ensures Printed(third, first, more)
  {
  }

  /** Copies bytes to the moving pointer, behind what is there, and returns its next
      position. */
  method CopyBytes(dst: array<byte>, at: nat, src: seq<byte>) returns (next: nat)
    requires at + |src| <= dst.Length
    modifies dst
    ensures next == at + |src|
    ensures Printed(dst[..], old(dst[..]), old(dst[..at]) + src)
  {
    forall k | 0 <= k < |src| {
      dst[at + k] := src[k];
    }
    next := at + |src|;
    assert dst[..next] == old(dst[..at]) + src;
  }

  method StWord(dst: array<byte>, at: nat, w: word)
    requires at + 2 <= dst.Length
    modifies dst
    ensures Printed(dst[..], old(dst[..]), old(dst[..at]) + WordBytes(w))
  {
    dst[at] := w % 0x100;
    dst[at + 1] := w / 0x100;
    assert dst[..at + 2] == old(dst[..at]) + WordBytes(w);
  }

  method Sum16Of(buf: array<byte>, len: nat) returns (val: word)
    requires len <= buf.Length
    ensures val == Sum16(buf[..len])
  {
    val := 0;
    for i := 0 to len
      invariant val == Sum16(buf[..i])
    {
      assert buf[..i + 1][..i] == buf[..i];
      val := (val + buf[i]) % 0x1_0000;
    }
  }

  class ProtocolMac {
    var seqId: word
    var sysTime: dword

    constructor ()
      ensures seqId == 0
    {
      seqId, sysTime := 0, 0;
    }

    /** Prints the frame at the start of the buffer. The length field of the MAC
        struct is overwritten; the result is the frame length in 16 bits. */
    method Pack(frm: FrameCtl, ptr: array<byte>, data: array<byte>, from: nat) returns (total: word)
      requires ptr != data && from + frm.app.len <= data.Length
      requires FrameSize(frm.app.len) <= ptr.Length
      modifies frm`mac, ptr
      ensures frm.mac == old(frm.mac).(len := LengthField(frm.app.len))
      ensures Printed(ptr[..], old(ptr[..]), Packed(old(frm.mac), frm.app, old(data[from..from + frm.app.len])))
      ensures total == FrameSize(frm.app.len) % 0x1_0000
    {
      ghost var mac, payload, before := frm.mac, data[from..from + frm.app.len], ptr[..];
      var at, valLen := PutBody(frm, ptr, data, from);
      ghost var body, printed := Body(mac, frm.app, payload), ptr[..];
      PutTrailer(ptr, at, valLen, body);
      PrintedOn(before, printed, ptr[..], body, Packed(mac, frm.app, payload));
      WrappedSum(at, TRAILER_SIZE);
      total := (valLen as int + TRAILER_SIZE) % 0x1_0000;
    }

    /** Both shapes of a frame up to its checksum. */
    method PutBody(frm: FrameCtl, ptr: array<byte>, data: array<byte>, from: nat) returns (at: nat, valLen: word)
      requires ptr != data && from + frm.app.len <= data.Length
      requires FrameSize(frm.app.len) <= ptr.Length
      modifies frm`mac, ptr
      ensures frm.mac == old(frm.mac).(len := LengthField(frm.app.len))
      ensures at == FrameSize(frm.app.len) - TRAILER_SIZE && valLen == at % 0x1_0000
      ensures Printed(ptr[..], old(ptr[..]), Body(old(frm.mac), frm.app, old(data[from..from + frm.app.len])))
    {
      ghost var mac, payload := frm.mac, data[from..from + frm.app.len];
      if frm.app.len > 0 {
        frm.mac := frm.mac.(len := (17 + 2 + 1 + 2 + frm.app.len + 2 + 2) % 0x1_0000);
        LengthIsOverwritten(mac, frm.mac.len, frm.app, payload);
        at := PutLongBody(frm.mac, frm.app, ptr, data, from);
        valLen := (2 + 2 + 17 + 2 + 1 + 2 + frm.app.len) % 0x1_0000;
      } else {
        frm.mac := frm.mac.(len := 17 + 2 + 2 + 2);
        LengthIsOverwritten(mac, frm.mac.len, frm.app, payload);
        assert payload == [];
        at := PutShortBody(frm.mac, frm.app, ptr);
        valLen := 2 + 2 + 17 + 2;
      }
    }

    /** The parts of a frame with a payload, written behind one another. */
    method PutLongBody(mac: MacFrame, app: AppFrame, ptr: array<byte>, data: array<byte>, from: nat)
      returns (at: nat)
      requires ptr != data && from + app.len <= data.Length
      requires 0 < app.len && HEADER_SIZE + app.len <= ptr.Length
      requires mac.len == LengthField(app.len)
      modifies ptr
      ensures at == HEADER_SIZE + app.len
      ensures Printed(ptr[..], old(ptr[..]), Body(mac, app, data[from..from + app.len]))
    {
      ghost var s0 := ptr[..];
      at := CopyBytes(ptr, 0, MacBytes(mac));
      ghost var s1, t1 := ptr[..], MacBytes(mac);
      assert Printed(s1, s0, t1);
      at := CopyBytes(ptr, at, [app.fun, app.sum, app.idex]);
      ghost var s2, t2 := ptr[..], t1 + [app.fun, app.sum, app.idex];
      PrintedOn(s0, s1, s2, t1, t2);
      at := CopyBytes(ptr, at, WordBytes(app.len));
      ghost var s3, t3 := ptr[..], t2 + WordBytes(app.len);
      PrintedOn(s0, s2, s3, t2, t3);
      at := CopyBytes(ptr, at, data[from..from + app.len]);
      PrintedOn(s0, s3, ptr[..], t3, t3 + data[from..from + app.len]);
      LongBody(mac, app, data[from..from + app.len]);
    }

    /** The parts of a frame without a payload: no index and no length. */
    method PutShortBody(mac: MacFrame, app: AppFrame, ptr: array<byte>) returns (at: nat)
      requires 0 == app.len && SHORT_SIZE <= ptr.Length
      requires mac.len == LengthField(app.len)
      modifies ptr
      ensures at == SHORT_SIZE
      ensures Printed(ptr[..], old(ptr[..]), Body(mac, app, []))
    {
      ghost var before := ptr[..];
      at := CopyBytes(ptr, 0, MacBytes(mac));
      ghost var header := ptr[..];
      assert Printed(header, before, MacBytes(mac));
      at := CopyBytes(ptr, at, [app.fun, app.sum]);
      PrintedOn(before, header, ptr[..], MacBytes(mac), MacBytes(mac) + [app.fun, app.sum]);
    }

    /** The checksum of the first `valLen` bytes and the end delimiter. */
    method PutTrailer(ptr: array<byte>, at: nat, valLen: word, ghost body: seq<byte>)
      requires at + TRAILER_SIZE <= ptr.Length && valLen == at % 0x1_0000 && body == ptr[..at]
      modifies ptr
      ensures Printed(ptr[..], old(ptr[..]),
                      body + WordBytes(Sum16(body[..valLen])) + WordBytes(END_DELIMITER))
    {
      ghost var before := ptr[..];
      var val := Sum16Of(ptr, valLen);
      assert ptr[..valLen] == body[..valLen];
      StWord(ptr, at, val);
      ghost var summed, text := ptr[..], body + WordBytes(val);
      StWord(ptr, at + 2, END_DELIMITER);
      assert summed[..at + 2] == text;
      PrintedOn(before, summed, ptr[..], text, text + WordBytes(END_DELIMITER));
    }

    /** Checks and reads a frame of `len` bytes. Nothing is written unless the
        frame is accepted; the payload pointer then points into the buffer. */
    method Unpack(pbuf: array<byte>, len: word, frm: FrameCtl) returns (code: int)
      requires 2 <= len <= pbuf.Length && 6 <= pbuf.Length
      requires Verdict(pbuf[..], len) == 0 ==> HEADER_SIZE <= pbuf.Length
      modifies this`sysTime, frm
      ensures code == Verdict(pbuf[..], len)
      ensures code != 0 ==> unchanged(frm) && unchanged(this)
      ensures code == 0 ==>
        && frm.mac == MacOf(pbuf[..]) && frm.app == AppOf(pbuf[..])
        && frm.data == pbuf && frm.at == HEADER_SIZE
        && sysTime == frm.mac.time
    {
      ghost var s := pbuf[..];
      if pbuf[0] != START_DELIMITER % 0x100 && pbuf[1] != START_DELIMITER / 0x100 {
        return -1;
      }
      if pbuf[len - 2] != END_DELIMITER % 0x100 && pbuf[len - 1] != END_DELIMITER / 0x100 {
        return -2;
      }
      var frameLen := Truncated(pbuf[..], 2);
      if frameLen != len - 4 {
        return -4;
      }
      var sum := Sum16Of(pbuf, len - 4);
      if LdWord(pbuf[..], len - 4) != sum {
        return -3;
      }
      frm.mac := frm.mac.(
        delimiter := Truncated(pbuf[..], 0),
        len := frameLen,
        seqId := Truncated(pbuf[..], 4),
        devAdr := LdDword(pbuf[..], 12),
        senAdr := LdDword(pbuf[..], 16),
        time := LdDword(pbuf[..], 8));
      sysTime := frm.mac.time;
      frm.mac := frm.mac.(ctl := LdWord(pbuf[..], 6), kind := pbuf[20]);
      frm.app := AppFrame(pbuf[21], pbuf[22], pbuf[23], LdWord(pbuf[..], 24));
      frm.data, frm.at := pbuf, HEADER_SIZE;
      return 0;
    }
  }
}
