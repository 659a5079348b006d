/** The logging stream: the fixed buffer behind it, its insertion operators, and
    what any sequence of insertions leaves in the buffer. */
module Logging {
  import opened Numerals
  import opened Formatting
  import opened Wrappers

  const SMALL_BUFFER: nat := 200
  const MAX_NUMERIC_SIZE: nat := 32

  // ----- What is inserted, and what a sequence of insertions means -----

  /** One insertion. A double stands for the text that the C library renders it
      to; a text is any run of characters (C string, string or string piece). */
  datatype Item =
    | Flag(b: bool)
    | Character(c: char)
    | Text(s: string)
    | Integer(v: int)
    | Pointer(p: nat)
    | Double(rendering: string)
  {
    function Render(): string {
      match this
      case Flag(b) => if b then "1" else "0"
      case Character(c) => [c]
      case Text(s) => s
      case Integer(v) => Decimal(v)
      case Pointer(p) => "0x" + Numeral(p, Sixteen)
      case Double(rendering) => rendering
    }

    /** Values the operators exist for: integers and pointers of at most 64
        bits, and doubles that render within the numeric size. */
    predicate Supported() {
      match this
      case Integer(v) => -0x8000_0000_0000_0000 <= v <= 0xFFFF_FFFF_FFFF_FFFF
      case Pointer(p) => p <= 0xFFFF_FFFF_FFFF_FFFF
      case Double(rendering) => |rendering| < MAX_NUMERIC_SIZE
      case _ => true
    }

    /** The operators' own tests: text must leave a byte over, a number needs
        the whole numeric size whatever its text turns out to be. */
    predicate AcceptedWith(free: int) {
      match this
      case Integer(_) => free >= MAX_NUMERIC_SIZE
      case Pointer(_) => free >= MAX_NUMERIC_SIZE
      case Double(_) => free >= MAX_NUMERIC_SIZE
      case _ => free > |Render()|
    }
  }

  /** One insertion into a buffer of the given size: all of it or nothing. */
  function Insert(contents: string, item: Item, size: nat): string {
    if item.AcceptedWith(size - |contents|) then contents + item.Render() else contents
  }

  /** What a sequence of insertions leaves in an empty buffer. */
  function Logged(items: seq<Item>, size: nat): string {
    if items == [] then "" else
    Insert(Logged(items[..|items| - 1], size), items[|items| - 1], size)
  }

  /** The renderings of the selected items, concatenated in order. */
  function Joined(items: seq<Item>, keep: seq<bool>): string
    requires |keep| == |items|
  {
    if items == [] then "" else
    Joined(items[..|items| - 1], keep[..|keep| - 1])
      + if keep[|keep| - 1] then items[|items| - 1].Render() else ""
  }

  function TotalLength(items: seq<Item>): nat {
    if items == [] then 0 else TotalLength(items[..|items| - 1]) + |items[|items| - 1].Render()|
  }

  /** What every rendering says: a flag is the number 1 for true and 0 for false, a
      number or a pointer is read back from its text, and text stands for itself. */
  lemma RenderingReadsBack(item: Item)
    ensures item.Flag? ==> ParseInt(item.Render()) == Some(if item.b then 1 else 0)
    ensures item.Integer? ==> ParseInt(item.Render()) == Some(item.v) && CanonicalInt(item.Render())
    ensures item.Pointer? ==>
      var text := item.Render();
      && |text| >= 3 && text[0] == '0' && text[1] == 'x'
      && ParseNat(text[2..], Sixteen) == Some(item.p) && Canonical(text[2..], Sixteen)
    ensures item.Character? ==> |item.Render()| == 1 && item.Render()[0] == item.c
    ensures item.Text? ==> item.Render() == item.s
  {
    match item
    case Integer(v) => DecimalRoundTrip(v);
    case Pointer(p) =>
      NumeralRoundTrip(p, Sixteen);
      assert item.Render()[2..] == Numeral(p, Sixteen);
    case _ =>
  }

  /** What is accepted: text that leaves room for a terminator, and a number when 32
      bytes are left. What is not changes nothing. */
  lemma AcceptedExactly(contents: string, item: Item, size: nat)
    requires |contents| <= size
    ensures var numeric := item.Integer? || item.Pointer? || item.Double?;
      var fits := if numeric then |contents| + 32 <= size else |contents| + |item.Render()| + 1 <= size;
      Insert(contents, item, size) == if fits then contents + item.Render() else contents
  {
  }

  /** No rendering of a number, and no terminator after it, outgrows the space
      that the operators insist on. */
  lemma NumberFits(item: Item)
    requires item.Supported()
    requires item.Integer? || item.Pointer? || item.Double?
    ensures |item.Render()| < MAX_NUMERIC_SIZE
  {
    match item
    case Integer(v) => DecimalLength(v);
    case Pointer(p) => HexLength(p);
    case Double(_) =>
  }

  /** An insertion into a buffer with a free byte leaves a free byte. */
  lemma InsertKeepsRoom(contents: string, item: Item, size: nat)
    requires |contents| < size && item.Supported()
    ensures |Insert(contents, item, size)| < size
  {
    if item.Integer? || item.Pointer? || item.Double? {
      NumberFits(item);
    }
  }

  /** Over any sequence of insertions at least one byte stays free. */
  lemma {:induction false} LogKeepsRoom(items: seq<Item>, size: nat)
    requires 0 < size
    requires forall i :: 0 <= i < |items| ==> items[i].Supported()
    ensures |Logged(items, size)| < size
  {
    if items != [] {
      LogKeepsRoom(items[..|items| - 1], size);
      InsertKeepsRoom(Logged(items[..|items| - 1], size), items[|items| - 1], size);
    }
  }

  /** Which items of a sequence are accepted: those whose own test passes on the
      space left at their turn. */
  function Kept(items: seq<Item>, size: nat): (keep: seq<bool>)
    ensures |keep| == |items|
  {
    if items == [] then []
    else
      var front := items[..|items| - 1];
      Kept(front, size) + [items[|items| - 1].AcceptedWith(size - |Logged(front, size)|)]
  }

  /** The buffer holds exactly the concatenation, in order, of the renderings
      that were accepted: each of them whole, the others not at all. */
  lemma {:induction false} LogIsSubsequence(items: seq<Item>, size: nat)
    ensures Logged(items, size) == Joined(items, Kept(items, size))
  {
    if items != [] {
      var front, keep := items[..|items| - 1], Kept(items, size);
      LogIsSubsequence(front, size);
      assert keep[..|keep| - 1] == Kept(front, size);
    }
  }

  /** A log whose renderings leave a numeric size to spare loses nothing. */
  lemma {:induction false} LogIsLossless(items: seq<Item>, size: nat)
    requires TotalLength(items) + MAX_NUMERIC_SIZE <= size
    ensures Logged(items, size) == Joined(items, seq(|items|, i => true))
    ensures |Logged(items, size)| == TotalLength(items)
  {
    if items != [] {
      var n := |items| - 1;
      LogIsLossless(items[..n], size);
      assert seq(|items|, i => true)[..n] == seq(n, i => true);
    }
  }

  /** The numbers in a log can be read back: whatever integer is accepted, the
      characters it added parse to it. */
  lemma AcceptedIntegerReadsBack(items: seq<Item>, v: int, size: nat)
    requires size - |Logged(items, size)| >= MAX_NUMERIC_SIZE
    ensures var before, after := Logged(items, size), Logged(items + [Integer(v)], size);
      before <= after && ParseInt(after[|before|..]) == Some(v)
  {
    var all := items + [Integer(v)];
    assert all[..|all| - 1] == items;
    DecimalRoundTrip(v);
  }

  // ----- The fixed buffer -----

  class FixedBuffer {
    const data: array<char>
    var cur: nat

    /** The cursor stays inside the buffer, so a terminator always fits. */
    ghost predicate Valid()
      reads this
    {
      cur < data.Length
    }

    ghost function Contents(): (s: string)
      requires Valid()
      reads this, data
      ensures |s| == cur
    {
      data[..cur]
    }

    constructor (size: nat)
      requires 0 < size
      ensures Valid() && fresh(data) && data.Length == size && Contents() == ""
    {
      data := new char[size];
      cur := 0;
    }

    function Avail(): (free: int)
      requires Valid()
      reads this
      ensures 1 <= free <= data.Length
    {
      data.Length - cur
    }

    method Append(text: string)
      requires Valid()
      modifies this, data
      ensures Valid()
      ensures Contents() == if old(Avail()) > |text| then old(Contents()) + text else old(Contents())
    {
      if Avail() > |text| {
        forall k | 0 <= k < |text| {
          data[cur + k] := text[k];
        }
        cur := cur + |text|;
      }
    }

    /** Takes over bytes that a caller wrote directly behind the cursor. */
    method Add(len: nat)
      requires Valid() && cur + len < data.Length
      modifies this
      ensures Valid() && cur == old(cur) + len
    {
      cur := cur + len;
    }

    method Reset()
      modifies this
      requires Valid()
      ensures Valid() && Contents() == ""
    {
      cur := 0;
    }

    /** Terminates the text in place; it is a C string of the contents. */
    method DebugString()
      requires Valid()
      modifies data
      ensures Valid() && Contents() == old(Contents()) && data[cur] == '\0'
    {
      data[cur] := '\0';
    }
  }

  // ----- The stream -----

  class LogStream {
    const buffer: FixedBuffer

    ghost predicate Valid()
      reads this, buffer
    {
      buffer.Valid() && buffer.data.Length == SMALL_BUFFER
    }

    ghost function Contents(): string
      requires Valid()
      reads this, buffer, buffer.data
    {
      buffer.Contents()
    }

    constructor ()
      ensures Valid() && fresh(buffer) && fresh(buffer.data)
      ensures Contents() == Logged([], SMALL_BUFFER)
    {
      buffer := new FixedBuffer(SMALL_BUFFER);
    }

    method PutFlag(b: bool)
      requires Valid()
      modifies buffer, buffer.data
      ensures Valid() && Contents() == Insert(old(Contents()), Flag(b), SMALL_BUFFER)
    {
      buffer.Append(if b then "1" else "0");
    }

    method PutCharacter(c: char)
      requires Valid()
      modifies buffer, buffer.data
      ensures Valid() && Contents() == Insert(old(Contents()), Character(c), SMALL_BUFFER)
    {
      buffer.Append([c]);
    }

    method PutText(s: string)
      requires Valid()
      modifies buffer, buffer.data
      ensures Valid() && Contents() == Insert(old(Contents()), Text(s), SMALL_BUFFER)
    {
      buffer.Append(s);
    }

    /** Every integer operator ends here. */
    method PutInteger(v: int)
      requires Valid() && Integer(v).Supported()
      modifies buffer, buffer.data
      ensures Valid() && Contents() == Insert(old(Contents()), Integer(v), SMALL_BUFFER)
    {
      if buffer.Avail() >= MAX_NUMERIC_SIZE {
        NumberFits(Integer(v));
        ghost var before := buffer.data[..];
        var len := Convert(buffer.data, buffer.cur, v);
        WrittenBehind(buffer.data[..], before, buffer.cur, Decimal(v));
        buffer.Add(len);
      }
    }

    method PutPointer(p: nat)
      requires Valid() && Pointer(p).Supported()
      modifies buffer, buffer.data
      ensures Valid() && Contents() == Insert(old(Contents()), Pointer(p), SMALL_BUFFER)
    {
      if buffer.Avail() >= MAX_NUMERIC_SIZE {
        NumberFits(Pointer(p));
        var len := WritePointer(buffer.data, buffer.cur, p);
        buffer.Add(len);
      }
    }

    /** The operator that an item stands for. */
    method Put(item: Item)
      requires Valid() && item.Supported()
      modifies buffer, buffer.data
      ensures Valid() && Contents() == Insert(old(Contents()), item, SMALL_BUFFER)
    {
      match item
      case Flag(b) => PutFlag(b);
      case Character(c) => PutCharacter(c);
      case Text(s) => PutText(s);
      case Integer(v) => PutInteger(v);
      case Pointer(p) => PutPointer(p);
      case Double(rendering) => PutDouble(rendering);
    }

    /** A chain of insertions into an empty stream. */
    method PutAll(items: seq<Item>)
      requires Valid() && Contents() == ""
      requires forall i :: 0 <= i < |items| ==> items[i].Supported()
      modifies buffer, buffer.data
      ensures Valid() && Contents() == Logged(items, SMALL_BUFFER)
      ensures Contents() == Joined(items, Kept(items, SMALL_BUFFER))
    {
      for n := 0 to |items|
        invariant Valid() && Contents() == Logged(items[..n], SMALL_BUFFER)
      {
        Put(items[n]);
        assert items[..n + 1][..n] == items[..n];
      }
      assert items[..|items|] == items;
      LogIsSubsequence(items, SMALL_BUFFER);
    }

    /** The C library writes the rendering and its terminator at the cursor. */
    method PutDouble(rendering: string)
      requires Valid() && Double(rendering).Supported()
      modifies buffer, buffer.data
      ensures Valid() && Contents() == Insert(old(Contents()), Double(rendering), SMALL_BUFFER)
    {
      if buffer.Avail() >= MAX_NUMERIC_SIZE {
        var at := buffer.cur;
        forall k | 0 <= k < |rendering| {
          buffer.data[at + k] := rendering[k];
        }
        buffer.data[at + |rendering|] := '\0';
        buffer.Add(|rendering|);
      }
    }
  }
}
