/** Interrupt priorities of the NVIC: a preemption and a sub-priority encoded into one
    number, stored in the upper bits of a register, and compared by the hardware. */
module Nvic {
  import opened Bits
  import opened Wrappers

  /** The number of priority bits that a chip implements. */
  type Width = b: nat | 1 <= b <= 8 witness 4

  type uint32 = x: nat | x < 0x1_0000_0000

  function PreemptBits(group: uint32, bits: Width): (p: nat)
    ensures p <= bits
  {
    var g := group % 8;
    if 7 - g > bits then bits else 7 - g
  }

  function SubBits(group: uint32, bits: Width): (s: nat)
    ensures PreemptBits(group, bits) + s == bits
  {
    var g := group % 8;
    if g + bits < 7 then 0 else g - 7 + bits
  }

  /** The two parts of a priority, masked to their widths. */
  function Preempt(group: uint32, bits: Width, preempt: uint32): (p: nat)
    ensures p < Pow2(PreemptBits(group, bits))
  {
    preempt % Pow2(PreemptBits(group, bits))
  }

  function Sub(group: uint32, bits: Width, sub: uint32): (s: nat)
    ensures s < Pow2(SubBits(group, bits))
  {
    sub % Pow2(SubBits(group, bits))
  }

  /** The encoded value fits the implemented bits. */
  function EncodePriority(group: uint32, preempt: uint32, sub: uint32, bits: Width): (e: uint32)
    ensures e < Pow2(bits) && e < 256
  {
    AboveBound(Pow2(SubBits(group, bits)), Sub(group, bits, sub), Preempt(group, bits, preempt),
               Pow2(PreemptBits(group, bits)));
    Pow2Sum(PreemptBits(group, bits), SubBits(group, bits));
    Pow2Bound(bits);
    Above(Pow2(SubBits(group, bits)), Sub(group, bits, sub), Preempt(group, bits, preempt))
  }

  method DecodePriority(priority: uint32, group: uint32, bits: Width) returns (preempt: nat, sub: nat)
    ensures forall p: uint32, s: uint32 :: priority == EncodePriority(group, p, s, bits) ==>
      preempt == Preempt(group, bits, p) && sub == Sub(group, bits, s)
    ensures preempt == Decoded(priority, group, bits).0 && sub == Decoded(priority, group, bits).1
  {
    preempt := priority / Pow2(SubBits(group, bits)) % Pow2(PreemptBits(group, bits));
    sub := priority % Pow2(SubBits(group, bits));
    forall p: uint32, s: uint32 | priority == EncodePriority(group, p, s, bits)
      ensures preempt == Preempt(group, bits, p) && sub == Sub(group, bits, s)
    {
      DecodeEncoded(group, p, s, bits);
    }
  }

  function Decoded(priority: nat, group: uint32, bits: Width): (nat, nat) {
    (priority / Pow2(SubBits(group, bits)) % Pow2(PreemptBits(group, bits)), priority % Pow2(SubBits(group, bits)))
  }

  lemma DecodeEncoded(group: uint32, preempt: uint32, sub: uint32, bits: Width)
    ensures Decoded(EncodePriority(group, preempt, sub, bits), group, bits)
         == (Preempt(group, bits, preempt), Sub(group, bits, sub))
  {
    var p := Preempt(group, bits, preempt);
    Split(Pow2(SubBits(group, bits)), Sub(group, bits, sub), p);
    Small(p, Pow2(PreemptBits(group, bits)));
  }

  lemma Small(x: nat, m: nat)
    requires x < m
    ensures x % m == x && x / m == 0
  {
  }

  /** Every value of the implemented bits is the encoding of its two parts. */
  lemma EncodeDecoded(priority: nat, group: uint32, bits: Width)
    requires priority < Pow2(bits)
    ensures var (p, s) := Decoded(priority, group, bits);
      p < 256 && s < 256 && EncodePriority(group, p, s, bits) == priority
  {
    var p, s := PreemptBits(group, bits), SubBits(group, bits);
    SizeOfParts(p, s, bits);
    PartsMakeUp(priority, Pow2(s), Pow2(p), Pow2(bits));
  }

  lemma SizeOfParts(p: nat, s: nat, bits: Width)
    requires p + s == bits
    ensures Pow2(p) * Pow2(s) == Pow2(bits) && Pow2(p) <= 256 && Pow2(s) <= 256
  {
    Pow2Sum(p, s);
    Pow2Bound(p);
    Pow2Bound(s);
  }

  lemma PartsMakeUp(x: nat, m: nat, k: nat, size: nat)
    requires 0 < m && 0 < k && x < size && k * m == size
    ensures var (p, s) := (x / m % k, x % m);
      p < k && s < m && p % k == p && s % m == s && Above(m, s, p) == x
  {
    QuotientBound(x, m, k);
    Joined(m, x);
    Small(x / m, k);
    Small(x % m, m);
  }

  lemma QuotientBound(x: nat, m: nat, k: nat)
    requires 0 < m && x < k * m
    ensures x / m < k
  {
  }

  /** With four implemented bits: how the group splits them. */
  lemma WidthsOfFour(group: uint32)
    ensures var g := group % 8;
      && PreemptBits(group, 4) == (if g <= 3 then 4 else 7 - g)
      && SubBits(group, 4) == (if g <= 3 then 0 else g - 3)
  {
  }

  /** Masking a part keeps every value of its width, and drops multiples of it. */
  lemma PartsAreMasked(group: uint32, bits: Width, x: uint32, k: nat)
    ensures var m := Pow2(PreemptBits(group, bits));
      && (x < m ==> Preempt(group, bits, x) == x)
      && (Above(m, x, k) < 0x1_0000_0000 && x < m ==> Preempt(group, bits, Above(m, x, k)) == x)
    ensures var m := Pow2(SubBits(group, bits));
      && (x < m ==> Sub(group, bits, x) == x)
      && (Above(m, x, k) < 0x1_0000_0000 && x < m ==> Sub(group, bits, Above(m, x, k)) == x)
  {
    var m, n := Pow2(PreemptBits(group, bits)), Pow2(SubBits(group, bits));
    if x < m { Small(x, m); Split(m, x, k); }
    if x < n { Small(x, n); Split(n, x, k); }
  }

  /** Encoded values compare as their parts do: preemption first, then the sub-priority. */
  lemma EncodedOrder(group: uint32, p1: uint32, s1: uint32, p2: uint32, s2: uint32, bits: Width)
    ensures EncodePriority(group, p1, s1, bits) < EncodePriority(group, p2, s2, bits) <==>
      || Preempt(group, bits, p1) < Preempt(group, bits, p2)
      || (Preempt(group, bits, p1) == Preempt(group, bits, p2) && Sub(group, bits, s1) < Sub(group, bits, s2))
  {
    AboveOrder(Pow2(SubBits(group, bits)), Sub(group, bits, s1), Preempt(group, bits, p1),
               Sub(group, bits, s2), Preempt(group, bits, p2));
  }

  // ----- The registers -----

  type uint8 = x: nat | x < 256

  /** What SetPriority stores and GetPriority reads. */
  function Stored(priority: uint32, bits: Width): uint8 {
    priority * Pow2(8 - bits) % 256
  }

  function Fetched(register: uint8, bits: Width): nat {
    Rest(Pow2(8 - bits), register)
  }

  /** Storing keeps the implemented bits of a priority, and no others. */
  lemma FetchStored(priority: uint32, bits: Width)
    ensures Fetched(Stored(priority, bits), bits) == priority % Pow2(bits)
    ensures Stored(priority, bits) == Above(Pow2(8 - bits), 0, priority % Pow2(bits))
  {
    var k, m := Pow2(8 - bits), Pow2(bits);
    var q, r := priority / m, priority % m;
    Pow2Sum(bits, 8 - bits);
    assert Pow2(8) == 256;
    Joined(m, priority);
    AboveBound(k, 0, r, m);
    assert priority * k == (r + m * q) * k == Above(256, k * r, q) by { Regroup(r, m, q, k); }
    Split(256, k * r, q);
    Split(k, 0, r);
  }

  lemma Regroup(r: nat, m: nat, q: nat, k: nat)
    requires m * k == 256
    ensures (r + m * q) * k == k * r + 256 * q
  {
  }

  /** Encoded, stored, fetched and decoded, both parts are back. */
  lemma PriorityRoundTrip(group: uint32, preempt: uint32, sub: uint32, bits: Width)
    ensures var e := EncodePriority(group, preempt, sub, bits);
      && e < 256
      && Fetched(Stored(e, bits), bits) == e
      && Decoded(Fetched(Stored(e, bits), bits), group, bits)
         == (Preempt(group, bits, preempt), Sub(group, bits, sub))
  {
    var e := EncodePriority(group, preempt, sub, bits);
    FetchStored(e, bits);
    Small(e, Pow2(bits));
    DecodeEncoded(group, preempt, sub, bits);
  }

  /** The group priority that the hardware takes from a register: the bits above the
      one that the priority group names. */
  function GroupPriority(register: uint8, group: uint32): nat {
    Rest(Pow2(group % 8 + 1), register)
  }

  /** How much group priorities are spread out when not all of their bits are
      implemented. */
  function Spread(group: uint32, bits: Width): (k: nat)
    ensures 0 < k
  {
    Pow2(7 - group % 8 - PreemptBits(group, bits))
  }

  lemma GroupPriorityOfStored(group: uint32, preempt: uint32, sub: uint32, bits: Width)
    ensures GroupPriority(Stored(EncodePriority(group, preempt, sub, bits), bits), group)
         == Preempt(group, bits, preempt) * Spread(group, bits)
  {
    var g, s := group % 8, SubBits(group, bits);
    var x, y, k := Preempt(group, bits, preempt), Sub(group, bits, sub), Pow2(8 - bits);
    var register := Stored(EncodePriority(group, preempt, sub, bits), bits);
    assert register == k * Above(Pow2(s), y, x) by {
      StoredEncoding(group, preempt, sub, bits);
    }
    if 7 - g > bits {
      Pow2Sum(g + 1, 7 - g - bits);
      WithoutSub(Pow2(g + 1), Pow2(7 - g - bits), x, k);
    } else {
      Pow2Sum(8 - bits, s);
      WithSub(k, y, Pow2(s), x, Pow2(g + 1));
    }
  }

  lemma StoredEncoding(group: uint32, preempt: uint32, sub: uint32, bits: Width)
    ensures var e := EncodePriority(group, preempt, sub, bits);
      Stored(e, bits) == Pow2(8 - bits) * e
  {
    var e := EncodePriority(group, preempt, sub, bits);
    FetchStored(e, bits);
    Small(e, Pow2(bits));
  }

  lemma WithoutSub(a: nat, b: nat, x: nat, k: nat)
    requires a * b == k && 0 < a
    ensures k * Above(1, 0, x) / a == x * b
  {
    Regrouped(a, b, x, k);
    Split(a, 0, x * b);
  }

  lemma WithSub(k: nat, y: nat, s: nat, x: nat, a: nat)
    requires k * s == a && y < s && 0 < k && 0 < a
    ensures k * Above(s, y, x) / a == x
  {
    Distributed(k, y, s, x, a);
    AboveBound(k, 0, y, s);
    assert k * y < a;
    Split(a, k * y, x);
  }

  lemma Regrouped(a: nat, b: nat, x: nat, k: nat)
    requires a * b == k
    ensures k * x == Above(a, 0, x * b)
  {
  }

  lemma Distributed(k: nat, y: nat, s: nat, x: nat, a: nat)
    requires k * s == a
    ensures k * Above(s, y, x) == Above(a, k * y, x)
  {
  }

  /** Of two stored encodings the hardware lets one preempt the other exactly when its
      preemption part is lower, whatever the sub-priorities. */
  lemma PreemptionIsByFirstPart(group: uint32, p1: uint32, s1: uint32, p2: uint32, s2: uint32, bits: Width)
    ensures GroupPriority(Stored(EncodePriority(group, p1, s1, bits), bits), group)
          < GroupPriority(Stored(EncodePriority(group, p2, s2, bits), bits), group)
       <==> Preempt(group, bits, p1) < Preempt(group, bits, p2)
  {
    GroupPriorityOfStored(group, p1, s1, bits);
    GroupPriorityOfStored(group, p2, s2, bits);
    Multiples(Preempt(group, bits, p1), Preempt(group, bits, p2), Spread(group, bits));
  }

  lemma Multiples(x: nat, y: nat, k: nat)
    requires 0 < k
    ensures x * k < y * k <==> x < y
  {
  }

  // ----- Runs -----

  /** Interrupt numbers: 12 system handlers from -12 on, and 240 devices. */
  type Irq = i: int | -12 <= i < 240

  /** The place of an interrupt among the system handlers' registers, followed by
      the devices'. */
  function Slot(irq: Irq): (k: nat)
    ensures k < 252
  {
    if irq < 0 then irq % 16 - 4 else 12 + irq
  }

  /** The registers are in the order of the interrupt numbers, so no two interrupts
      share one. */
  lemma SlotsAreDistinct(i: Irq, j: Irq)
    ensures Slot(i) == i + 12
    ensures Slot(i) == Slot(j) <==> i == j
    ensures Slot(i) < Slot(j) <==> i < j
  {
  }

  type File = f: seq<uint8> | |f| == 252 witness seq(252, _ => 0)

  datatype Call = Call(irq: Irq, priority: uint32)

  function Step(f: File, c: Call, bits: Width): File {
    f[Slot(c.irq) := Stored(c.priority, bits)]
  }

  function Run(f: File, calls: seq<Call>, bits: Width): File {
    if calls == [] then f else Step(Run(f, calls[..|calls| - 1], bits), calls[|calls| - 1], bits)
  }

  function LastSet(calls: seq<Call>, irq: Irq): Option<uint32> {
    if calls == [] then None
    else if calls[|calls| - 1].irq == irq then Some(calls[|calls| - 1].priority)
    else LastSet(calls[..|calls| - 1], irq)
  }

  lemma {:induction false} LastSetIsStored(f: File, calls: seq<Call>, irq: Irq, bits: Width)
    ensures Run(f, calls, bits)[Slot(irq)] ==
      match LastSet(calls, irq)
      case Some(p) => Stored(p, bits)
      case None => f[Slot(irq)]
  {
    if calls != [] {
      var c := calls[|calls| - 1];
      SlotsAreDistinct(c.irq, irq);
      if c.irq != irq {
        LastSetIsStored(f, calls[..|calls| - 1], irq, bits);
      }
    }
  }

  /** After any run of calls an interrupt has the priority that was set last for it,
      cut to the implemented bits, or the one it had before. */
  lemma LastSetIsFetched(f: File, calls: seq<Call>, irq: Irq, bits: Width)
    ensures Fetched(Run(f, calls, bits)[Slot(irq)], bits) ==
      match LastSet(calls, irq)
      case Some(p) => p % Pow2(bits)
      case None => Fetched(f[Slot(irq)], bits)
  {
    LastSetIsStored(f, calls, irq, bits);
    if LastSet(calls, irq).Some? {
      FetchStored(LastSet(calls, irq).value, bits);
    }
  }

  /** After any run of calls, of two interrupts that were last given encoded priorities
      one preempts the other exactly when the preemption part it was given is lower. */
  lemma PreemptionAfterRun(f: File, calls: seq<Call>, i: Irq, j: Irq, group: uint32,
                           p1: uint32, s1: uint32, p2: uint32, s2: uint32, bits: Width)
    requires LastSet(calls, i) == Some(EncodePriority(group, p1, s1, bits))
    requires LastSet(calls, j) == Some(EncodePriority(group, p2, s2, bits))
    ensures GroupPriority(Run(f, calls, bits)[Slot(i)], group) < GroupPriority(Run(f, calls, bits)[Slot(j)], group)
       <==> Preempt(group, bits, p1) < Preempt(group, bits, p2)
  {
    LastSetIsStored(f, calls, i, bits);
    LastSetIsStored(f, calls, j, bits);
    PreemptionIsByFirstPart(group, p1, s1, p2, s2, bits);
  }

  class Controller {
    const bits: Width
    const SHP: array<uint8>
    const IP: array<uint8>

    ghost predicate Valid() {
      SHP.Length == 12 && IP.Length == 240 && SHP != IP
    }

    ghost function Registers(): File
      requires Valid()
      reads SHP, IP
    {
      SHP[..] + IP[..]
    }

    constructor (bits: Width)
      ensures Valid() && this.bits == bits && fresh(SHP) && fresh(IP)
      ensures forall k :: 0 <= k < 252 ==> Registers()[k] == 0
    {
      this.bits := bits;
      SHP := new uint8[12](_ => 0);
      IP := new uint8[240](_ => 0);
    }

    method SetPriority(irq: Irq, priority: uint32)
      requires Valid()
      modifies SHP, IP
      ensures Registers() == Step(old(Registers()), Call(irq, priority), bits)
    {
      if irq < 0 {
        SHP[irq % 16 - 4] := priority * Pow2(8 - bits) % 256;
      } else {
        IP[irq] := priority * Pow2(8 - bits) % 256;
      }
    }

    method GetPriority(irq: Irq) returns (priority: nat)
      requires Valid()
      ensures priority == Fetched(Registers()[Slot(irq)], bits)
    {
      var register: uint8;
      if irq < 0 {
        register := SHP[irq % 16 - 4];
      } else {
        register := IP[irq];
      }
      assert register == Registers()[Slot(irq)];
      priority := Rest(Pow2(8 - bits), register);
    }
  }
}
