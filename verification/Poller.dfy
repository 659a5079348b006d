/** The reactor: channels, the poller's registry of them, one poll pass after the
    other until an event turns up, and the dispatch of the events found. */
module Reactor {
  import opened IntrusiveLists

  // ----- Event bits -----

  const POLLNONE: bv8 := 0x00
  const POLLOUT: bv8 := 0x01
  const POLLIN: bv8 := 0x02

  const DEVICE_POLLNONE: int := 0

  /** `DEVICE_POLLIN & status` and `DEVICE_POLLOUT & status`, the bits 0x02 and
      0x04 of a positive device status. */
  predicate ReportsIn(status: nat) { status / 0x02 % 2 == 1 }
  predicate ReportsOut(status: nat) { status / 0x04 % 2 == 1 }

  /** The event a channel gets for a device status and an interest mask: input
      first, output otherwise, none for an error or an unwanted report. */
  function Wanted(status: int, events: bv8): (revents: bv8)
    ensures revents == POLLNONE || revents == POLLIN || revents == POLLOUT
    ensures revents & events == revents
    ensures revents == POLLIN <==> status > 0 && ReportsIn(status) && events & POLLIN != 0
    ensures revents == POLLNONE ==> status <= 0 || !ReportsOut(status) || events & POLLOUT == 0
  {
    if status <= DEVICE_POLLNONE then POLLNONE
    else if ReportsIn(status) && events & POLLIN != 0 then POLLIN
    else if ReportsOut(status) && events & POLLOUT != 0 then POLLOUT
    else POLLNONE
  }

  // ----- Which channels are registered -----

  datatype Request<T> = Update(c: T) | Remove(c: T)

  /** The registry after one request: an update registers at the front unless
      the channel is already in, a removal takes it out. */
  function Register<T(==)>(s: seq<T>, r: Request<T>): seq<T> {
    match r
    case Update(c) => if c in s then s else [c] + s
    case Remove(c) => Without(s, c)
  }

  function Without<T(==)>(s: seq<T>, c: T): seq<T> {
    if s == [] then [] else if s[0] == c then Without(s[1..], c) else [s[0]] + Without(s[1..], c)
  }

  function Registered<T(==)>(rs: seq<Request<T>>): seq<T> {
    if rs == [] then [] else Register(Registered(rs[..|rs| - 1]), rs[|rs| - 1])
  }

  /** When a channel was registered: the index of its first update since its
      last removal, or -1 if there is none. */
  function Since<T(==)>(rs: seq<Request<T>>, c: T): int {
    if rs == [] then -1
    else
      var before := Since(rs[..|rs| - 1], c);
      match rs[|rs| - 1]
      case Update(d) => if d == c && before == -1 then |rs| - 1 else before
      case Remove(d) => if d == c then -1 else before
  }

  lemma {:induction false} WithoutMember<T>(s: seq<T>, c: T, d: T)
    ensures d in Without(s, c) <==> d in s && d != c
  {
    if s != [] {
      WithoutMember(s[1..], c, d);
      assert d in s <==> d == s[0] || d in s[1..];
    }
  }

  lemma {:induction false} SinceRange<T>(rs: seq<Request<T>>, c: T)
    ensures -1 <= Since(rs, c) < |rs|
  {
    if rs != [] {
      SinceRange(rs[..|rs| - 1], c);
    }
  }

  /** Newest first: strictly falling times. */
  ghost predicate NewestFirst<T>(s: seq<T>, rs: seq<Request<T>>) {
    forall i, j :: 0 <= i < j < |s| ==> Since(rs, s[i]) > Since(rs, s[j])
  }

  ghost predicate OldestFirst<T>(s: seq<T>, rs: seq<Request<T>>) {
    forall i, j :: 0 <= i < j < |s| ==> Since(rs, s[i]) < Since(rs, s[j])
  }

  lemma {:induction false} RegistryMember<T>(rs: seq<Request<T>>, c: T)
    ensures c in Registered(rs) <==> Since(rs, c) >= 0
  {
    if rs != [] {
      var front, last := rs[..|rs| - 1], rs[|rs| - 1];
      RegistryMember(front, c);
      SinceRange(front, c);
      if last.Remove? {
        WithoutMember(Registered(front), last.c, c);
      }
    }
  }

  /** After any run of requests, exactly the channels updated since their last
      removal are registered, each of them once, the newest first. */
  lemma {:induction false} RegistryOfRun<T>(rs: seq<Request<T>>)
    ensures forall c :: c in Registered(rs) <==> Since(rs, c) >= 0
    ensures NewestFirst(Registered(rs), rs)
    ensures Distinct(Registered(rs))
  {
    forall c: T ensures c in Registered(rs) <==> Since(rs, c) >= 0 {
      RegistryMember(rs, c);
    }
    if rs != [] {
      var front, last := rs[..|rs| - 1], rs[|rs| - 1];
      var s := Registered(front);
      RegistryOfRun(front);
      RegistryMember(front, last.c);
      forall i | 0 <= i < |s| ensures -1 <= Since(front, s[i]) < |front| {
        SinceRange(front, s[i]);
      }
      if last.Remove? {
        WithoutKeepsOrder(s, last.c, front, rs);
      }
    }
  }

  lemma {:induction false} WithoutKeepsOrder<T>(
    s: seq<T>, c: T, rs: seq<Request<T>>, rs': seq<Request<T>>)
    requires NewestFirst(s, rs)
    requires forall d :: d in s && d != c ==> Since(rs', d) == Since(rs, d)
    ensures NewestFirst(Without(s, c), rs')
  {
    if s != [] {
      WithoutKeepsOrder(s[1..], c, rs, rs');
      forall d | d in s[1..]
        ensures Since(rs, s[0]) > Since(rs, d)
      {
        var k :| 0 < k < |s| && s[k] == d;
      }
      var w, all := Without(s[1..], c), Without(s, c);
      forall i, j | 0 <= i < j < |all|
        ensures Since(rs', all[i]) > Since(rs', all[j])
      {
        if s[0] != c {
          assert all[j] == w[j - 1] && (i > 0 ==> all[i] == w[i - 1]);
          var d := w[j - 1];
          WithoutMember(s[1..], c, d);
        } else {
          assert all == w;
        }
      }
    }
  }

  // ----- Which channels a pass selects -----

  /** Inserting the hits of a walk over s at the head of a list, one by one. */
  function Selected<T(==)>(s: seq<T>, hits: set<T>): seq<T> {
    if s == [] then []
    else
      var rest := Selected(s[..|s| - 1], hits);
      if s[|s| - 1] in hits then [s[|s| - 1]] + rest else rest
  }

  lemma SelectedSnoc<T>(s: seq<T>, c: T, hits: set<T>)
    ensures Selected(s + [c], hits) == if c in hits then [c] + Selected(s, hits) else Selected(s, hits)
  {
  }

  lemma {:induction false} SelectedMember<T>(s: seq<T>, hits: set<T>, c: T)
    ensures c in Selected(s, hits) <==> c in s && c in hits
  {
    if s != [] {
      var n := |s| - 1;
      SelectedMember(s[..n], hits, c);
      assert c in s <==> c == s[n] || c in s[..n];
    }
  }

  /** A walk that meets each channel once selects each hit once. */
  lemma {:induction false} SelectedDistinct<T>(s: seq<T>, hits: set<T>)
    requires Distinct(s)
    ensures Distinct(Selected(s, hits))
  {
    if s != [] {
      var n := |s| - 1;
      SelectedDistinct(s[..n], hits);
      SelectedMember(s[..n], hits, s[n]);
    }
  }

  /** Both lists insert at the head, so the active channels are in the order in
      which they were registered. */
  lemma {:induction false} SelectedOldestFirst<T>(s: seq<T>, hits: set<T>, rs: seq<Request<T>>)
    requires NewestFirst(s, rs)
    ensures OldestFirst(Selected(s, hits), rs)
  {
    if s != [] {
      var n := |s| - 1;
      SelectedOldestFirst(s[..n], hits, rs);
      forall d | d in s[..n]
        ensures Since(rs, s[n]) < Since(rs, d)
      {
        var k :| 0 <= k < n && s[k] == d;
      }
      var rest, all := Selected(s[..n], hits), Selected(s, hits);
      forall i, j | 0 <= i < j < |all|
        ensures Since(rs, all[i]) < Since(rs, all[j])
      {
        if s[n] in hits {
          assert all[j] == rest[j - 1] && (i > 0 ==> all[i] == rest[i - 1]);
          var d := rest[j - 1];
          SelectedMember(s[..n], hits, d);
          assert i == 0 ==> all[i] == s[n];
        } else {
          assert all[i] == rest[i] && all[j] == rest[j];
        }
      }
    }
  }

  /** After any run of requests, a walk over the registry selects exactly the hits
      among the channels updated since their last removal, each once, in the order in
      which they were registered. */
  lemma ActiveAfterRun<T>(rs: seq<Request<T>>, hits: set<T>)
    ensures var active := Selected(Registered(rs), hits);
      && (forall c :: c in active <==> Since(rs, c) >= 0 && c in hits)
      && Distinct(active) && OldestFirst(active, rs)
  {
    RegistryOfRun(rs);
    SelectedDistinct(Registered(rs), hits);
    SelectedOldestFirst(Registered(rs), hits, rs);
    forall c: T ensures c in Selected(Registered(rs), hits) <==> Since(rs, c) >= 0 && c in hits {
      SelectedMember(Registered(rs), hits, c);
    }
  }

  // ----- Channels and the poller -----

  type Node = ListNode<Channel?>

  datatype Interest = EnableReading | DisableReading | EnableWriting | DisableWriting | DisableAll {
    function Apply(events: bv8): bv8 {
      match this
      case EnableReading => events | POLLIN
      case DisableReading => events & !POLLIN
      case EnableWriting => events | POLLOUT
      case DisableWriting => events & !POLLOUT
      case DisableAll => POLLNONE
    }
  }

  class Channel {
    var events: bv8
    var revents: bv8
    var hasHandler: bool
    const node: Node
    const activeNode: Node

    constructor ()
      ensures events == POLLNONE && revents == POLLNONE && !hasHandler
      ensures Linked() && fresh(node) && fresh(activeNode)
    {
      events, revents, hasHandler := POLLNONE, POLLNONE, false;
      node := new ListNode<Channel?>(null, Registry);
      activeNode := new ListNode<Channel?>(null, Active);
      new;
      node.owner, activeNode.owner := this, this;
    }

    /** The interest operations: each changes the mask, then registers the channel,
        even those that leave it without any interest. */
    method Change(op: Interest, loop: Poller)
      requires Linked() && loop.Valid()
      modifies this`events
      modifies loop`registered, loop.head`next, loop.head.next`prev, node`next, node`prev
      ensures events == op.Apply(old(events))
      ensures loop.Valid()
      ensures loop.registered == Register(old(loop.registered), Update(this))
    {
      events := op.Apply(events);
      loop.UpdateChannel(this);
    }

    /** The callbacks made for the event that was recorded. */
    method HandleEvent() returns (calls: seq<bv8>)
      ensures calls ==
        (if hasHandler && revents & POLLIN != 0 then [POLLIN] else [])
        + (if hasHandler && revents & POLLOUT != 0 then [POLLOUT] else [])
    {
      calls := [];
      if hasHandler {
        if revents & POLLIN != 0 {
          calls := calls + [POLLIN];
        }
        if revents & POLLOUT != 0 {
          calls := calls + [POLLOUT];
        }
      }
    }

    /** Both embedded nodes lead back to their channel. */
    ghost predicate Linked()
      reads node`owner, activeNode`owner
    {
      node.owner == this && activeNode.owner == this && node.role == Registry && activeNode.role == Active
    }
  }

  /** The registry list as its nodes: the poller's head, then the channels'. */
  ghost function Ring(head: Node, cs: seq<Channel>): (ring: seq<Node>)
    ensures |ring| == |cs| + 1
  {
    seq(|cs| + 1, i requires 0 <= i <= |cs| => if i == 0 then head else cs[i - 1].node)
  }

  /** The list of active channels as its nodes. */
  ghost function ActiveRing(head: Node, cs: seq<Channel>): (ring: seq<Node>)
    ensures |ring| == |cs| + 1
  {
    seq(|cs| + 1, i requires 0 <= i <= |cs| => if i == 0 then head else cs[i - 1].activeNode)
  }

  lemma RingWithout(head: Node, cs: seq<Channel>, k: nat)
    requires k < |cs|
    ensures Ring(head, cs)[..k + 1] + Ring(head, cs)[k + 2..] == Ring(head, cs[..k] + cs[k + 1..])
  {
  }

  lemma RingWith(head: Node, c: Channel, cs: seq<Channel>)
    ensures [head, c.node] + Ring(head, cs)[1..] == Ring(head, [c] + cs)
  {
  }

  lemma ActiveRingGrows(head: Node, c: Channel, cs: seq<Channel>)
    ensures [head, c.activeNode] + ActiveRing(head, cs)[1..] == ActiveRing(head, [c] + cs)
  {
  }

  class Poller {
    const head: Node
    ghost var registered: seq<Channel>

    ghost predicate Valid()
      reads this, head, NodeSet(registered), ActiveSet(registered)`owner
    {
      && head.owner == null && head.role == Registry
      && IsRing(Ring(head, registered))
      && forall c :: c in registered ==> c.Linked()
    }

    constructor ()
      ensures Valid() && fresh(head) && registered == []
    {
      head := new ListNode<Channel?>(null, Registry);
      registered := [];
    }

    /** A channel's node tells whether the channel is registered. */
    lemma NodeInRing(c: Channel)
      requires Valid() && c.Linked()
      ensures c.node in Ring(head, registered)[1..] <==> c in registered
      ensures c.node in Ring(head, registered) <==> c in registered
    {
      var ring := Ring(head, registered);
      if c in registered {
        var k :| 0 <= k < |registered| && registered[k] == c;
        assert ring[1..][k] == ring[k + 1] == c.node;
      }
      if c.node in ring[1..] {
        var k :| 0 <= k < |registered| && ring[1..][k] == c.node;
        assert registered[k].Linked();
      }
    }

    method UpdateChannel(c: Channel)
      requires Valid() && c.Linked()
      modifies this`registered, head`next, head.next`prev, c.node`next, c.node`prev
      ensures Valid()
      ensures registered == Register(old(registered), Update(c))
    {
      ghost var ring := Ring(head, registered);
      NodeInRing(c);
      var found := ListFind(head, c.node, ring);
      if !found {
        ListInsertAfter(head, c.node, ring);
        RingWith(head, c, registered);
        registered := [c] + registered;
      }
    }

    method RemoveChannel(c: Channel)
      requires Valid() && c.Linked()
      modifies this`registered, c.node.next`prev, c.node.prev`next, c.node`next, c.node`prev
      ensures Valid()
      ensures registered == Register(old(registered), Remove(c))
    {
      NodeInRing(c);
      var found := ListFind(head, c.node, Ring(head, registered));
      if found {
        ghost var k :| 0 <= k < |registered| && registered[k] == c;
        RegisteredOnce();
        WithoutAt(registered, c, k);
        Detach(c, k);
      } else {
        WithoutAbsent(registered, c);
      }
    }

    method Detach(c: Channel, ghost k: nat)
      requires Valid() && k < |registered| && registered[k] == c
      modifies this`registered, c.node.next`prev, c.node.prev`next, c.node`next, c.node`prev
      ensures Valid()
      ensures registered == old(registered)[..k] + old(registered)[k + 1..]
    {
      RingWithout(head, registered, k);
      ListDel(c.node, Ring(head, registered), k + 1);
      registered := registered[..k] + registered[k + 1..];
      assert forall d :: d in registered ==> d in old(registered);
    }

    /** Polls every device in the order of the registry, pass after pass, until a
        pass has found an event or the timer has run out, after `budget` passes.
        `report(p, c)` is what the device of channel c answers in pass p. */
    method Poll(budget: nat, active: Node, report: (nat, Channel) -> int, ghost w: World)
      returns (ghost found: map<Channel, bv8>)
      requires Valid() && Interested(registered, w.events) && w.report == report
      requires IsEmpty(active) && active.owner == null && active.role == Active
      modifies Members(registered)`revents
      modifies active`next, active`prev, ActiveSet(registered)`next, ActiveSet(registered)`prev
      ensures Valid()
      ensures found == FirstFound(registered, w, 0, budget)
      ensures Outcome(active, registered, found)
      ensures found.Keys == {} ==> IsEmpty(active)
    {
      var exit, p := false, 0;
      ghost var cs := registered;
      found := map[];
      EmptyOutcome(active, cs, found);
      while !exit && p < budget
        invariant p <= budget
        invariant Valid() && registered == cs && active.owner == null && Interested(cs, w.events)
        invariant Outcome(active, cs, found)
        invariant exit <==> found.Keys != {}
        invariant !exit ==> IsEmpty(active) && FirstFound(cs, w, 0, budget) == FirstFound(cs, w, p, budget)
        invariant exit ==> FirstFound(cs, w, 0, budget) == found
        decreases budget - p
      {
        FoundFromHere(cs, w, p, budget);
        exit, found := NextPass(p, active, report, w);
        p := p + 1;
      }
    }

    /** One pass, and the events that the devices report in it. */
    method NextPass(p: nat, active: Node, report: (nat, Channel) -> int, ghost w: World)
      returns (exit: bool, ghost found: map<Channel, bv8>)
      requires Valid() && Interested(registered, w.events) && w.report == report
      requires IsEmpty(active) && active.owner == null && active.role == Active
      modifies Members(registered)`revents
      modifies active`next, active`prev, ActiveSet(registered)`next, ActiveSet(registered)`prev
      ensures Valid() && Interested(registered, w.events)
      ensures found == Found(registered, w, p) && Outcome(active, registered, found)
      ensures exit <==> found.Keys != {}
      ensures !exit ==> IsEmpty(active)
    {
      found := Found(registered, w, p);
      FoundIsRight(registered, w, p);
      exit := PollPass(p, active, report, found);
    }

    /** One pass over the registered channels, inserting those with an event. */
    method PollPass(p: nat, active: Node, report: (nat, Channel) -> int, ghost found: map<Channel, bv8>)
      returns (exit: bool)
      requires Valid() && RightlyFound(registered, found, p, report)
      requires IsEmpty(active) && active.owner == null && active.role == Active
      modifies Members(registered)`revents
      modifies active`next, active`prev, ActiveSet(registered)`next, ActiveSet(registered)`prev
      ensures Valid()
      ensures exit <==> found.Keys != {}
      ensures Outcome(active, registered, found)
      ensures !exit ==> IsEmpty(active)
    {
      exit := false;
      ghost var cs, i := registered, 0;
      EmptyRing(active, ActiveRing(active, Selected(cs[..0], found.Keys)));
      FirstNode();
      var pos := head.next;
      while pos != head
        invariant 0 <= i <= |cs|
        invariant Valid() && registered == cs && RightlyFound(cs, found, p, report)
        invariant pos == if i < |cs| then cs[i].node else head
        invariant Outcome(active, cs[..i], found)
        invariant exit <==> Selected(cs[..i], found.Keys) != []
        decreases |cs| - i
      {
        var occurred := Visit(pos, p, active, report, i, found);
        exit := exit || occurred;
        NextNode(i);
        pos := pos.next;
        i := i + 1;
      }
      assert cs[..i] == cs;
      SomeSelected(cs, found.Keys);
      if !exit {
        EmptyRing(active, ActiveRing(active, []));
      }
    }

    /** Polls the device of the channel at `pos`; an event is recorded in the
        channel, which goes to the front of the active list. */
    method Visit(pos: Node, p: nat, active: Node, report: (nat, Channel) -> int,
                 ghost i: nat, ghost found: map<Channel, bv8>)
      returns (occurred: bool)
      requires Valid() && i < |registered| && pos == registered[i].node
      requires active.owner == null && active.role == Active
      requires RightlyFound(registered, found, p, report)
      requires Outcome(active, registered[..i], found)
      modifies Members(registered)`revents
      modifies active`next, active`prev, ActiveSet(registered)`next, ActiveSet(registered)`prev
      ensures Valid()
      ensures Outcome(active, registered[..i + 1], found)
      ensures Selected(registered[..i + 1], found.Keys) != []
         <==> occurred || Selected(registered[..i], found.Keys) != []
    {
      assert registered[i].Linked();
      var it: Channel := pos.owner;
      var rt := report(p, it);
      var event := Wanted(rt, it.events);
      occurred := event != POLLNONE;
      assert registered[..i + 1] == registered[..i] + [it];
      SelectedSnoc(registered[..i], it, found.Keys);
      if occurred {
        Activate(it, event, active, i, found);
      }
    }

    /** Records an event in a channel and puts the channel on the active list. */
    method Activate(it: Channel, event: bv8, active: Node, ghost i: nat, ghost found: map<Channel, bv8>)
      requires Valid() && i < |registered| && it == registered[i]
      requires active.owner == null && active.role == Active
      requires it in found && found[it] == event
      requires Outcome(active, registered[..i], found)
      modifies Members(registered)`revents
      modifies active`next, active`prev, ActiveSet(registered)`next, ActiveSet(registered)`prev
      ensures Valid()
      ensures Outcome(active, registered[..i] + [it], found)
    {
      ghost var front := registered[..i];
      ghost var selected := Selected(front, found.Keys);
      SelectedSnoc(front, it, found.Keys);
      ActiveNeighbour(front, found.Keys, active);
      RegisteredOnce();
      NotYetActive(it, front, found.Keys, active);
      RegistryRoles();
      it.revents := event;
      ListInsertAfter(active, it.activeNode, ActiveRing(active, selected));
      ActiveRingGrows(active, it, selected);
    }

    /** Where the walk over the registry starts and goes on. */
    lemma FirstNode()
      requires Valid()
      ensures head.next == if 0 < |registered| then registered[0].node else head
    {
      var ring := Ring(head, registered);
      assert ring[0].next == ring[Succ(0, |ring|)];
    }

    lemma NextNode(i: nat)
      requires Valid() && i < |registered|
      ensures registered[i].node.next == if i + 1 < |registered| then registered[i + 1].node else head
    {
      var ring := Ring(head, registered);
      assert ring[i + 1].next == ring[Succ(i + 1, |ring|)];
    }

    lemma RegistryRoles()
      requires Valid()
      ensures forall n :: n in Ring(head, registered) ==> n.role == Registry
    {
      forall k | 0 <= k <= |registered|
        ensures Ring(head, registered)[k].role == Registry
      {
        if k > 0 {
          assert registered[k - 1].Linked();
        }
      }
    }

    lemma RegisteredOnce()
      requires Valid()
      ensures Distinct(registered)
    {
      var ring := Ring(head, registered);
      RingIsDistinct(ring);
      forall i, j | 0 <= i < j < |registered|
        ensures registered[i] != registered[j]
      {
        assert ring[i + 1] != ring[j + 1];
      }
    }
  }

  // ----- One turn of the event loop -----

  /** One callback per channel that has a handler, with the event found for it. */
  ghost function Calls(cs: seq<Channel>, found: map<Channel, bv8>, handlers: set<Channel>): seq<(Channel, bv8)>
    requires forall c :: c in cs ==> c in found
  {
    if cs == [] then [] else
    var c := cs[|cs| - 1];
    Calls(cs[..|cs| - 1], found, handlers) + if c in handlers then [(c, found[c])] else []
  }

  ghost function Handlers(cs: seq<Channel>): set<Channel>
    reads Members(cs)`hasHandler
  {
    set c | c in cs && c.hasHandler
  }

  class EventLoop {
    const poller: Poller
    const active: Node

    constructor ()
      ensures Valid() && fresh(poller) && fresh(active) && poller.registered == []
    {
      poller := new Poller();
      active := new ListNode<Channel?>(null, Active);
    }

    ghost predicate Valid()
      reads poller, poller.head, NodeSet(poller.registered), ActiveSet(poller.registered)`owner, active`owner
    {
      poller.Valid() && active.owner == null && active.role == Active
    }

    /** `list_init` on the head of the active list, whatever it held. */
    method Clear()
      requires Valid()
      modifies active`next, active`prev
      ensures Valid() && IsEmpty(active)
    {
      poller.RegistryRoles();
      active.next, active.prev := active, active;
    }

    /** The list head is emptied whatever it held, the devices are polled, and
        every channel on the active list is served, in the order of the list. */
    method LoopOnce(budget: nat, report: (nat, Channel) -> int, ghost w: World)
      returns (calls: seq<(Channel, bv8)>, ghost found: map<Channel, bv8>)
      requires Valid() && Interested(poller.registered, w.events) && w.report == report
      modifies Members(poller.registered)`revents
      modifies active`next, active`prev
      modifies ActiveSet(poller.registered)`next, ActiveSet(poller.registered)`prev
      ensures Valid()
      ensures found == FirstFound(poller.registered, w, 0, budget)
      ensures forall c :: c in Selected(poller.registered, found.Keys) ==> c in found
      ensures calls == Calls(Selected(poller.registered, found.Keys), found, old(Handlers(poller.registered)))
      ensures EachOnce(calls)
      ensures forall c, e :: (c, e) in calls <==>
        c in poller.registered && c in found && e == found[c] && c in old(Handlers(poller.registered))
    {
      ghost var handlers := Handlers(poller.registered);
      Clear();
      found := poller.Poll(budget, active, report, w);
      assert Handlers(poller.registered) == handlers;
      FoundEvents(poller.registered, w, 0, budget);
      poller.RegisteredOnce();
      calls := Dispatch(found);
      ServedSelected(poller.registered, found, handlers);
    }

    method Dispatch(ghost found: map<Channel, bv8>) returns (calls: seq<(Channel, bv8)>)
      requires Valid() && Outcome(active, poller.registered, found)
      requires forall c :: c in found ==> found[c] == POLLIN || found[c] == POLLOUT
      ensures Valid()
      ensures forall c :: c in Selected(poller.registered, found.Keys) ==> c in found
      ensures calls == Calls(Selected(poller.registered, found.Keys), found, old(Handlers(poller.registered)))
    {
      ghost var cs, i := Selected(poller.registered, found.Keys), 0;
      ghost var ring, handlers := ActiveRing(active, cs), Handlers(poller.registered);
      forall c | c in cs
        ensures c in found && c in poller.registered
      {
        SelectedMember(poller.registered, found.Keys, c);
      }
      calls := [];
      assert ring[0].next == ring[Succ(0, |ring|)];
      var pos := active.next;
      while pos != active
        invariant 0 <= i <= |cs|
        invariant pos == if i < |cs| then cs[i].activeNode else active
        invariant pos != active <==> i < |cs|
        invariant calls == Calls(cs[..i], found, handlers)
        decreases |cs| - i
      {
        assert cs[i] in cs && cs[i].Linked();
        var it: Channel := pos.owner;
        var events := it.HandleEvent();
        assert events == if it.hasHandler then [found[it]] else [];
        if events != [] {
          calls := calls + [(it, events[0])];
        }
        assert cs[..i + 1][..i] == cs[..i];
        assert ring[i + 1].next == ring[Succ(i + 1, |ring|)];
        pos := pos.next;
        i := i + 1;
        assert i < |cs| ==> cs[i] in cs && cs[i].Linked();
      }
      assert cs[..i] == cs;
    }
  }

  lemma {:induction false} CallMember(
    cs: seq<Channel>, found: map<Channel, bv8>, handlers: set<Channel>, c: Channel, e: bv8)
    requires forall d :: d in cs ==> d in found
    ensures (c, e) in Calls(cs, found, handlers) <==> c in cs && c in handlers && e == found[c]
  {
    if cs != [] {
      var n := |cs| - 1;
      CallMember(cs[..n], found, handlers, c, e);
      assert c in cs <==> c == cs[n] || c in cs[..n];
    }
  }

  /** No channel is called back twice. */
  ghost predicate EachOnce(calls: seq<(Channel, bv8)>) {
    forall i, j :: 0 <= i < j < |calls| ==> calls[i].0 != calls[j].0
  }

  lemma ServedSelected(cs: seq<Channel>, found: map<Channel, bv8>, handlers: set<Channel>)
    requires Distinct(cs) && forall c :: c in Selected(cs, found.Keys) ==> c in found
    ensures var calls := Calls(Selected(cs, found.Keys), found, handlers);
      EachOnce(calls) && forall c, e :: (c, e) in calls <==> c in cs && c in found && e == found[c] && c in handlers
  {
    SelectedDistinct(cs, found.Keys);
    ServedOnce(Selected(cs, found.Keys), found, handlers);
    forall c: Channel ensures c in Selected(cs, found.Keys) <==> c in cs && c in found {
      SelectedMember(cs, found.Keys, c);
    }
  }

  /** In one turn of the loop no channel is served twice, and the channels served
      are those with a handler and an event; each gets just that event. */
  lemma {:induction false} ServedOnce(cs: seq<Channel>, hits: map<Channel, bv8>, handlers: set<Channel>)
    requires Distinct(cs) && forall d :: d in cs ==> d in hits
    ensures var calls := Calls(cs, hits, handlers);
      && EachOnce(calls)
      && (forall c, e :: (c, e) in calls <==> c in cs && c in handlers && e == hits[c])
  {
    forall c: Channel, e: bv8
      ensures (c, e) in Calls(cs, hits, handlers) <==> c in cs && c in handlers && e == hits[c]
    {
      CallMember(cs, hits, handlers, c, e);
    }
    if cs != [] {
      var n := |cs| - 1;
      ServedOnce(cs[..n], hits, handlers);
      var before := Calls(cs[..n], hits, handlers);
      forall i | 0 <= i < |before|
        ensures before[i].0 != cs[n]
      {
        CallMember(cs[..n], hits, handlers, before[i].0, before[i].1);
        assert (before[i].0, before[i].1) == before[i];
      }
    }
  }

  /** Every event found is a single bit. */
  lemma {:induction false} FoundEvents(cs: seq<Channel>, w: World, p: nat, budget: nat)
    requires p <= budget
    ensures var found := FirstFound(cs, w, p, budget);
      forall c :: c in found ==> found[c] == POLLIN || found[c] == POLLOUT
    decreases budget - p
  {
    if p < budget {
      var here := Found(cs, w, p);
      forall c | c in here
        ensures here[c] == POLLIN || here[c] == POLLOUT
      {
        assert here[c] == w.Event(p, c) != POLLNONE;
      }
      if here.Keys == {} {
        FoundEvents(cs, w, p + 1, budget);
        assert FirstFound(cs, w, p, budget) == FirstFound(cs, w, p + 1, budget);
      } else {
        assert FirstFound(cs, w, p, budget) == here;
      }
    }
  }

  /** The node behind the head of the active list is a node for that list. */
  lemma ActiveNeighbour(front: seq<Channel>, hits: set<Channel>, active: Node)
    requires IsRing(ActiveRing(active, Selected(front, hits)))
    requires active.role == Active
    requires forall d :: d in front ==> d.Linked()
    ensures active.next.role == Active
    ensures active.next == active || active.next in ActiveSet(front)
  {
    var selected := Selected(front, hits);
    var ring := ActiveRing(active, selected);
    assert ring[0].next == ring[Succ(0, |ring|)];
    if selected != [] {
      SelectedMember(front, hits, selected[0]);
    }
  }

  /** A channel that the walk has not met is not in the active list. */
  lemma NotYetActive(c: Channel, front: seq<Channel>, hits: set<Channel>, active: Node)
    requires c.Linked() && active.owner == null && c !in front
    requires forall d :: d in front ==> d.Linked()
    ensures c.activeNode !in ActiveRing(active, Selected(front, hits))
  {
    var selected := Selected(front, hits);
    forall k | 0 <= k < |selected|
      ensures selected[k] != c && selected[k].Linked()
    {
      SelectedMember(front, hits, selected[k]);
    }
  }

  lemma EmptyOutcome(active: Node, cs: seq<Channel>, found: map<Channel, bv8>)
    requires IsEmpty(active) && found.Keys == {}
    ensures Outcome(active, cs, found)
  {
    NoneSelected(cs, found.Keys);
    EmptyRing(active, ActiveRing(active, []));
  }

  lemma {:induction false} NoneSelected<T>(s: seq<T>, hits: set<T>)
    requires hits == {}
    ensures Selected(s, hits) == []
  {
    if s != [] {
      NoneSelected(s[..|s| - 1], hits);
    }
  }

  lemma SomeSelected<T>(s: seq<T>, hits: set<T>)
    requires forall c :: c in hits ==> c in s
    ensures Selected(s, hits) != [] <==> hits != {}
  {
  }

  ghost function Members(cs: seq<Channel>): set<Channel> {
    set c | c in cs
  }

  ghost function NodeSet(cs: seq<Channel>): set<Node> {
    set c | c in cs :: c.node
  }

  ghost function ActiveSet(cs: seq<Channel>): set<Node> {
    set c | c in cs :: c.activeNode
  }

  /** The interest masks of the channels, as a table. */
  ghost predicate Interested(cs: seq<Channel>, events: map<Channel, bv8>)
    reads Members(cs)`events
  {
    forall c :: c in cs ==> c in events && events[c] == c.events
  }

  /** What the devices report and what the channels want while polling. */
  datatype World = World(events: map<Channel, bv8>, report: (nat, Channel) -> int) {
    ghost function Event(p: nat, c: Channel): bv8 {
      if c in events then Wanted(report(p, c), events[c]) else POLLNONE
    }
  }

  /** The channels whose device reports a wanted event in pass p, and the event. */
  ghost function Found(cs: seq<Channel>, w: World, p: nat): map<Channel, bv8> {
    map c | c in cs && w.Event(p, c) != POLLNONE :: w.Event(p, c)
  }

  /** The same, read off the channels themselves. */
  ghost predicate RightlyFound(cs: seq<Channel>, found: map<Channel, bv8>, p: nat, report: (nat, Channel) -> int)
    reads Members(cs)`events
  {
    && (forall c :: c in found ==> c in cs && found[c] != POLLNONE)
    && (forall c :: c in cs ==>
          Wanted(report(p, c), c.events) == (if c in found then found[c] else POLLNONE))
  }

  lemma FoundIsRight(cs: seq<Channel>, w: World, p: nat)
    requires Interested(cs, w.events)
    ensures RightlyFound(cs, Found(cs, w, p), p, w.report)
  {
  }

  /** What the first pass finds that finds anything, from pass p on and before the
      timer runs out; nothing if there is no such pass. */
  ghost function FirstFound(cs: seq<Channel>, w: World, p: nat, budget: nat): map<Channel, bv8>
    requires p <= budget
    decreases budget - p
  {
    if p == budget then map[]
    else if Found(cs, w, p).Keys != {} then Found(cs, w, p)
    else FirstFound(cs, w, p + 1, budget)
  }

  lemma FoundFromHere(cs: seq<Channel>, w: World, p: nat, budget: nat)
    requires p < budget
    ensures FirstFound(cs, w, p, budget)
         == if Found(cs, w, p).Keys != {} then Found(cs, w, p) else FirstFound(cs, w, p + 1, budget)
  {
  }

  /** After a walk over cs the active list links those among them for which an
      event was found, the last met first, and each of them holds its event. */
  ghost predicate Outcome(active: Node, cs: seq<Channel>, found: map<Channel, bv8>)
    reads Members(cs)`revents, ActiveRing(active, Selected(cs, found.Keys))
  {
    && IsRing(ActiveRing(active, Selected(cs, found.Keys)))
    && forall c :: c in cs && c in found ==> c.revents == found[c]
  }

  lemma {:induction false} WithoutAbsent<T>(s: seq<T>, c: T)
    requires c !in s
    ensures Without(s, c) == s
  {
    if s != [] {
      WithoutAbsent(s[1..], c);
    }
  }

  lemma {:induction false} WithoutAt<T>(s: seq<T>, c: T, k: nat)
    requires k < |s| && s[k] == c && Distinct(s)
    ensures Without(s, c) == s[..k] + s[k + 1..]
  {
    if k == 0 {
      WithoutAbsent(s[1..], c);
    } else {
      WithoutAt(s[1..], c, k - 1);
      assert s[..k] + s[k + 1..] == [s[0]] + (s[1..][..k - 1] + s[1..][k..]);
    }
  }
}
