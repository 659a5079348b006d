/** What the reactor does, in terms of device status flags and interest bits: which
    channels a poll finds, what runs of interest operations leave, and the order in
    which the channels of a turn are served. */
module ReactorRuns {
  import opened Reactor
  import opened IntrusiveLists

  // ----- Device status -----

  /** A device status by its bits: 0x02 reports input and 0x04 output. The bit below
      them and all those above may be anything. */
  function Status(low: bool, input: bool, output: bool, above: nat): nat {
    (if low then 0x01 else 0) + (if input then 0x02 else 0) + (if output then 0x04 else 0) + 0x08 * above
  }

  /** Every status that is not an error has such bits. */
  lemma StatusBits(status: nat) returns (low: bool, input: bool, output: bool, above: nat)
    ensures status == Status(low, input, output, above)
  {
    var bits := status % 8;
    low, input, output, above := bits % 2 == 1, bits / 2 % 2 == 1, bits / 4 == 1, status / 8;
  }

  predicate WantsInput(events: bv8) { events & 0x02 == 0x02 }
  predicate WantsOutput(events: bv8) { events & 0x01 == 0x01 }

  /** For every status and every interest mask: input if it is reported and wanted,
      else output if that is, else nothing. */
  lemma WantedByFlags(low: bool, input: bool, output: bool, above: nat, events: bv8)
    ensures Wanted(Status(low, input, output, above), events)
         == if input && WantsInput(events) then 0x02
            else if output && WantsOutput(events) then 0x01
            else 0x00
  {
    var status := Status(low, input, output, above);
    assert ReportsIn(status) <==> input;
    assert ReportsOut(status) <==> output;
    SingleBits(events);
  }

  lemma SingleBits(events: bv8)
    ensures events & 0x02 != 0 <==> events & 0x02 == 0x02
    ensures events & 0x01 != 0 <==> events & 0x01 == 0x01
  {
  }

  /** A pass finds a channel exactly when its device reports something wanted, and it
      finds input whenever that is reported and wanted. */
  lemma FoundByFlags(cs: seq<Channel>, w: World, p: nat, c: Channel, low: bool, input: bool, output: bool, above: nat)
    requires c in cs && c in w.events && w.report(p, c) == Status(low, input, output, above)
    ensures var found, events := Found(cs, w, p), w.events[c];
      && (c in found <==> (input && WantsInput(events)) || (output && WantsOutput(events)))
      && (c in found ==> found[c] == if input && WantsInput(events) then 0x02 else 0x01)
  {
    WantedByFlags(low, input, output, above, w.events[c]);
  }

  /** It finds no channel whose device answers with an error or nothing at all. */
  lemma SilentIsNotFound(cs: seq<Channel>, w: World, p: nat, c: Channel)
    requires w.report(p, c) <= 0
    ensures c !in Found(cs, w, p)
  {
  }

  /** A poll ends with what the first pass found that found anything, or with nothing
      after passes that found nothing. */
  lemma {:induction false} FirstFoundPass(cs: seq<Channel>, w: World, p: nat, budget: nat) returns (q: nat)
    requires p <= budget
    ensures p <= q <= budget && forall r :: p <= r < q ==> Found(cs, w, r).Keys == {}
    ensures q < budget ==> Found(cs, w, q).Keys != {} && FirstFound(cs, w, p, budget) == Found(cs, w, q)
    ensures q == budget ==> FirstFound(cs, w, p, budget).Keys == {}
    decreases budget - p
  {
    if p == budget || Found(cs, w, p).Keys != {} {
      q := p;
    } else {
      q := FirstFoundPass(cs, w, p + 1, budget);
    }
  }

  /** So a poll finds a channel that wants input as soon as its device reports any,
      unless another channel ended the poll before. */
  lemma ReadableIsFound(cs: seq<Channel>, w: World, c: Channel, p: nat, budget: nat,
                        low: bool, output: bool, above: nat)
    requires p < budget && c in cs && c in w.events && WantsInput(w.events[c])
    requires w.report(p, c) == Status(low, true, output, above)
    ensures var found := FirstFound(cs, w, 0, budget);
      && found.Keys != {}
      && ((forall r :: 0 <= r < p ==> Found(cs, w, r).Keys == {}) ==> c in found && found[c] == 0x02)
  {
    FoundByFlags(cs, w, p, c, low, true, output, above);
    assert c in Found(cs, w, p).Keys;
    var q := FirstFoundPass(cs, w, 0, budget);
  }

  // ----- Interest -----

  function ApplyAll(ops: seq<Interest>): bv8 {
    if ops == [] then 0 else ops[|ops| - 1].Apply(ApplyAll(ops[..|ops| - 1]))
  }

  /** Whether the last operation that concerns reading enabled it. */
  predicate ReadingEnabled(ops: seq<Interest>) {
    if ops == [] then false
    else
      match ops[|ops| - 1]
      case EnableReading => true
      case DisableReading => false
      case DisableAll => false
      case _ => ReadingEnabled(ops[..|ops| - 1])
  }

  predicate WritingEnabled(ops: seq<Interest>) {
    if ops == [] then false
    else
      match ops[|ops| - 1]
      case EnableWriting => true
      case DisableWriting => false
      case DisableAll => false
      case _ => WritingEnabled(ops[..|ops| - 1])
  }

  /** After any run of interest operations a channel wants input, bit 0x02, exactly
      when reading was enabled last, output, bit 0x01, exactly when writing was, and
      nothing else. */
  lemma {:induction false} InterestAfterRun(ops: seq<Interest>)
    ensures ApplyAll(ops) == (if ReadingEnabled(ops) then 0x02 else 0) | (if WritingEnabled(ops) then 0x01 else 0)
  {
    if ops != [] {
      InterestAfterRun(ops[..|ops| - 1]);
    }
  }

  // ----- Order of service -----

  /** The channels of a turn are served in the order in which they were registered. */
  lemma {:induction false} ServedOldestFirst(
    cs: seq<Channel>, found: map<Channel, bv8>, handlers: set<Channel>, rs: seq<Request<Channel>>)
    requires OldestFirst(cs, rs) && forall c :: c in cs ==> c in found
    ensures var calls := Calls(cs, found, handlers);
      forall i, j :: 0 <= i < j < |calls| ==> Since(rs, calls[i].0) < Since(rs, calls[j].0)
  {
    if cs != [] {
      var n := |cs| - 1;
      ServedOldestFirst(cs[..n], found, handlers, rs);
      var before := Calls(cs[..n], found, handlers);
      forall i | 0 <= i < |before|
        ensures Since(rs, before[i].0) < Since(rs, cs[n])
      {
        CallMember(cs[..n], found, handlers, before[i].0, before[i].1);
        assert (before[i].0, before[i].1) == before[i];
        var k :| 0 <= k < n && cs[k] == before[i].0;
      }
    }
  }

  /** From any run of requests to the callbacks of a turn: each channel that is
      registered, has a handler and was found gets one callback, with its event, in
      the order of registration, and no other channel gets any. */
  lemma TurnAfterRun(rs: seq<Request<Channel>>, found: map<Channel, bv8>, handlers: set<Channel>)
    ensures forall c :: c in Selected(Registered(rs), found.Keys) ==> c in found
    ensures var calls := Calls(Selected(Registered(rs), found.Keys), found, handlers);
      && (forall c, e :: (c, e) in calls <==> Since(rs, c) >= 0 && c in found && e == found[c] && c in handlers)
      && (forall i, j :: 0 <= i < j < |calls| ==> Since(rs, calls[i].0) < Since(rs, calls[j].0))
  {
    ActiveAfterRun(rs, found.Keys);
    RegistryOfRun(rs);
    forall c | c in Selected(Registered(rs), found.Keys) ensures c in found {
      SelectedMember(Registered(rs), found.Keys, c);
    }
    ServedSelected(Registered(rs), found, handlers);
    ServedOldestFirst(Selected(Registered(rs), found.Keys), found, handlers, rs);
  }
}
