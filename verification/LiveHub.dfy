/** The live status hub at the granularity of its locks: publishes, stamps and
    registrations exclude each other, but a reader may take from its
    capacity-one slot between any two channel operations of a publish. */
module LiveHub {
  import opened Rows
  import opened Lists

  type Profile = string
  type SubId = nat

  /** `body` is the moment its snapshot was assembled, `stamp` its SnapshotSeq. */
  datatype Frame = Frame(body: nat, stamp: nat)

  /** A snapshot assembled for a publish that has not taken the lock yet. */
  datatype Draft = Draft(profile: Profile, body: nat)

  /** What the hub keeps for one subscriber. */
  datatype Chan = Chan(ready: bool, pending: Option<Frame>, slot: Option<Frame>) {
    /** First try: hold for a paused subscriber, or fill an empty slot. */
    function Offer(f: Frame): Chan {
      if !ready then this.(pending := Some(f)) else if slot.None? then this.(slot := Some(f)) else this
    }

    predicate Takes() { !ready || slot.None? }

    function Drain(): Chan { this.(slot := None) }

    /** Second try, which gives the frame up when the slot is full. */
    function Refill(f: Frame): Chan { if slot.None? then this.(slot := Some(f)) else this }

    /** The handoff: a held frame moves to the slot. */
    function Finish(handed: Option<Frame>): Chan { Chan(true, None, if handed.Some? then handed else slot) }
  }

  /** A subscriber with its history: when its initial snapshot was read, the
      initial frame and whether it has been written, everything its connection has
      received, and the last snapshot published for its profile since it
      registered. */
  datatype Sub = Sub(profile: Profile, chan: Chan, read: Option<nat>, initial: Option<Frame>, written: bool,
                     received: seq<Frame>, newest: Option<nat>)

  function NewSub(profile: Profile): Sub { Sub(profile, Chan(false, None, None), None, None, false, [], None) }

  datatype Stage = Offering | Draining | Refilling
  datatype Publisher = Idle | Publishing(frame: Frame, queue: seq<SubId>, stage: Stage)

  /** `clock` counts assemblies, so it tells any two of them apart and orders them. */
  datatype State = State(clock: nat, drafts: set<Draft>, stamp: nat, subs: map<SubId, Sub>, publisher: Publisher)

  datatype Step =
    | DoRegister(id: SubId, profile: Profile)
    | DoReadInitial(id: SubId)
    | DoStampInitial(id: SubId)
    | DoWriteInitial(id: SubId)
    | DoFinish(id: SubId, restamp: bool)
    | DoRemove(id: SubId)
    | DoAssemble(profile: Profile)
    | DoPublish(draft: Draft, queue: seq<SubId>)
    | DoAdvance
    | DoReceive(id: SubId)

  /** The registered subscribers of a profile, in any order. */
  ghost predicate Listed(s: State, profile: Profile, queue: seq<SubId>) {
    Distinct(queue) && forall id :: id in queue <==> id in s.subs && s.subs[id].profile == profile
  }

  ghost predicate Guard(s: State, step: Step) {
    match step
    case DoRegister(id, _) => s.publisher.Idle? && id !in s.subs
    case DoReadInitial(id) => id in s.subs && !s.subs[id].chan.ready && s.subs[id].read.None?
    case DoStampInitial(id) =>
      && s.publisher.Idle? && id in s.subs && !s.subs[id].chan.ready
      && s.subs[id].read.Some? && s.subs[id].initial.None?
    case DoWriteInitial(id) => id in s.subs && !s.subs[id].chan.ready && s.subs[id].initial.Some? && !s.subs[id].written
    case DoFinish(id, restamp) =>
      && s.publisher.Idle? && id in s.subs && !s.subs[id].chan.ready
      && (if restamp then s.subs[id].written else s.subs[id].read.None? && s.subs[id].initial.None?)
    case DoRemove(id) => s.publisher.Idle? && id in s.subs
    case DoAssemble(_) => true
    case DoPublish(draft, queue) => s.publisher.Idle? && draft in s.drafts && Listed(s, draft.profile, queue)
    case DoAdvance => s.publisher.Publishing? && s.publisher.queue != [] && s.publisher.queue[0] in s.subs
    case DoReceive(id) => id in s.subs && s.subs[id].chan.ready && s.subs[id].chan.slot.Some?
  }

  function Pop(p: Publisher): Publisher
    requires p.Publishing? && p.queue != []
  {
    if |p.queue| == 1 then Idle else Publishing(p.frame, p.queue[1..], Offering)
  }

  function Put(s: State, id: SubId, sub: Sub): State { s.(subs := s.subs[id := sub]) }

  /** One channel operation of the publish in progress. */
  function Advance(s: State): State
    requires Guard(s, DoAdvance)
  {
    var p := s.publisher;
    var id := p.queue[0];
    var sub := s.subs[id];
    match p.stage
    case Offering =>
      if sub.chan.Takes() then Put(s, id, sub.(chan := sub.chan.Offer(p.frame))).(publisher := Pop(p))
      else s.(publisher := p.(stage := Draining))
    case Draining => Put(s, id, sub.(chan := sub.chan.Drain())).(publisher := p.(stage := Refilling))
    case Refilling => Put(s, id, sub.(chan := sub.chan.Refill(p.frame))).(publisher := Pop(p))
  }

  /** The held frame as the handoff sends it. */
  function Handed(s: State, sub: Sub, restamp: bool): Option<Frame> {
    if sub.chan.pending.None? then None
    else if restamp then Some(Frame(sub.chan.pending.value.body, s.stamp + 1))
    else sub.chan.pending
  }

  function Finish(s: State, id: SubId, restamp: bool): State
    requires id in s.subs
  {
    var sub := s.subs[id];
    Put(s, id, sub.(chan := sub.chan.Finish(Handed(s, sub, restamp))))
      .(stamp := if restamp && sub.chan.pending.Some? then s.stamp + 1 else s.stamp)
  }

  function Announce(s: State, profile: Profile, body: nat): map<SubId, Sub> {
    map id | id in s.subs :: if s.subs[id].profile == profile then s.subs[id].(newest := Some(body)) else s.subs[id]
  }

  function Stamped(sub: Sub, stamp: nat): Sub
    requires sub.read.Some?
  {
    sub.(initial := Some(Frame(sub.read.value, stamp + 1)))
  }

  function Next(s: State, step: Step): State
    requires Guard(s, step)
  {
    match step
    case DoRegister(id, profile) => Put(s, id, NewSub(profile))
    case DoReadInitial(id) => Put(s, id, s.subs[id].(read := Some(s.clock + 1))).(clock := s.clock + 1)
    case DoStampInitial(id) => Put(s, id, Stamped(s.subs[id], s.stamp)).(stamp := s.stamp + 1)
    case DoWriteInitial(id) =>
      Put(s, id, s.subs[id].(written := true, received := s.subs[id].received + [s.subs[id].initial.value]))
    case DoFinish(id, restamp) => Finish(s, id, restamp)
    case DoRemove(id) => s.(subs := s.subs - {id})
    case DoAssemble(profile) => s.(clock := s.clock + 1, drafts := s.drafts + {Draft(profile, s.clock + 1)})
    case DoPublish(draft, queue) =>
      State(s.clock, s.drafts - {draft}, s.stamp + 1, Announce(s, draft.profile, draft.body),
            if queue == [] then Idle else Publishing(Frame(draft.body, s.stamp + 1), queue, Offering))
    case DoAdvance => Advance(s)
    case DoReceive(id) => Put(s, id, Received(s.subs[id]))
  }

  // ----- the invariant -----

  ghost predicate Below(sub: Sub, bound: nat) {
    && (sub.chan.pending.Some? ==> sub.chan.pending.value.stamp < bound)
    && (sub.chan.slot.Some? ==> sub.chan.slot.value.stamp < bound)
    && (sub.initial.Some? ==> sub.initial.value.stamp < bound)
    && (forall i | 0 <= i < |sub.received| :: sub.received[i].stamp < bound)
  }

  ghost predicate Increasing(frames: seq<Frame>) {
    forall i, j | 0 <= i < j < |frames| :: frames[i].stamp < frames[j].stamp
  }

  function OnlyInitial(sub: Sub): seq<Frame> {
    if sub.written && sub.initial.Some? then [sub.initial.value] else []
  }

  /** The order and shape of one subscriber's frames. */
  ghost predicate Ordered(sub: Sub) {
    && Increasing(sub.received)
    && (sub.chan.slot.Some? ==> forall i | 0 <= i < |sub.received| :: sub.received[i].stamp < sub.chan.slot.value.stamp)
    && (sub.written ==> sub.initial.Some?)
    && (sub.initial.Some? ==> sub.read == Some(sub.initial.value.body))
    && (sub.newest.None? ==> sub.chan.pending.None? && sub.chan.slot.None? && sub.received == OnlyInitial(sub))
    && (!sub.chan.ready ==> sub.chan.slot.None? && sub.received == OnlyInitial(sub))
    && (sub.chan.ready ==> sub.chan.pending.None?)
  }

  /** The newest snapshot is held back, in the slot, or the last one received. */
  ghost predicate NewestReached(sub: Sub) {
    sub.newest.Some? ==>
      if sub.chan.pending.Some? then sub.chan.pending.value.body == sub.newest.value
      else if sub.chan.slot.Some? then sub.chan.slot.value.body == sub.newest.value
      else sub.received != [] && sub.received[|sub.received| - 1].body == sub.newest.value
  }

  ghost predicate PausedHolds(sub: Sub) { sub.newest.Some? && !sub.chan.ready ==> sub.chan.pending.Some? }

  ghost predicate PublisherOK(s: State) {
    s.publisher.Publishing? ==>
      var p := s.publisher;
      && p.queue != [] && Distinct(p.queue) && p.frame.stamp == s.stamp
      && (forall id | id in p.queue :: id in s.subs && Below(s.subs[id], s.stamp) && s.subs[id].newest == Some(p.frame.body))
      && (!p.stage.Offering? ==> s.subs[p.queue[0]].chan.ready)
      && (p.stage.Refilling? ==> s.subs[p.queue[0]].chan.slot.None?)
  }

  predicate Waiting(s: State, id: SubId) { s.publisher.Publishing? && id in s.publisher.queue }

  /** A subscriber's frames; while a publish has yet to reach it, it may still
      lack the newest one. */
  ghost predicate SubOK(sub: Sub, stamp: nat, waiting: bool) {
    && Below(sub, stamp + 1) && Ordered(sub)
    && (!waiting ==> NewestReached(sub) && PausedHolds(sub))
  }

  ghost predicate Inv(s: State) {
    PublisherOK(s) && forall id | id in s.subs :: SubOK(s.subs[id], s.stamp, Waiting(s, id))
  }

  // ----- one subscriber -----

  lemma DeliverOK(sub: Sub, f: Frame)
    requires Below(sub, f.stamp) && Ordered(sub) && sub.newest == Some(f.body) && sub.chan.Takes()
    ensures SubOK(sub.(chan := sub.chan.Offer(f)), f.stamp, false)
    ensures sub.chan.ready ==> sub.chan.Refill(f) == sub.chan.Offer(f)
  {
  }

  lemma DrainOK(sub: Sub, stamp: nat)
    requires SubOK(sub, stamp, true) && sub.chan.ready
    ensures SubOK(sub.(chan := sub.chan.Drain()), stamp, true)
    ensures Below(sub, stamp) ==> Below(sub.(chan := sub.chan.Drain()), stamp)
  {
  }

  function Received(sub: Sub): Sub
    requires sub.chan.slot.Some?
  {
    sub.(chan := sub.chan.Drain(), received := sub.received + [sub.chan.slot.value])
  }

  lemma ReceiveOK(sub: Sub, stamp: nat, waiting: bool)
    requires SubOK(sub, stamp, waiting) && sub.chan.ready && sub.chan.slot.Some?
    ensures SubOK(Received(sub), stamp, waiting)
    ensures Below(sub, stamp) ==> Below(Received(sub), stamp)
  {
    var after := Received(sub);
    assert after.received[..|sub.received|] == sub.received;
    forall i | 0 <= i < |after.received|
      ensures after.received[i] == if i < |sub.received| then sub.received[i] else sub.chan.slot.value
    {
    }
  }

  lemma FinishOK(sub: Sub, stamp: nat, handed: Option<Frame>)
    requires SubOK(sub, stamp, false) && !sub.chan.ready
    requires handed.Some? <==> sub.chan.pending.Some?
    requires handed.Some? ==> handed.value.body == sub.chan.pending.value.body
    requires handed.Some? ==> handed.value.stamp == stamp + 1 || (sub.initial.None? && handed == sub.chan.pending)
    ensures SubOK(sub.(chan := sub.chan.Finish(handed)), if handed != sub.chan.pending then stamp + 1 else stamp, false)
  {
  }

  lemma Later(sub: Sub, stamp: nat, waiting: bool)
    requires SubOK(sub, stamp, waiting)
    ensures SubOK(sub, stamp + 1, waiting) && Below(sub, stamp + 1)
  {
  }

  // ----- all subscribers -----

  /** Rewriting one subscriber outside a publish, or while it keeps what the
      publish in progress relies on. */
  lemma PutKept(s: State, id: SubId, sub: Sub)
    requires Inv(s) && SubOK(sub, s.stamp, Waiting(s, id))
    requires Waiting(s, id) ==>
               && id in s.subs && Below(sub, s.stamp) && sub.newest == s.subs[id].newest
               && sub.chan.ready == s.subs[id].chan.ready && (s.subs[id].chan.slot.None? ==> sub.chan.slot.None?)
    ensures Inv(Put(s, id, sub))
  {
    var t := Put(s, id, sub);
    assert forall other | other in t.subs :: SubOK(t.subs[other], t.stamp, Waiting(t, other));
  }

  lemma TickKept(s: State)
    requires Inv(s) && s.publisher.Idle?
    ensures Inv(s.(stamp := s.stamp + 1))
  {
    var t := s.(stamp := s.stamp + 1);
    forall id | id in t.subs
      ensures SubOK(t.subs[id], t.stamp, Waiting(t, id))
    {
      Later(s.subs[id], s.stamp, false);
    }
  }

  /** The publish is done with the head of its queue. */
  lemma PopKept(s: State, sub: Sub)
    requires Inv(s) && Guard(s, DoAdvance) && SubOK(sub, s.stamp, false)
    ensures Inv(Put(s, s.publisher.queue[0], sub).(publisher := Pop(s.publisher)))
  {
    var p, head := s.publisher, s.publisher.queue[0];
    var t := Put(s, head, sub).(publisher := Pop(p));
    assert forall k | 0 < k < |p.queue| :: p.queue[k] != head;
    forall id | id in t.subs
      ensures SubOK(t.subs[id], t.stamp, Waiting(t, id))
    {
      assert id != head ==> (id in p.queue <==> id in p.queue[1..]);
    }
  }

  lemma AdvanceKept(s: State)
    requires Inv(s) && Guard(s, DoAdvance)
    ensures Inv(Advance(s))
  {
    var p := s.publisher;
    var id := p.queue[0];
    var sub := s.subs[id];
    assert id in p.queue && Below(sub, s.stamp) && SubOK(sub, s.stamp, true);
    match p.stage
    case Offering =>
      if sub.chan.Takes() {
        DeliverOK(sub, p.frame);
        PopKept(s, sub.(chan := sub.chan.Offer(p.frame)));
      }
    case Draining =>
      DrainOK(sub, s.stamp);
      PutKept(s, id, sub.(chan := sub.chan.Drain()));
    case Refilling =>
      DeliverOK(sub, p.frame);
      PopKept(s, sub.(chan := sub.chan.Refill(p.frame)));
  }

  lemma PublishKept(s: State, draft: Draft, queue: seq<SubId>)
    requires Inv(s) && Guard(s, DoPublish(draft, queue))
    ensures Inv(Next(s, DoPublish(draft, queue)))
  {
    var t := Next(s, DoPublish(draft, queue));
    forall id | id in t.subs
      ensures SubOK(t.subs[id], t.stamp, Waiting(t, id)) && Below(t.subs[id], t.stamp)
    {
      Later(s.subs[id], s.stamp, false);
      assert queue == [] ==> id !in queue;
    }
  }

  /** The moments of assembly are nobody's business but the reader's. */
  lemma AssemblyKept(s: State, clock: nat, drafts: set<Draft>)
    requires Inv(s)
    ensures Inv(s.(clock := clock, drafts := drafts))
  {
    var t := s.(clock := clock, drafts := drafts);
    assert forall id | id in t.subs :: SubOK(s.subs[id], t.stamp, Waiting(s, id));
  }

  lemma ReadKept(s: State, id: SubId)
    requires Inv(s) && Guard(s, DoReadInitial(id))
    ensures Inv(Next(s, DoReadInitial(id)))
  {
    var sub := s.subs[id].(read := Some(s.clock + 1));
    assert SubOK(s.subs[id], s.stamp, Waiting(s, id));
    PutKept(s, id, sub);
    AssemblyKept(Put(s, id, sub), s.clock + 1, s.drafts);
  }

  lemma RemoveKept(s: State, id: SubId)
    requires Inv(s) && Guard(s, DoRemove(id))
    ensures Inv(Next(s, DoRemove(id)))
  {
    var t := s.(subs := s.subs - {id});
    assert forall other | other in t.subs :: SubOK(s.subs[other], s.stamp, Waiting(s, other));
  }

  lemma StampKept(s: State, id: SubId)
    requires Inv(s) && Guard(s, DoStampInitial(id))
    ensures Inv(Next(s, DoStampInitial(id)))
  {
    TickKept(s);
    PutKept(s.(stamp := s.stamp + 1), id, Stamped(s.subs[id], s.stamp));
  }

  lemma WriteKept(s: State, id: SubId)
    requires Inv(s) && Guard(s, DoWriteInitial(id))
    ensures Inv(Next(s, DoWriteInitial(id)))
  {
    assert SubOK(s.subs[id], s.stamp, Waiting(s, id));
    PutKept(s, id, s.subs[id].(written := true, received := s.subs[id].received + [s.subs[id].initial.value]));
  }

  lemma FinishKept(s: State, id: SubId, restamp: bool)
    requires Inv(s) && Guard(s, DoFinish(id, restamp))
    ensures Inv(Finish(s, id, restamp))
  {
    var sub := s.subs[id];
    var handed := Handed(s, sub, restamp);
    assert SubOK(sub, s.stamp, false);
    FinishOK(sub, s.stamp, handed);
    if restamp && sub.chan.pending.Some? {
      TickKept(s);
      PutKept(s.(stamp := s.stamp + 1), id, sub.(chan := sub.chan.Finish(handed)));
    } else {
      PutKept(s, id, sub.(chan := sub.chan.Finish(handed)));
    }
  }

  lemma InvKept(s: State, step: Step)
    requires Inv(s) && Guard(s, step)
    ensures Inv(Next(s, step))
  {
    match step
    case DoAssemble(profile) => AssemblyKept(s, s.clock + 1, s.drafts + {Draft(profile, s.clock + 1)});
    case DoPublish(draft, queue) => PublishKept(s, draft, queue);
    case DoAdvance => AdvanceKept(s);
    case DoReceive(id) =>
      ReceiveOK(s.subs[id], s.stamp, Waiting(s, id));
      PutKept(s, id, Received(s.subs[id]));
    case DoFinish(id, restamp) => FinishKept(s, id, restamp);
    case DoRegister(id, profile) => PutKept(s, id, NewSub(profile));
    case DoReadInitial(id) => ReadKept(s, id);
    case DoStampInitial(id) => StampKept(s, id);
    case DoWriteInitial(id) => WriteKept(s, id);
    case DoRemove(id) => RemoveKept(s, id);
  }
}
