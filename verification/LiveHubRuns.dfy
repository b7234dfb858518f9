/** What every interleaving of assemblies, publishes, subscribes and reads
    guarantees a subscription. */
module LiveHubRuns {
  import opened Rows
  import opened LiveHub

  datatype History = History(states: seq<State>, steps: seq<Step>) {
    ghost predicate StepOK(k: nat)
      requires k < |steps| < |states|
    {
      Guard(states[k], steps[k]) && states[k + 1] == Next(states[k], steps[k])
    }

    ghost predicate Valid() {
      && |states| == |steps| + 1
      && states[0] == State(0, {}, 0, map[], Idle)
      && forall k: nat | k < |steps| :: StepOK(k)
    }

    function Last(): State
      requires |states| > 0
    {
      states[|states| - 1]
    }

    ghost function Then(step: Step, next: State): (h: History)
      requires Valid() && Guard(Last(), step) && next == Next(Last(), step)
      ensures h.Valid() && h.Last() == next
    {
      var h := History(states + [next], steps + [step]);
      assert forall k: nat | k < |steps| :: StepOK(k) ==> h.StepOK(k);
      h
    }
  }

  lemma {:induction false} InvAlways(h: History, k: nat)
    requires h.Valid() && k <= |h.steps|
    ensures Inv(h.states[k])
  {
    if k > 0 {
      InvAlways(h, k - 1);
      assert h.StepOK(k - 1);
      InvKept(h.states[k - 1], h.steps[k - 1]);
    }
  }

  // ----- order -----

  /** The subscription stays registered from i to j. */
  predicate Stays(h: History, i: nat, j: nat, id: SubId)
    requires i <= j < |h.states|
  {
    forall k | i <= k <= j :: id in h.states[k].subs
  }

  lemma {:induction false} ReceivedGrows(h: History, i: nat, j: nat, id: SubId)
    requires h.Valid() && i <= j <= |h.steps| && Stays(h, i, j, id)
    ensures h.states[i].subs[id].received <= h.states[j].subs[id].received
    decreases j
  {
    if i < j {
      ReceivedGrows(h, i, j - 1, id);
      assert h.StepOK(j - 1);
    }
  }

  /** A subscription sees strictly increasing sequence numbers: its initial frame
      first, then the handed-over one, then the published ones; what it saw is
      never revised, and what waits in its slot is newer than all of it. */
  lemma SequenceIncreases(h: History, i: nat, j: nat, id: SubId)
    requires h.Valid() && i <= j <= |h.steps| && Stays(h, i, j, id)
    ensures var sub := h.states[j].subs[id];
            && Increasing(sub.received)
            && h.states[i].subs[id].received <= sub.received
            && (sub.chan.slot.Some? ==>
                  forall k | 0 <= k < |sub.received| :: sub.received[k].stamp < sub.chan.slot.value.stamp)
    ensures var sub := h.states[j].subs[id];
            !sub.chan.ready && sub.written ==> sub.initial.Some? && sub.received == [sub.initial.value]
  {
    InvAlways(h, j);
    ReceivedGrows(h, i, j, id);
    assert SubOK(h.states[j].subs[id], h.states[j].stamp, Waiting(h.states[j], id));
  }

  /** The steps that number a frame: a publish, the initial frame, and the handoff
      of a frame that was held. */
  predicate Numbers(s: State, step: Step) {
    || step.DoPublish? || step.DoStampInitial?
    || (step.DoFinish? && step.restamp && step.id in s.subs && s.subs[step.id].chan.pending.Some?)
  }

  function NumberedIn(h: History, k: nat): nat
    requires k <= |h.steps| < |h.states|
  {
    if k == 0 then 0 else NumberedIn(h, k - 1) + if Numbers(h.states[k - 1], h.steps[k - 1]) then 1 else 0
  }

  /** Numbers are handed out one by one, and to nothing else. */
  lemma {:induction false} NumbersAreConsecutive(h: History, k: nat)
    requires h.Valid() && k <= |h.steps|
    ensures h.states[k].stamp == NumberedIn(h, k)
  {
    if k > 0 {
      NumbersAreConsecutive(h, k - 1);
      assert h.StepOK(k - 1);
      NumberStep(h.states[k - 1], h.steps[k - 1]);
    }
  }

  lemma NumberStep(s: State, step: Step)
    requires Guard(s, step)
    ensures Next(s, step).stamp == s.stamp + if Numbers(s, step) then 1 else 0
  {
  }

  /** An assembly leaves exactly one new draft, the newest snapshot so far, and a
      removed subscription is gone; neither touches anything else. */
  lemma AssembliesAndRemovals(s: State, step: Step)
    requires Guard(s, step)
    ensures var t := Next(s, step);
            && (step.DoAssemble? ==> t == s.(clock := s.clock + 1, drafts := s.drafts + {Draft(step.profile, t.clock)}))
            && (step.DoReadInitial? ==> t.clock == s.clock + 1 && t.subs[step.id].read == Some(t.clock))
            && (step.DoRemove? ==> t == s.(subs := t.subs) && t.subs.Keys == s.subs.Keys - {step.id})
            && (step.DoRemove? ==> forall id | id in t.subs :: t.subs[id] == s.subs[id])
  {
  }

  // ----- latest value -----

  ghost predicate PublishedAt(h: History, i: nat, profile: Profile, body: nat)
    requires h.Valid()
  {
    i < |h.steps| && h.steps[i].DoPublish? && h.steps[i].draft == Draft(profile, body)
  }

  lemma {:induction false} NewestKept(h: History, i: nat, j: nat, id: SubId, profile: Profile, body: nat)
    requires h.Valid() && PublishedAt(h, i, profile, body) && i < j <= |h.steps|
    requires Stays(h, i, j, id) && h.states[i].subs[id].profile == profile
    requires forall k, other | i < k < j :: !PublishedAt(h, k, profile, other)
    ensures h.states[j].subs[id].newest == Some(body) && h.states[j].subs[id].profile == profile
    decreases j
  {
    assert h.StepOK(j - 1);
    if i + 1 < j {
      NewestKept(h, i, j - 1, id, profile, body);
      assert h.steps[j - 1].DoPublish? ==> PublishedAt(h, j - 1, h.steps[j - 1].draft.profile, h.steps[j - 1].draft.body);
    }
  }

  /** Once no publish is in progress, the newest snapshot published for the
      profile since the subscription registered is held back for it, waits in its
      slot, or is the last frame it received, whatever its reader did meanwhile. */
  lemma NewestIsNeverLost(h: History, i: nat, j: nat, id: SubId, profile: Profile, body: nat)
    requires h.Valid() && PublishedAt(h, i, profile, body) && i < j <= |h.steps|
    requires Stays(h, i, j, id) && h.states[i].subs[id].profile == profile
    requires forall k, other | i < k < j :: !PublishedAt(h, k, profile, other)
    requires h.states[j].publisher.Idle?
    ensures var sub := h.states[j].subs[id];
            || (sub.chan.pending.Some? && sub.chan.pending.value.body == body)
            || (sub.chan.slot.Some? && sub.chan.slot.value.body == body)
            || (sub.received != [] && sub.received[|sub.received| - 1].body == body)
  {
    InvAlways(h, j);
    NewestKept(h, i, j, id, profile, body);
    assert SubOK(h.states[j].subs[id], h.states[j].stamp, false);
  }

  // ----- nothing blocks -----

  /** The handoff sends into an empty slot, and the second try of a publish finds
      the slot empty, so it never gives its frame up. */
  lemma SendsNeverBlock(h: History, k: nat)
    requires h.Valid() && k < |h.steps|
    ensures Guard(h.states[k], h.steps[k])
    ensures match h.steps[k]
            case DoFinish(id, _) => h.states[k].subs[id].chan.slot.None?
            case DoAdvance =>
              var p := h.states[k].publisher;
              p.stage.Refilling? ==>
                && h.states[k].subs[p.queue[0]].chan.slot.None?
                && p.queue[0] in h.states[k + 1].subs
                && h.states[k + 1].subs[p.queue[0]].chan.slot == Some(p.frame)
            case _ => true
  {
    InvAlways(h, k);
    assert h.StepOK(k);
    if h.steps[k].DoFinish? {
      assert SubOK(h.states[k].subs[h.steps[k].id], h.states[k].stamp, Waiting(h.states[k], h.steps[k].id));
    }
  }

  /** Channel operations a publish still has to make. */
  function Work(s: State): nat {
    match s.publisher
    case Idle => 0
    case Publishing(_, queue, stage) =>
      3 * |queue| - (if |queue| == 0 || stage.Offering? then 0 else if stage.Draining? then 1 else 2)
  }

  /** A publish in progress can always make its next operation, every one of its
      own brings it closer to the end and no reader sets it back: no slow client
      can hold up the publisher. */
  lemma PublishIsWaitFree(h: History, k: nat)
    requires h.Valid() && k <= |h.steps| && h.states[k].publisher.Publishing?
    ensures Guard(h.states[k], DoAdvance) && Work(Advance(h.states[k])) < Work(h.states[k])
    ensures k < |h.steps| ==> Work(h.states[k + 1]) <= Work(h.states[k])
  {
    InvAlways(h, k);
    assert h.states[k].publisher.queue[0] in h.states[k].publisher.queue;
    if k < |h.steps| {
      assert h.StepOK(k);
    }
  }
}
