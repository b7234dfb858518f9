/** Sequence numbers order deliveries. When the frame a subscription ends on is
    also the newest one that was assembled is a matter of how assemblies and
    publishes interleave, because a snapshot is assembled outside the lock under
    which it is numbered. */
module LiveHubFresh {
  import opened Rows
  import opened Lists
  import opened LiveHub
  import opened LiveHubRuns

  // ----- assemblies in a history -----

  /** Step a assembled the snapshot `body`. */
  ghost predicate AssembledAt(h: History, a: nat, body: nat)
    requires h.Valid()
  {
    a < |h.steps| && (h.steps[a].DoAssemble? || h.steps[a].DoReadInitial?) && body == h.states[a].clock + 1
  }

  lemma {:induction false} ClockGrows(h: History, i: nat, j: nat)
    requires h.Valid() && i <= j <= |h.steps|
    ensures h.states[i].clock <= h.states[j].clock
    decreases j
  {
    if i < j {
      ClockGrows(h, i, j - 1);
      assert h.StepOK(j - 1);
    }
  }

  /** The later assembly has the larger clock value. */
  lemma AssembliesAreOrdered(h: History, a: nat, b: nat, first: nat, second: nat)
    requires h.Valid() && AssembledAt(h, a, first) && AssembledAt(h, b, second)
    ensures first < second <==> a < b
  {
    assert h.StepOK(a) && h.StepOK(b);
    if a < b {
      ClockGrows(h, a + 1, b);
    } else if b < a {
      ClockGrows(h, b + 1, a);
    }
  }

  lemma {:induction false} DraftAssembled(h: History, k: nat, draft: Draft) returns (a: nat)
    requires h.Valid() && k <= |h.steps| && draft in h.states[k].drafts
    ensures a < k && AssembledAt(h, a, draft.body)
  {
    a := k - 1;
    assert h.StepOK(a);
    if draft in h.states[a].drafts {
      a := DraftAssembled(h, a, draft);
    }
  }

  lemma {:induction false} ReadAssembled(h: History, k: nat, id: SubId, body: nat) returns (a: nat)
    requires h.Valid() && k <= |h.steps| && id in h.states[k].subs && h.states[k].subs[id].read == Some(body)
    ensures a < k && AssembledAt(h, a, body)
  {
    a := k - 1;
    assert h.StepOK(a);
    if id in h.states[a].subs && h.states[a].subs[id].read == Some(body) {
      a := ReadAssembled(h, a, id, body);
    }
  }

  lemma PublishedAssembled(h: History, k: nat, profile: Profile, body: nat) returns (a: nat)
    requires h.Valid() && PublishedAt(h, k, profile, body)
    ensures a < k && AssembledAt(h, a, body)
  {
    assert h.StepOK(k);
    a := DraftAssembled(h, k, Draft(profile, body));
  }

  // ----- which frame a subscription ends on -----

  /** Snapshot `body` was assembled after snapshot `other`. */
  ghost predicate AssembledAfter(h: History, body: nat, other: nat)
    requires h.Valid()
  {
    exists a, b :: b < a && AssembledAt(h, a, body) && AssembledAt(h, b, other)
  }

  /** A subscription of the profile begins with step i. */
  ghost predicate Subscribed(h: History, i: nat, id: SubId, profile: Profile)
    requires h.Valid()
  {
    i < |h.steps| && h.steps[i] == DoRegister(id, profile)
  }

  /** No publish is in progress and the reader has taken everything. */
  ghost predicate Drained(s: State, id: SubId) {
    && s.publisher.Idle? && id in s.subs && s.subs[id].chan.ready && s.subs[id].chan.slot.None?
    && s.subs[id].received != []
  }

  function LastBody(sub: Sub): nat
    requires sub.received != []
  {
    sub.received[|sub.received| - 1].body
  }

  /** The last frame received is at least as new as everything the subscription
      was given: its initial snapshot and every publish since it registered. */
  ghost predicate EndsOnNewest(h: History, i: nat, j: nat, id: SubId, profile: Profile)
    requires h.Valid() && i <= j <= |h.steps| && Drained(h.states[j], id)
  {
    var sub := h.states[j].subs[id];
    && (sub.initial.Some? ==> sub.initial.value.body <= LastBody(sub))
    && (forall k: nat, body: nat | i < k < j && PublishedAt(h, k, profile, body) :: body <= LastBody(sub))
  }

  ghost predicate LastPublish(h: History, i: nat, j: nat, profile: Profile, m: nat, body: nat)
    requires h.Valid()
  {
    i < m < j && PublishedAt(h, m, profile, body) && forall k, other | m < k < j :: !PublishedAt(h, k, profile, other)
  }

  /** The snapshot published last was not overtaken between its assembly and its
      lock by an earlier publish, and was not assembled before the initial read. */
  ghost predicate InOrder(h: History, i: nat, j: nat, id: SubId, profile: Profile, m: nat, body: nat)
    requires h.Valid() && j <= |h.steps| && id in h.states[j].subs
  {
    var sub := h.states[j].subs[id];
    && (sub.initial.Some? ==> !AssembledAfter(h, sub.initial.value.body, body))
    && (forall k: nat, other: nat | i < k < m && PublishedAt(h, k, profile, other) :: !AssembledAfter(h, other, body))
  }

  lemma {:induction false} NothingPublished(h: History, i: nat, j: nat, id: SubId, profile: Profile)
    requires h.Valid() && Subscribed(h, i, id, profile) && i < j <= |h.steps| && Stays(h, i + 1, j, id)
    requires forall k, body | i < k < j :: !PublishedAt(h, k, profile, body)
    ensures h.states[j].subs[id].newest.None? && h.states[j].subs[id].profile == profile
    decreases j
  {
    assert h.StepOK(j - 1);
    if i + 1 < j {
      NothingPublished(h, i, j - 1, id, profile);
      assert h.steps[j - 1].DoPublish? ==> PublishedAt(h, j - 1, h.steps[j - 1].draft.profile, h.steps[j - 1].draft.body);
    }
  }

  lemma {:induction false} ProfileKept(h: History, i: nat, j: nat, id: SubId, profile: Profile)
    requires h.Valid() && Subscribed(h, i, id, profile) && i < j <= |h.steps| && Stays(h, i + 1, j, id)
    ensures h.states[j].subs[id].profile == profile
    decreases j
  {
    assert h.StepOK(j - 1);
    if i + 1 < j {
      ProfileKept(h, i, j - 1, id, profile);
    }
  }

  lemma EndsOnLastPublish(h: History, i: nat, j: nat, id: SubId, profile: Profile, m: nat, body: nat)
    requires h.Valid() && Subscribed(h, i, id, profile) && i < j <= |h.steps| && Stays(h, i + 1, j, id)
    requires Drained(h.states[j], id) && LastPublish(h, i, j, profile, m, body)
    ensures LastBody(h.states[j].subs[id]) == body
  {
    ProfileKept(h, i, m, id, profile);
    assert Stays(h, m, j, id);
    NewestIsNeverLost(h, m, j, id, profile, body);
    InvAlways(h, j);
    assert SubOK(h.states[j].subs[id], h.states[j].stamp, false);
  }

  lemma EndsOnInitial(h: History, i: nat, j: nat, id: SubId, profile: Profile)
    requires h.Valid() && Subscribed(h, i, id, profile) && i < j <= |h.steps| && Stays(h, i + 1, j, id)
    requires Drained(h.states[j], id) && forall k, body | i < k < j :: !PublishedAt(h, k, profile, body)
    ensures h.states[j].subs[id].initial.Some? && LastBody(h.states[j].subs[id]) == h.states[j].subs[id].initial.value.body
  {
    NothingPublished(h, i, j, id, profile);
    InvAlways(h, j);
    assert SubOK(h.states[j].subs[id], h.states[j].stamp, false);
  }

  lemma NotAfterIff(h: History, a: nat, b: nat, body: nat, other: nat)
    requires h.Valid() && AssembledAt(h, a, body) && AssembledAt(h, b, other)
    ensures body <= other <==> !AssembledAfter(h, body, other)
  {
    AssembliesAreOrdered(h, b, a, other, body);
    if AssembledAfter(h, body, other) {
      var x, y :| y < x && AssembledAt(h, x, body) && AssembledAt(h, y, other);
      AssembliesAreOrdered(h, y, x, other, body);
    }
  }

  /** In every interleaving, whenever a subscription has taken all it was sent,
      the frame it ended on is the newest it was given exactly when the snapshot
      published last was neither overtaken by an earlier publish nor assembled
      before the subscription's own initial read. */
  lemma EndsOnNewestIff(h: History, i: nat, j: nat, id: SubId, profile: Profile)
    requires h.Valid() && Subscribed(h, i, id, profile) && i < j <= |h.steps| && Stays(h, i + 1, j, id)
    requires Drained(h.states[j], id)
    ensures EndsOnNewest(h, i, j, id, profile) <==>
              forall m, body | LastPublish(h, i, j, profile, m, body) :: InOrder(h, i, j, id, profile, m, body)
  {
    if exists k, body :: i < k < j && PublishedAt(h, k, profile, body) {
      var m, body := FindLastPublish(h, i, j, profile);
      EndsOnLastPublish(h, i, j, id, profile, m, body);
      NewestIffInOrder(h, i, j, id, profile, m, body);
      assert forall k, other | LastPublish(h, i, j, profile, k, other) :: k == m && other == body;
    } else {
      EndsOnInitial(h, i, j, id, profile);
    }
  }

  lemma {:induction false} FindLastPublish(h: History, i: nat, j: nat, profile: Profile) returns (m: nat, body: nat)
    requires h.Valid() && i <= j <= |h.steps| && exists k, other :: i < k < j && PublishedAt(h, k, profile, other)
    ensures LastPublish(h, i, j, profile, m, body)
    decreases j
  {
    var k, other :| i < k < j && PublishedAt(h, k, profile, other);
    if h.steps[j - 1].DoPublish? && h.steps[j - 1].draft.profile == profile {
      m, body := j - 1, h.steps[j - 1].draft.body;
    } else {
      var last := j - 1;
      assert forall any: nat :: !PublishedAt(h, last, profile, any);
      m, body := FindLastPublish(h, i, j - 1, profile);
    }
  }

  lemma NewestIffInOrder(h: History, i: nat, j: nat, id: SubId, profile: Profile, m: nat, body: nat)
    requires h.Valid() && i < j <= |h.steps| && Drained(h.states[j], id)
    requires LastPublish(h, i, j, profile, m, body) && LastBody(h.states[j].subs[id]) == body
    ensures EndsOnNewest(h, i, j, id, profile) <==> InOrder(h, i, j, id, profile, m, body)
  {
    var sub := h.states[j].subs[id];
    var a := PublishedAssembled(h, m, profile, body);
    if sub.initial.Some? {
      InvAlways(h, j);
      assert SubOK(sub, h.states[j].stamp, false);
      var b := ReadAssembled(h, j, id, sub.initial.value.body);
      NotAfterIff(h, b, a, sub.initial.value.body, body);
    }
    forall k: nat, other: nat | i < k < m && PublishedAt(h, k, profile, other)
      ensures other <= body <==> !AssembledAfter(h, other, body)
    {
      var b := PublishedAssembled(h, k, profile, other);
      NotAfterIff(h, b, a, other, body);
    }
    assert forall k: nat, other: nat | i < k < j && PublishedAt(h, k, profile, other) :: k < m || (k == m && other == body);
  }

  // ----- both ways to end on an older snapshot -----

  ghost predicate Extends(g: History, h: History) { h.states <= g.states && h.steps <= g.steps }

  /** Nothing of the subscription but its channel differs. */
  ghost predicate SameButChannel(s: State, t: State, id: SubId) {
    && id in s.subs && id in t.subs && t.subs[id] == s.subs[id].(chan := t.subs[id].chan)
    && t.subs[id].chan.ready == s.subs[id].chan.ready
  }

  lemma {:induction false} Enumerate(all: set<SubId>) returns (list: seq<SubId>)
    ensures Distinct(list) && forall id :: id in list <==> id in all
  {
    list := [];
    if all != {} {
      var id :| id in all;
      var rest := Enumerate(all - {id});
      list := rest + [id];
    }
  }

  lemma AdvanceOnce(h: History) returns (g: History)
    requires h.Valid() && h.Last().publisher.Publishing?
    ensures g.Valid() && Extends(g, h) && |g.steps| == |h.steps| + 1 && Work(g.Last()) < Work(h.Last())
    ensures g.Last().clock == h.Last().clock && g.Last().drafts == h.Last().drafts
    ensures forall id | id in h.Last().subs :: SameButChannel(h.Last(), g.Last(), id)
  {
    PublishIsWaitFree(h, |h.steps|);
    g := h.Then(DoAdvance, Advance(h.Last()));
  }

  /** A publish in progress runs to its end. */
  lemma {:induction false} FinishPublish(h: History) returns (g: History)
    requires h.Valid()
    ensures g.Valid() && Extends(g, h) && g.Last().publisher.Idle?
    ensures g.Last().clock == h.Last().clock && g.Last().drafts == h.Last().drafts
    ensures forall id | id in h.Last().subs :: SameButChannel(h.Last(), g.Last(), id)
    decreases Work(h.Last())
  {
    g := h;
    if h.Last().publisher.Publishing? {
      g := AdvanceOnce(h);
      g := FinishPublish(g);
    }
  }

  /** An outstanding draft is published to the end. */
  lemma PublishDraft(h: History, draft: Draft) returns (g: History)
    requires h.Valid() && h.Last().publisher.Idle? && draft in h.Last().drafts
    ensures g.Valid() && Extends(g, h) && g.Last().publisher.Idle?
    ensures g.Last().clock == h.Last().clock && g.Last().drafts == h.Last().drafts - {draft}
    ensures |g.steps| > |h.steps| && PublishedAt(g, |h.steps|, draft.profile, draft.body)
    ensures forall id | id in h.Last().subs && h.Last().subs[id].profile == draft.profile ::
              && id in g.Last().subs && g.Last().subs[id].newest == Some(draft.body)
              && g.Last().subs[id].(newest := h.Last().subs[id].newest, chan := h.Last().subs[id].chan) == h.Last().subs[id]
              && g.Last().subs[id].chan.ready == h.Last().subs[id].chan.ready
  {
    var s := h.Last();
    var queue := Enumerate(set id | id in s.subs && s.subs[id].profile == draft.profile);
    assert Listed(s, draft.profile, queue);
    var started := h.Then(DoPublish(draft, queue), Next(s, DoPublish(draft, queue)));
    g := FinishPublish(started);
    assert g.steps[|h.steps|] == started.steps[|h.steps|];
    forall id | id in s.subs && s.subs[id].profile == draft.profile
      ensures SameButChannel(started.Last(), g.Last(), id) && started.Last().subs[id] == s.subs[id].(newest := Some(draft.body))
    {
    }
  }

  /** The reader takes what waits, and so ends on the last publish. */
  lemma TakeAll(h: History, id: SubId, body: nat) returns (g: History)
    requires h.Valid() && h.Last().publisher.Idle? && id in h.Last().subs && h.Last().subs[id].chan.ready
    requires h.Last().subs[id].newest == Some(body)
    ensures g.Valid() && Extends(g, h) && Drained(g.Last(), id) && LastBody(g.Last().subs[id]) == body
    ensures g.Last().subs[id].initial == h.Last().subs[id].initial
  {
    g := h;
    if h.Last().subs[id].chan.slot.Some? {
      g := h.Then(DoReceive(id), Next(h.Last(), DoReceive(id)));
    }
    InvAlways(g, |g.steps|);
    assert SubOK(g.Last().subs[id], g.Last().stamp, false);
  }

  /** Whenever two snapshots of a profile are assembled and neither is published
      yet, a ready subscription can end on the older one: the newer takes the
      lock first. */
  lemma OvertakenPublish(h: History, id: SubId, profile: Profile, older: nat, newer: nat) returns (g: History)
    requires h.Valid() && h.Last().publisher.Idle? && id in h.Last().subs && h.Last().subs[id].chan.ready
    requires h.Last().subs[id].profile == profile && older < newer
    requires Draft(profile, older) in h.Last().drafts && Draft(profile, newer) in h.Last().drafts
    ensures g.Valid() && Extends(g, h) && Drained(g.Last(), id)
    ensures |g.steps| > |h.steps| && PublishedAt(g, |h.steps|, profile, newer)
    ensures LastBody(g.Last().subs[id]) == older
  {
    var first := PublishDraft(h, Draft(profile, newer));
    var second := PublishDraft(first, Draft(profile, older));
    g := TakeAll(second, id, older);
    assert g.steps[|h.steps|] == first.steps[|h.steps|];
  }

  /** A new subscription reads, writes and finishes while a frame is held for it. */
  lemma FinishInitial(h: History, id: SubId, body: nat) returns (g: History)
    requires h.Valid() && h.Last().publisher.Idle? && id in h.Last().subs && !h.Last().subs[id].chan.ready
    requires h.Last().subs[id].newest == Some(body) && h.Last().subs[id].read.None? && h.Last().subs[id].initial.None?
    requires !h.Last().subs[id].written
    ensures g.Valid() && Extends(g, h) && g.Last().publisher.Idle? && id in g.Last().subs && g.Last().subs[id].chan.ready
    ensures g.Last().subs[id].newest == Some(body) && g.Last().subs[id].initial.Some?
    ensures g.Last().subs[id].initial.value.body == h.Last().clock + 1
  {
    var s := h.Last();
    g := h.Then(DoReadInitial(id), Next(s, DoReadInitial(id)));
    g := g.Then(DoStampInitial(id), Next(g.Last(), DoStampInitial(id)));
    g := g.Then(DoWriteInitial(id), Next(g.Last(), DoWriteInitial(id)));
    g := g.Then(DoFinish(id, true), Next(g.Last(), DoFinish(id, true)));
  }

  /** Whenever a snapshot of a profile is assembled and not yet published, a
      subscription that registers now can end on it although its own initial
      snapshot is newer: the held frame is renumbered and delivered after it. */
  lemma HeldFrameCanBeOlder(h: History, id: SubId, profile: Profile, older: nat) returns (g: History)
    requires h.Valid() && h.Last().publisher.Idle? && id !in h.Last().subs && Draft(profile, older) in h.Last().drafts
    ensures g.Valid() && Extends(g, h) && Drained(g.Last(), id)
    ensures g.Last().subs[id].initial.Some? && g.Last().subs[id].initial.value.body > older
    ensures LastBody(g.Last().subs[id]) == older
  {
    var a := DraftAssembled(h, |h.steps|, Draft(profile, older));
    assert h.StepOK(a);
    ClockGrows(h, a + 1, |h.steps|);
    var registered := h.Then(DoRegister(id, profile), Put(h.Last(), id, NewSub(profile)));
    var held := PublishDraft(registered, Draft(profile, older));
    var finished := FinishInitial(held, id, older);
    g := TakeAll(finished, id, older);
  }
}
