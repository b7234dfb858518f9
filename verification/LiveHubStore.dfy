/** The hub's subscriber lists and channel slots, updated in place under its
    mutex, and the server operations that stamp sequence numbers. */
module LiveHubStore {
  import opened Rows
  import opened Lists
  import opened LiveHub

  /** What a whole publish does to one subscriber, reader or not. */
  function Deliver(c: Chan, f: Frame): Chan {
    if !c.ready then c.(pending := Some(f)) else c.(slot := Some(f))
  }

  /** The steps of the interleaved publish add up to it. */
  lemma DeliverIsOfferDrainRefill(c: Chan, f: Frame, taken: bool)
    ensures c.Takes() ==> c.Offer(f) == Deliver(c, f)
    ensures !c.Takes() ==> (if taken then c.Drain() else c).Drain().Refill(f) == Deliver(c, f)
  {
  }

  class Subscriber {
    const profile: Profile
    var ready: bool
    var pending: Option<Frame>
    var slot: Option<Frame>

    constructor (profile: Profile)
      ensures this.profile == profile && Value() == Chan(false, None, None)
    {
      this.profile, this.ready, this.pending, this.slot := profile, false, None, None;
    }

    function Value(): Chan
      reads this
    {
      Chan(ready, pending, slot)
    }
  }

  class Hub {
    var subscribers: map<Profile, seq<Subscriber>>

    /** Every subscriber is listed once, under its own profile, and no list is empty. */
    ghost predicate Valid()
      reads this
    {
      forall p | p in subscribers ::
        && subscribers[p] != []
        && (forall sub | sub in subscribers[p] :: sub.profile == p)
        && Distinct(subscribers[p])
    }

    function Of(profile: Profile): seq<Subscriber>
      reads this
    {
      if profile in subscribers then subscribers[profile] else []
    }

    constructor ()
      ensures Valid() && subscribers == map[]
    {
      subscribers := map[];
    }

    method BeginSubscribe(profile: Profile) returns (sub: Subscriber)
      requires Valid()
      modifies this
      ensures Valid() && fresh(sub) && sub.profile == profile && sub.Value() == Chan(false, None, None)
      ensures subscribers == old(subscribers)[profile := old(Of(profile)) + [sub]]
    {
      sub := new Subscriber(profile);
      var subs := if profile in subscribers then subscribers[profile] else [];
      assert forall i | 0 <= i < |subs| :: subs[i] != sub;
      subscribers := subscribers[profile := subs + [sub]];
    }

    /** `restamp` is the fresh sequence number for a held frame, when there is one. */
    method FinishSubscribe(sub: Subscriber, restamp: Option<nat>)
      requires !sub.ready && sub.slot.None?
      modifies sub
      ensures sub.Value() == old(sub.Value()).Finish(
                if old(sub.pending).None? then None
                else if restamp.None? then old(sub.pending)
                else Some(Frame(old(sub.pending).value.body, restamp.value)))
    {
      if sub.pending.Some? {
        var pending := sub.pending.value;
        if restamp.Some? {
          pending := Frame(pending.body, restamp.value);
        }
        sub.slot := Some(pending);
        sub.pending := None;
      }
      sub.ready := true;
    }

    /** Removes one subscriber, and its profile's list with the last one. */
    method RemoveSubscriber(sub: Subscriber)
      requires Valid()
      modifies this
      ensures Valid()
      ensures sub !in Of(sub.profile)
      ensures forall p | p != sub.profile :: p in subscribers <==> p in old(subscribers)
      ensures forall p | p != sub.profile && p in subscribers :: subscribers[p] == old(subscribers)[p]
      ensures forall other | other != sub :: other in Of(sub.profile) <==> other in old(Of(sub.profile))
    {
      var subs := Of(sub.profile);
      for i := 0 to |subs|
        invariant forall k | 0 <= k < i :: subs[k] != sub
        invariant subscribers == old(subscribers)
      {
        if subs[i] == sub {
          var rest := subs[..i] + subs[i + 1..];
          WithoutIndex(subs, i);
          if rest == [] {
            subscribers := subscribers - {sub.profile};
          } else {
            subscribers := subscribers[sub.profile := rest];
          }
          return;
        }
      }
    }

    /** Fans one frame out. `taken` says which readers empty their slot while
        the publish is between its two tries; the outcome does not depend on it. */
    method Publish(profile: Profile, f: Frame, taken: nat -> bool)
      requires Valid()
      modifies set sub | sub in Of(profile)
      ensures forall sub | sub in Of(profile) :: sub.Value() == Deliver(old(sub.Value()), f)
    {
      var subs := Of(profile);
      for i := 0 to |subs|
        invariant forall k | 0 <= k < i :: subs[k].Value() == Deliver(old(subs[k].Value()), f)
        invariant forall k | i <= k < |subs| :: subs[k].Value() == old(subs[k].Value())
      {
        var sub := subs[i];
        assert profile in subscribers;
        if !sub.ready {
          sub.pending := Some(f);
          continue;
        }
        if sub.slot == None {
          sub.slot := Some(f);
        } else {
          if taken(i) {
            sub.slot := None;
          }
          if sub.slot != None {
            sub.slot := None;
          }
          if sub.slot == None {
            sub.slot := Some(f);
          }
        }
      }
    }
  }

  class Server {
    const hub: Hub
    var seqNo: nat

    constructor (hub: Hub)
      ensures this.hub == hub && seqNo == 0
    {
      this.hub, this.seqNo := hub, 0;
    }

    method Versioned(body: nat) returns (f: Frame)
      modifies this
      ensures seqNo == old(seqNo) + 1 && f == Frame(body, seqNo)
    {
      seqNo := seqNo + 1;
      f := Frame(body, seqNo);
    }

    method Publish(profile: Profile, body: nat, taken: nat -> bool)
      requires hub.Valid()
      modifies this, set sub | sub in hub.Of(profile)
      ensures seqNo == old(seqNo) + 1
      ensures forall sub | sub in hub.Of(profile) :: sub.Value() == Deliver(old(sub.Value()), Frame(body, seqNo))
    {
      var f := Versioned(body);
      hub.Publish(profile, f, taken);
    }

    /** The second half of a subscription: a held frame is restamped so that it
        follows the initial one. */
    method FinishSubscribe(sub: Subscriber)
      requires !sub.ready && sub.slot.None?
      modifies this, sub
      ensures seqNo == old(seqNo) + if old(sub.pending).Some? then 1 else 0
      ensures sub.Value() == old(sub.Value()).Finish(
                if old(sub.pending).Some? then Some(Frame(old(sub.pending).value.body, seqNo)) else None)
    {
      if sub.pending.Some? {
        var f := Versioned(sub.pending.value.body);
        hub.FinishSubscribe(sub, Some(f.stamp));
      } else {
        hub.FinishSubscribe(sub, None);
      }
    }
  }
}
