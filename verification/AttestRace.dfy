/** A run from the empty service in which one challenge is attested twice. */
module AttestRace {
  import opened Hashing
  import opened AttestState
  import opened AttestInterleaved
  import opened AttestRefinement
  import opened AttestHonest
  import Service = AttestService

  const EMPTY := Service.World(map[], [], {})

  lemma {:induction false} LeadsKeeps(H: Hash, c: Config, s: System, events: seq<Event>, t: System)
    requires c.checkpoints > 0 && Invariant(H, c, s) && Leads(H, c, s, events, t)
    ensures Invariant(H, c, t)
    decreases |events|
  {
    if events != [] {
      StepKeeps(H, c, s, events[0]);
      LeadsKeeps(H, c, Next(H, c, s, events[0]), events[1..], t);
    }
  }

  /** A plan all of whose requests are made at one instant, under different nonces. */
  ghost predicate AtOnce(p: Plan) {
    && (forall l :: 0 <= l < |p.lanes| ==> p.lanes[l].issuedAt == p.lanes[l].receivedAt == p.openedAt)
    && forall k, l :: 0 <= k < l < |p.lanes| ==> p.lanes[k].nonce != p.lanes[l].nonce
  }

  /** The interleaved model has come from its start to s, where it looks like w and nothing is in flight. */
  ghost predicate Reached(H: Hash, c: Config, p: Plan, events: seq<Event>, s: System, w: Service.World, l: nat)
    requires l <= |p.lanes|
  {
    && Leads(H, c, Start(p.openedAt), events, s)
    && Invariant(H, c, s)
    && s.flights == map[] && s.h.clock == p.openedAt && WorldOf(s) == w
    && forall n :: n in s.h.nonces ==> exists k :: 0 <= k < l && p.lanes[k].nonce == n
  }

  /** One more request, handled undisturbed. */
  lemma {:induction false} RequestReached(H: Hash, c: Config, p: Plan, events: seq<Event>, s: System, w: Service.World,
                                          l: nat, r: Service.Request, m: nat)
    returns (more: seq<Event>, t: System)
    requires c.checkpoints > 0 && l <= m <= |p.lanes| && Reached(H, c, p, events, s, w, l)
    requires Fresh(s, r)
    requires forall n :: n in NoncesOf(r) ==> exists k :: 0 <= k < m && p.lanes[k].nonce == n
    ensures Service.WellFormed(c, w)
    ensures Reached(H, c, p, more, t, Service.Handle(H, c, w, r, p.openedAt).0, m)
  {
    InvariantIsWellFormed(H, c, s);
    var steps;
    steps, t := OneStepIsSteps(H, c, s, r, 0);
    LeadsOn(H, c, Start(p.openedAt), events, s, steps, t);
    more := events + steps;
    LeadsKeeps(H, c, s, steps, t);
    forall n | n in t.h.nonces ensures exists k :: 0 <= k < m && p.lanes[k].nonce == n {
      assert n in s.h.nonces.Keys + NoncesOf(r);
      if n in s.h.nonces {
        var k :| 0 <= k < l && p.lanes[k].nonce == n;
      }
    }
  }

  lemma {:induction false} StartReached(H: Hash, c: Config, p: Plan, events: seq<Event>, s: System, w: Service.World,
                                        l: nat)
    returns (more: seq<Event>, t: System)
    requires c.checkpoints > 0 && InTime(c, p) && AtOnce(p) && l < LANES && Reached(H, c, p, events, s, w, l)
    ensures Service.WellFormed(c, w)
    ensures Reached(H, c, p, more, t, Service.Handle(H, c, w, StartRequest(p, l), p.openedAt).0, l + 1)
  {
    more, t := RequestReached(H, c, p, events, s, w, l, StartRequest(p, l), l + 1);
  }

  /** The first l lanes of the plan, step by step. */
  lemma {:induction false} LanesReached(H: Hash, c: Config, p: Plan, l: nat) returns (events: seq<Event>, s: System)
    requires InTime(c, p) && Drawing(H, c, p) && AtOnce(p) && l < LANES
    ensures Reached(H, c, p, events, s, WorldAt(H, c, EMPTY, p, l), l)
  {
    if l == 0 {
      assert Leads(H, c, Start(p.openedAt), [], Start(p.openedAt));
      assert WorldOf(Start(p.openedAt)) == EMPTY;
      events, s := RequestReached(H, c, p, [], Start(p.openedAt), EMPTY, 0, OpenRequest(p), 0);
    } else {
      events, s := LanesReached(H, c, p, l - 1);
      var w := WorldAt(H, c, EMPTY, p, l - 1);
      events, s := StartReached(H, c, p, events, s, w, l - 1);
      var started := Service.Handle(H, c, w, StartRequest(p, l - 1), p.openedAt).0;
      events, s := RequestReached(H, c, p, events, s, started, l, SubmitRequest(H, c, p, l - 1), l);
    }
  }

  /** The last honest submission would be accepted at the plan's instant and for as long as the limits allow. */
  lemma {:induction false} LastIsAccepted(H: Hash, c: Config, p: Plan, s: System, w: Service.World, later: int)
    requires InTime(c, p) && Drawing(H, c, p) && AtOnce(p)
    requires p.openedAt <= later <= p.openedAt + c.challengeTtlMs && later - p.openedAt <= c.maxLaneMs
    requires Invariant(H, c, s) && s.h.clock == p.openedAt && WorldOf(s) == w && Stands(c, w, p, LANES - 1, true)
    ensures LastAccepted(H, c, At(s, later), p.challengeId, HonestSubmission(H, c, p, LANES - 1))
  {
    var last := LANES - 1;
    InvariantIsWellFormed(H, c, s);
    HonestAccepted(H, c, w, p, last);
    var st := s.store[p.challengeId].state;
    assert st.lanes[last] == LaneAt(p, last, true, last);
    assert Drawn(s, st.lanes[last]);
  }

  /** The run up to the race: only the last lane is left to submit. */
  lemma {:induction false} LastLaneReached(H: Hash, c: Config, p: Plan, later: int)
    returns (events: seq<Event>, s: System)
    requires InTime(c, p) && Drawing(H, c, p) && AtOnce(p)
    requires p.openedAt <= later <= p.openedAt + c.challengeTtlMs && later - p.openedAt <= c.maxLaneMs
    ensures Leads(H, c, Start(p.openedAt), events, s)
    ensures s.flights == map[] && s.issued == [] && s.h.clock == p.openedAt
    ensures LastAccepted(H, c, s, p.challengeId, HonestSubmission(H, c, p, LANES - 1))
    ensures LastAccepted(H, c, At(s, later), p.challengeId, HonestSubmission(H, c, p, LANES - 1))
  {
    var last := LANES - 1;
    events, s := LanesReached(H, c, p, last);
    var w := WorldAt(H, c, EMPTY, p, last);
    LanesPass(H, c, EMPTY, p, last);
    StartWorks(H, c, w, p, last);
    events, s := StartReached(H, c, p, events, s, w, last);
    var started := Service.Handle(H, c, w, StartRequest(p, last), p.openedAt).0;
    LastIsAccepted(H, c, p, s, started, p.openedAt);
    LastIsAccepted(H, c, p, s, started, later);
    assert At(s, p.openedAt) == s;
    assert |Attestations(s.issued)| == 0;
  }

  /**
   For every hash there is a run of the handlers with their awaits, from the empty service, in which an
   honest provider's last submission, received a second time before the first one has dropped the
   challenge, leaves two different attestations for one challenge.
   */
  lemma {:induction false} OneChallengeAttestedTwice(H: Hash, c: Config, p: Plan)
    returns (events: seq<Event>, t: System)
    requires InTime(c, p) && Drawing(H, c, p) && AtOnce(p) && c.challengeTtlMs > 0 && c.maxLaneMs > 0
    ensures Leads(H, c, Start(p.openedAt), events, t)
    ensures |t.issued| == 2
    ensures forall k :: 0 <= k < 2 ==> t.issued[k].attestation.challengeId == p.challengeId
    ensures t.issued[0].attestation.measuredAt < t.issued[1].attestation.measuredAt
  {
    var s: System;
    events, s := LastLaneReached(H, c, p, p.openedAt + 1);
    var race;
    race, t := TwoCloses(H, c, s, p.challengeId, HonestSubmission(H, c, p, LANES - 1), 0, 1, p.openedAt + 1);
    LeadsOn(H, c, Start(p.openedAt), events, s, race, t);
    events := events + race;
  }
}
