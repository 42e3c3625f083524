/** Why every network record that leaves the kernel belongs to the target, with no
    assumption on drops, full maps or failed reads. */
module Sockets {
  import opened Wrappers
  import opened Records
  import opened Kernel
  import opened Pipeline

  /** A state change of socket `sk` observed in the target's own context. */
  predicate ClaimsSocket(s: Step, sk: nat) {
    s.Fire? && s.tp.SockState? && s.tp.sk == Some(sk) && s.tp.ctx.target
  }

  predicate IsAbout(s: Step, sk: nat) {
    s.Fire? && ((s.tp.SockState? && s.tp.sk == Some(sk)) || (s.tp.SockRetransmit? && s.tp.sk == Some(sk)))
  }

  /** Step `i` of the run put a network record about `sk` into the ring. */
  ghost predicate EmitsFor(caps: Caps, steps: seq<Step>, i: nat, sk: nat)
    requires i < |steps|
  {
    IsAbout(steps[i], sk) && NetOut(Run(caps, steps[..i]).k, steps[i].tp) != []
  }

  /** ... and that record was the socket's CLOSE. */
  ghost predicate EmitsCloseFor(caps: Caps, steps: seq<Step>, i: nat, sk: nat)
    requires i < |steps|
  {
    && EmitsFor(caps, steps, i, sk) && steps[i].tp.SockState?
    && NetOut(Run(caps, steps[..i]).k, steps[i].tp)[0].state == TCP_CLOSE
  }

  /** Claimed at `p`, and no CLOSE record went out for it from there up to `n`. */
  ghost predicate ClaimStands(caps: Caps, steps: seq<Step>, p: nat, n: nat, sk: nat)
    requires n <= |steps|
  {
    && p < n && ClaimsSocket(steps[p], sk)
    && forall q | p <= q < n :: !EmitsCloseFor(caps, steps, q, sk)
  }

  /** One step: a socket becomes tracked only by a claim, and a step that sends its CLOSE
      leaves it untracked. */
  lemma TrackingStep(k: State, s: Step, sk: nat)
    requires s.Fire? && sk in Handle(k, s.tp).socks
    ensures sk in k.socks || ClaimsSocket(s, sk)
    ensures IsAbout(s, sk) && s.tp.SockState? && NetOut(k, s.tp) != [] ==> NetOut(k, s.tp)[0].state != TCP_CLOSE
  {
    if s.tp.SockState? && s.tp.sk == Some(sk) && ReadNet(s.tp.fields).Some? {
      var e := NetRecord(StateChange, ReadNet(s.tp.fields).value, s.tp.ctx.now);
      assert NetOut(k, s.tp) == [] || NetOut(k, s.tp) == [e];
    }
  }

  lemma TrackedAt(caps: Caps, steps: seq<Step>, n: nat, sk: nat)
    requires 0 < n <= |steps| && sk in Run(caps, steps[..n]).k.socks
    ensures !EmitsCloseFor(caps, steps, n - 1, sk)
    ensures sk in Run(caps, steps[..n - 1]).k.socks || ClaimsSocket(steps[n - 1], sk)
  {
    RunAt(caps, steps, n);
    if steps[n - 1].Fire? {
      TrackingStep(Run(caps, steps[..n - 1]).k, steps[n - 1], sk);
    }
  }

  lemma ClaimLasts(caps: Caps, steps: seq<Step>, p: nat, n: nat, sk: nat)
    requires n < |steps| && ClaimStands(caps, steps, p, n, sk) && !EmitsCloseFor(caps, steps, n, sk)
    ensures ClaimStands(caps, steps, p, n + 1, sk)
  {
  }

  /** A tracked socket was claimed, and not closed since. */
  lemma {:induction false} TrackedWasClaimed(caps: Caps, steps: seq<Step>, n: nat, sk: nat)
    requires n <= |steps| && sk in Run(caps, steps[..n]).k.socks
    ensures exists p :: ClaimStands(caps, steps, p, n, sk)
  {
    if n > 0 {
      TrackedAt(caps, steps, n, sk);
      if ClaimsSocket(steps[n - 1], sk) {
        assert ClaimStands(caps, steps, n - 1, n, sk);
      } else {
        TrackedWasClaimed(caps, steps, n - 1, sk);
        var p :| ClaimStands(caps, steps, p, n - 1, sk);
        ClaimLasts(caps, steps, p, n - 1, sk);
      }
    }
  }

  /** Every emitted network record is a state change in the target's own context, or the
      socket was seen changing state in that context earlier and no CLOSE record for it went
      out in between. */
  lemma EveryRecordIsAttributable(caps: Caps, steps: seq<Step>, i: nat, sk: nat)
    requires i < |steps| && EmitsFor(caps, steps, i, sk)
    ensures ClaimsSocket(steps[i], sk) || exists p :: ClaimStands(caps, steps, p, i, sk)
  {
    if !ClaimsSocket(steps[i], sk) {
      assert sk in Run(caps, steps[..i]).k.socks;
      TrackedWasClaimed(caps, steps, i, sk);
    }
  }
}
