/** The connection table against the sockets the kernel side is tracking. */
module Agreement {
  import opened Records
  import opened Folds
  import opened Tables
  import opened Kernel
  import opened Pipeline

  /** The address tuple each live socket last showed, the target's or not. */
  type Live = map<nat, ConnectionKey>

  function TupleOf(fields: NetFields): ConnectionKey {
    ConnectionKey(fields.family, fields.sport, fields.dport, fields.saddr, fields.daddr)
  }

  ghost function LiveNext(live: Live, s: Step): Live {
    if s.Fire? && s.tp.SockState? && s.tp.sk.Some? && ReadNet(s.tp.fields).Some? then
      var f := ReadNet(s.tp.fields).value;
      if f.state == TCP_CLOSE then live - {s.tp.sk.value} else live[s.tp.sk.value := TupleOf(f)]
    else live
  }

  ghost function LiveAfter(steps: seq<Step>): Live {
    if |steps| == 0 then map[] else LiveNext(LiveAfter(steps[..|steps| - 1]), steps[|steps| - 1])
  }

  ghost function Image(socks: set<nat>, live: Live): set<ConnectionKey> {
    set s | s in socks && s in live :: live[s]
  }

  /** Connections as they will stand once the queued records are taken. */
  function Settled(w: World): ConnTable {
    Fold(ConnStep, w.u.conns, w.k.net)
  }

  /** The listed connections are exactly the tuples of the tracked sockets. */
  ghost predicate Agrees(w: World, live: Live) {
    Settled(w).Keys == Image(w.k.socks, live)
  }

  // ---- one step

  /** The state change of a socket that is tracked or in the target's context. */
  predicate Concerns(k: State, tp: Tracepoint) {
    tp.SockState? && tp.sk.Some? && (tp.sk.value in k.socks || tp.ctx.target)
  }

  predicate Sent(k: State, fields: NetReads, ok: Grants) {
    ReadNet(fields).Some? && NetAccepted(k, ok)
  }

  /** The socket is tracked once the handler has tried to insert it. */
  predicate Tracked(k: State, sk: nat, ok: Grants) {
    sk in k.socks || (ok.insert && |k.socks| < MAX_SOCKS)
  }

  /** When a state change of a socket that is tracked or in the target's context keeps the
      agreement. `others` are the tuples of the other tracked sockets. */
  ghost predicate StateKeeps(k: State, live: Live, sk: nat, fields: NetReads, ok: Grants) {
    var others := Image(k.socks - {sk}, live);
    var had := sk in k.socks && sk in live;
    if ReadNet(fields).None? then
      // Nothing is sent; a socket tracked from here on must not bring in a tuple of its own.
      sk !in k.socks && Tracked(k, sk, ok) && sk in live ==> live[sk] in others
    else
      var key, closing := TupleOf(ReadNet(fields).value), ReadNet(fields).value.state == TCP_CLOSE;
      // The tuple it had stays listed only if another socket has it, and goes only with this record.
      && (had ==> live[sk] in others || (live[sk] == key && (closing ==> Sent(k, fields, ok))))
      // A CLOSE record takes the tuple off the list, so no other tracked socket may have it.
      && (closing && Sent(k, fields, ok) ==> key !in others)
      // Any other record lists the tuple, so the socket must be tracked, and the other way round.
      && (!closing && Sent(k, fields, ok) && !Tracked(k, sk, ok) ==> key in others)
      && (!closing && Tracked(k, sk, ok) && !Sent(k, fields, ok) ==> key in others || (had && live[sk] == key))
  }

  /** The guard of one step, on the state before it. */
  ghost predicate Keeps(k: State, live: Live, s: Step) {
    s.Fire? ==>
      match s.tp
      case SockState(c, sk, fields, ok) =>
        sk.Some? && (sk.value in k.socks || c.target) ==> StateKeeps(k, live, sk.value, fields, ok)
      case SockRetransmit(c, sk, fields, ok) =>
        sk.Some? && sk.value in k.socks && Sent(k, fields, ok) ==>
          TupleOf(ReadNet(fields).value) in Image(k.socks, live)
      case _ => true
  }

  lemma NetQueued(w: World, tp: Tracepoint, e: NetEvent)
    requires Handle(w.k, tp).net == w.k.net + [e]
    ensures Settled(Next(w, Fire(tp))) == ConnStep(Settled(w), e)
  {
    FoldPush(ConnStep, w.u.conns, w.k.net, e);
  }

  lemma ImageSplit(socks: set<nat>, live: Live, sk: nat)
    ensures Image(socks, live) ==
      Image(socks - {sk}, live) + if sk in socks && sk in live then {live[sk]} else {}
  {
    forall s | s in socks && s in live ensures s == sk || live[s] in Image(socks - {sk}, live) {
    }
  }

  lemma OthersUnchanged(socks: set<nat>, live: Live, sk: nat, key: ConnectionKey)
    ensures Image(socks - {sk}, live[sk := key]) == Image(socks - {sk}, live)
    ensures Image(socks - {sk}, live - {sk}) == Image(socks - {sk}, live)
  {
    forall s | s in socks - {sk} && s in live ensures live[sk := key][s] == live[s] && (live - {sk})[s] == live[s] {
    }
  }

  /** What a state change does to the tracked sockets and the settled connections. */
  lemma StateEffect(w: World, tp: Tracepoint)
    requires Concerns(w.k, tp)
    ensures var sk, w' := tp.sk.value, Next(w, Fire(tp));
      var sent := Sent(w.k, tp.fields, tp.ok);
      var closing := sent && ReadNet(tp.fields).value.state == TCP_CLOSE;
      && w'.k.socks == (if closing then w.k.socks - {sk}
                        else if Tracked(w.k, sk, tp.ok) then w.k.socks + {sk} else w.k.socks)
      && Settled(w').Keys == (if !sent then Settled(w).Keys
                              else if closing then Settled(w).Keys - {TupleOf(ReadNet(tp.fields).value)}
                              else Settled(w).Keys + {TupleOf(ReadNet(tp.fields).value)})
  {
    if Sent(w.k, tp.fields, tp.ok) {
      NetQueued(w, tp, NetRecord(StateChange, ReadNet(tp.fields).value, tp.ctx.now));
    }
  }

  /** The tuples of the tracked sockets after it. */
  lemma StateImage(socks: set<nat>, live: Live, sk: nat, key: ConnectionKey)
    ensures Image(socks + {sk}, live[sk := key]) == Image(socks - {sk}, live) + {key}
    ensures Image(socks, live - {sk}) == Image(socks - {sk}, live)
    ensures Image(socks + {sk}, live - {sk}) == Image(socks - {sk}, live)
    ensures Image(socks - {sk}, live - {sk}) == Image(socks - {sk}, live)
    ensures sk !in socks ==> Image(socks, live[sk := key]) == Image(socks - {sk}, live)
  {
    OthersUnchanged(socks, live, sk, key);
    ImageSplit(socks + {sk}, live[sk := key], sk);
    assert socks + {sk} - {sk} == socks - {sk};
    ImageSplit(socks, live - {sk}, sk);
    ImageSplit(socks + {sk}, live - {sk}, sk);
    ImageSplit(socks, live[sk := key], sk);
  }

  lemma UnreadAgreesIff(w: World, live: Live, tp: Tracepoint)
    requires Agrees(w, live) && Concerns(w.k, tp) && ReadNet(tp.fields).None?
    ensures Agrees(Next(w, Fire(tp)), live) <==> StateKeeps(w.k, live, tp.sk.value, tp.fields, tp.ok)
  {
    var sk := tp.sk.value;
    StateEffect(w, tp);
    ImageSplit(w.k.socks, live, sk);
    ImageSplit(w.k.socks + {sk}, live, sk);
    assert w.k.socks + {sk} - {sk} == w.k.socks - {sk};
  }

  lemma CloseStateAgreesIff(w: World, live: Live, tp: Tracepoint)
    requires Agrees(w, live) && Concerns(w.k, tp) && ReadNet(tp.fields).Some?
    requires ReadNet(tp.fields).value.state == TCP_CLOSE
    ensures Agrees(Next(w, Fire(tp)), live - {tp.sk.value}) <==> StateKeeps(w.k, live, tp.sk.value, tp.fields, tp.ok)
  {
    StateEffect(w, tp);
    ImageSplit(w.k.socks, live, tp.sk.value);
    StateImage(w.k.socks, live, tp.sk.value, TupleOf(ReadNet(tp.fields).value));
  }

  lemma OpenStateAgreesIff(w: World, live: Live, tp: Tracepoint)
    requires Agrees(w, live) && Concerns(w.k, tp) && ReadNet(tp.fields).Some?
    requires ReadNet(tp.fields).value.state != TCP_CLOSE
    ensures Agrees(Next(w, Fire(tp)), live[tp.sk.value := TupleOf(ReadNet(tp.fields).value)]) <==>
      StateKeeps(w.k, live, tp.sk.value, tp.fields, tp.ok)
  {
    StateEffect(w, tp);
    ImageSplit(w.k.socks, live, tp.sk.value);
    StateImage(w.k.socks, live, tp.sk.value, TupleOf(ReadNet(tp.fields).value));
  }

  /** A socket that is neither tracked nor in the target's context may change in any way. */
  lemma StrangerKeeps(w: World, live: Live, tp: Tracepoint)
    requires Agrees(w, live) && tp.SockState? && !Concerns(w.k, tp)
    ensures Agrees(Next(w, Fire(tp)), LiveNext(live, Fire(tp)))
  {
    assert Next(w, Fire(tp)) == w;
    if tp.sk.Some? && ReadNet(tp.fields).Some? {
      var sk := tp.sk.value;
      assert w.k.socks - {sk} == w.k.socks;
      OthersUnchanged(w.k.socks, live, sk, TupleOf(ReadNet(tp.fields).value));
    }
  }

  lemma RetransmitAgreesIff(w: World, live: Live, tp: Tracepoint)
    requires Agrees(w, live) && tp.SockRetransmit?
    ensures Agrees(Next(w, Fire(tp)), live) <==> Keeps(w.k, live, Fire(tp))
  {
    if tp.sk.Some? && tp.sk.value in w.k.socks && Sent(w.k, tp.fields, tp.ok) {
      NetQueued(w, tp, NetRecord(Retransmit, ReadNet(tp.fields).value, tp.ctx.now));
    } else {
      assert Next(w, Fire(tp)) == w;
    }
  }

  lemma QuietForNet(k: State, tp: Tracepoint)
    requires !tp.SockState? && !tp.SockRetransmit?
    ensures Handle(k, tp).net == k.net && Handle(k, tp).socks == k.socks
  {
  }

  lemma OtherStepKeeps(w: World, live: Live, s: Step)
    requires Agrees(w, live)
    requires s.Fire? ==> !s.tp.SockState? && !s.tp.SockRetransmit?
    ensures Agrees(Next(w, s), live)
  {
    if s.Fire? {
      QuietForNet(w.k, s.tp);
    } else if s.TakeNet? && |w.k.net| > 0 {
      FoldPop(ConnStep, w.u.conns, w.k.net);
    }
  }

  /** From a state of agreement, any step whatever leads to one if and only if it meets the
      guard. */
  lemma StepAgreesIff(w: World, live: Live, s: Step)
    requires Agrees(w, live)
    ensures Agrees(Next(w, s), LiveNext(live, s)) <==> Keeps(w.k, live, s)
  {
    if s.Fire? && s.tp.SockState? {
      if Concerns(w.k, s.tp) {
        if ReadNet(s.tp.fields).None? {
          UnreadAgreesIff(w, live, s.tp);
        } else if ReadNet(s.tp.fields).value.state == TCP_CLOSE {
          CloseStateAgreesIff(w, live, s.tp);
        } else {
          OpenStateAgreesIff(w, live, s.tp);
        }
      } else {
        StrangerKeeps(w, live, s.tp);
      }
    } else if s.Fire? && s.tp.SockRetransmit? {
      RetransmitAgreesIff(w, live, s.tp);
    } else {
      OtherStepKeeps(w, live, s);
    }
  }

  // ---- whole runs

  ghost predicate AgreesAt(caps: Caps, steps: seq<Step>, i: nat)
    requires i <= |steps|
  {
    Agrees(Run(caps, steps[..i]), LiveAfter(steps[..i]))
  }

  ghost predicate KeepsAt(caps: Caps, steps: seq<Step>, i: nat)
    requires i < |steps|
  {
    Keeps(Run(caps, steps[..i]).k, LiveAfter(steps[..i]), steps[i])
  }

  lemma AgreesStart(caps: Caps, steps: seq<Step>)
    ensures AgreesAt(caps, steps, 0)
  {
    assert steps[..0] == [];
    assert Settled(Start(caps)) == map[] && Image({}, map[]) == {};
  }

  lemma AgreesNext(caps: Caps, steps: seq<Step>, i: nat)
    requires i < |steps| && AgreesAt(caps, steps, i)
    ensures AgreesAt(caps, steps, i + 1) <==> KeepsAt(caps, steps, i)
  {
    StepAgreesIff(Run(caps, steps[..i]), LiveAfter(steps[..i]), steps[i]);
    RunAt(caps, steps, i + 1);
    assert steps[..i + 1][..i] == steps[..i];
  }

  ghost predicate AgreesUpTo(caps: Caps, steps: seq<Step>, n: nat)
    requires n <= |steps|
  {
    forall i | 0 <= i <= n :: AgreesAt(caps, steps, i)
  }

  ghost predicate KeepsBefore(caps: Caps, steps: seq<Step>, n: nat)
    requires n <= |steps|
  {
    forall i | 0 <= i < n :: KeepsAt(caps, steps, i)
  }

  lemma OneMoreState(caps: Caps, steps: seq<Step>, n: nat)
    requires n < |steps|
    ensures AgreesUpTo(caps, steps, n + 1) <==> AgreesUpTo(caps, steps, n) && AgreesAt(caps, steps, n + 1)
    ensures KeepsBefore(caps, steps, n + 1) <==> KeepsBefore(caps, steps, n) && KeepsAt(caps, steps, n)
    ensures AgreesUpTo(caps, steps, n) ==> AgreesAt(caps, steps, n)
  {
  }

  /** In any run, whatever is lost, refused or unreadable: table and tracked sockets agree in
      every state up to the n-th if and only if every step before it meets the guard. */
  lemma {:induction false} AgreementIff(caps: Caps, steps: seq<Step>, n: nat)
    requires n <= |steps|
    ensures AgreesUpTo(caps, steps, n) <==> KeepsBefore(caps, steps, n)
  {
    if n == 0 {
      AgreesStart(caps, steps);
    } else {
      AgreementIff(caps, steps, n - 1);
      OneMoreState(caps, steps, n - 1);
      if AgreesUpTo(caps, steps, n - 1) {
        AgreesNext(caps, steps, n - 1);
      }
    }
  }

  // ---- orderly runs

  /** Tracked sockets are live and no two of them have one tuple. */
  ghost predicate OwnTuples(socks: set<nat>, live: Live) {
    && socks <= live.Keys
    && forall s, t | s in socks && t in socks && s != t :: live[s] != live[t]
  }

  ghost predicate OwnTuple(socks: set<nat>, live: Live, sk: nat, key: ConnectionKey) {
    if sk in socks then sk in live && live[sk] == key else key !in Image(socks, live)
  }

  /** For a socket that is tracked or being claimed by the target, everything can be read, its
      tuple is its own and no other tracked socket's, and insertion and output go through. */
  ghost predicate OrderlyStep(k: State, live: Live, s: Step) {
    s.Fire? ==>
      match s.tp
      case SockState(c, sk, fields, ok) =>
        sk.Some? && (sk.value in k.socks || c.target) ==>
          && Sent(k, fields, ok) && Tracked(k, sk.value, ok)
          && OwnTuple(k.socks, live, sk.value, TupleOf(ReadNet(fields).value))
      case SockRetransmit(c, sk, fields, ok) =>
        sk.Some? && sk.value in k.socks ==>
          Sent(k, fields, ok) && OwnTuple(k.socks, live, sk.value, TupleOf(ReadNet(fields).value))
      case _ => true
  }

  ghost predicate OrderlyNet(caps: Caps, steps: seq<Step>) {
    forall i | 0 <= i < |steps| :: OrderlyStep(Run(caps, steps[..i]).k, LiveAfter(steps[..i]), steps[i])
  }

  lemma OrderlyKeeps(k: State, live: Live, s: Step)
    requires OwnTuples(k.socks, live) && OrderlyStep(k, live, s)
    ensures Keeps(k, live, s)
  {
    if s.Fire? && s.tp.SockState? && s.tp.sk.Some? {
      var sk := s.tp.sk.value;
      if sk !in k.socks {
        assert k.socks - {sk} == k.socks;
      }
    } else if s.Fire? && s.tp.SockRetransmit? && s.tp.sk.Some? && s.tp.sk.value in k.socks {
      assert live[s.tp.sk.value] in Image(k.socks, live);
    }
  }

  lemma SocksNext(w: World, s: Step)
    ensures var socks := Next(w, s).k.socks;
      if s.Fire? && Concerns(w.k, s.tp)
      then
        socks == if Sent(w.k, s.tp.fields, s.tp.ok) && ReadNet(s.tp.fields).value.state == TCP_CLOSE
                 then w.k.socks - {s.tp.sk.value}
                 else if Tracked(w.k, s.tp.sk.value, s.tp.ok) then w.k.socks + {s.tp.sk.value} else w.k.socks
      else socks == w.k.socks
  {
    if s.Fire? && !s.tp.SockState? && !s.tp.SockRetransmit? {
      QuietForNet(w.k, s.tp);
    }
  }

  lemma OrderlyOwnTuples(w: World, live: Live, s: Step)
    requires OwnTuples(w.k.socks, live) && OrderlyStep(w.k, live, s)
    ensures OwnTuples(Next(w, s).k.socks, LiveNext(live, s))
  {
    SocksNext(w, s);
    if s.Fire? && s.tp.SockState? && s.tp.sk.Some? && s.tp.sk.value !in w.k.socks {
      forall x | x in w.k.socks ensures live[x] in Image(w.k.socks, live) {
      }
    }
  }

  /** In every reachable state of an orderly run the listed connections are exactly the tuples
      of the tracked sockets, whatever other sockets do: through opens, softirq transitions,
      retransmits, closes and reuse of an address or a tuple after close. */
  lemma ConnectionsAgree(caps: Caps, steps: seq<Step>)
    requires OrderlyNet(caps, steps)
    ensures OwnTuples(Run(caps, steps).k.socks, LiveAfter(steps))
    ensures Agrees(Run(caps, steps), LiveAfter(steps))
  {
    forall i | 0 <= i <= |steps| ensures OwnTuples(Run(caps, steps[..i]).k.socks, LiveAfter(steps[..i])) {
      OwnTuplesAt(caps, steps, i);
    }
    forall i | 0 <= i < |steps| ensures KeepsAt(caps, steps, i) {
      OrderlyKeeps(Run(caps, steps[..i]).k, LiveAfter(steps[..i]), steps[i]);
    }
    AgreementIff(caps, steps, |steps|);
    assert AgreesAt(caps, steps, |steps|);
    assert steps[..|steps|] == steps;
  }

  lemma {:induction false} OwnTuplesAt(caps: Caps, steps: seq<Step>, i: nat)
    requires OrderlyNet(caps, steps) && i <= |steps|
    ensures OwnTuples(Run(caps, steps[..i]).k.socks, LiveAfter(steps[..i]))
  {
    if i > 0 {
      OwnTuplesAt(caps, steps, i - 1);
      OrderlyOwnTuples(Run(caps, steps[..i - 1]), LiveAfter(steps[..i - 1]), steps[i - 1]);
      RunAt(caps, steps, i);
      assert steps[..i][..i - 1] == steps[..i - 1];
    }
  }

  /** The CLOSE of a socket, tracked or seen for the first time: table and tracked sockets still
      agree if and only if no other tracked socket has its tuple. */
  lemma CloseAgreesIffTupleUnshared(w: World, live: Live, tp: Tracepoint)
    requires Agrees(w, live) && Concerns(w.k, tp)
    requires Sent(w.k, tp.fields, tp.ok) && ReadNet(tp.fields).value.state == TCP_CLOSE
    requires tp.sk.value in w.k.socks && tp.sk.value in live ==> live[tp.sk.value] == TupleOf(ReadNet(tp.fields).value)
    ensures Agrees(Next(w, Fire(tp)), LiveNext(live, Fire(tp))) <==>
      TupleOf(ReadNet(tp.fields).value) !in Image(w.k.socks - {tp.sk.value}, live)
  {
    StepAgreesIff(w, live, Fire(tp));
  }
}
