/** The ledger of a run, and that no step of a run is ever undefined. */
module Runs {
  import opened Cells
  import opened Records
  import opened Frames
  import opened Handshake
  import opened Network
  import opened Ledger
  import opened Invariant

  // ---- the ledger of a run ----

  ghost function BookAt(c: Rsa, ss: seq<System>, acts: seq<Action>, k: nat): Book
    requires IsRun(c, ss, acts) && k < |ss|
  {
    if k == 0 then map[] else
      assert StepsTo(c, ss[k - 1], acts[k - 1], ss[k]);
      Write(BookAt(c, ss, acts, k - 1), ss[k - 1], acts[k - 1])
  }

  /** What step `k - 1` of a run does to the system and to the ledger. */
  lemma NextBook(c: Rsa, ss: seq<System>, acts: seq<Action>, k: nat)
    requires IsRun(c, ss, acts) && 0 < k < |ss|
    ensures k <= |acts| && |ss| == |acts| + 1 && StepsTo(c, ss[k - 1], acts[k - 1], ss[k])
    ensures Harmless(ss[k - 1], acts[k - 1])
    ensures BookAt(c, ss, acts, k) == Write(BookAt(c, ss, acts, k - 1), ss[k - 1], acts[k - 1])
  {
    assert StepsTo(c, ss[k - 1], acts[k - 1], ss[k]);
  }

  lemma RunBegins(c: Rsa, ss: seq<System>, acts: seq<Action>)
    requires IsRun(c, ss, acts)
    ensures Explains(c, BookAt(c, ss, acts, 0), ss[0]) && NothingLost(ss[0].bag, BookAt(c, ss, acts, 0))
  {
  }

  lemma {:induction false} RunExplained(c: Rsa, ss: seq<System>, acts: seq<Action>, k: nat)
    requires Lawful(c) && IsRun(c, ss, acts) && k < |ss|
    ensures Explains(c, BookAt(c, ss, acts, k), ss[k])
    ensures Lossless(acts) ==> NothingLost(ss[k].bag, BookAt(c, ss, acts, k))
  {
    hide IsRun;
    hide BookAt;
    hide Explains;
    hide NothingLost;
    hide Write;
    hide Fire;
    hide Enabled;
    if k == 0 {
      RunBegins(c, ss, acts);
    } else {
      NextBook(c, ss, acts, k);
      RunExplained(c, ss, acts, k - 1);
      StepExplained(c, BookAt(c, ss, acts, k - 1), ss[k - 1], acts[k - 1]);
      if Lossless(acts) {
        NothingLostKept(c, BookAt(c, ss, acts, k - 1), ss[k - 1], acts[k - 1]);
      }
    }
  }

  /** What is known of a session stored at `g`: its ledger entry. */
  lemma StoredExplained(c: Rsa, ss: seq<System>, acts: seq<Action>, k: nat, g: Guid, id: string)
    requires Lawful(c) && IsRun(c, ss, acts) && k < |ss|
    requires g in ss[k].nodes && id in ss[k].nodes[g].sessions
    ensures var book := BookAt(c, ss, acts, k);
            id in book && (g == book[id].a || g == book[id].b) && EntryOk(c, ss[k].nodes, id, book[id])
  {
    RunExplained(c, ss, acts, k);
  }

  lemma RunBook(c: Rsa, ss: seq<System>, acts: seq<Action>, k: nat)
    requires Lawful(c) && IsRun(c, ss, acts) && k < |ss|
    ensures EntriesOk(c, ss[k].nodes, BookAt(c, ss, acts, k)) && BagOk(c, ss[k].bag, BookAt(c, ss, acts, k))
  {
    RunExplained(c, ss, acts, k);
  }

  lemma RunExtended(c: Rsa, ss: seq<System>, acts: seq<Action>, act: Action, next: System)
    requires IsRun(c, ss, acts) && StepsTo(c, ss[|ss| - 1], act, next)
    ensures IsRun(c, ss + [next], acts + [act])
  {
    forall i | 0 <= i < |acts + [act]|
      ensures StepsTo(c, (ss + [next])[i], (acts + [act])[i], (ss + [next])[i + 1])
    {
      if i < |acts| {
        assert StepsTo(c, ss[i], acts[i], ss[i + 1]);
      }
    }
  }

  // ---- no undefined behaviour ----

  /** Whatever step comes next, it is defined, unless it is the receipt of a multicast message that the
      program cannot handle: no unset field is read, no peer pointer missing, no replaced session absent;
      and every frame in flight can be delivered. */
  lemma NeverBroken(c: Rsa, ss: seq<System>, acts: seq<Action>, k: nat)
    requires Lawful(c) && IsRun(c, ss, acts) && k < |ss|
    ensures forall act | Enabled(ss[k], act) :: Fire(c, ss[k], act).Fired? <==> Harmless(ss[k], act)
    ensures forall i: nat, d | i < |ss[k].bag| :: Enabled(ss[k], Deliver(i, d))
  {
    var book := BookAt(c, ss, acts, k);
    RunExplained(c, ss, acts, k);
    forall act | Enabled(ss[k], act)
      ensures Fire(c, ss[k], act).Fired? <==> Harmless(ss[k], act)
    {
      StepExplained(c, book, ss[k], act);
    }
    forall i: nat, d | i < |ss[k].bag|
      ensures Enabled(ss[k], Deliver(i, d))
    {
      Delivered(c, book, ss[k], i, d);
    }
  }

  // ---- in good company ----

  /** If the action is the receipt of a multicast message, then of a full pulse or of one refused properly,
      as all messages are that the program itself sends. */
  predicate CleanAction(act: Action) {
    act.Hear? ==> Clean(act.text)
  }

  predicate AllKnowFull(nodes: map<Guid, Node>) {
    forall g | g in nodes :: AllReplaceable(nodes[g].peers)
  }

  lemma CleanStep(c: Rsa, sys: System, act: Action)
    requires Enabled(sys, act) && AllKnowFull(sys.nodes) && CleanAction(act)
    ensures Harmless(sys, act)
    ensures Fire(c, sys, act).Fired? ==> AllKnowFull(Fire(c, sys, act).sys.nodes)
  {
    hide Advance;
    hide Clean;
    hide HearPulse;
    hide AllReplaceable;
    match act {
      case Hear(at, text, ip) => CleanHeard(sys.nodes[at].peers, text, ip);
      case _ =>
    }
  }

  /** Where every peerstore began with full records and only clean messages have been heard, no step can
      go wrong but the receipt of a message that is not clean. */
  lemma {:induction false} CleanRunsNeverBreak(c: Rsa, ss: seq<System>, acts: seq<Action>, k: nat)
    requires Lawful(c) && IsRun(c, ss, acts) && k < |ss|
    requires AllKnowFull(ss[0].nodes) && forall i | 0 <= i < |acts| :: CleanAction(acts[i])
    ensures AllKnowFull(ss[k].nodes)
    ensures forall act | Enabled(ss[k], act) && CleanAction(act) :: Fire(c, ss[k], act).Fired?
  {
    if k > 0 {
      CleanRunsNeverBreak(c, ss, acts, k - 1);
      NextBook(c, ss, acts, k);
      CleanStep(c, ss[k - 1], acts[k - 1]);
    }
    NeverBroken(c, ss, acts, k);
    hide IsRun;
    hide Fire;
    hide Enabled;
    forall act | Enabled(ss[k], act) && CleanAction(act)
      ensures Fire(c, ss[k], act).Fired?
    {
      CleanStep(c, ss[k], act);
    }
  }

  // ---- what the assumptions are for ----

  /** The first frame of a session is handled without undefined behaviour exactly when the receiver
      is another peer than the sender and knows both: the demand of README.md:29, and a check
      `user_start_session` does not make. */
  lemma OfferDefinedIff(c: Rsa, n: Node, id: string, e: Entry, d: Draw)
    requires e.phase.Offered? && n.guid == e.b
    requires id in n.sessions ==> Destroyable(n.sessions[id])
    ensures Receive(c, n, Orient(n.guid, n.peers.Keys, InFlight(c, id, e).wire), d).Stepped? <==>
            e.a != e.b && e.a in n.peers && e.b in n.peers
  {
    var w := InFlight(c, id, e).wire;
    var s := Orient(n.guid, n.peers.Keys, w);
    assert s.local.Is? <==> e.b in n.peers;
    assert s.foreign.Is? <==> e.a != e.b && e.a in n.peers;
  }

  /** A peer that asks for a session with itself sends itself a frame it cannot handle. */
  lemma SelfSessionBreaks(c: Rsa, n: Node, id: string, d: Draw, d': Draw)
    requires n.guid in n.peers && id !in n.sessions && !HasSessionBetween(n, n.guid, n.guid)
    ensures var step := StartSession(c, n, n.guid, id, d);
            && step.Stepped? && |step.sent| == 1 && step.sent[0].dest == n.guid
            && Receive(c, step.node, Orient(n.guid, n.peers.Keys, step.sent[0].wire), d').Fault?
  {
    var s := Created(n.guid, n.guid, id);
    var s1 := s.(keypair := Is(d.key), localPub := Is(c.pub(d.key)), state := Is(PublicKeyExchange));
    assert Advance(c, n.guid, s, d) == Updated(s1, [PacketOf(s1)], false);
    var e := Entry(n.guid, n.guid, d.key, Offered);
    assert InFlight(c, id, e) == PacketOf(s1);
    OfferDefinedIff(c, StartSession(c, n, n.guid, id, d).node, id, e, d');
  }
}
