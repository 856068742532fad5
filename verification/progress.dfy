/** How many frames sessions take, and that runs get somewhere. */
module Progress {
  import opened Cells
  import opened Records
  import opened Handshake
  import opened Network
  import opened Ledger
  import opened Invariant
  import opened Runs

  // ---- how many frames a session takes ----

  /** How many of `ps` belong to session `id`. */
  function Count(ps: seq<Packet>, id: string): nat {
    if ps == [] then 0 else Count(ps[1..], id) + (if ps[0].wire.id == id then 1 else 0)
  }

  /** Frames of session `id` sent in the first `k` steps of a run. */
  ghost function SentSoFar(c: Rsa, ss: seq<System>, acts: seq<Action>, k: nat, id: string): nat
    requires IsRun(c, ss, acts) && k < |ss|
  {
    if k == 0 then 0 else
      assert StepsTo(c, ss[k - 1], acts[k - 1], ss[k]);
      SentSoFar(c, ss, acts, k - 1, id) + Count(Fire(c, ss[k - 1], acts[k - 1]).sent, id)
  }

  function FramesFor(book: Book, id: string): nat {
    if id !in book then 0
    else match book[id].phase
      case Offered => 1
      case Answered(_) => 2
      case Sealed(_, _) => 3
      case Open(_, _) => 3
  }

  lemma DeliveryCounted(c: Rsa, book: Book, id0: string, d: Draw, id: string)
    requires id0 in book && !book[id0].phase.Open?
    ensures FramesFor(book[id0 := Next(book[id0], d)], id) ==
            FramesFor(book, id) + Count(SentBy(c, id0, Next(book[id0], d)), id)
  {
    var sent := SentBy(c, id0, Next(book[id0], d));
    assert sent != [] ==> sent[1..] == [];
  }

  lemma StartCounted(c: Rsa, book: Book, id0: string, e: Entry, id: string)
    requires id0 !in book && e.phase.Offered?
    ensures FramesFor(book[id0 := e], id) == FramesFor(book, id) + Count([InFlight(c, id0, e)], id)
  {
    assert [InFlight(c, id0, e)][1..] == [];
  }

  lemma FramesCounted(c: Rsa, book: Book, sys: System, act: Action, id: string)
    requires Lawful(c) && Explains(c, book, sys) && Enabled(sys, act) && Harmless(sys, act)
    ensures Fire(c, sys, act).Fired?
    ensures FramesFor(Write(book, sys, act), id) == FramesFor(book, id) + Count(Fire(c, sys, act).sent, id)
  {
    match act {
      case Start(a, b, id0, d) =>
        if WillStart(sys.nodes[a], b) {
          StartSent(c, book, sys, a, b, id0, d);
          StartCounted(c, book, id0, Entry(a, b, d.key, Offered), id);
        } else {
          StartRefused(c, sys, a, b, id0, d);
        }
      case Deliver(i, d) =>
        DeliverySent(c, book, sys, i, d);
        DeliveryCounted(c, book, sys.bag[i].wire.id, d, id);
      case _ =>
    }
  }

  lemma NextSent(c: Rsa, ss: seq<System>, acts: seq<Action>, k: nat, id: string)
    requires IsRun(c, ss, acts) && 0 < k < |ss|
    ensures k <= |acts| && StepsTo(c, ss[k - 1], acts[k - 1], ss[k])
    ensures SentSoFar(c, ss, acts, k, id) ==
            SentSoFar(c, ss, acts, k - 1, id) + Count(Fire(c, ss[k - 1], acts[k - 1]).sent, id)
  {
    NextBook(c, ss, acts, k);
  }

  lemma NothingSent(c: Rsa, ss: seq<System>, acts: seq<Action>, id: string)
    requires IsRun(c, ss, acts)
    ensures SentSoFar(c, ss, acts, 0, id) == FramesFor(BookAt(c, ss, acts, 0), id) == 0
  {
  }

  lemma {:induction false} SentByPhase(c: Rsa, ss: seq<System>, acts: seq<Action>, k: nat, id: string)
    requires Lawful(c) && IsRun(c, ss, acts) && k < |ss|
    ensures SentSoFar(c, ss, acts, k, id) == FramesFor(BookAt(c, ss, acts, k), id)
  {
    hide IsRun;
    hide BookAt;
    hide SentSoFar;
    hide FramesFor;
    hide Count;
    hide Write;
    hide Fire;
    hide Enabled;
    hide Explains;
    hide NothingLost;
    if k == 0 {
      NothingSent(c, ss, acts, id);
    } else {
      NextBook(c, ss, acts, k);
      NextSent(c, ss, acts, k, id);
      SentByPhase(c, ss, acts, k - 1, id);
      RunExplained(c, ss, acts, k - 1);
      FramesCounted(c, BookAt(c, ss, acts, k - 1), ss[k - 1], acts[k - 1], id);
    }
  }

  /** No session ever takes more than three frames; a connected responder has cost exactly three. */
  lemma ThreeFramesAtMost(c: Rsa, ss: seq<System>, acts: seq<Action>, k: nat, id: string)
    requires Lawful(c) && IsRun(c, ss, acts) && k < |ss|
    ensures SentSoFar(c, ss, acts, k, id) <= 3
    ensures forall g | g in ss[k].nodes && id in ss[k].nodes[g].sessions && Settled(ss[k].nodes[g].sessions[id]) ::
              SentSoFar(c, ss, acts, k, id) == 3
  {
    SentByPhase(c, ss, acts, k, id);
    forall g | g in ss[k].nodes && id in ss[k].nodes[g].sessions && Settled(ss[k].nodes[g].sessions[id])
      ensures SentSoFar(c, ss, acts, k, id) == 3
    {
      StoredExplained(c, ss, acts, k, g, id);
    }
  }

  // ---- progress and termination ----

  /** Deliveries a frame in flight can still lead to, its own included. */
  function Work(p: Packet): nat {
    match StateOf(p.wire.state)
    case PublicKeyExchange => 3
    case Handshaking => 2
    case Connected => 1
    case _ => 0
  }

  function TotalWork(bag: seq<Packet>): nat {
    if bag == [] then 0 else Work(bag[0]) + TotalWork(bag[1..])
  }

  lemma {:induction false} WorkSplits(xs: seq<Packet>, ys: seq<Packet>)
    ensures TotalWork(xs + ys) == TotalWork(xs) + TotalWork(ys)
  {
    if xs == [] {
      assert xs + ys == ys;
    } else {
      assert (xs + ys)[1..] == xs[1..] + ys;
      WorkSplits(xs[1..], ys);
    }
  }

  lemma WorkOfOne(p: Packet)
    ensures TotalWork([p]) == Work(p)
  {
    assert [p][1..] == [];
  }

  lemma TakenApart<T>(bag: seq<T>, i: nat)
    requires i < |bag|
    ensures bag == bag[..i] + ([bag[i]] + bag[i + 1..])
  {
  }

  lemma WorkWithout(bag: seq<Packet>, i: nat)
    requires i < |bag|
    ensures TotalWork(bag) == TotalWork(Without(bag, i)) + Work(bag[i])
  {
    hide TotalWork;
    hide Work;
    var left, p, right := bag[..i], bag[i], bag[i + 1..];
    TakenApart(bag, i);
    WorkSplits(left, [p] + right);
    WorkSplits([p], right);
    WorkOfOne(p);
    WorkSplits(left, right);
  }

  lemma PhaseWork(c: Rsa, id: string, e: Entry, d: Draw)
    requires !e.phase.Open?
    ensures Work(InFlight(c, id, e)) == TotalWork(SentBy(c, id, Next(e, d))) + 1
  {
    var sent := SentBy(c, id, Next(e, d));
    if sent != [] {
      WorkOfOne(sent[0]);
    }
  }

  lemma BagWorks(c: Rsa, bag: seq<Packet>, i: nat, e: Entry, d: Draw)
    requires i < |bag| && !e.phase.Open? && bag[i] == InFlight(c, bag[i].wire.id, e)
    ensures TotalWork(Without(bag, i) + SentBy(c, bag[i].wire.id, Next(e, d))) == TotalWork(bag) - 1
  {
    PhaseWork(c, bag[i].wire.id, e, d);
    WorkWithout(bag, i);
    WorkSplits(Without(bag, i), SentBy(c, bag[i].wire.id, Next(e, d)));
  }

  /** Every delivery uses up exactly one unit of work. */
  lemma DeliveryWorks(c: Rsa, book: Book, sys: System, i: nat, d: Draw)
    requires Lawful(c) && Explains(c, book, sys) && i < |sys.bag|
    ensures Enabled(sys, Deliver(i, d)) && Fire(c, sys, Deliver(i, d)).Fired?
    ensures TotalWork(Fire(c, sys, Deliver(i, d)).sys.bag) == TotalWork(sys.bag) - 1
  {
    DeliverySent(c, book, sys, i, d);
    BagWorks(c, sys.bag, i, book[sys.bag[i].wire.id], d);
  }

  /** How many of the first `k` actions are deliveries, and how many start a session. */
  ghost function Deliveries(acts: seq<Action>, k: nat): nat
    requires k <= |acts|
  {
    if k == 0 then 0 else Deliveries(acts, k - 1) + (if acts[k - 1].Deliver? then 1 else 0)
  }

  ghost function Starts(c: Rsa, ss: seq<System>, acts: seq<Action>, k: nat): nat
    requires IsRun(c, ss, acts) && k < |ss|
  {
    if k == 0 then 0
    else
      assert StepsTo(c, ss[k - 1], acts[k - 1], ss[k]);
      var act := acts[k - 1];
      Starts(c, ss, acts, k - 1) +
      (if act.Start? && WillStart(ss[k - 1].nodes[act.at], act.foreign) then 1 else 0)
  }

  lemma OfferWorks(c: Rsa, bag: seq<Packet>, id: string, e: Entry)
    requires e.phase.Offered?
    ensures TotalWork(bag + [InFlight(c, id, e)]) == TotalWork(bag) + 3
  {
    WorkSplits(bag, [InFlight(c, id, e)]);
    WorkOfOne(InFlight(c, id, e));
  }

  /** A step neither creates nor loses work, except that a start brings three units. */
  lemma StepWorks(c: Rsa, book: Book, sys: System, act: Action)
    requires Lawful(c) && Explains(c, book, sys) && Enabled(sys, act) && Harmless(sys, act)
    ensures Fire(c, sys, act).Fired?
    ensures var before, after := TotalWork(sys.bag), TotalWork(Fire(c, sys, act).sys.bag);
            match act
            case Start(a, b, _, _) => after == before + (if WillStart(sys.nodes[a], b) then 3 else 0)
            case Deliver(_, _) => after == before - 1
            case Lose(_) => after <= before
            case _ => after == before
  {
    match act {
      case Start(a, b, id, d) =>
        if WillStart(sys.nodes[a], b) {
          StartSent(c, book, sys, a, b, id, d);
          OfferWorks(c, sys.bag, id, Entry(a, b, d.key, Offered));
        } else {
          StartRefused(c, sys, a, b, id, d);
        }
      case Deliver(i, d) => DeliveryWorks(c, book, sys, i, d);
      case Lose(i) => WorkWithout(sys.bag, i);
      case _ =>
    }
  }

  lemma NextCounts(c: Rsa, ss: seq<System>, acts: seq<Action>, k: nat)
    requires IsRun(c, ss, acts) && 0 < k < |ss|
    ensures k <= |acts| && StepsTo(c, ss[k - 1], acts[k - 1], ss[k]) && Harmless(ss[k - 1], acts[k - 1])
    ensures var act := acts[k - 1];
            && Deliveries(acts, k) == Deliveries(acts, k - 1) + (if act.Deliver? then 1 else 0)
            && Starts(c, ss, acts, k) == Starts(c, ss, acts, k - 1) +
               (if act.Start? && WillStart(ss[k - 1].nodes[act.at], act.foreign) then 1 else 0)
  {
    NextBook(c, ss, acts, k);
  }

  lemma NothingDelivered(c: Rsa, ss: seq<System>, acts: seq<Action>)
    requires IsRun(c, ss, acts)
    ensures Deliveries(acts, 0) == TotalWork(ss[0].bag) == Starts(c, ss, acts, 0) == 0
  {
  }

  lemma RunStepWorks(c: Rsa, ss: seq<System>, acts: seq<Action>, k: nat)
    requires Lawful(c) && IsRun(c, ss, acts) && 0 < k < |ss|
    ensures k <= |acts|
    ensures Deliveries(acts, k) - Deliveries(acts, k - 1) + TotalWork(ss[k].bag) - TotalWork(ss[k - 1].bag) <=
            3 * (Starts(c, ss, acts, k) - Starts(c, ss, acts, k - 1))
    ensures !acts[k - 1].Lose? ==>
            Deliveries(acts, k) - Deliveries(acts, k - 1) + TotalWork(ss[k].bag) - TotalWork(ss[k - 1].bag) ==
            3 * (Starts(c, ss, acts, k) - Starts(c, ss, acts, k - 1))
  {
    hide IsRun;
    hide BookAt;
    hide Deliveries;
    hide Starts;
    hide TotalWork;
    hide Explains;
    hide NothingLost;
    hide Fire;
    NextCounts(c, ss, acts, k);
    RunExplained(c, ss, acts, k - 1);
    StepWorks(c, BookAt(c, ss, acts, k - 1), ss[k - 1], acts[k - 1]);
  }

  /** The work done and the work left never exceed three deliveries per session started; they match
      it when nothing is lost. So a run with finitely many starts delivers finitely often. */
  lemma {:induction false} DeliveriesBounded(c: Rsa, ss: seq<System>, acts: seq<Action>, k: nat)
    requires Lawful(c) && IsRun(c, ss, acts) && k < |ss|
    ensures Deliveries(acts, k) + TotalWork(ss[k].bag) <= 3 * Starts(c, ss, acts, k)
    ensures Lossless(acts) ==> Deliveries(acts, k) + TotalWork(ss[k].bag) == 3 * Starts(c, ss, acts, k)
  {
    hide Lawful;
    hide Deliveries;
    hide Starts;
    hide TotalWork;
    if k == 0 {
      NothingDelivered(c, ss, acts);
    } else {
      hide IsRun;
      DeliveriesBounded(c, ss, acts, k - 1);
      RunStepWorks(c, ss, acts, k);
    }
  }

  /** `s` is up, and so is the other end of its session, with the same secret. */
  predicate Up(nodes: map<Guid, Node>, g: Guid, id: string)
    requires g in nodes && id in nodes[g].sessions
  {
    var s := nodes[g].sessions[id];
    && Settled(s) && s.foreign.Is? && s.foreign.value != g && s.foreign.value in nodes
    && var m := nodes[s.foreign.value].sessions;
       (id in m && Settled(m[id]) && m[id].foreign == Is(g) && m[id].secret == s.secret)
  }

  lemma OpenIsUp(c: Rsa, nodes: map<Guid, Node>, id: string, e: Entry)
    requires EntryOk(c, nodes, id, e) && e.phase.Open?
    ensures Up(nodes, e.a, id) && Up(nodes, e.b, id)
  {
  }

  lemma EmptyBagMeansOpen(c: Rsa, ss: seq<System>, acts: seq<Action>, k: nat, id: string)
    requires Lawful(c) && IsRun(c, ss, acts) && k < |ss| && Lossless(acts) && ss[k].bag == []
    requires id in BookAt(c, ss, acts, k)
    ensures BookAt(c, ss, acts, k)[id].phase.Open?
  {
    RunExplained(c, ss, acts, k);
  }

  /** When no frame was lost and none is in flight, every session is up at both of its ends. */
  lemma QuiescentMeansConnected(c: Rsa, ss: seq<System>, acts: seq<Action>, k: nat, g: Guid, id: string)
    requires Lawful(c) && IsRun(c, ss, acts) && k < |ss| && Lossless(acts) && ss[k].bag == []
    requires g in ss[k].nodes && id in ss[k].nodes[g].sessions
    ensures Up(ss[k].nodes, g, id)
  {
    StoredExplained(c, ss, acts, k, g, id);
    EmptyBagMeansOpen(c, ss, acts, k, id);
    OpenIsUp(c, ss[k].nodes, id, BookAt(c, ss, acts, k)[id]);
  }

  lemma DeliverFirst(c: Rsa, ss: seq<System>, acts: seq<Action>, d: Draw) returns (next: System)
    requires Lawful(c) && IsRun(c, ss, acts) && ss[|ss| - 1].bag != []
    ensures IsRun(c, ss + [next], acts + [Deliver(0, d)])
    ensures TotalWork(next.bag) == TotalWork(ss[|ss| - 1].bag) - 1
  {
    var sys := ss[|ss| - 1];
    RunExplained(c, ss, acts, |acts|);
    DeliveryWorks(c, BookAt(c, ss, acts, |acts|), sys, 0, d);
    next := Fire(c, sys, Deliver(0, d)).sys;
    RunExtended(c, ss, acts, Deliver(0, d), next);
  }

  lemma PrefixOfLonger<T>(xs: seq<T>, ys: seq<T>, zs: seq<T>)
    requires xs <= ys <= zs
    ensures xs <= zs
  {
  }

  /** `longer` is `acts` and deliveries after it. */
  predicate DeliversOn(acts: seq<Action>, longer: seq<Action>) {
    acts <= longer && forall i | |acts| <= i < |longer| :: longer[i].Deliver?
  }

  lemma DeliversOnward(acts: seq<Action>, act: Action, longer: seq<Action>)
    requires act.Deliver? && DeliversOn(acts + [act], longer)
    ensures DeliversOn(acts, longer)
  {
    assert longer[|acts|] == (acts + [act])[|acts|];
    PrefixOfLonger(acts, acts + [act], longer);
  }

  /** From any state of any run, deliveries alone can empty the network. */
  lemma {:induction false} CanDrain(c: Rsa, ss: seq<System>, acts: seq<Action>, d: Draw)
    returns (ss': seq<System>, acts': seq<Action>)
    requires Lawful(c) && IsRun(c, ss, acts)
    ensures IsRun(c, ss', acts') && ss <= ss' && DeliversOn(acts, acts') && ss'[|ss'| - 1].bag == []
    ensures |acts'| == |acts| + TotalWork(ss[|ss| - 1].bag)
    decreases TotalWork(ss[|ss| - 1].bag)
  {
    assert |ss| > 0;
    hide IsRun;
    hide Lawful;
    if ss[|ss| - 1].bag == [] {
      return ss, acts;
    }
    var next := DeliverFirst(c, ss, acts, d);
    hide DeliversOn;
    hide TotalWork;
    ss', acts' := CanDrain(c, ss + [next], acts + [Deliver(0, d)], d);
    DeliversOnward(acts, Deliver(0, d), acts');
    PrefixOfLonger(ss, ss + [next], ss');
  }
}
