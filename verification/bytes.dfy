/**
 The network at the level of texts: every frame is printed by its sender and parsed by its receiver.
 Each run of it is a run of the record-level network with the same peers' states throughout.
 */
module Bytes {
  import opened Cells
  import opened CText
  import opened Records
  import opened Frames
  import opened Generators
  import opened Handshake
  import opened Network
  import opened Ledger
  import opened Invariant
  import opened Runs

  datatype Datagram = Datagram(dest: Guid, text: string)

  datatype TextSystem = TextSystem(nodes: map<Guid, Node>, bag: seq<Datagram>)

  function Print(p: Packet): Datagram {
    Datagram(p.dest, SessionFrame(p.wire))
  }

  function PrintAll(ps: seq<Packet>): (ds: seq<Datagram>)
    ensures |ds| == |ps| && forall i | 0 <= i < |ps| :: ds[i] == Print(ps[i])
  {
    seq(|ps|, i requires 0 <= i < |ps| => Print(ps[i]))
  }

  function Printed(sys: System): TextSystem {
    TextSystem(sys.nodes, PrintAll(sys.bag))
  }

  // ---- steps ----

  /** The frames in flight as far as their addresses go. */
  function Unread(bag: seq<Datagram>): (ps: seq<Packet>)
    ensures |ps| == |bag| && forall i | 0 <= i < |bag| :: ps[i].dest == bag[i].dest
  {
    seq(|bag|, i requires 0 <= i < |bag| => Packet(bag[i].dest, Wire("", "", "", 0, "", "", "", "", 0)))
  }

  ghost predicate TextEnabled(sys: TextSystem, act: Action) {
    Enabled(System(sys.nodes, Unread(sys.bag)), act)
  }

  datatype TextFired = TextFired(sys: TextSystem) | TextBroken

  function TextInstall(nodes: map<Guid, Node>, g: Guid, bag: seq<Datagram>, step: Step): TextFired {
    match step
    case Fault => TextBroken
    case Stepped(n, sent) => TextFired(TextSystem(nodes[g := n], bag + PrintAll(sent)))
  }

  ghost function TextFire(c: Rsa, sys: TextSystem, act: Action): TextFired
    requires TextEnabled(sys, act)
  {
    match act
    case Start(at, foreign, id, d) =>
      TextInstall(sys.nodes, at, sys.bag, StartSession(c, sys.nodes[at], foreign, id, d))
    case Deliver(i, d) =>
      var p := sys.bag[i];
      TextInstall(sys.nodes, p.dest, Without(sys.bag, i), ReceiveText(c, sys.nodes[p.dest], p.text, d))
    case Interrupt(at) =>
      TextFired(sys.(nodes := sys.nodes[at := Shutdown(sys.nodes[at])]))
    case Hear(at, text, ip) =>
      var n := sys.nodes[at];
      (match HearPulse(n.peers, text, ip)
       case None => TextBroken
       case Some(peers) => TextFired(sys.(nodes := sys.nodes[at := n.(peers := peers)])))
    case Lose(i) =>
      TextFired(sys.(bag := Without(sys.bag, i)))
  }

  ghost predicate TextStepsTo(c: Rsa, sys: TextSystem, act: Action, sys': TextSystem) {
    TextEnabled(sys, act) && TextFire(c, sys, act) == TextFired(sys')
  }

  ghost predicate IsTextRun(c: Rsa, ts: seq<TextSystem>, acts: seq<Action>) {
    && |ts| == |acts| + 1
    && ts[0].bag == [] && Initial(System(ts[0].nodes, []))
    && forall i | 0 <= i < |acts| :: TextStepsTo(c, ts[i], acts[i], ts[i + 1])
  }

  // ---- every frame in flight is safe to print ----

  lemma FrameIsSafe(c: Rsa, nodes: map<Guid, Node>, id: string, e: Entry)
    requires Lawful(c) && NodesOk(nodes) && EntryOk(c, nodes, id, e) && !e.phase.Open?
    ensures SafeWire(InFlight(c, id, e).wire)
  {
    assert NodeOk(e.a, nodes[e.a]) && NodeOk(e.b, nodes[e.b]);
    GeneratedShape(e.a);
    GeneratedShape(e.b);
    GeneratedShape(id);
    if e.phase.Sealed? {
      CipherBounds(c, e.phase.kb, e.phase.draw);
    }
  }

  lemma FrameIsShort(c: Rsa, nodes: map<Guid, Node>, id: string, e: Entry)
    requires Lawful(c) && NodesOk(nodes) && EntryOk(c, nodes, id, e) && !e.phase.Open?
    ensures |SessionFrame(InFlight(c, id, e).wire)| < 6000
  {
    assert NodeOk(e.a, nodes[e.a]) && NodeOk(e.b, nodes[e.b]);
    GeneratedShape(e.a);
    GeneratedShape(e.b);
    GeneratedShape(id);
    if e.phase.Sealed? {
      CipherBounds(c, e.phase.kb, e.phase.draw);
    }
    var w := InFlight(c, id, e).wire;
    assert TenTo(4) == 10000;
    DecimalLength(w.state, 4);
    DecimalLength(w.secretLen, 4);
    SessionFrameLength(w);
  }

  lemma BagIsSafe(c: Rsa, book: Book, sys: System, i: nat)
    requires Lawful(c) && Explains(c, book, sys) && i < |sys.bag|
    ensures SafeWire(sys.bag[i].wire) && |SessionFrame(sys.bag[i].wire)| < 6000
  {
    assert PacketOk(c, sys.bag[i], book);
    var id := sys.bag[i].wire.id;
    assert EntryOk(c, sys.nodes, id, book[id]);
    FrameIsSafe(c, sys.nodes, id, book[id]);
    FrameIsShort(c, sys.nodes, id, book[id]);
  }

  /** In every reachable state all frames in flight have non-empty, colon-free, NUL-free fields and
      fit the 6000-character buffer they are printed into. */
  lemma FramesFit(c: Rsa, ss: seq<System>, acts: seq<Action>, k: nat, i: nat)
    requires Lawful(c) && IsRun(c, ss, acts) && k < |ss| && i < |ss[k].bag|
    ensures SafeWire(ss[k].bag[i].wire) && |SessionFrame(ss[k].bag[i].wire)| < 6000
  {
    RunExplained(c, ss, acts, k);
    BagIsSafe(c, BookAt(c, ss, acts, k), ss[k], i);
  }

  // ---- simulation ----

  lemma PrintedWithout(bag: seq<Packet>, i: nat, sent: seq<Packet>)
    requires i < |bag|
    ensures Without(PrintAll(bag), i) == PrintAll(Without(bag, i))
    ensures Without(PrintAll(bag), i) + PrintAll(sent) == PrintAll(Without(bag, i) + sent)
  {
    var left, right := Without(PrintAll(bag), i), PrintAll(Without(bag, i));
    forall k | 0 <= k < |left|
      ensures left[k] == right[k]
    {
      assert Without(bag, i)[k] == bag[if k < i then k else k + 1];
    }
    PrintedMore(Without(bag, i), sent);
  }

  lemma PrintedMore(bag: seq<Packet>, sent: seq<Packet>)
    ensures PrintAll(bag) + PrintAll(sent) == PrintAll(bag + sent)
  {
  }

  lemma ReceiveTextOfPrinted(c: Rsa, n: Node, w: Wire, d: Draw)
    requires SafeWire(w)
    ensures ReceiveText(c, n, SessionFrame(w), d) == Receive(c, n, Orient(n.guid, n.peers.Keys, w), d)
  {
    SessionRoundTrip(n.guid, n.peers.Keys, w);
  }

  lemma TextDelivery(c: Rsa, sys: System, i: nat, d: Draw)
    requires Enabled(sys, Deliver(i, d)) && SafeWire(sys.bag[i].wire) && Fire(c, sys, Deliver(i, d)).Fired?
    ensures TextFire(c, Printed(sys), Deliver(i, d)) == TextFired(Printed(Fire(c, sys, Deliver(i, d)).sys))
  {
    var p := sys.bag[i];
    ReceiveTextOfPrinted(c, sys.nodes[p.dest], p.wire, d);
    PrintedWithout(sys.bag, i, Fire(c, sys, Deliver(i, d)).sent);
  }

  lemma TextStart(c: Rsa, sys: System, a: Guid, b: Guid, id: string, d: Draw)
    requires Enabled(sys, Start(a, b, id, d)) && Fire(c, sys, Start(a, b, id, d)).Fired?
    ensures TextFire(c, Printed(sys), Start(a, b, id, d)) == TextFired(Printed(Fire(c, sys, Start(a, b, id, d)).sys))
  {
    PrintedMore(sys.bag, Fire(c, sys, Start(a, b, id, d)).sent);
  }

  /** Where frames are safe, a text-level step is the printed image of the record-level step. */
  lemma TextStep(c: Rsa, book: Book, sys: System, act: Action)
    requires Lawful(c) && Explains(c, book, sys)
    requires TextEnabled(Printed(sys), act)
    ensures Enabled(sys, act)
    ensures match Fire(c, sys, act)
            case Broken => TextFire(c, Printed(sys), act) == TextBroken
            case Fired(sys', _) => TextFire(c, Printed(sys), act) == TextFired(Printed(sys'))
  {
    StepExplained(c, book, sys, act);
    match act {
      case Start(a, b, id, d) => TextStart(c, sys, a, b, id, d);
      case Deliver(i, d) =>
        BagIsSafe(c, book, sys, i);
        TextDelivery(c, sys, i, d);
      case Lose(i) => PrintedWithout(sys.bag, i, []);
      case _ =>
    }
  }

  /** Every run over printed and parsed frames is a record-level run, state by state. */
  lemma {:induction false} TextRunsAreRuns(c: Rsa, ts: seq<TextSystem>, acts: seq<Action>) returns (ss: seq<System>)
    requires Lawful(c) && IsTextRun(c, ts, acts)
    ensures IsRun(c, ss, acts)
    ensures |ss| == |ts| && forall k | 0 <= k < |ts| :: ts[k] == Printed(ss[k])
    decreases |acts|
  {
    if acts == [] {
      ss := [System(ts[0].nodes, [])];
    } else {
      var m := |acts| - 1;
      forall i | 0 <= i < m
        ensures TextStepsTo(c, ts[..m + 1][i], acts[..m][i], ts[..m + 1][i + 1])
      {
        assert TextStepsTo(c, ts[i], acts[i], ts[i + 1]);
      }
      var before := TextRunsAreRuns(c, ts[..m + 1], acts[..m]);
      assert ts[m] == Printed(before[m]) by {
        assert ts[..m + 1][m] == Printed(before[m]);
      }
      assert TextStepsTo(c, ts[m], acts[m], ts[m + 1]);
      var next := TextRunStep(c, before, acts[..m], acts[m]);
      ss := before + [next];
      assert acts == acts[..m] + [acts[m]];
      forall k | 0 <= k < |ts|
        ensures ts[k] == Printed(ss[k])
      {
        if k <= m {
          assert ts[..m + 1][k] == ts[k];
        }
      }
    }
  }

  lemma TextRunStep(c: Rsa, ss: seq<System>, acts: seq<Action>, act: Action) returns (next: System)
    requires Lawful(c) && IsRun(c, ss, acts) && TextEnabled(Printed(ss[|acts|]), act)
    requires TextFire(c, Printed(ss[|acts|]), act).TextFired?
    ensures IsRun(c, ss + [next], acts + [act])
    ensures TextFire(c, Printed(ss[|acts|]), act) == TextFired(Printed(next))
  {
    RunExplained(c, ss, acts, |acts|);
    TextStep(c, BookAt(c, ss, acts, |acts|), ss[|acts|], act);
    next := Fire(c, ss[|acts|], act).sys;
    RunExtended(c, ss, acts, act, next);
  }

  /** And every record-level run, printed, is a run over texts. */
  lemma RunsAreTextRuns(c: Rsa, ss: seq<System>, acts: seq<Action>, ts: seq<TextSystem>)
    requires Lawful(c) && IsRun(c, ss, acts)
    requires |ts| == |ss| && forall k | 0 <= k < |ts| :: ts[k] == Printed(ss[k])
    ensures IsTextRun(c, ts, acts)
  {
    forall i | 0 <= i < |acts|
      ensures TextStepsTo(c, ts[i], acts[i], ts[i + 1])
    {
      assert StepsTo(c, ss[i], acts[i], ss[i + 1]);
      RunExplained(c, ss, acts, i);
      TextStep(c, BookAt(c, ss, acts, i), ss[i], acts[i]);
    }
  }

  // ---- one hop, two hops ----

  /** The state is one the enum names, so that its number reads back as itself. */
  predicate Named(s: State) {
    StateOf(Code(s)) == s
  }

  /** Printed by `a` for `b` and parsed by `b`: the peers change sides, NULL texts become "(null)",
      the key pair stays behind, all other fields arrive; the length field exactly when it fits. */
  lemma HopReorients(a: Guid, b: Guid, known: set<Guid>, s: Sess)
    requires Printable(s) && SafeWire(WireOf(s)) && Named(s.state.value) && s.secretLen.value < TWO_TO_64
    requires s.local == Is(a) && s.foreign == Is(b) && a != b && a in known && b in known
    ensures var r := ParseSession(b, known, SessionFrame(WireOf(s)));
            && r.SessOkay?
            && r.s == Sess(Is(b), Is(a), Unset, Is(NullText(s.localPub)), Is(NullText(s.foreignPub)),
                           Is(NullText(s.secret)), r.s.secretLen, s.state, Is(NullText(s.id)), Is(NullText(s.origin)))
            && (r.s.secretLen == s.secretLen <==>
                  s.secretLen.value <= INT_MAX || s.secretLen.value >= TWO_TO_64 - (INT_MAX + 1))
  {
    SessionRoundTrip(b, known, WireOf(s));
    SizeRoundTrip(s.secretLen.value);
    AtoiOfPrintInt(AsInt32(s.secretLen.value));
  }

  /** Sent on to `b` and straight back, a session comes home as it left, but for the key pair and for
      NULL texts, which have become "(null)". */
  lemma TwoHopsRestore(a: Guid, b: Guid, atB: set<Guid>, atA: set<Guid>, s: Sess)
    requires Printable(s) && SafeWire(WireOf(s)) && Named(s.state.value) && s.secretLen.value <= INT_MAX
    requires s.local == Is(a) && s.foreign == Is(b) && a != b && a in atB && b in atB && a in atA && b in atA
    ensures var there := ParseSession(b, atB, SessionFrame(WireOf(s)));
            && there.SessOkay? && Printable(there.s)
            && ParseSession(a, atA, SessionFrame(WireOf(there.s))) ==
               SessOkay(s.(keypair := Unset, localPub := Is(NullText(s.localPub)),
                           foreignPub := Is(NullText(s.foreignPub)), secret := Is(NullText(s.secret)),
                           id := Is(NullText(s.id)), origin := Is(NullText(s.origin))))
  {
    HopReorients(a, b, atB, s);
    HopReorients(b, a, atA, ParseSession(b, atB, SessionFrame(WireOf(s))).s);
  }
}
