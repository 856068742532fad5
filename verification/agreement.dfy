/** Safety over whole runs: secrets, keys, `last_session`, phases. */
module Agreement {
  import opened Cells
  import opened Records
  import opened Generators
  import opened Handshake
  import opened Network
  import opened Ledger
  import opened Invariant
  import opened Runs
  import opened Progress

  // ---- secret agreement ----

  /** The step in which the origin of session `id` drew `text` as its secret. */
  ghost predicate DrewSecret(sys: System, act: Action, id: string, text: string) {
    && act.Deliver? && act.i < |sys.bag|
    && sys.bag[act.i].wire.id == id
    && sys.bag[act.i].dest == sys.bag[act.i].wire.origin
    && StateOf(sys.bag[act.i].wire.state) == Handshaking
    && SecretOf(act.draw) == text
  }

  /** The origin of session `id` drew `text` as its secret in one of the first `k` steps. */
  ghost predicate DrawnBefore(ss: seq<System>, acts: seq<Action>, k: nat, id: string, text: string)
    requires k <= |acts| && |acts| < |ss|
  {
    exists j :: 0 <= j < k && DrewSecret(ss[j], acts[j], id, text)
  }

  predicate HasSecret(book: Book, id: string) {
    id in book && (book[id].phase.Sealed? || book[id].phase.Open?)
  }

  lemma DeliveryDraws(c: Rsa, book: Book, sys: System, i: nat, d: Draw, id: string)
    requires i < |sys.bag| && PacketOk(c, sys.bag[i], book)
    requires HasSecret(book[sys.bag[i].wire.id := Next(book[sys.bag[i].wire.id], d)], id)
    ensures var e' := book[sys.bag[i].wire.id := Next(book[sys.bag[i].wire.id], d)][id];
            if HasSecret(book, id) then e'.phase.draw == book[id].phase.draw
            else DrewSecret(sys, Deliver(i, d), id, SecretOf(e'.phase.draw))
  {
  }

  /** A step either leaves a session's secret as it was or is the one that drew it. */
  lemma SecretWritten(c: Rsa, book: Book, sys: System, act: Action, id: string)
    requires EntriesOk(c, sys.nodes, book) && BagOk(c, sys.bag, book) && Enabled(sys, act)
    requires HasSecret(Write(book, sys, act), id)
    ensures (HasSecret(book, id) && Write(book, sys, act)[id].phase.draw == book[id].phase.draw)
            || DrewSecret(sys, act, id, SecretOf(Write(book, sys, act)[id].phase.draw))
  {
    match act {
      case Start(a, b, id0, d) =>
        if WillStart(sys.nodes[a], b) {
          NewId(c, book, sys.nodes, id0);
        }
      case Deliver(i, d) =>
        assert PacketOk(c, sys.bag[i], book);
        DeliveryDraws(c, book, sys, i, d, id);
      case _ =>
    }
  }

  lemma RunSecretWritten(c: Rsa, ss: seq<System>, acts: seq<Action>, k: nat, id: string)
    requires Lawful(c) && IsRun(c, ss, acts) && 0 < k < |ss| && HasSecret(BookAt(c, ss, acts, k), id)
    ensures var before, now := BookAt(c, ss, acts, k - 1), BookAt(c, ss, acts, k);
            (HasSecret(before, id) && now[id].phase.draw == before[id].phase.draw)
            || DrewSecret(ss[k - 1], acts[k - 1], id, SecretOf(now[id].phase.draw))
  {
    assert StepsTo(c, ss[k - 1], acts[k - 1], ss[k]);
    RunBook(c, ss, acts, k - 1);
    SecretWritten(c, BookAt(c, ss, acts, k - 1), ss[k - 1], acts[k - 1], id);
  }

  lemma {:induction false} SecretDrawn(c: Rsa, ss: seq<System>, acts: seq<Action>, k: nat, id: string)
    requires Lawful(c) && IsRun(c, ss, acts) && k < |ss| && HasSecret(BookAt(c, ss, acts, k), id)
    ensures DrawnBefore(ss, acts, k, id, SecretOf(BookAt(c, ss, acts, k)[id].phase.draw))
  {
    if k > 0 {
      hide IsRun;
      hide Lawful;
      hide DrewSecret;
      RunSecretWritten(c, ss, acts, k, id);
      var before, now := BookAt(c, ss, acts, k - 1), BookAt(c, ss, acts, k);
      if HasSecret(before, id) && now[id].phase.draw == before[id].phase.draw {
        SecretDrawn(c, ss, acts, k - 1, id);
      }
    }
  }

  /** If both ends of a session have connected (and perhaps closed since), they hold the same
      plaintext secret, and it is the one the origin drew. */
  lemma SecretAgreement(c: Rsa, ss: seq<System>, acts: seq<Action>, k: nat, g: Guid, h: Guid, id: string)
    requires Lawful(c) && IsRun(c, ss, acts) && k < |ss|
    requires g in ss[k].nodes && id in ss[k].nodes[g].sessions && Settled(ss[k].nodes[g].sessions[id])
    requires h in ss[k].nodes && id in ss[k].nodes[h].sessions && Settled(ss[k].nodes[h].sessions[id])
    ensures ss[k].nodes[g].sessions[id].secret.Is?
    ensures ss[k].nodes[g].sessions[id].secret == ss[k].nodes[h].sessions[id].secret
    ensures DrawnBefore(ss, acts, k, id, ss[k].nodes[g].sessions[id].secret.value)
  {
    hide IsRun;
    hide BookAt;
    hide Lawful;
    StoredExplained(c, ss, acts, k, g, id);
    StoredExplained(c, ss, acts, k, h, id);
    SecretDrawn(c, ss, acts, k, id);
  }

  /** Over a run the frames sent for a session only ever grow in number. */
  lemma {:induction false} FramesGrow(c: Rsa, ss: seq<System>, acts: seq<Action>, j: nat, k: nat, id: string)
    requires Lawful(c) && IsRun(c, ss, acts) && j <= k < |ss|
    ensures FramesFor(BookAt(c, ss, acts, j), id) <= FramesFor(BookAt(c, ss, acts, k), id)
    decreases k
  {
    hide IsRun;
    hide BookAt;
    hide FramesFor;
    hide SentSoFar;
    hide Lawful;
    if j < k {
      FramesGrow(c, ss, acts, j, k - 1, id);
      SentByPhase(c, ss, acts, k - 1, id);
      SentByPhase(c, ss, acts, k, id);
      NextSent(c, ss, acts, k, id);
    }
  }

  lemma SecretPhase(c: Rsa, book: Book, sys: System, act: Action, id: string, text: string)
    requires BagOk(c, sys.bag, book) && Enabled(sys, act) && DrewSecret(sys, act, id, text)
    ensures FramesFor(book, id) == 2 && FramesFor(Write(book, sys, act), id) == 3
  {
    assert PacketOk(c, sys.bag[act.i], book);
  }

  lemma RunSecretPhase(c: Rsa, ss: seq<System>, acts: seq<Action>, j: nat, id: string, text: string)
    requires Lawful(c) && IsRun(c, ss, acts) && j < |acts| && DrewSecret(ss[j], acts[j], id, text)
    ensures FramesFor(BookAt(c, ss, acts, j), id) == 2 && FramesFor(BookAt(c, ss, acts, j + 1), id) == 3
  {
    hide FramesFor;
    hide DrewSecret;
    hide EntriesOk;
    hide BagOk;
    hide BookAt;
    hide Write;
    NextBook(c, ss, acts, j + 1);
    RunBook(c, ss, acts, j);
    SecretPhase(c, BookAt(c, ss, acts, j), ss[j], acts[j], id, text);
  }

  lemma NoSecretDrawn(c: Rsa, ss: seq<System>, acts: seq<Action>, k: nat, id: string, text: string)
    requires Lawful(c) && IsRun(c, ss, acts) && k < |acts| && FramesFor(BookAt(c, ss, acts, k), id) >= 3
    ensures !DrewSecret(ss[k], acts[k], id, text)
  {
    hide BookAt;
    hide FramesFor;
    if DrewSecret(ss[k], acts[k], id, text) {
      RunSecretPhase(c, ss, acts, k, id, text);
      assert false;
    }
  }

  lemma SecretNotAgain(c: Rsa, ss: seq<System>, acts: seq<Action>, j: nat, k: nat, id: string,
                       text: string, text': string)
    requires Lawful(c) && IsRun(c, ss, acts) && j < k < |acts|
    requires DrewSecret(ss[j], acts[j], id, text)
    ensures !DrewSecret(ss[k], acts[k], id, text')
  {
    hide BookAt;
    hide Lawful;
    hide FramesFor;
    hide DrewSecret;
    RunSecretPhase(c, ss, acts, j, id, text);
    FramesGrow(c, ss, acts, j + 1, k, id);
    NoSecretDrawn(c, ss, acts, k, id, text');
  }

  /** A session's secret is drawn once: two steps of a run that draw it are the same step. */
  lemma SecretDrawnOnce(c: Rsa, ss: seq<System>, acts: seq<Action>, j: nat, k: nat, id: string,
                        text: string, text': string)
    requires Lawful(c) && IsRun(c, ss, acts) && j < |acts| && k < |acts|
    requires DrewSecret(ss[j], acts[j], id, text) && DrewSecret(ss[k], acts[k], id, text')
    ensures j == k && text == text'
  {
    if j < k {
      SecretNotAgain(c, ss, acts, j, k, id, text, text');
    } else if k < j {
      SecretNotAgain(c, ss, acts, k, j, id, text', text);
    }
  }

  // ---- keys, pointers, pairs ----

  /** The step in which the peer `g` generated `key` for session `id`: its start, or the receipt of
      its offer. */
  ghost predicate DrewKey(sys: System, act: Action, g: Guid, id: string, key: Key) {
    match act
    case Start(at, foreign, id0, d) =>
      at == g && at in sys.nodes && WillStart(sys.nodes[at], foreign) && id0 == id && d.key == key
    case Deliver(i, d) =>
      && i < |sys.bag| && sys.bag[i].dest == g && sys.bag[i].wire.id == id
      && StateOf(sys.bag[i].wire.state) == PublicKeyExchange && d.key == key
    case _ => false
  }

  ghost predicate KeyDrawnBefore(ss: seq<System>, acts: seq<Action>, k: nat, g: Guid, id: string, key: Key)
    requires k <= |acts| && |acts| < |ss|
  {
    exists j :: 0 <= j < k && DrewKey(ss[j], acts[j], g, id, key)
  }

  /** The key pair generated at the end `g` of a session, if one has been. */
  function KeyOf(book: Book, id: string, g: Guid): Option<Key> {
    if id !in book then None
    else if g == book[id].a then Some(book[id].ka)
    else if g != book[id].b || book[id].phase.Offered? then None
    else Some(book[id].phase.kb)
  }

  /** A step either leaves an end's key pair as it was or is the one that generated it. */
  lemma KeyWritten(c: Rsa, book: Book, sys: System, act: Action, g: Guid, id: string)
    requires BagOk(c, sys.bag, book) && Enabled(sys, act)
    requires KeyOf(Write(book, sys, act), id, g).Some?
    ensures var key := KeyOf(Write(book, sys, act), id, g);
            KeyOf(book, id, g) == key || DrewKey(sys, act, g, id, key.value)
  {
    match act {
      case Start(a, b, id0, d) =>
      case Deliver(i, d) =>
        assert PacketOk(c, sys.bag[i], book);
        hide BagOk;
      case _ =>
    }
  }

  lemma RunKeyWritten(c: Rsa, ss: seq<System>, acts: seq<Action>, k: nat, g: Guid, id: string)
    requires Lawful(c) && IsRun(c, ss, acts) && 0 < k < |ss| && KeyOf(BookAt(c, ss, acts, k), id, g).Some?
    ensures var before, now := KeyOf(BookAt(c, ss, acts, k - 1), id, g), KeyOf(BookAt(c, ss, acts, k), id, g);
            before == now || DrewKey(ss[k - 1], acts[k - 1], g, id, now.value)
  {
    hide KeyOf;
    hide DrewKey;
    hide EntriesOk;
    hide BagOk;
    assert StepsTo(c, ss[k - 1], acts[k - 1], ss[k]);
    RunBook(c, ss, acts, k - 1);
    KeyWritten(c, BookAt(c, ss, acts, k - 1), ss[k - 1], acts[k - 1], g, id);
  }

  lemma {:induction false} KeyDrawn(c: Rsa, ss: seq<System>, acts: seq<Action>, k: nat, g: Guid, id: string)
    requires Lawful(c) && IsRun(c, ss, acts) && k < |ss| && KeyOf(BookAt(c, ss, acts, k), id, g).Some?
    ensures KeyDrawnBefore(ss, acts, k, g, id, KeyOf(BookAt(c, ss, acts, k), id, g).value)
  {
    if k > 0 {
      RunKeyWritten(c, ss, acts, k, g, id);
      hide KeyOf;
      hide DrewKey;
      if KeyOf(BookAt(c, ss, acts, k - 1), id, g) == KeyOf(BookAt(c, ss, acts, k), id, g) {
        KeyDrawn(c, ss, acts, k - 1, g, id);
      }
    }
  }

  predicate HasEnds(book: Book, id: string, a: Guid, b: Guid) {
    id in book && book[id].a == a && book[id].b == b
  }

  lemma EndsWritten(c: Rsa, book: Book, sys: System, act: Action, id: string, a: Guid, b: Guid)
    requires EntriesOk(c, sys.nodes, book) && Enabled(sys, act) && HasEnds(book, id, a, b)
    ensures HasEnds(Write(book, sys, act), id, a, b)
  {
    if act.Start? && WillStart(sys.nodes[act.at], act.foreign) {
      NewId(c, book, sys.nodes, act.id);
    }
  }

  /** A session keeps its two ends for the rest of the run. */
  lemma {:induction false} EndsKept(c: Rsa, ss: seq<System>, acts: seq<Action>, j: nat, k: nat, id: string,
                                    a: Guid, b: Guid)
    requires Lawful(c) && IsRun(c, ss, acts) && j <= k < |ss| && HasEnds(BookAt(c, ss, acts, j), id, a, b)
    ensures HasEnds(BookAt(c, ss, acts, k), id, a, b)
    decreases k
  {
    hide IsRun;
    hide BookAt;
    hide Write;
    hide HasEnds;
    hide EntriesOk;
    hide BagOk;
    hide Fire;
    hide Lawful;
    if j < k {
      EndsKept(c, ss, acts, j, k - 1, id, a, b);
      NextBook(c, ss, acts, k);
      RunBook(c, ss, acts, k - 1);
      EndsWritten(c, BookAt(c, ss, acts, k - 1), ss[k - 1], acts[k - 1], id, a, b);
    }
  }

  /** Before the ledger `book` becomes `book'`, the end `g` of session `id` has no key pair; after it,
      `g` is the origin of a session just offered or the responder of one just answered. */
  predicate KeyTurn(book: Book, book': Book, g: Guid, id: string, atOrigin: bool) {
    id in book' && book'[id].a != book'[id].b
    && if atOrigin then FramesFor(book, id) == 0 && FramesFor(book', id) == 1 && book'[id].a == g
       else FramesFor(book, id) == 1 && FramesFor(book', id) == 2 && book'[id].b == g
  }

  lemma StartTurns(c: Rsa, book: Book, sys: System, act: Action, g: Guid, id: string, key: Key)
    requires EntriesOk(c, sys.nodes, book) && Enabled(sys, act)
    requires act.Start? && DrewKey(sys, act, g, id, key) && sys.nodes[act.at].guid == act.at
    ensures KeyTurn(book, Write(book, sys, act), g, id, true)
  {
    NewId(c, book, sys.nodes, id);
  }

  lemma DeliveryTurns(c: Rsa, book: Book, sys: System, act: Action, g: Guid, id: string, key: Key)
    requires BagOk(c, sys.bag, book) && Enabled(sys, act)
    requires !act.Start? && DrewKey(sys, act, g, id, key) && (id in book ==> book[id].a != book[id].b)
    ensures KeyTurn(book, Write(book, sys, act), g, id, false)
  {
    assert PacketOk(c, sys.bag[act.i], book);
    hide BagOk;
  }

  lemma EntryAt(c: Rsa, book: Book, sys: System, id: string)
    requires EntriesOk(c, sys.nodes, book)
    ensures id in book ==> EntryOk(c, sys.nodes, id, book[id])
  {
  }

  lemma RunKeyPhase(c: Rsa, ss: seq<System>, acts: seq<Action>, j: nat, g: Guid, id: string, key: Key)
    requires Lawful(c) && IsRun(c, ss, acts) && j < |acts| && DrewKey(ss[j], acts[j], g, id, key)
    ensures KeyTurn(BookAt(c, ss, acts, j), BookAt(c, ss, acts, j + 1), g, id, acts[j].Start?)
  {
    hide KeyTurn;
    hide DrewKey;
    hide EntriesOk;
    hide BagOk;
    hide BookAt;
    hide Write;
    NextBook(c, ss, acts, j + 1);
    RunExplained(c, ss, acts, j);
    if acts[j].Start? {
      assert NodeOk(acts[j].at, ss[j].nodes[acts[j].at]);
      StartTurns(c, BookAt(c, ss, acts, j), ss[j], acts[j], g, id, key);
    } else {
      var book := BookAt(c, ss, acts, j);
      assert id in book ==> EntryOk(c, ss[j].nodes, id, book[id]) by {
        EntryAt(c, book, ss[j], id);
      }
      DeliveryTurns(c, BookAt(c, ss, acts, j), ss[j], acts[j], g, id, key);
    }
  }

  /** Turns of one end follow one another nowhere: frames only grow and ends stay. */
  lemma TurnsClash(b0: Book, b1: Book, b2: Book, b3: Book, g: Guid, id: string, first: bool, second: bool)
    requires KeyTurn(b0, b1, g, id, first) && FramesFor(b1, id) <= FramesFor(b2, id)
    requires HasEnds(b3, id, b1[id].a, b1[id].b)
    ensures !KeyTurn(b2, b3, g, id, second)
  {
  }

  lemma KeyTurnsOnce(c: Rsa, ss: seq<System>, acts: seq<Action>, j: nat, k: nat, g: Guid, id: string,
                     first: bool, second: bool)
    requires Lawful(c) && IsRun(c, ss, acts) && j < k < |acts|
    requires KeyTurn(BookAt(c, ss, acts, j), BookAt(c, ss, acts, j + 1), g, id, first)
    ensures !KeyTurn(BookAt(c, ss, acts, k), BookAt(c, ss, acts, k + 1), g, id, second)
  {
    hide BookAt;
    hide FramesFor;
    var e := BookAt(c, ss, acts, j + 1)[id];
    FramesGrow(c, ss, acts, j + 1, k, id);
    EndsKept(c, ss, acts, j + 1, k + 1, id, e.a, e.b);
    TurnsClash(BookAt(c, ss, acts, j), BookAt(c, ss, acts, j + 1), BookAt(c, ss, acts, k),
               BookAt(c, ss, acts, k + 1), g, id, first, second);
  }

  /** Each end of a session generates its key pair for it once. */
  lemma KeyDrawnOnce(c: Rsa, ss: seq<System>, acts: seq<Action>, j: nat, k: nat, g: Guid, id: string,
                     key: Key, key': Key)
    requires Lawful(c) && IsRun(c, ss, acts) && j < |acts| && k < |acts|
    requires DrewKey(ss[j], acts[j], g, id, key) && DrewKey(ss[k], acts[k], g, id, key')
    ensures j == k && key == key'
  {
    RunKeyPhase(c, ss, acts, j, g, id, key);
    RunKeyPhase(c, ss, acts, k, g, id, key');
    hide BookAt;
    hide KeyTurn;
    if j < k {
      KeyTurnsOnce(c, ss, acts, j, k, g, id, acts[j].Start?, acts[k].Start?);
    } else if k < j {
      KeyTurnsOnce(c, ss, acts, k, j, g, id, acts[k].Start?, acts[j].Start?);
    }
  }

  lemma KeyStored(c: Rsa, ss: seq<System>, acts: seq<Action>, k: nat, g: Guid, id: string)
    requires Lawful(c) && IsRun(c, ss, acts) && k < |ss|
    requires g in ss[k].nodes && id in ss[k].nodes[g].sessions
    ensures var s := ss[k].nodes[g].sessions[id];
            && s.keypair.Is? && s.local == Is(g) && s.id == Is(id)
            && (if s.origin == Is(g) then s.localPub else s.foreignPub) == Is(c.pub(s.keypair.value))
            && KeyOf(BookAt(c, ss, acts, k), id, g) == Some(s.keypair.value)
  {
    StoredExplained(c, ss, acts, k, g, id);
  }

  /** Every stored session has kept the very key pair this end generated for it: the origin's public
      key is the session's local one, the responder's its foreign one, across all replacements. */
  lemma KeyRetention(c: Rsa, ss: seq<System>, acts: seq<Action>, k: nat, g: Guid, id: string)
    requires Lawful(c) && IsRun(c, ss, acts) && k < |ss|
    requires g in ss[k].nodes && id in ss[k].nodes[g].sessions
    ensures var s := ss[k].nodes[g].sessions[id];
            && s.keypair.Is? && s.local == Is(g) && s.id == Is(id)
            && (if s.origin == Is(g) then s.localPub else s.foreignPub) == Is(c.pub(s.keypair.value))
            && KeyDrawnBefore(ss, acts, k, g, id, s.keypair.value)
  {
    KeyStored(c, ss, acts, k, g, id);
    KeyDrawn(c, ss, acts, k, g, id);
  }

  /** `last_session` is null or the very object stored under its id, connected or closed since. */
  lemma LastNeverDangles(c: Rsa, ss: seq<System>, acts: seq<Action>, k: nat, g: Guid)
    requires Lawful(c) && IsRun(c, ss, acts) && k < |ss| && g in ss[k].nodes
    ensures var n := ss[k].nodes[g];
            n.last == NoLast || (n.last.Stored? && n.last.id in n.sessions && Settled(n.sessions[n.last.id]))
  {
    RunExplained(c, ss, acts, k);
    assert NodeOk(g, ss[k].nodes[g]);
  }

  /** The ledger entry of a session its peer originated. */
  lemma OriginatedExplained(c: Rsa, ss: seq<System>, acts: seq<Action>, k: nat, g: Guid, id: string)
    requires Lawful(c) && IsRun(c, ss, acts) && k < |ss| && g in ss[k].nodes
    requires id in ss[k].nodes[g].sessions && ss[k].nodes[g].sessions[id].origin == Is(g)
    ensures var book := BookAt(c, ss, acts, k);
            id in book && book[id].a == g && ss[k].nodes[g].sessions[id].foreign == Is(book[id].b)
  {
    StoredExplained(c, ss, acts, k, g, id);
  }

  lemma RunOnePerPair(c: Rsa, ss: seq<System>, acts: seq<Action>, k: nat)
    requires Lawful(c) && IsRun(c, ss, acts) && k < |ss|
    ensures OnePerPair(BookAt(c, ss, acts, k))
  {
    RunExplained(c, ss, acts, k);
  }

  /** A peer never originates two sessions with the same foreign peer. */
  lemma OneSessionPerForeignPeer(c: Rsa, ss: seq<System>, acts: seq<Action>, k: nat, g: Guid, i: string, j: string)
    requires Lawful(c) && IsRun(c, ss, acts) && k < |ss| && g in ss[k].nodes
    requires var m := ss[k].nodes[g].sessions;
             i in m && j in m && m[i].origin == Is(g) && m[j].origin == Is(g) && m[i].foreign == m[j].foreign
    ensures i == j
  {
    OriginatedExplained(c, ss, acts, k, g, i);
    OriginatedExplained(c, ss, acts, k, g, j);
    RunOnePerPair(c, ss, acts, k);
    var book := BookAt(c, ss, acts, k);
    assert SameEnds(book[i], book[j]);
  }

  lemma EntryBetween(c: Rsa, nodes: map<Guid, Node>, id: string, e: Entry)
    requires EntryOk(c, nodes, id, e)
    ensures HasSessionBetween(nodes[e.a], e.a, e.b)
  {
    var s := nodes[e.a].sessions[id];
    assert s.local == Is(e.a) && s.foreign == Is(e.b);
  }

  /** Over a run, a start that goes ahead is the last of its peer for that foreign peer: later ones stop
      at the checks. */
  lemma OneStartPerForeignPeer(c: Rsa, ss: seq<System>, acts: seq<Action>, j: nat, k: nat)
    requires Lawful(c) && IsRun(c, ss, acts) && j < k < |acts| && acts[j].Start? && acts[k].Start?
    requires acts[j].at == acts[k].at && acts[j].foreign == acts[k].foreign && acts[j].at in ss[j].nodes
    requires WillStart(ss[j].nodes[acts[j].at], acts[j].foreign)
    ensures acts[k].at in ss[k].nodes && !WillStart(ss[k].nodes[acts[k].at], acts[k].foreign)
  {
    var a, b, id := acts[j].at, acts[j].foreign, acts[j].id;
    hide *;
    NextBook(c, ss, acts, j + 1);
    StartWritten(BookAt(c, ss, acts, j), ss[j], acts[j]);
    EndsKept(c, ss, acts, j + 1, k, id, a, b);
    StopsStarts(c, ss, acts, k, id, a, b);
  }

  lemma StartWritten(book: Book, sys: System, act: Action)
    requires Enabled(sys, act) && act.Start? && act.at in sys.nodes && WillStart(sys.nodes[act.at], act.foreign)
    ensures HasEnds(Write(book, sys, act), act.id, act.at, act.foreign)
  {
    hide WillStart;
  }

  /** Where a session is on the ledger, its origin starts no second one with the same peer. */
  lemma StopsStarts(c: Rsa, ss: seq<System>, acts: seq<Action>, k: nat, id: string, a: Guid, b: Guid)
    requires Lawful(c) && IsRun(c, ss, acts) && k < |ss| && HasEnds(BookAt(c, ss, acts, k), id, a, b)
    ensures a in ss[k].nodes && !WillStart(ss[k].nodes[a], b)
  {
    RunExplained(c, ss, acts, k);
    hide IsRun;
    hide Lawful;
    hide BookAt;
    var e := BookAt(c, ss, acts, k)[id];
    assert NodesOk(ss[k].nodes) && EntryOk(c, ss[k].nodes, id, e);
    assert NodeOk(a, ss[k].nodes[a]);
    EntryBetween(c, ss[k].nodes, id, e);
  }

  // ---- phases ----

  /** The only four ways a session can stand between its origin `a` and its responder `b`, with the
      frames of that session then in flight. */
  predicate Standing(sys: System, id: string, a: Guid, b: Guid)
    requires a in sys.nodes && b in sys.nodes && id in sys.nodes[a].sessions
  {
    var atA := sys.nodes[a].sessions[id].state;
    var atB := if id in sys.nodes[b].sessions then sys.nodes[b].sessions[id].state else Unset;
    || (atA == Is(PublicKeyExchange) && atB == Unset && Travels(sys.bag, id, a, b, PublicKeyExchange))
    || (atA == Is(PublicKeyExchange) && atB == Is(Handshaking) && Travels(sys.bag, id, b, a, Handshaking))
    || (atA in {Is(Connected), Is(Closing)} && atB == Is(Handshaking) && Travels(sys.bag, id, a, b, Connected))
    || (atA in {Is(Connected), Is(Closing)} && atB in {Is(Connected), Is(Closing)} && !Carries(sys.bag, id))
  }

  /** Frames of session `id` in flight all go from `from` to `to` announcing `state`, one at most. */
  predicate Travels(bag: seq<Packet>, id: string, from: Guid, to: Guid, state: State) {
    && (forall i | 0 <= i < |bag| && bag[i].wire.id == id ::
          bag[i].dest == to && bag[i].wire.local == from && bag[i].wire.state == Code(state))
    && (forall i, j | 0 <= i < j < |bag| && bag[i].wire.id == id :: bag[j].wire.id != id)
  }

  /** Every session known anywhere has one origin and one responder, stands in one of the four ways,
      and, when no frame has been lost, is either connected at both ends or has its frame in flight. */
  lemma PhaseInvariant(c: Rsa, ss: seq<System>, acts: seq<Action>, k: nat, g: Guid, id: string)
    returns (a: Guid, b: Guid)
    requires Lawful(c) && IsRun(c, ss, acts) && k < |ss|
    requires g in ss[k].nodes && id in ss[k].nodes[g].sessions
    ensures a != b && a in ss[k].nodes && b in ss[k].nodes && id in ss[k].nodes[a].sessions
    ensures forall h | h in ss[k].nodes && id in ss[k].nodes[h].sessions ::
              (h == a || h == b) && ss[k].nodes[h].sessions[id].origin == Is(a)
              && ss[k].nodes[h].sessions[id].foreign == Is(if h == a then b else a)
    ensures Standing(ss[k], id, a, b)
    ensures Lossless(acts) && !Carries(ss[k].bag, id) ==>
              id in ss[k].nodes[b].sessions
              && Settled(ss[k].nodes[a].sessions[id]) && Settled(ss[k].nodes[b].sessions[id])
  {
    hide IsRun;
    hide BookAt;
    hide Lawful;
    hide Standing;
    hide BagOk;
    hide NodesOk;
    hide OnePerPair;
    var book := BookAt(c, ss, acts, k);
    RunExplained(c, ss, acts, k);
    StoredExplained(c, ss, acts, k, g, id);
    a, b := book[id].a, book[id].b;
    forall h | h in ss[k].nodes && id in ss[k].nodes[h].sessions
      ensures (h == a || h == b) && ss[k].nodes[h].sessions[id].origin == Is(a)
      ensures ss[k].nodes[h].sessions[id].foreign == Is(if h == a then b else a)
    {
      StoredExplained(c, ss, acts, k, h, id);
    }
    PhaseStands(c, book, ss[k], id);
  }

  lemma PhaseStands(c: Rsa, book: Book, sys: System, id: string)
    requires Explains(c, book, sys) && id in book && EntryOk(c, sys.nodes, id, book[id])
    ensures Standing(sys, id, book[id].a, book[id].b)
  {
    var e := book[id];
    forall i | 0 <= i < |sys.bag| && sys.bag[i].wire.id == id
      ensures !e.phase.Open? && sys.bag[i] == InFlight(c, id, e)
    {
      assert PacketOk(c, sys.bag[i], book);
    }
    assert e.phase.Offered? ==> Travels(sys.bag, id, e.a, e.b, PublicKeyExchange);
    assert e.phase.Answered? ==> Travels(sys.bag, id, e.b, e.a, Handshaking);
    assert e.phase.Sealed? ==> Travels(sys.bag, id, e.a, e.b, Connected);
  }

  // ---- connected sessions are frozen, closed ones for good ----

  /** `s'` is `s` later on, for a settled `s`: the same, or closed since. */
  predicate Frozen(s: Sess, s': Sess) {
    s' == s || (s.state == Is(Connected) && s' == s.(state := Is(Closing)))
  }

  lemma DeliveryFreezes(c: Rsa, nodes: map<Guid, Node>, id0: string, e: Entry, d: Draw, g: Guid, id: string)
    requires EntryOk(c, nodes, id0, e) && !e.phase.Open?
    requires g in nodes && id in nodes[g].sessions && Settled(nodes[g].sessions[id])
    ensures var to := InFlight(c, id0, e).dest;
            var nodes' := nodes[to := NodeAfter(c, nodes[to], id0, Next(e, d))];
            id in nodes'[g].sessions && nodes'[g].sessions[id] == nodes[g].sessions[id]
  {
  }

  lemma StepFreezes(c: Rsa, book: Book, sys: System, act: Action, g: Guid, id: string)
    requires Lawful(c) && Explains(c, book, sys) && Enabled(sys, act) && Harmless(sys, act)
    requires g in sys.nodes && id in sys.nodes[g].sessions && Settled(sys.nodes[g].sessions[id])
    ensures Fire(c, sys, act).Fired?
    ensures var nodes' := Fire(c, sys, act).sys.nodes;
            g in nodes' && id in nodes'[g].sessions && Frozen(sys.nodes[g].sessions[id], nodes'[g].sessions[id])
  {
    match act {
      case Start(a, b, id0, d) =>
        if WillStart(sys.nodes[a], b) {
          StartSent(c, book, sys, a, b, id0, d);
        } else {
          StartRefused(c, sys, a, b, id0, d);
        }
      case Deliver(i, d) =>
        DeliverySent(c, book, sys, i, d);
        var id0 := sys.bag[i].wire.id;
        DeliveryFreezes(c, sys.nodes, id0, book[id0], d, g, id);
      case _ =>
    }
  }

  lemma RunFreezes(c: Rsa, ss: seq<System>, acts: seq<Action>, k: nat, g: Guid, id: string)
    requires Lawful(c) && IsRun(c, ss, acts) && k < |acts|
    requires g in ss[k].nodes && id in ss[k].nodes[g].sessions && Settled(ss[k].nodes[g].sessions[id])
    ensures g in ss[k + 1].nodes && id in ss[k + 1].nodes[g].sessions
    ensures Frozen(ss[k].nodes[g].sessions[id], ss[k + 1].nodes[g].sessions[id])
  {
    NextBook(c, ss, acts, k + 1);
    hide IsRun;
    hide BookAt;
    hide Explains;
    hide NothingLost;
    hide Fire;
    hide Enabled;
    hide Settled;
    hide Frozen;
    RunExplained(c, ss, acts, k);
    StepFreezes(c, BookAt(c, ss, acts, k), ss[k], acts[k], g, id);
  }

  lemma FrozenOn(s: Sess, s': Sess, s'': Sess)
    requires Frozen(s, s') && Frozen(s', s'')
    ensures Frozen(s, s'')
  {
  }

  lemma FrozenSettled(s: Sess, s': Sess)
    requires Settled(s) && Frozen(s, s')
    ensures Settled(s')
  {
  }

  /** A connected session keeps its secret, keys and peers for the rest of the run and can only be
      closed; a closed one never changes again. */
  lemma {:induction false} SettledForGood(c: Rsa, ss: seq<System>, acts: seq<Action>, j: nat, k: nat,
                                          g: Guid, id: string)
    requires Lawful(c) && IsRun(c, ss, acts) && j <= k < |ss|
    requires g in ss[j].nodes && id in ss[j].nodes[g].sessions && Settled(ss[j].nodes[g].sessions[id])
    ensures g in ss[k].nodes && id in ss[k].nodes[g].sessions
    ensures Frozen(ss[j].nodes[g].sessions[id], ss[k].nodes[g].sessions[id])
    decreases k
  {
    if j < k {
      assert |ss| == |acts| + 1;
      hide IsRun;
      hide Lawful;
      hide Settled;
      hide Frozen;
      SettledForGood(c, ss, acts, j, k - 1, g, id);
      FrozenSettled(ss[j].nodes[g].sessions[id], ss[k - 1].nodes[g].sessions[id]);
      RunFreezes(c, ss, acts, k - 1, g, id);
      FrozenOn(ss[j].nodes[g].sessions[id], ss[k - 1].nodes[g].sessions[id], ss[k].nodes[g].sessions[id]);
    }
  }

  /** CLOSING is absorbing. */
  lemma ClosingAbsorbs(c: Rsa, ss: seq<System>, acts: seq<Action>, j: nat, k: nat, g: Guid, id: string)
    requires Lawful(c) && IsRun(c, ss, acts) && j <= k < |ss|
    requires g in ss[j].nodes && id in ss[j].nodes[g].sessions && ss[j].nodes[g].sessions[id].state == Is(Closing)
    ensures g in ss[k].nodes && id in ss[k].nodes[g].sessions
    ensures ss[k].nodes[g].sessions[id] == ss[j].nodes[g].sessions[id]
  {
    SettledForGood(c, ss, acts, j, k, g, id);
  }

  /** After SIGINT, what was connected at its peer is CLOSING for the rest of the run, and otherwise as
      it was then. */
  lemma InterruptCloses(c: Rsa, ss: seq<System>, acts: seq<Action>, j: nat, k: nat, g: Guid, id: string)
    requires Lawful(c) && IsRun(c, ss, acts) && j < k < |ss| && j < |acts| && acts[j] == Interrupt(g)
    requires g in ss[j].nodes && id in ss[j].nodes[g].sessions && ss[j].nodes[g].sessions[id].state == Is(Connected)
    ensures g in ss[k].nodes && id in ss[k].nodes[g].sessions
    ensures ss[k].nodes[g].sessions[id] == ss[j].nodes[g].sessions[id].(state := Is(Closing))
  {
    NextBook(c, ss, acts, j + 1);
    hide IsRun;
    hide Lawful;
    hide BookAt;
    InterruptFires(c, ss[j], g);
    hide Fire;
    hide Enabled;
    ClosingAbsorbs(c, ss, acts, j + 1, k, g, id);
  }
}
