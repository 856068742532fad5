/** The two wire formats: how frames are printed, and what the key/value loops read from them. */
module Frames {
  import opened Cells
  import opened CText
  import opened Records

  // ---- the greedy key/value loop ----

  /** What the loop reads from a token list: the key/value pairs in order, and the key that the
      input ended on, if it did. */
  datatype Reading = Reading(pairs: seq<(string, string)>, stray: Option<string>)

  function Read(keys: set<string>, ts: seq<string>): Reading
    decreases |ts|
  {
    if ts == [] then Reading([], None)
    else if ts[0] !in keys then Read(keys, ts[1..])
    else if |ts| == 1 then Reading([], Some(ts[0]))
    else
      var rest := Read(keys, ts[2..]);
      Reading([(ts[0], ts[1])] + rest.pairs, rest.stray)
  }

  /** Token `i` is taken as a key: it spells a keyword and the token before it is not a key (a key
      makes its successor a value, whatever that successor spells). */
  predicate KeyAt(keys: set<string>, ts: seq<string>, i: nat)
    requires i < |ts|
  {
    ts[i] in keys && (i == 0 || !KeyAt(keys, ts, i - 1))
  }

  /** What a field takes its value from: pairs with one key, pairs that name the receiver `self` if
      it is a `known` peer, or pairs that name any other known peer. */
  datatype Wanted = Key(key: string) | OwnGuid(self: Guid, known: set<Guid>) | OtherGuid(self: Guid, known: set<Guid>)

  predicate Fits(w: Wanted, key: string, value: string) {
    match w
    case Key(k) => key == k
    case OwnGuid(self, known) => key in PEER_KEYS && value in known && value == self
    case OtherGuid(self, known) => key in PEER_KEYS && value in known && value != self
  }

  const PEER_KEYS: set<string> := {"LOCAL_PEER", "FORIEGN_PEER"}

  /** The value of the last pair that fits. */
  function LastOf(pairs: seq<(string, string)>, w: Wanted): Cell<string> {
    if pairs == [] then Unset
    else
      var rest := LastOf(pairs[1..], w);
      if rest.Is? then rest else if Fits(w, pairs[0].0, pairs[0].1) then Is(pairs[0].1) else Unset
  }

  lemma {:induction false} KeyAtSkip(keys: set<string>, ts: seq<string>, m: nat, i: nat)
    requires m <= i < |ts| && (m == 0 || !KeyAt(keys, ts, m - 1))
    ensures KeyAt(keys, ts[m..], i - m) == KeyAt(keys, ts, i)
    decreases i
  {
    if i > m {
      KeyAtSkip(keys, ts, m, i - 1);
    }
  }

  /** A key is left without a value exactly when the last token is taken as a key. */
  lemma {:induction false} StrayIsLastKey(keys: set<string>, ts: seq<string>)
    ensures Read(keys, ts).stray.Some? <==> ts != [] && KeyAt(keys, ts, |ts| - 1)
    ensures Read(keys, ts).stray.Some? ==> Read(keys, ts).stray.value == ts[|ts| - 1]
    decreases |ts|
  {
    if ts == [] || |ts| == 1 {
    } else if ts[0] !in keys {
      StrayIsLastKey(keys, ts[1..]);
      KeyAtSkip(keys, ts, 1, |ts| - 1);
    } else {
      StrayIsLastKey(keys, ts[2..]);
      assert KeyAt(keys, ts, 0) && !KeyAt(keys, ts, 1);
      if |ts| > 2 {
        KeyAtSkip(keys, ts, 2, |ts| - 1);
      }
    }
  }

  /** Token `i` is taken as a key, and it and the value after it fit. */
  predicate UsedAt(keys: set<string>, ts: seq<string>, w: Wanted, i: nat) {
    i + 1 < |ts| && KeyAt(keys, ts, i) && Fits(w, ts[i], ts[i + 1])
  }

  ghost predicate LastUse(keys: set<string>, ts: seq<string>, w: Wanted, i: nat, value: string) {
    UsedAt(keys, ts, w, i) && ts[i + 1] == value && forall j | i < j < |ts| :: !UsedAt(keys, ts, w, j)
  }

  /** `v` is the value at the last place where a key and its value fit. */
  ghost predicate LastValue(keys: set<string>, ts: seq<string>, w: Wanted, v: Cell<string>) {
    match v
    case Is(value) => exists i: nat :: LastUse(keys, ts, w, i, value)
    case Null => false
    case Unset => forall i: nat :: !UsedAt(keys, ts, w, i)
  }

  lemma UsedAtSkip(keys: set<string>, ts: seq<string>, m: nat, w: Wanted)
    requires 1 <= m <= |ts| && !KeyAt(keys, ts, m - 1)
    ensures forall i: nat | m <= i :: UsedAt(keys, ts, w, i) == UsedAt(keys, ts[m..], w, i - m)
  {
    forall i: nat | m <= i
      ensures UsedAt(keys, ts, w, i) == UsedAt(keys, ts[m..], w, i - m)
    {
      if i < |ts| {
        KeyAtSkip(keys, ts, m, i);
      }
    }
  }

  /** The last pair that fits is the one at the last place where a key and its value fit. */
  lemma {:induction false} LastOccurrenceWins(keys: set<string>, ts: seq<string>, w: Wanted)
    ensures LastValue(keys, ts, w, LastOf(Read(keys, ts).pairs, w))
    decreases |ts|
  {
    if |ts| <= 1 {
      assert Read(keys, ts).pairs == [];
    } else {
      var m := if ts[0] in keys then 2 else 1;
      var us := ts[m..];
      assert !KeyAt(keys, ts, m - 1);
      LastOccurrenceWins(keys, us, w);
      UsedAtSkip(keys, ts, m, w);
      var below := LastOf(Read(keys, us).pairs, w);
      if m == 2 {
        assert Read(keys, ts).pairs[1..] == Read(keys, us).pairs;
      }
      if below.Is? {
        var i: nat :| LastUse(keys, us, w, i, below.value);
        assert UsedAt(keys, ts, w, i + m);
        assert forall j | i + m < j < |ts| :: !UsedAt(keys, ts, w, j);
        assert LastUse(keys, ts, w, i + m, below.value);
      } else {
        assert forall i: nat | m <= i :: !UsedAt(keys, ts, w, i);
        if m == 2 && Fits(w, ts[0], ts[1]) {
          assert LastUse(keys, ts, w, 0, ts[1]);
        }
      }
    }
  }

  /** The key `k` is used somewhere, with a value. */
  ghost predicate Used(keys: set<string>, ts: seq<string>, k: string) {
    exists i: nat :: UsedAt(keys, ts, Key(k), i)
  }

  lemma ValueIffUsed(keys: set<string>, ts: seq<string>, k: string, v: Cell<string>)
    requires LastValue(keys, ts, Key(k), v)
    ensures Used(keys, ts, k) <==> v.Is?
    ensures Used(keys, ts, k) <==> v != Unset
  {
    if v.Is? {
      var i: nat :| LastUse(keys, ts, Key(k), i, v.value);
      assert UsedAt(keys, ts, Key(k), i);
    }
  }

  lemma OneLastValue(keys: set<string>, ts: seq<string>, w: Wanted, v: Cell<string>, v': Cell<string>)
    requires LastValue(keys, ts, w, v) && LastValue(keys, ts, w, v')
    ensures v == v'
  {
    if v.Is? && v'.Is? {
      var i: nat :| LastUse(keys, ts, w, i, v.value);
      var j: nat :| LastUse(keys, ts, w, j, v'.value);
      assert i == j;
    }
  }

  // ---- printing key/value frames ----

  function Paired(kvs: seq<(string, string)>): seq<string> {
    if kvs == [] then [] else [kvs[0].0, kvs[0].1] + Paired(kvs[1..])
  }

  /** Keys and values in alternation are read back pairwise, whatever the values spell. */
  lemma {:induction false} ReadPaired(keys: set<string>, kvs: seq<(string, string)>)
    requires forall i | 0 <= i < |kvs| :: kvs[i].0 in keys
    ensures Read(keys, Paired(kvs)) == Reading(kvs, None)
  {
    if kvs != [] {
      assert Paired(kvs)[2..] == Paired(kvs[1..]);
      ReadPaired(keys, kvs[1..]);
    }
  }

  /** `sprintf` with a "KEY:%s:KEY:%s:..." format. */
  function Frame(kvs: seq<(string, string)>): string {
    Joined(Paired(kvs))
  }

  predicate SafePairs(kvs: seq<(string, string)>) {
    forall i | 0 <= i < |kvs| :: WireSafe(kvs[i].0) && WireSafe(kvs[i].1)
  }

  lemma {:induction false} PairedSafe(kvs: seq<(string, string)>)
    requires SafePairs(kvs)
    ensures AllSafe(Paired(kvs))
  {
    if kvs != [] {
      PairedSafe(kvs[1..]);
    }
  }

  /** The key/value loop reads back exactly the pairs that were printed. */
  lemma ReadFrame(keys: set<string>, kvs: seq<(string, string)>)
    requires SafePairs(kvs) && forall i | 0 <= i < |kvs| :: kvs[i].0 in keys
    ensures Read(keys, Tokens(Frame(kvs))) == Reading(kvs, None)
    ensures NulFree(Frame(kvs)) && (kvs != [] ==> Frame(kvs) != [])
  {
    PairedSafe(kvs);
    TokensOfJoined(Paired(kvs));
    JoinedNulFree(Paired(kvs));
    ReadPaired(keys, kvs);
  }

  lemma FrameOne(kv: (string, string))
    ensures Frame([kv]) == kv.0 + ":" + kv.1 + ":"
  {
    FrameCons([kv]);
    assert [kv][1..] == [];
  }

  lemma {:induction false} FrameSnoc(kvs: seq<(string, string)>, kv: (string, string))
    ensures Frame(kvs + [kv]) == Frame(kvs) + kv.0 + ":" + kv.1 + ":"
  {
    if kvs == [] {
      FrameOne(kv);
      assert kvs + [kv] == [kv];
    } else {
      assert (kvs + [kv])[1..] == kvs[1..] + [kv];
      FrameSnoc(kvs[1..], kv);
      FrameCons(kvs + [kv]);
      FrameCons(kvs);
    }
  }

  lemma FrameCons(kvs: seq<(string, string)>)
    requires kvs != []
    ensures Frame(kvs) == kvs[0].0 + ":" + kvs[0].1 + ":" + Frame(kvs[1..])
  {
    var ts := Paired(kvs);
    assert ts[1..][1..] == Paired(kvs[1..]);
    assert Joined(ts) == ts[0] + ":" + (ts[1] + ":" + Joined(ts[1..][1..]));
  }

  lemma FrameGrows(kvs: seq<(string, string)>, k: nat)
    requires k < |kvs|
    ensures Frame(kvs[..k + 1]) == Frame(kvs[..k]) + kvs[k].0 + ":" + kvs[k].1 + ":"
  {
    FrameSnoc(kvs[..k], kvs[k]);
    assert kvs[..k + 1] == kvs[..k] + [kvs[k]];
  }

  /** Length of the keys and delimiters of a frame, and of its values. */
  function PairsLength(kvs: seq<(string, string)>): nat {
    if kvs == [] then 0 else |kvs[0].0| + |kvs[0].1| + 2 + PairsLength(kvs[1..])
  }

  lemma {:induction false} FrameLength(kvs: seq<(string, string)>)
    ensures |Frame(kvs)| == PairsLength(kvs)
  {
    if kvs != [] {
      var ts := Paired(kvs);
      assert ts[1..][1..] == Paired(kvs[1..]);
      FrameLength(kvs[1..]);
      assert |Joined(ts)| == |ts[0]| + 1 + (|ts[1]| + 1 + |Joined(ts[1..][1..])|);
    }
  }

  // ---- pulse frames ----

  const PULSE_KEYS: set<string> := {"GUID", "COMMAND", "TPORT", "SECUREPORT", "PEERAGE"}

  /** "GUID:%s:COMMAND:%s:TPORT:%s:SECUREPORT:%s:PEERAGE:%s:" */
  function PulsePairs(guid: string, command: string, port: string, securePort: string, peerage: string)
    : seq<(string, string)>
  {
    [("GUID", guid), ("COMMAND", command), ("TPORT", port), ("SECUREPORT", securePort), ("PEERAGE", peerage)]
  }

  /** The text of a pulse frame. */
  lemma PulseFrameText(guid: string, command: string, port: string, securePort: string, peerage: string)
    ensures Frame(PulsePairs(guid, command, port, securePort, peerage)) ==
            "GUID" + ":" + guid + ":" + "COMMAND" + ":" + command + ":" + "TPORT" + ":" + port + ":"
            + "SECUREPORT" + ":" + securePort + ":" + "PEERAGE" + ":" + peerage + ":"
  {
    var kvs := PulsePairs(guid, command, port, securePort, peerage);
    FrameOne(kvs[0]);
    assert kvs[..1] == [kvs[0]];
    FrameGrows(kvs, 1);
    FrameGrows(kvs, 2);
    FrameGrows(kvs, 3);
    FrameGrows(kvs, 4);
    assert kvs[..5] == kvs;
    hide Frame;
  }

  function AssignPulse(p: Pulse, kv: (string, string)): Pulse {
    if kv.0 == "GUID" then p.(guid := Is(kv.1))
    else if kv.0 == "COMMAND" then p.(command := Is(kv.1))
    else if kv.0 == "TPORT" then p.(port := Is(kv.1))
    else if kv.0 == "SECUREPORT" then p.(securePort := Is(kv.1))
    else if kv.0 == "PEERAGE" then p.(peerstring := Is(kv.1))
    else p
  }

  function AssignPulses(p: Pulse, kvs: seq<(string, string)>): Pulse
    decreases |kvs|
  {
    if kvs == [] then p else AssignPulses(AssignPulse(p, kvs[0]), kvs[1..])
  }

  /** On a message that ends on the key `k`, `deserialize_data` frees fields of the record. They are
      uninitialised unless their keys have been used before. */
  predicate CanFree(p: Pulse, k: string) {
    k == "GUID" || (p.guid != Unset && (k == "COMMAND" || (p.command != Unset && (k == "TPORT" || p.port != Unset))))
  }

  /** `PulseFault` is the undefined `free` of an uninitialised field. */
  datatype PulseParse = PulseOkay(pulse: Pulse) | PulseMalformed | PulseUnknown | PulseFault

  /** The result of `deserialize_data` on a message that reads `s`. */
  function ParsePulse(s: string): PulseParse {
    if s == [] then PulseMalformed
    else
      var ts := Tokens(s);
      if ts == [] then PulseUnknown
      else
        var r := Read(PULSE_KEYS, ts);
        var p := AssignPulses(NO_PULSE, r.pairs);
        match r.stray
        case None => PulseOkay(p)
        case Some(k) => if CanFree(p, k) then PulseMalformed else PulseFault
  }

  function Over(before: Cell<string>, update: Cell<string>): Cell<string> {
    if update.Is? then update else before
  }

  lemma {:induction false} AssignedPulses(p: Pulse, kvs: seq<(string, string)>)
    ensures AssignPulses(p, kvs) == Pulse(
              Over(p.guid, LastOf(kvs, Key("GUID"))), Over(p.command, LastOf(kvs, Key("COMMAND"))),
              Over(p.port, LastOf(kvs, Key("TPORT"))), Over(p.securePort, LastOf(kvs, Key("SECUREPORT"))),
              Over(p.peerstring, LastOf(kvs, Key("PEERAGE"))))
    decreases |kvs|
  {
    if kvs != [] {
      AssignedPulses(AssignPulse(p, kvs[0]), kvs[1..]);
    }
  }

  /** All that may have to be freed when the tokens end on the key `k` has been set. */
  ghost predicate PulseFreeable(ts: seq<string>, k: string) {
    k == "GUID" || (Used(PULSE_KEYS, ts, "GUID") &&
      (k == "COMMAND" || (Used(PULSE_KEYS, ts, "COMMAND") && (k == "TPORT" || Used(PULSE_KEYS, ts, "TPORT")))))
  }

  /** Every field of `p` is what follows the last use of its keyword as a key. */
  ghost predicate PulseRead(ts: seq<string>, p: Pulse) {
    && LastValue(PULSE_KEYS, ts, Key("GUID"), p.guid)
    && LastValue(PULSE_KEYS, ts, Key("COMMAND"), p.command)
    && LastValue(PULSE_KEYS, ts, Key("TPORT"), p.port)
    && LastValue(PULSE_KEYS, ts, Key("SECUREPORT"), p.securePort)
    && LastValue(PULSE_KEYS, ts, Key("PEERAGE"), p.peerstring)
  }

  lemma PulsesRead(ts: seq<string>)
    ensures PulseRead(ts, AssignPulses(NO_PULSE, Read(PULSE_KEYS, ts).pairs))
  {
    AssignedPulses(NO_PULSE, Read(PULSE_KEYS, ts).pairs);
    hide LastValue;
    LastOccurrenceWins(PULSE_KEYS, ts, Key("GUID"));
    LastOccurrenceWins(PULSE_KEYS, ts, Key("COMMAND"));
    LastOccurrenceWins(PULSE_KEYS, ts, Key("TPORT"));
    LastOccurrenceWins(PULSE_KEYS, ts, Key("SECUREPORT"));
    LastOccurrenceWins(PULSE_KEYS, ts, Key("PEERAGE"));
  }

  lemma PulseFieldsUsed(ts: seq<string>, p: Pulse)
    requires PulseRead(ts, p)
    ensures p.guid.Is? == (p.guid != Unset) == Used(PULSE_KEYS, ts, "GUID")
    ensures p.command.Is? == (p.command != Unset) == Used(PULSE_KEYS, ts, "COMMAND")
    ensures p.port.Is? == (p.port != Unset) == Used(PULSE_KEYS, ts, "TPORT")
    ensures p.securePort.Is? == (p.securePort != Unset) == Used(PULSE_KEYS, ts, "SECUREPORT")
    ensures p.peerstring.Is? == (p.peerstring != Unset) == Used(PULSE_KEYS, ts, "PEERAGE")
  {
    hide LastValue;
    hide Used;
    ValueIffUsed(PULSE_KEYS, ts, "GUID", p.guid);
    ValueIffUsed(PULSE_KEYS, ts, "COMMAND", p.command);
    ValueIffUsed(PULSE_KEYS, ts, "TPORT", p.port);
    ValueIffUsed(PULSE_KEYS, ts, "SECUREPORT", p.securePort);
    ValueIffUsed(PULSE_KEYS, ts, "PEERAGE", p.peerstring);
  }

  /** Every field `deserialize_data` fills is what follows the last use of its keyword as a key. The
      message is refused exactly when it ends on a key, and then refused properly exactly when the
      fields to be freed have been set. */
  lemma PulseParseMeaning(s: string)
    requires Tokens(s) != []
    ensures var ts := Tokens(s);
            var last := ts[|ts| - 1];
            match ParsePulse(s)
            case PulseOkay(p) => !KeyAt(PULSE_KEYS, ts, |ts| - 1) && PulseRead(ts, p)
            case PulseMalformed => KeyAt(PULSE_KEYS, ts, |ts| - 1) && PulseFreeable(ts, last)
            case PulseFault => KeyAt(PULSE_KEYS, ts, |ts| - 1) && !PulseFreeable(ts, last)
            case PulseUnknown => false
  {
    var ts := Tokens(s);
    var p := AssignPulses(NO_PULSE, Read(PULSE_KEYS, ts).pairs);
    StrayIsLastKey(PULSE_KEYS, ts);
    PulsesRead(ts);
    PulseFieldsUsed(ts, p);
    hide Read;
    hide AssignPulses;
    hide KeyAt;
    hide PulseRead;
    hide Used;
  }

  /** A pulse without a guid is parsed as any other: nothing tells that the field is not set. */
  lemma PulseWithoutGuid()
    ensures ParsePulse("COMMAND:PULSE:") == PulseOkay(NO_PULSE.(command := Is("PULSE")))
  {
    var kvs := [("COMMAND", "PULSE")];
    assert Frame(kvs) == "COMMAND:PULSE:" by {
      assert kvs[1..] == [];
      assert Paired(kvs)[1..][1..] == [];
    }
    ReadFrame(PULSE_KEYS, kvs);
    assert AssignPulses(NO_PULSE, kvs) == NO_PULSE.(command := Is("PULSE")) by {
      assert kvs[1..] == [];
    }
  }

  /** A message that ends on COMMAND before any guid makes the parser free an uninitialised pointer. */
  lemma CommandWithoutValue()
    ensures ParsePulse("COMMAND:") == PulseFault
  {
    assert WireSafe("COMMAND");
    OneToken("COMMAND");
    assert "COMMAND" + ":" == "COMMAND:";
    hide WireSafe;
    hide Tokens;
    assert Read(PULSE_KEYS, ["COMMAND"]) == Reading([], Some("COMMAND"));
  }

  /** What `serialize_data` prints, `deserialize_data` reads back, even values that spell keywords. */
  lemma PulseRoundTrip(guid: string, command: string, port: string, securePort: string, peerage: string)
    requires WireSafe(guid) && WireSafe(command) && WireSafe(port) && WireSafe(securePort) && WireSafe(peerage)
    ensures ParsePulse(Frame(PulsePairs(guid, command, port, securePort, peerage))) ==
            PulseOkay(Pulse(Is(guid), Is(command), Is(port), Is(securePort), Is(peerage)))
  {
    var kvs := PulsePairs(guid, command, port, securePort, peerage);
    ReadFrame(PULSE_KEYS, kvs);
    assert Tokens(Frame(kvs)) != [];
    AssignedPulses(NO_PULSE, kvs);
    PulseLookups(guid, command, port, securePort, peerage);
  }

  lemma LastOfCons(kv: (string, string), rest: seq<(string, string)>, k: string)
    ensures LastOf([kv] + rest, Key(k)) ==
            if LastOf(rest, Key(k)).Is? then LastOf(rest, Key(k)) else if kv.0 == k then Is(kv.1) else Unset
  {
    assert ([kv] + rest)[1..] == rest;
  }

  lemma PulseLookups(guid: string, command: string, port: string, securePort: string, peerage: string)
    ensures var kvs := PulsePairs(guid, command, port, securePort, peerage);
            && LastOf(kvs, Key("GUID")) == Is(guid) && LastOf(kvs, Key("COMMAND")) == Is(command)
            && LastOf(kvs, Key("TPORT")) == Is(port) && LastOf(kvs, Key("SECUREPORT")) == Is(securePort)
            && LastOf(kvs, Key("PEERAGE")) == Is(peerage)
  {
    var kvs := PulsePairs(guid, command, port, securePort, peerage);
    forall k ensures LastOf(kvs, Key(k)) ==
              if k == "PEERAGE" then Is(peerage) else if k == "SECUREPORT" then Is(securePort)
              else if k == "TPORT" then Is(port) else if k == "COMMAND" then Is(command)
              else if k == "GUID" then Is(guid) else Unset
    {
      LastOfCons(kvs[4], [], k);
      assert kvs[4..] == [kvs[4]] + [];
      LastOfCons(kvs[3], kvs[4..], k);
      assert kvs[3..] == [kvs[3]] + kvs[4..];
      LastOfCons(kvs[2], kvs[3..], k);
      assert kvs[2..] == [kvs[2]] + kvs[3..];
      LastOfCons(kvs[1], kvs[2..], k);
      assert kvs[1..] == [kvs[1]] + kvs[2..];
      LastOfCons(kvs[0], kvs[1..], k);
      assert kvs == [kvs[0]] + kvs[1..];
    }
  }

  lemma PairsLengthCons(kv: (string, string), rest: seq<(string, string)>)
    ensures PairsLength([kv] + rest) == |kv.0| + |kv.1| + 2 + PairsLength(rest)
  {
    assert ([kv] + rest)[1..] == rest;
  }

  /** A pulse frame is 43 characters and its five values. */
  lemma PulseFrameLength(guid: string, command: string, port: string, securePort: string, peerage: string)
    ensures |Frame(PulsePairs(guid, command, port, securePort, peerage))| ==
            43 + |guid| + |command| + |port| + |securePort| + |peerage|
  {
    var kvs := PulsePairs(guid, command, port, securePort, peerage);
    FrameLength(kvs);
    PairsLengthCons(kvs[4], []);
    assert kvs[4..] == [kvs[4]] + [];
    PairsLengthCons(kvs[3], kvs[4..]);
    assert kvs[3..] == [kvs[3]] + kvs[4..];
    PairsLengthCons(kvs[2], kvs[3..]);
    assert kvs[2..] == [kvs[2]] + kvs[3..];
    PairsLengthCons(kvs[1], kvs[2..]);
    assert kvs[1..] == [kvs[1]] + kvs[2..];
    PairsLengthCons(kvs[0], kvs[1..]);
    assert kvs == [kvs[0]] + kvs[1..];
  }

  // ---- session frames ----

  const SESSION_KEYS: set<string> := {
    "LOCAL_PEER", "FORIEGN_PEER", "SHARED_SECRET", "CURRENT_STATE", "SESSION_ID",
    "SESSION_ORIGIN_GUID", "LOCAL_PUBLIC_KEY", "FORIEGN_PUBLIC_KEY", "SHARED_SECRET_LEN"}

  /** "LOCAL_PEER:%s:FORIEGN_PEER:%s:SHARED_SECRET:%s:CURRENT_STATE:%d:SESSION_ID:%s:
      SESSION_ORIGIN_GUID:%s:LOCAL_PUBLIC_KEY:%s:FORIEGN_PUBLIC_KEY:%s:SHARED_SECRET_LEN:%d:" */
  function SessionPairs(w: Wire): seq<(string, string)> {
    [("LOCAL_PEER", w.local), ("FORIEGN_PEER", w.foreign), ("SHARED_SECRET", w.secret),
     ("CURRENT_STATE", PrintInt(w.state)), ("SESSION_ID", w.id), ("SESSION_ORIGIN_GUID", w.origin),
     ("LOCAL_PUBLIC_KEY", w.localPub), ("FORIEGN_PUBLIC_KEY", w.foreignPub),
     ("SHARED_SECRET_LEN", PrintInt(w.secretLen))]
  }

  function SessionFrame(w: Wire): string {
    Frame(SessionPairs(w))
  }

  /** The text of a session frame. */
  lemma SessionFrameText(w: Wire)
    ensures SessionFrame(w) ==
            "LOCAL_PEER" + ":" + w.local + ":" + "FORIEGN_PEER" + ":" + w.foreign + ":"
            + "SHARED_SECRET" + ":" + w.secret + ":" + "CURRENT_STATE" + ":" + PrintInt(w.state) + ":"
            + "SESSION_ID" + ":" + w.id + ":" + "SESSION_ORIGIN_GUID" + ":" + w.origin + ":"
            + "LOCAL_PUBLIC_KEY" + ":" + w.localPub + ":" + "FORIEGN_PUBLIC_KEY" + ":" + w.foreignPub + ":"
            + "SHARED_SECRET_LEN" + ":" + PrintInt(w.secretLen) + ":"
  {
    var kvs := SessionPairs(w);
    FrameOne(kvs[0]);
    assert kvs[..1] == [kvs[0]];
    FrameGrows(kvs, 1);
    FrameGrows(kvs, 2);
    FrameGrows(kvs, 3);
    FrameGrows(kvs, 4);
    FrameGrows(kvs, 5);
    FrameGrows(kvs, 6);
    FrameGrows(kvs, 7);
    FrameGrows(kvs, 8);
    assert kvs[..9] == kvs;
    hide Frame;
    hide PrintInt;
  }

  /** The states as they stand in a frame, and what they are read as. */
  lemma StateTexts()
    ensures PrintInt(Code(Closing)) == "0" && PrintInt(Code(Dormant)) == "1" && PrintInt(Code(Error)) == "2"
    ensures PrintInt(Code(PreHandshake)) == "3" && PrintInt(Code(PublicKeyExchange)) == "4"
    ensures PrintInt(Code(Handshaking)) == "5" && PrintInt(Code(Connected)) == "6"
    ensures forall n :: Code(StateOf(Atoi(PrintInt(n)))) == n
  {
    assert Digit(0) == '0' && Digit(1) == '1' && Digit(2) == '2' && Digit(3) == '3' && Digit(4) == '4';
    assert Digit(5) == '5' && Digit(6) == '6';
    forall n
      ensures Code(StateOf(Atoi(PrintInt(n)))) == n
    {
      AtoiOfPrintInt(n);
    }
  }

  /** A peer named on the wire, filed as the local peer if it is the receiver and as the foreign
      peer otherwise; not filed at all if the receiver's peerstore lacks it. */
  function Placed(self: Guid, known: set<Guid>, s: Sess, guid: Guid): Sess {
    if guid !in known then s
    else if guid == self then s.(local := Is(guid))
    else s.(foreign := Is(guid))
  }

  function AssignSession(self: Guid, known: set<Guid>, s: Sess, kv: (string, string)): Sess {
    if kv.0 == "LOCAL_PEER" then Placed(self, known, s, kv.1)
    else if kv.0 == "FORIEGN_PEER" then Placed(self, known, s, kv.1)
    else if kv.0 == "SHARED_SECRET" then s.(secret := Is(kv.1))
    else if kv.0 == "CURRENT_STATE" then s.(state := Is(StateOf(Atoi(kv.1))))
    else if kv.0 == "SESSION_ID" then s.(id := Is(kv.1))
    else if kv.0 == "SESSION_ORIGIN_GUID" then s.(origin := Is(kv.1))
    else if kv.0 == "LOCAL_PUBLIC_KEY" then s.(localPub := Is(kv.1))
    else if kv.0 == "FORIEGN_PUBLIC_KEY" then s.(foreignPub := Is(kv.1))
    else if kv.0 == "SHARED_SECRET_LEN" then s.(secretLen := Is(AsSize(Atoi(kv.1))))
    else s
  }

  function AssignSessions(self: Guid, known: set<Guid>, s: Sess, kvs: seq<(string, string)>): Sess
    decreases |kvs|
  {
    if kvs == [] then s else AssignSessions(self, known, AssignSession(self, known, s, kvs[0]), kvs[1..])
  }

  /** On a frame that ends on the key `k`, all `deserialize_session_data` frees has been set and nothing
      is read once it is freed. With a public key or the length, it reads a field of the session it has
      just freed; with the state, it hands NULL to `atoi`. */
  predicate CanRefuse(s: Sess, k: string) {
    || k in {"LOCAL_PEER", "FORIEGN_PEER", "SHARED_SECRET"}
    || (k == "SESSION_ID" && s.secret != Unset)
    || (k == "SESSION_ORIGIN_GUID" && s.secret != Unset && s.id != Unset)
  }

  /** `SessFault` is undefined behaviour on a frame that ends on a key. */
  datatype SessParse = SessOkay(s: Sess) | SessMalformed | SessFault

  /** The result of `deserialize_session_data` at the peer `self` on a message that reads `text`. */
  function ParseSession(self: Guid, known: set<Guid>, text: string): SessParse {
    if text == [] then SessMalformed
    else
      var r := Read(SESSION_KEYS, Tokens(text));
      var s := AssignSessions(self, known, BLANK, r.pairs);
      match r.stray
      case None => SessOkay(s)
      case Some(k) => if CanRefuse(s, k) then SessMalformed else SessFault
  }

  function Numbered(before: Cell<nat>, update: Cell<string>): Cell<nat> {
    if update.Is? then Is(AsSize(Atoi(update.value))) else before
  }

  function Stated(before: Cell<State>, update: Cell<string>): Cell<State> {
    if update.Is? then Is(StateOf(Atoi(update.value))) else before
  }

  lemma {:induction false} AssignedTexts(self: Guid, known: set<Guid>, s: Sess, kvs: seq<(string, string)>)
    ensures var r := AssignSessions(self, known, s, kvs);
            && r.secret == Over(s.secret, LastOf(kvs, Key("SHARED_SECRET")))
            && r.id == Over(s.id, LastOf(kvs, Key("SESSION_ID")))
            && r.origin == Over(s.origin, LastOf(kvs, Key("SESSION_ORIGIN_GUID")))
    decreases |kvs|
  {
    hide Atoi;
    if kvs != [] {
      AssignedTexts(self, known, AssignSession(self, known, s, kvs[0]), kvs[1..]);
    }
  }

  lemma {:induction false} AssignedKeys(self: Guid, known: set<Guid>, s: Sess, kvs: seq<(string, string)>)
    ensures var r := AssignSessions(self, known, s, kvs);
            && r.localPub == Over(s.localPub, LastOf(kvs, Key("LOCAL_PUBLIC_KEY")))
            && r.foreignPub == Over(s.foreignPub, LastOf(kvs, Key("FORIEGN_PUBLIC_KEY")))
            && r.keypair == s.keypair
    decreases |kvs|
  {
    hide Atoi;
    if kvs != [] {
      AssignedKeys(self, known, AssignSession(self, known, s, kvs[0]), kvs[1..]);
    }
  }

  lemma {:induction false} AssignedNumbers(self: Guid, known: set<Guid>, s: Sess, kvs: seq<(string, string)>)
    ensures var r := AssignSessions(self, known, s, kvs);
            && r.state == Stated(s.state, LastOf(kvs, Key("CURRENT_STATE")))
            && r.secretLen == Numbered(s.secretLen, LastOf(kvs, Key("SHARED_SECRET_LEN")))
    decreases |kvs|
  {
    hide Atoi;
    if kvs != [] {
      AssignedNumbers(self, known, AssignSession(self, known, s, kvs[0]), kvs[1..]);
    }
  }

  /** The peer pointers: the last known guid that is the receiver's own makes the local peer, the last
      known other one the foreign peer, whichever of the two keys it comes with. */
  lemma {:induction false} AssignedPeers(self: Guid, known: set<Guid>, s: Sess, kvs: seq<(string, string)>)
    ensures var r := AssignSessions(self, known, s, kvs);
            && r.local == Over(s.local, LastOf(kvs, OwnGuid(self, known)))
            && r.foreign == Over(s.foreign, LastOf(kvs, OtherGuid(self, known)))
    decreases |kvs|
  {
    hide Atoi;
    if kvs != [] {
      AssignedPeers(self, known, AssignSession(self, known, s, kvs[0]), kvs[1..]);
    }
  }

  /** `v` is what the last CURRENT_STATE and SHARED_SECRET_LEN of the tokens say. */
  ghost predicate LastState(ts: seq<string>, v: Cell<State>) {
    exists text :: LastValue(SESSION_KEYS, ts, Key("CURRENT_STATE"), text) && v == Stated(Unset, text)
  }

  ghost predicate LastLength(ts: seq<string>, v: Cell<nat>) {
    exists text :: LastValue(SESSION_KEYS, ts, Key("SHARED_SECRET_LEN"), text) && v == Numbered(Unset, text)
  }

  /** A frame that ends on the key `k` after these tokens is refused without undefined behaviour. */
  ghost predicate Refusable(ts: seq<string>, k: string) {
    || k in {"LOCAL_PEER", "FORIEGN_PEER", "SHARED_SECRET"}
    || (k == "SESSION_ID" && Used(SESSION_KEYS, ts, "SHARED_SECRET"))
    || (k == "SESSION_ORIGIN_GUID" && Used(SESSION_KEYS, ts, "SHARED_SECRET") && Used(SESSION_KEYS, ts, "SESSION_ID"))
  }

  /** Every field of `s` is what the last use of its keyword as a key, or of a guid that fits, says. */
  ghost predicate SessRead(self: Guid, known: set<Guid>, ts: seq<string>, s: Sess) {
    && LastValue(SESSION_KEYS, ts, Key("SHARED_SECRET"), s.secret)
    && LastValue(SESSION_KEYS, ts, Key("SESSION_ID"), s.id)
    && LastValue(SESSION_KEYS, ts, Key("SESSION_ORIGIN_GUID"), s.origin)
    && LastValue(SESSION_KEYS, ts, Key("LOCAL_PUBLIC_KEY"), s.localPub)
    && LastValue(SESSION_KEYS, ts, Key("FORIEGN_PUBLIC_KEY"), s.foreignPub)
    && LastState(ts, s.state) && LastLength(ts, s.secretLen)
    && LastValue(SESSION_KEYS, ts, OwnGuid(self, known), s.local)
    && LastValue(SESSION_KEYS, ts, OtherGuid(self, known), s.foreign)
    && s.keypair == Unset
  }

  lemma SessionsRead(self: Guid, known: set<Guid>, ts: seq<string>)
    ensures SessRead(self, known, ts, AssignSessions(self, known, BLANK, Read(SESSION_KEYS, ts).pairs))
  {
    var kvs := Read(SESSION_KEYS, ts).pairs;
    AssignedTexts(self, known, BLANK, kvs);
    AssignedKeys(self, known, BLANK, kvs);
    AssignedNumbers(self, known, BLANK, kvs);
    AssignedPeers(self, known, BLANK, kvs);
    hide AssignSessions;
    hide LastValue;
    hide Atoi;
    LastOccurrenceWins(SESSION_KEYS, ts, Key("SHARED_SECRET"));
    LastOccurrenceWins(SESSION_KEYS, ts, Key("SESSION_ID"));
    LastOccurrenceWins(SESSION_KEYS, ts, Key("SESSION_ORIGIN_GUID"));
    LastOccurrenceWins(SESSION_KEYS, ts, Key("LOCAL_PUBLIC_KEY"));
    LastOccurrenceWins(SESSION_KEYS, ts, Key("FORIEGN_PUBLIC_KEY"));
    LastOccurrenceWins(SESSION_KEYS, ts, Key("CURRENT_STATE"));
    LastOccurrenceWins(SESSION_KEYS, ts, Key("SHARED_SECRET_LEN"));
    LastOccurrenceWins(SESSION_KEYS, ts, OwnGuid(self, known));
    LastOccurrenceWins(SESSION_KEYS, ts, OtherGuid(self, known));
  }

  /** What `deserialize_session_data` makes of any tokens at all. */
  lemma SessionParseMeaning(self: Guid, known: set<Guid>, text: string)
    requires text != []
    ensures var ts := Tokens(text);
            match ParseSession(self, known, text)
            case SessOkay(s) =>
              (ts != [] ==> !KeyAt(SESSION_KEYS, ts, |ts| - 1)) && SessRead(self, known, ts, s)
            case SessMalformed =>
              ts != [] && KeyAt(SESSION_KEYS, ts, |ts| - 1) && Refusable(ts, ts[|ts| - 1])
            case SessFault =>
              ts != [] && KeyAt(SESSION_KEYS, ts, |ts| - 1) && !Refusable(ts, ts[|ts| - 1])
  {
    var ts := Tokens(text);
    var s := AssignSessions(self, known, BLANK, Read(SESSION_KEYS, ts).pairs);
    StrayIsLastKey(SESSION_KEYS, ts);
    SessionsRead(self, known, ts);
    ValueIffUsed(SESSION_KEYS, ts, "SHARED_SECRET", s.secret);
    ValueIffUsed(SESSION_KEYS, ts, "SESSION_ID", s.id);
    hide AssignSessions;
    hide Read;
    hide KeyAt;
    hide LastValue;
    hide SessRead;
    hide Used;
  }

  /** A frame that is nothing but a key is refused properly for three of the nine keys. For the others
      the parser frees an uninitialised field, reads a freed one or hands NULL to `atoi`. */
  lemma KeyWithoutValue(self: Guid, known: set<Guid>, key: string)
    requires key in SESSION_KEYS
    ensures ParseSession(self, known, key + ":") ==
            if key in {"LOCAL_PEER", "FORIEGN_PEER", "SHARED_SECRET"} then SessMalformed else SessFault
  {
    SessionKeysSafe();
    OneToken(key);
    assert Read(SESSION_KEYS, [key]) == Reading([], Some(key));
    hide WireSafe;
    hide Tokens;
    hide Read;
  }

  /** With CURRENT_STATE it is the last. */
  lemma StateWithoutValue(self: Guid, known: set<Guid>)
    ensures ParseSession(self, known, "CURRENT_STATE:") == SessFault
  {
    KeyWithoutValue(self, known, "CURRENT_STATE");
    assert "CURRENT_STATE" + ":" == "CURRENT_STATE:";
    hide ParseSession;
  }

  lemma OneToken(t: string)
    requires WireSafe(t)
    ensures Tokens(t + ":") == [t]
  {
    assert [t][1..] == [];
    TokensOfJoined([t]);
    assert t + ":" == t + ":" + [];
  }

  /** A frame's contents as the receiver files them: peers re-oriented, all else as sent. */
  function Orient(self: Guid, known: set<Guid>, w: Wire): Sess {
    Placed(self, known, Placed(self, known, BLANK, w.local), w.foreign).(
      secret := Is(w.secret), state := Is(StateOf(w.state)), id := Is(w.id), origin := Is(w.origin),
      localPub := Is(w.localPub), foreignPub := Is(w.foreignPub), secretLen := Is(AsSize(w.secretLen)))
  }

  predicate SafeWire(w: Wire) {
    && WireSafe(w.local) && WireSafe(w.foreign) && WireSafe(w.secret) && WireSafe(w.id)
    && WireSafe(w.origin) && WireSafe(w.localPub) && WireSafe(w.foreignPub)
  }

  lemma AssignCons(self: Guid, known: set<Guid>, s: Sess, kv: (string, string), rest: seq<(string, string)>)
    ensures AssignSessions(self, known, s, [kv] + rest) ==
            AssignSessions(self, known, AssignSession(self, known, s, kv), rest)
  {
    assert ([kv] + rest)[1..] == rest;
  }

  lemma SessionFields(self: Guid, known: set<Guid>, w: Wire)
    ensures AssignSessions(self, known, BLANK, SessionPairs(w)) == Orient(self, known, w)
  {
    AtoiOfPrintInt(w.state);
    AtoiOfPrintInt(w.secretLen);
    var kvs := SessionPairs(w);
    var s4 := AssignFirstFour(self, known, w);
    var s9 := AssignLastFive(self, known, s4, w);
  }

  lemma AssignFirstFour(self: Guid, known: set<Guid>, w: Wire) returns (s: Sess)
    ensures AssignSessions(self, known, BLANK, SessionPairs(w)) ==
            AssignSessions(self, known, s, SessionPairs(w)[4..])
    ensures s == Placed(self, known, Placed(self, known, BLANK, w.local), w.foreign).(
                   secret := Is(w.secret), state := Is(StateOf(Atoi(PrintInt(w.state)))))
  {
    var kvs := SessionPairs(w);
    s := BLANK;
    assert kvs == [kvs[0]] + kvs[1..];
    AssignCons(self, known, s, kvs[0], kvs[1..]);
    s := Placed(self, known, s, w.local);
    assert kvs[1..] == [kvs[1]] + kvs[2..];
    AssignCons(self, known, s, kvs[1], kvs[2..]);
    s := Placed(self, known, s, w.foreign);
    assert kvs[2..] == [kvs[2]] + kvs[3..];
    AssignCons(self, known, s, kvs[2], kvs[3..]);
    s := s.(secret := Is(w.secret));
    assert kvs[3..] == [kvs[3]] + kvs[4..];
    AssignCons(self, known, s, kvs[3], kvs[4..]);
    s := s.(state := Is(StateOf(Atoi(PrintInt(w.state)))));
  }

  lemma AssignLastFive(self: Guid, known: set<Guid>, s4: Sess, w: Wire) returns (s: Sess)
    ensures AssignSessions(self, known, s4, SessionPairs(w)[4..]) == s
    ensures s == s4.(id := Is(w.id), origin := Is(w.origin), localPub := Is(w.localPub),
                     foreignPub := Is(w.foreignPub), secretLen := Is(AsSize(Atoi(PrintInt(w.secretLen)))))
  {
    var kvs := SessionPairs(w);
    s := s4;
    assert kvs[4..] == [kvs[4]] + kvs[5..];
    AssignCons(self, known, s, kvs[4], kvs[5..]);
    s := s.(id := Is(w.id));
    assert kvs[5..] == [kvs[5]] + kvs[6..];
    AssignCons(self, known, s, kvs[5], kvs[6..]);
    s := s.(origin := Is(w.origin));
    assert kvs[6..] == [kvs[6]] + kvs[7..];
    AssignCons(self, known, s, kvs[6], kvs[7..]);
    s := s.(localPub := Is(w.localPub));
    assert kvs[7..] == [kvs[7]] + kvs[8..];
    AssignCons(self, known, s, kvs[7], kvs[8..]);
    s := s.(foreignPub := Is(w.foreignPub));
    assert kvs[8..] == [kvs[8]] + [];
    AssignCons(self, known, s, kvs[8], []);
    s := s.(secretLen := Is(AsSize(Atoi(PrintInt(w.secretLen)))));
  }

  /** The session frame round trip: parsing a printed frame gives its contents, re-oriented. */
  lemma SessionRoundTrip(self: Guid, known: set<Guid>, w: Wire)
    requires SafeWire(w)
    ensures ParseSession(self, known, SessionFrame(w)) == SessOkay(Orient(self, known, w))
    ensures NulFree(SessionFrame(w))
  {
    SessionPairsSafe(w);
    ReadFrame(SESSION_KEYS, SessionPairs(w));
    SessionFields(self, known, w);
  }

  lemma SessionKeysSafe()
    ensures forall key | key in SESSION_KEYS :: WireSafe(key)
  {
  }

  lemma SessionPairsSafe(w: Wire)
    requires SafeWire(w)
    ensures SafePairs(SessionPairs(w))
    ensures forall i | 0 <= i < |SessionPairs(w)| :: SessionPairs(w)[i].0 in SESSION_KEYS
  {
    SessionKeysSafe();
    PrintIntSafe(w.state);
    PrintIntSafe(w.secretLen);
    hide WireSafe;
  }

  /** A session frame is 146 characters and its nine values. */
  lemma SessionFrameLength(w: Wire)
    ensures |SessionFrame(w)| == 146 + |w.local| + |w.foreign| + |w.secret| + |PrintInt(w.state)| + |w.id| +
                                 |w.origin| + |w.localPub| + |w.foreignPub| + |PrintInt(w.secretLen)|
  {
    var kvs := SessionPairs(w);
    FrameLength(kvs);
    PairsLengthCons(kvs[8], []);
    assert kvs[8..] == [kvs[8]] + [];
    PairsLengthCons(kvs[7], kvs[8..]);
    assert kvs[7..] == [kvs[7]] + kvs[8..];
    PairsLengthCons(kvs[6], kvs[7..]);
    assert kvs[6..] == [kvs[6]] + kvs[7..];
    PairsLengthCons(kvs[5], kvs[6..]);
    assert kvs[5..] == [kvs[5]] + kvs[6..];
    PairsLengthCons(kvs[4], kvs[5..]);
    assert kvs[4..] == [kvs[4]] + kvs[5..];
    PairsLengthCons(kvs[3], kvs[4..]);
    assert kvs[3..] == [kvs[3]] + kvs[4..];
    PairsLengthCons(kvs[2], kvs[3..]);
    assert kvs[2..] == [kvs[2]] + kvs[3..];
    PairsLengthCons(kvs[1], kvs[2..]);
    assert kvs[1..] == [kvs[1]] + kvs[2..];
    PairsLengthCons(kvs[0], kvs[1..]);
    assert kvs == [kvs[0]] + kvs[1..];
  }
}
