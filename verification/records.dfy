/** The entities of whisp as values: sessions, pulses, frames' contents, one peer's whole state. */
module Records {
  import opened Cells
  import opened CText

  type Key = int      // an RSA key pair, named by a number
  type Guid = string

  // ---- session states ----

  /** `enum state`; `Other` is an int read off the wire that names no state. */
  datatype State =
    | Closing
    | Dormant
    | Error
    | PreHandshake
    | PublicKeyExchange
    | Handshaking
    | Connected
    | Other(code: int)

  function Code(s: State): int {
    match s
    case Closing => 0
    case Dormant => 1
    case Error => 2
    case PreHandshake => 3
    case PublicKeyExchange => 4
    case Handshaking => 5
    case Connected => 6
    case Other(code) => code
  }

  function StateOf(code: int): State {
    match code
    case 0 => Closing
    case 1 => Dormant
    case 2 => Error
    case 3 => PreHandshake
    case 4 => PublicKeyExchange
    case 5 => Handshaking
    case 6 => Connected
    case _ => Other(code)
  }

  // ---- records ----

  /** `struct session`. Peers are named by guid here; the classes hold pointers. */
  datatype Sess = Sess(
    local: Cell<Guid>, foreign: Cell<Guid>,
    keypair: Cell<Key>, localPub: Cell<string>, foreignPub: Cell<string>,
    secret: Cell<string>, secretLen: Cell<nat>,
    state: Cell<State>, id: Cell<string>, origin: Cell<Guid>)

  /** A session fresh from `malloc`. */
  const BLANK: Sess := Sess(Unset, Unset, Unset, Unset, Unset, Unset, Unset, Unset, Unset, Unset)

  /** What one session frame carries: nine texts, two of them printed numbers. */
  datatype Wire = Wire(
    local: string, foreign: string, secret: string, state: int, id: string, origin: string,
    localPub: string, foreignPub: string, secretLen: int)

  /** A frame on its way to the peer `dest`. */
  datatype Packet = Packet(dest: Guid, wire: Wire)

  /** The five fields a pulse frame carries. */
  datatype Pulse = Pulse(
    guid: Cell<Guid>, command: Cell<string>, port: Cell<string>,
    securePort: Cell<string>, peerstring: Cell<string>)

  const NO_PULSE: Pulse := Pulse(Unset, Unset, Unset, Unset, Unset)

  /** `struct raw_peer` once stored, without the guid it is filed under. */
  datatype PeerRec = PeerRec(
    command: Cell<string>, ip: string, port: Cell<string>,
    securePort: Cell<string>, peerstring: Cell<string>)

  /** What `last_session` points at: nothing, the object stored under an id, or a freed object. */
  datatype Last = NoLast | Stored(id: string) | Dangling

  /** One running whisp process. */
  datatype Node = Node(guid: Guid, peers: map<Guid, PeerRec>, sessions: map<string, Sess>, last: Last)

  // ---- what the process draws at random ----

  /** The key pair `generate_key` would return, the padding randomness of one RSA encryption, and
      the three numbers behind a shared secret. */
  datatype Draw = Draw(key: Key, padding: int, r: Die, l: Die, n: Die)

  /** `rand() % 10`. */
  type Die = k: int | 0 <= k < 10 witness 0

  // ---- public-key encryption ----

  /** RSA with OAEP and base64 as whisp calls it: `pub` prints a public key, `enc` encrypts a text
      under a printed key with some padding, `dec` decrypts with a key pair. */
  datatype Rsa = Rsa(pub: Key -> string, enc: (string, string, int) -> string, dec: (Key, string) -> string)

  const MAX_KEY_TEXT := 1024     // a printed 2048-bit public key takes less than half of this
  const MAX_CIPHER_TEXT := 1024  // base64 of one 256-byte block takes about a third of this
  const MAX_PLAIN_TEXT := 213    // what OAEP leaves of a 2048-bit block, less the NUL

  ghost predicate Lawful(c: Rsa) {
    && (forall k :: WireSafe(c.pub(k)) && |c.pub(k)| <= MAX_KEY_TEXT)
    && (forall k, x, p :: |x| <= MAX_PLAIN_TEXT ==>
          WireSafe(c.enc(c.pub(k), x, p)) && |c.enc(c.pub(k), x, p)| <= MAX_CIPHER_TEXT)
    && (forall k, x, p :: |x| <= MAX_PLAIN_TEXT ==> c.dec(k, c.enc(c.pub(k), x, p)) == x)
  }
}
