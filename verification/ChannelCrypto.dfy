/** The primitives and the key schedule of origin-channel. The cryptographic functions come in as
    parameters; what is asked of them is stated where it is needed. */
module ChannelCrypto {
  import opened Wrappers

  type Outcome<+T> = Result<T, ChannelError>

  datatype ChannelError =
    | Replay(number: nat)
    | UsageLimitExceeded
    | NonceExhausted
    | Decryption
    | WrongRole
    | WrongMessage
    | Incomplete
    | NoKey
    | BadPeerKey(operation: string)

  /** HKDF output is taken in 32-byte blocks: `hkdf(key, salt, label, k)` is block `k`. */
  datatype Suite = Suite(
    hkdf: (Bytes, Option<Bytes>, string, nat) -> Bytes,
    sha3: Bytes -> Bytes,
    seal: (Bytes, Bytes, Bytes) -> Bytes,
    open: (Bytes, Bytes, Bytes) -> Option<Bytes>,
    public: Bytes -> Bytes,
    dh: (Bytes, Bytes) -> Option<Bytes>)

  const TAG_LEN := 16

  /** What is sealed can be opened again and grows by the tag. */
  ghost predicate AeadLaw(c: Suite) {
    forall k: Bytes, n: Bytes, p: Bytes ::
      c.open(k, n, c.seal(k, n, p)) == Some(p) && |c.seal(k, n, p)| == |p| + TAG_LEN
  }

  /** Both ends of an exchange compute the same secret, or both refuse. */
  ghost predicate DhLaw(c: Suite) {
    forall a: Bytes, b: Bytes :: c.dh(a, c.public(b)) == c.dh(b, c.public(a))
  }

  // ---------------------------------------------------------------- key schedule

  datatype RatchetKeys = RatchetKeys(root: Bytes, send: Bytes, recv: Bytes) {
    function Mirrored(): RatchetKeys {
      RatchetKeys(root, recv, send)
    }
  }

  /** The initiator sends on the first chain and receives on the second; the responder crosses them. */
  function InitRatchet(c: Suite, secret: Bytes, initiator: bool): RatchetKeys {
    var root, a, b := c.hkdf(secret, None, "origin-channel:ratchet:v1", 0),
                      c.hkdf(secret, None, "origin-channel:ratchet:v1", 1),
                      c.hkdf(secret, None, "origin-channel:ratchet:v1", 2);
    if initiator then RatchetKeys(root, a, b) else RatchetKeys(root, b, a)
  }

  function MessageKey(c: Suite, chain: Bytes): Bytes {
    c.hkdf(chain, None, "origin-channel:message:v1", 0)
  }

  function NextChain(c: Suite, chain: Bytes): Bytes {
    c.hkdf(chain, None, "origin-channel:chain:v1", 0)
  }

  function DhRatchet(c: Suite, root: Bytes, shared: Bytes): RatchetKeys {
    RatchetKeys(c.hkdf(root, Some(shared), "origin-channel:dh-ratchet:v1", 0),
                c.hkdf(root, Some(shared), "origin-channel:dh-ratchet:v1", 1),
                c.hkdf(root, Some(shared), "origin-channel:dh-ratchet:v1", 2))
  }

  const LABELS := {"origin-channel:ratchet:v1", "origin-channel:message:v1", "origin-channel:chain:v1",
                   "origin-channel:dh-ratchet:v1"}

  /** Of one input, the blocks that the schedule takes under its labels are all different. */
  ghost predicate BlocksApart(c: Suite, key: Bytes, salt: Option<Bytes>) {
    forall l <- LABELS, l' <- LABELS, i: nat, j: nat ::
      i < 3 && j < 3 && (l != l' || i != j) ==> c.hkdf(key, salt, l, i) != c.hkdf(key, salt, l', j)
  }

  /** No two keys the schedule makes of one input coincide: not the root and the two chains of a side, at the
      start or after a ratchet step, nor a message key and the chain that goes on. And the two sides of a
      session send on different chains, each on the one the other receives on. */
  lemma KeysApart(c: Suite, secret: Bytes, root: Bytes, shared: Bytes, chain: Bytes, initiator: bool)
    requires BlocksApart(c, secret, None) && BlocksApart(c, root, Some(shared)) && BlocksApart(c, chain, None)
    ensures var k, peer := InitRatchet(c, secret, initiator), InitRatchet(c, secret, !initiator);
            k.root != k.send && k.root != k.recv && k.send != k.recv && k.root == peer.root && peer == k.Mirrored()
    ensures var k := DhRatchet(c, root, shared); k.root != k.send && k.root != k.recv && k.send != k.recv
    ensures MessageKey(c, chain) != NextChain(c, chain)
  {}

  /** The chain key after `n` messages. */
  function ChainAt(c: Suite, chain: Bytes, n: nat): Bytes {
    if n == 0 then chain else NextChain(c, ChainAt(c, chain, n - 1))
  }

  lemma {:induction false} ChainAhead(c: Suite, chain: Bytes, n: nat)
    ensures ChainAt(c, NextChain(c, chain), n) == ChainAt(c, chain, n + 1)
  {
    if n > 0 { ChainAhead(c, chain, n - 1); }
  }

  // ---------------------------------------------------------------- nonces

  const NONCE_MAX: nat := 0xFFFF_FFFF_FFFF_FFFF

  function LittleEndian(x: nat, n: nat): (r: Bytes)
    ensures |r| == n
    decreases n
  {
    if n == 0 then [] else [x % 256] + LittleEndian(x / 256, n - 1)
  }

  function FromLittleEndian(bytes: Bytes): nat {
    if bytes == [] then 0 else bytes[0] + 256 * FromLittleEndian(bytes[1..])
  }

  function Pow256(n: nat): (p: nat)
    ensures p > 0
  {
    if n == 0 then 1 else 256 * Pow256(n - 1)
  }

  lemma {:induction false} LittleEndianRoundTrip(x: nat, n: nat)
    requires x < Pow256(n)
    ensures FromLittleEndian(LittleEndian(x, n)) == x
    decreases n
  {
    if n > 0 {
      LittleEndianRoundTrip(x / 256, n - 1);
      assert LittleEndian(x, n)[1..] == LittleEndian(x / 256, n - 1);
    }
  }

  function CounterToNonce(counter: nat): (nonce: Bytes)
    ensures |nonce| == 24
  {
    LittleEndian(counter, 8) + seq(16, _ => 0)
  }

  /** Different counters, different nonces. */
  lemma NonceInjective(a: nat, b: nat)
    requires a <= NONCE_MAX && b <= NONCE_MAX && CounterToNonce(a) == CounterToNonce(b)
    ensures a == b
  {
    assert Pow256(8) == NONCE_MAX + 1 by { assert Pow256(4) == 0x1_0000_0000; }
    LittleEndianRoundTrip(a, 8);
    LittleEndianRoundTrip(b, 8);
    assert LittleEndian(a, 8) == CounterToNonce(a)[..8] && LittleEndian(b, 8) == CounterToNonce(b)[..8];
  }

  // ---------------------------------------------------------------- usage limits

  datatype Limits = Limits(maxMessages: nat, maxBytes: nat)

  datatype Direction = Direction(messages: nat, bytes: nat)

  const UNUSED := Direction(0, 0)

  predicate WithinBudget(d: Direction, limits: Limits, len: nat) {
    d.messages + 1 <= limits.maxMessages && d.bytes + len <= limits.maxBytes
  }

  function Record(d: Direction, limits: Limits, len: nat): Direction {
    if WithinBudget(d, limits, len) then Direction(d.messages + 1, d.bytes + len) else d
  }

  function PlainLen(cipherLen: nat): nat {
    if cipherLen < TAG_LEN then 0 else cipherLen - TAG_LEN
  }
}
