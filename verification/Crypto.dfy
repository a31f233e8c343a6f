/** libsodium as a record of functions with contracts.  Nothing here says how a
    cipher works; every theorem elsewhere is about any suite that meets the
    contracts it names. */
module Crypto {
  import opened Octets

  /** Overhead of the session AEAD and of one secretstream message. */
  const SEAL: nat := 16
  const STREAM: nat := 17
  const HEADER: nat := 24
  const SALT: nat := 16
  const TAG_MESSAGE: byte := 0
  const TAG_FINAL: byte := 3

  datatype Suite = Suite(
    /** Session AEAD: key, nonce, text. */
    seal: (Bytes, u64, Bytes) -> Bytes,
    open: (Bytes, u64, Bytes) -> Option<Bytes>,
    /** Password hashing: password, salt. */
    derive: (Bytes, Bytes) -> Bytes,
    /** Secretstream: key and header give a state; push and pull advance it. */
    initPush: (Bytes, Bytes) -> Bytes,
    initPull: (Bytes, Bytes) -> Option<Bytes>,
    push: (Bytes, Bytes, byte) -> (Bytes, Bytes),
    pull: (Bytes, Bytes) -> Option<(Bytes, Bytes, byte)>)

  /** Opening undoes sealing, and what opens has exactly the overhead. */
  ghost predicate SessionSound(c: Suite)
  {
    && (forall k, n, m :: |c.seal(k, n, m)| == |m| + SEAL)
    && (forall k, n, m :: c.open(k, n, c.seal(k, n, m)) == Some(m))
    && (forall k, n, x :: c.open(k, n, x).Some? ==> |x| == |c.open(k, n, x).value| + SEAL)
  }

  /** Secretstream lengths; in particular an input shorter than the overhead is
      rejected. */
  ghost predicate StreamShape(c: Suite)
  {
    && (forall s, m, t: byte :: |c.push(s, m, t).1| == |m| + STREAM)
    && (forall s, x :: c.pull(s, x).Some? ==> |x| == |c.pull(s, x).value.1| + STREAM)
  }

  /** Pull undoes push in the matching state. */
  ghost predicate StreamInverts(c: Suite)
  {
    && (forall k, h :: c.initPull(k, h) == Some(c.initPush(k, h)))
    && (forall s, m, t: byte :: c.pull(s, c.push(s, m, t).1) == Some((c.push(s, m, t).0, m, t)))
  }

  ghost predicate Sound(c: Suite)
  {
    SessionSound(c) && StreamShape(c) && StreamInverts(c)
  }

  function Tag(remaining: nat): byte
  {
    if remaining == 1 then TAG_FINAL else TAG_MESSAGE
  }

  /** Authenticity along one stream: in each state of the stream only the
      message pushed there is accepted, and after the last one nothing is. */
  ghost predicate OnlyAccepts(c: Suite, st: Bytes, chunks: seq<Bytes>)
    decreases |chunks|
  {
    if chunks == [] then forall x :: c.pull(st, x) == None
    else
      var next := c.push(st, chunks[0], Tag(|chunks|));
      && (forall x :: c.pull(st, x) ==
            if x == next.1 then Some((next.0, chunks[0], Tag(|chunks|))) else None)
      && OnlyAccepts(c, next.0, chunks[1..])
  }

  // Small suites that meet the contracts, so that no theorem is vacuous.

  function ToySeal(k: Bytes, n: u64, m: Bytes): Bytes
  {
    m + Zeros(SEAL)
  }

  function ToyOpen(k: Bytes, n: u64, x: Bytes): Option<Bytes>
  {
    if |x| < SEAL then None else Some(x[..|x| - SEAL])
  }

  function ToyPush(s: Bytes, m: Bytes, t: byte): (Bytes, Bytes)
  {
    (s + [0], [t] + m + Zeros(STREAM - 1))
  }

  function ToyPull(s: Bytes, x: Bytes): Option<(Bytes, Bytes, byte)>
  {
    if |x| < STREAM then None else Some((s + [0], x[1..|x| - (STREAM - 1)], x[0]))
  }

  function Toy(): Suite
  {
    Suite(ToySeal, ToyOpen, (p, s) => p + s, (k, h) => [], (k, h) => Some([]), ToyPush, ToyPull)
  }

  lemma ToyIsSound()
    ensures Sound(Toy())
  {
    var c := Toy();
    forall k, n, m ensures c.open(k, n, c.seal(k, n, m)) == Some(m) {
      assert (m + Zeros(SEAL))[..|m|] == m;
    }
    forall s, m, t: byte ensures c.pull(s, c.push(s, m, t).1) == Some((c.push(s, m, t).0, m, t)) {
      assert ([t] + m + Zeros(STREAM - 1))[1..1 + |m|] == m;
    }
  }

  /** A pull that knows which file is being transferred: the state's length is
      the position in the stream. */
  function StrictPull(chunks: seq<Bytes>, s: Bytes, x: Bytes): Option<(Bytes, Bytes, byte)>
  {
    if |s| < |chunks| && x == ToyPush(s, chunks[|s|], Tag(|chunks| - |s|)).1
    then Some((s + [0], chunks[|s|], Tag(|chunks| - |s|)))
    else None
  }

  function Strict(chunks: seq<Bytes>): Suite
  {
    Toy().(pull := (s, x) => StrictPull(chunks, s, x))
  }

  lemma {:induction false} StrictOnlyAccepts(chunks: seq<Bytes>, s: Bytes)
    requires |s| <= |chunks|
    ensures OnlyAccepts(Strict(chunks), s, chunks[|s|..])
    decreases |chunks| - |s|
  {
    if |s| < |chunks| {
      assert chunks[|s|..][1..] == chunks[|s| + 1..];
      StrictOnlyAccepts(chunks, s + [0]);
    }
  }

  /** For every file there is a suite that authenticates its stream and starts it
      alike at both ends. */
  lemma AuthenticitySatisfiable(chunks: seq<Bytes>, key: Bytes, header: Bytes)
    ensures var c := Strict(chunks);
            && SessionSound(c) && StreamShape(c) && OnlyAccepts(c, c.initPush(key, header), chunks)
            && c.initPull(key, header) == Some(c.initPush(key, header))
  {
    ToyIsSound();
    StrictOnlyAccepts(chunks, []);
    assert chunks[0..] == chunks;
  }
}
