/** Bytes on the wire: session frames `[len][nonce][sealed]` and raw blobs
    `[len][bytes]`, and what each reader makes of an arbitrary byte stream. */
module Framing {
  import opened Octets
  import opened Crypto

  const CHUNK_SIZE: nat := 65536
  const FILE_ENCRYPTED_CHUNK_SIZE: nat := CHUNK_SIZE + STREAM
  const STREAM_CHUNK_SIZE: nat := CHUNK_SIZE + STREAM + SEAL

  /** One `send_all` (a text and the nonce it is sealed under) or one
      `send_raw_blob`. */
  datatype Item = Session(nonce: u64, plain: Bytes) | Raw(blob: Bytes)

  function Encode(c: Suite, key: Bytes, item: Item): Bytes
  {
    match item
    case Session(nonce, plain) =>
      var sealed := c.seal(key, nonce, plain);
      LE(|sealed|, 8) + LE(nonce, 8) + sealed
    case Raw(blob) => LE(|blob|, 8) + blob
  }

  /** The items' bytes, then `rest`. */
  function Wire(c: Suite, key: Bytes, items: seq<Item>, rest: Bytes): Bytes
  {
    if items == [] then rest else Encode(c, key, items[0]) + Wire(c, key, items[1..], rest)
  }

  lemma {:induction false} WireConcat(c: Suite, key: Bytes, a: seq<Item>, b: seq<Item>, rest: Bytes)
    ensures Wire(c, key, a + b, rest) == Wire(c, key, a, Wire(c, key, b, rest))
  {
    if a == [] {
      assert a + b == b;
    } else {
      assert (a + b)[1..] == a[1..] + b;
      WireConcat(c, key, a[1..], b, rest);
    }
  }

  lemma {:induction false} WireAppend(c: Suite, key: Bytes, items: seq<Item>, s: Bytes, rest: Bytes)
    ensures Wire(c, key, items, s) + rest == Wire(c, key, items, s + rest)
  {
    if items != [] {
      WireAppend(c, key, items[1..], s, rest);
      Assoc(Encode(c, key, items[0]), Wire(c, key, items[1..], s), rest);
    }
  }

  /** Sending more items after the first ones. */
  lemma SentMore(c: Suite, key: Bytes, items: seq<Item>, more: seq<Item>, sent: Bytes)
    ensures sent + Wire(c, key, items + more, []) == (sent + Wire(c, key, items, [])) + Wire(c, key, more, [])
  {
    hide Wire;
    var tail := Wire(c, key, more, []);
    WireConcat(c, key, items, more, []);
    WireAppend(c, key, items, [], tail);
    assert [] + tail == tail;
    Assoc(sent, Wire(c, key, items, []), tail);
  }

  lemma EmptyWire(c: Suite, key: Bytes, rest: Bytes)
    ensures Wire(c, key, [], rest) == rest
  {
  }

  lemma Assoc(a: Bytes, b: Bytes, c: Bytes)
    ensures (a + b) + c == a + (b + c)
  {
  }

  // Readers.  Each returns what it got and the stream it leaves behind; a read
  // that hits the end of the stream has consumed all of it.

  /** What the reading constructor of a session wrapper holds afterwards. */
  datatype Frame = Corrupt | Frame(nonce: u64, data: Bytes)

  function ReadFrame(s: Bytes): (r: (Frame, Bytes))
    ensures |r.1| <= |s|
    ensures r.0.Frame? ==> |r.0.data| <= STREAM_CHUNK_SIZE && |s| == 16 + |r.0.data| + |r.1|
  {
    if |s| < 8 then (Corrupt, []) else
    var len := FromLE(s[..8]);
    if len > STREAM_CHUNK_SIZE then (Corrupt, s[8..])
    else if |s| < 16 + len then (Corrupt, [])
    else
      Pow256Values();
      (Frame(FromLE(s[8..16]), s[16..16 + len]), s[16 + len..])
  }

  function ReadBlob(s: Bytes, capacity: nat): (r: (Option<Bytes>, Bytes))
    ensures |r.1| <= |s|
    ensures r.0.Some? ==> |r.0.value| <= capacity && |s| == 8 + |r.0.value| + |r.1|
  {
    if |s| < 8 then (None, []) else
    var len := FromLE(s[..8]);
    if len > capacity then (None, s[8..])
    else if |s| < 8 + len then (None, [])
    else (Some(s[8..8 + len]), s[8 + len..])
  }

  /** `a - b` in `unsigned long long`. */
  function Sub64(a: u64, b: u64): u64
  {
    (a - b) % TWO64
  }

  /** `unwrap`'s return code 0 with the plaintext, or the nonzero code. */
  datatype Unwrapped = Opened(plain: Bytes) | Refused(code: int)

  function Unwrap(c: Suite, key: Bytes, f: Frame, capacity: u64): Unwrapped
    requires f.Frame? ==> |f.data| <= STREAM_CHUNK_SIZE
  {
    if f.Corrupt? then Refused(4)
    else if Sub64(|f.data|, SEAL) > STREAM_CHUNK_SIZE then Refused(3)
    else if Sub64(|f.data|, SEAL) > capacity then Refused(2)
    else match c.open(key, f.nonce, f.data)
      case None => Refused(1)
      case Some(plain) => Opened(plain)
  }

  /** Length arithmetic: the subtraction wraps, yet code 0 is returned exactly
      for an intact frame of at least the overhead whose plaintext fits the
      caller's capacity and which opens. */
  lemma UnwrapExactly(c: Suite, key: Bytes, f: Frame, capacity: u64, plain: Bytes)
    requires SessionSound(c)
    requires f.Frame? ==> |f.data| <= STREAM_CHUNK_SIZE
    ensures Unwrap(c, key, f, capacity) == Opened(plain) <==>
              && f.Frame? && |f.data| >= SEAL
              && |f.data| - SEAL <= capacity
              && c.open(key, f.nonce, f.data) == Some(plain)
    ensures Unwrap(c, key, f, capacity) == Opened(plain) ==> |plain| == |f.data| - SEAL <= capacity
  {
    if f.Frame? && |f.data| < SEAL {
      assert Sub64(|f.data|, SEAL) == |f.data| - SEAL + TWO64;
    }
  }

  /** Each nonzero code by its condition: 4 for a frame that did not arrive, 3 for one
      shorter than the overhead, whose length wraps, 2 for a text over the capacity,
      1 for a frame that does not open. */
  lemma UnwrapCodes(c: Suite, key: Bytes, f: Frame, capacity: u64)
    requires f.Frame? ==> |f.data| <= STREAM_CHUNK_SIZE
    ensures var u := Unwrap(c, key, f, capacity);
            && (u == Refused(4) <==> f.Corrupt?)
            && (u == Refused(3) <==> f.Frame? && |f.data| < 16)
            && (u == Refused(2) <==> f.Frame? && |f.data| >= 16 && |f.data| - 16 > capacity)
            && (u == Refused(1) <==> f.Frame? && 16 <= |f.data| <= 16 + capacity && c.open(key, f.nonce, f.data).None?)
            && (u.Refused? ==> 1 <= u.code <= 4)
  {
    if f.Frame? && |f.data| < SEAL {
      assert Sub64(|f.data|, SEAL) == |f.data| - SEAL + TWO64;
    }
  }

  /** Read a frame and unwrap it: a corrupt frame is code 4. */
  function Receive(c: Suite, key: Bytes, s: Bytes, capacity: u64): (r: (Unwrapped, Bytes))
    ensures |r.1| <= |s|
    ensures r.0.Opened? ==> |r.1| + 32 <= |s|
  {
    var (f, rest) := ReadFrame(s);
    (Unwrap(c, key, f, capacity), rest)
  }

  /** What a reader hands over fits the capacity it asked for. */
  lemma OpenedFits(c: Suite, rx: Bytes, s: Bytes, capacity: u64)
    requires SessionSound(c)
    ensures var u := Receive(c, rx, s, capacity).0;
            u.Opened? ==> |u.plain| <= capacity
  {
    var f := ReadFrame(s).0;
    if f.Frame? {
      var u := Unwrap(c, rx, f, capacity);
      if u.Opened? {
        UnwrapExactly(c, rx, f, capacity, u.plain);
      }
    }
  }

  lemma ReadFrameOfSession(c: Suite, key: Bytes, nonce: u64, plain: Bytes, rest: Bytes)
    requires SessionSound(c) && |plain| + SEAL <= STREAM_CHUNK_SIZE
    ensures ReadFrame(Encode(c, key, Session(nonce, plain)) + rest)
         == (Frame(nonce, c.seal(key, nonce, plain)), rest)
  {
    var sealed := c.seal(key, nonce, plain);
    var s := Encode(c, key, Session(nonce, plain)) + rest;
    LengthRoundTrip(|sealed|);
    LengthRoundTrip(nonce);
    assert s[..8] == LE(|sealed|, 8);
    assert s[8..16] == LE(nonce, 8);
    assert s[16..16 + |sealed|] == sealed;
    assert s[16 + |sealed|..] == rest;
  }

  /** One session frame round trip, the rest of the stream untouched. */
  lemma ReceiveSession(c: Suite, key: Bytes, nonce: u64, plain: Bytes, rest: Bytes, capacity: u64)
    requires SessionSound(c) && |plain| <= FILE_ENCRYPTED_CHUNK_SIZE && |plain| <= capacity
    ensures Receive(c, key, Encode(c, key, Session(nonce, plain)) + rest, capacity) == (Opened(plain), rest)
  {
    ReadFrameOfSession(c, key, nonce, plain, rest);
    UnwrapExactly(c, key, Frame(nonce, c.seal(key, nonce, plain)), capacity, plain);
  }

  /** A frame too large for the caller's capacity is code 2, the rest untouched. */
  lemma ReceiveTooLarge(c: Suite, key: Bytes, nonce: u64, plain: Bytes, rest: Bytes, capacity: u64)
    requires SessionSound(c) && |plain| <= FILE_ENCRYPTED_CHUNK_SIZE && |plain| > capacity
    ensures Receive(c, key, Encode(c, key, Session(nonce, plain)) + rest, capacity) == (Refused(2), rest)
  {
    hide ReadFrame, Encode;
    ReadFrameOfSession(c, key, nonce, plain, rest);
  }

  lemma ReadBlobOfRaw(c: Suite, key: Bytes, blob: Bytes, rest: Bytes, capacity: nat)
    requires |blob| <= capacity && |blob| < TWO64
    ensures ReadBlob(Encode(c, key, Raw(blob)) + rest, capacity) == (Some(blob), rest)
  {
    var s := Encode(c, key, Raw(blob)) + rest;
    LengthRoundTrip(|blob|);
    assert s[..8] == LE(|blob|, 8);
    assert s[8..8 + |blob|] == blob;
    assert s[8 + |blob|..] == rest;
  }

  // A stream that ends inside an item.

  lemma TruncatedSession(c: Suite, key: Bytes, nonce: u64, plain: Bytes, k: nat)
    requires SessionSound(c) && |plain| + SEAL <= STREAM_CHUNK_SIZE
    requires k < |Encode(c, key, Session(nonce, plain))|
    ensures ReadFrame(Encode(c, key, Session(nonce, plain))[..k]) == (Corrupt, [])
  {
    var whole := Encode(c, key, Session(nonce, plain));
    if k >= 8 {
      LengthRoundTrip(|c.seal(key, nonce, plain)|);
      assert whole[..k][..8] == LE(|c.seal(key, nonce, plain)|, 8);
    }
  }

  lemma TruncatedRaw(c: Suite, key: Bytes, blob: Bytes, k: nat, capacity: nat)
    requires |blob| <= capacity && |blob| < TWO64 && k < 8 + |blob|
    ensures ReadBlob(Encode(c, key, Raw(blob))[..k], capacity) == (None, [])
  {
    var whole := Encode(c, key, Raw(blob));
    if k >= 8 {
      LengthRoundTrip(|blob|);
      assert whole[..k][..8] == LE(|blob|, 8);
    }
  }

  /** A frame that never arrived whole, as `unwrap` reports it. */
  lemma CutFrame(c: Suite, key: Bytes, nonce: u64, plain: Bytes, k: nat, capacity: u64)
    requires SessionSound(c) && |plain| + SEAL <= STREAM_CHUNK_SIZE
    requires k < |Encode(c, key, Session(nonce, plain))|
    ensures Receive(c, key, Encode(c, key, Session(nonce, plain))[..k], capacity) == (Refused(4), [])
  {
    hide Encode, ReadFrame;
    TruncatedSession(c, key, nonce, plain, k);
  }

  /** A frame is 32 bytes and its text, a blob 8 bytes and itself. */
  lemma EncodedLength(c: Suite, key: Bytes, item: Item)
    requires SessionSound(c)
    ensures |Encode(c, key, item)| == match item case Session(_, plain) => 32 + |plain| case Raw(blob) => 8 + |blob|
  {
  }

  /** A length field over the limit is refused on the spot: only its eight bytes are
      consumed. */
  lemma OversizeLength(len: u64, rest: Bytes, capacity: nat)
    ensures len > 65569 ==> ReadFrame(LE(len, 8) + rest) == (Corrupt, rest)
    ensures len > capacity ==> ReadBlob(LE(len, 8) + rest, capacity) == (None, rest)
  {
    var s := LE(len, 8) + rest;
    LengthRoundTrip(len);
    assert s[..8] == LE(len, 8);
    assert s[8..] == rest;
  }

  // Any mix of frames and blobs.

  /** What a reader asks for next, with its buffer's capacity. */
  datatype Want = WantSession(capacity: u64) | WantRaw(capacity: u64)

  predicate Fits(item: Item, want: Want)
  {
    match item
    case Session(_, plain) => want.WantSession? && |plain| <= want.capacity && |plain| <= FILE_ENCRYPTED_CHUNK_SIZE
    case Raw(blob) => want.WantRaw? && |blob| <= want.capacity
  }

  function Payload(item: Item): Bytes
  {
    match item case Session(_, plain) => plain case Raw(blob) => blob
  }

  function Payloads(items: seq<Item>): seq<Bytes>
  {
    if items == [] then [] else [Payload(items[0])] + Payloads(items[1..])
  }

  function ReadOne(c: Suite, key: Bytes, want: Want, s: Bytes): (Option<Bytes>, Bytes)
  {
    match want
    case WantSession(capacity) =>
      var (u, rest) := Receive(c, key, s, capacity);
      (if u.Opened? then Some(u.plain) else None, rest)
    case WantRaw(capacity) => ReadBlob(s, capacity)
  }

  /** Everything asked for, in order, and the stream left over. */
  function ReadAll(c: Suite, key: Bytes, wants: seq<Want>, s: Bytes): Option<(seq<Bytes>, Bytes)>
  {
    if wants == [] then Some(([], s)) else
    var (first, rest) := ReadOne(c, key, wants[0], s);
    if first.None? then None else
    match ReadAll(c, key, wants[1..], rest)
    case None => None
    case Some((more, left)) => Some(([first.value] + more, left))
  }

  /** Framing round trip for every interleaved sequence of frames and blobs. */
  lemma {:induction false} FramingRoundTrip(c: Suite, key: Bytes, items: seq<Item>, wants: seq<Want>, rest: Bytes)
    requires SessionSound(c)
    requires |wants| == |items| && forall i | 0 <= i < |items| :: Fits(items[i], wants[i])
    ensures ReadAll(c, key, wants, Wire(c, key, items, rest))
         == Some((Payloads(items), rest))
  {
    if items != [] {
      var tail := Wire(c, key, items[1..], rest);
      match items[0] {
        case Session(nonce, plain) => ReceiveSession(c, key, nonce, plain, tail, wants[0].capacity);
        case Raw(blob) => ReadBlobOfRaw(c, key, blob, tail, wants[0].capacity);
      }
      FramingRoundTrip(c, key, items[1..], wants[1..], rest);
    }
  }
}
