/** The socket, `recv_fully`, raw blobs and session wrappers as the objects the
    handlers use, each proved against the readers and encoders of `Framing`. */
module Sockets {
  import opened Octets
  import opened Crypto
  import opened Framing

  /** What successive `recv` calls will see: the stream in whatever nonempty pieces
      the network chose, with interruptions in between, then end-of-file. */
  datatype Event = Data(bytes: Bytes) | Interrupted

  function Arrived(events: seq<Event>): Bytes
  {
    if events == [] then []
    else if events[0].Data? then events[0].bytes + Arrived(events[1..])
    else Arrived(events[1..])
  }

  /** A positive return, zero, or -1 with `errno` EINTR. */
  datatype Received = Got(bytes: Bytes) | Eof | Eintr

  class Socket {
    var pending: seq<Event>
    var sent: Bytes

    constructor (events: seq<Event>)
      requires forall i | 0 <= i < |events| && events[i].Data? :: events[i].bytes != []
      ensures pending == events && sent == [] && Valid()
    {
      pending, sent := events, [];
    }

    predicate Valid()
      reads this`pending
    {
      forall i | 0 <= i < |pending| && pending[i].Data? :: pending[i].bytes != []
    }

    function Unread(): Bytes
      reads this`pending
    {
      Arrived(pending)
    }

    /** The kernel: at most `len` bytes, and never more than one piece. */
    method Recv(len: nat) returns (r: Received)
      requires Valid() && len > 0
      modifies this`pending
      ensures Valid()
      ensures r.Got? ==> 0 < |r.bytes| <= len && old(Unread()) == r.bytes + Unread()
      ensures r.Eof? ==> old(Unread()) == [] && Unread() == []
      ensures r.Eintr? ==> Unread() == old(Unread()) && |pending| < old(|pending|)
    {
      if pending == [] {
        return Eof;
      }
      var first: Event := pending[0];
      if first.Interrupted? {
        pending := pending[1..];
        return Eintr;
      }
      if |first.bytes| <= len {
        pending := pending[1..];
        return Got(first.bytes);
      }
      assert old(Unread()) == first.bytes[..len] + (first.bytes[len..] + Arrived(pending[1..]));
      pending := [Data(first.bytes[len..])] + pending[1..];
      assert pending[1..] == old(pending[1..]);
      return Got(first.bytes[..len]);
    }

    /** Independent of the segmentation: all `len` bytes, or everything there was. */
    method RecvFully(len: nat) returns (ok: bool, buf: Bytes)
      requires Valid()
      modifies this`pending
      ensures Valid()
      ensures ok <==> len <= |old(Unread())|
      ensures ok ==> buf == old(Unread())[..len] && Unread() == old(Unread())[len..]
      ensures !ok ==> Unread() == []
    {
      buf := [];
      while |buf| < len
        invariant Valid()
        invariant |buf| <= len
        invariant old(Unread()) == buf + Unread()
        decreases |Unread()|, |pending|
      {
        var r := Recv(len - |buf|);
        match r
        case Got(bytes) => buf := buf + bytes;
        case Eintr =>
        case Eof => return false, buf;
      }
      ok := true;
    }

    method Send(data: Bytes)
      modifies this`sent
      ensures sent == old(sent) + data
    {
      sent := sent + data;
    }
  }

  method RecvRawBlob(sock: Socket, capacity: nat) returns (blob: Option<Bytes>)
    requires sock.Valid()
    modifies sock`pending
    ensures sock.Valid()
    ensures (blob, sock.Unread()) == ReadBlob(old(sock.Unread()), capacity)
  {
    ghost var s := sock.Unread();
    var ok, head := sock.RecvFully(8);
    if !ok {
      return None;
    }
    var n := FromLE(head);
    if n > capacity {
      return None;
    }
    var data: Bytes;
    ok, data := sock.RecvFully(n);
    if !ok {
      return None;
    }
    assert s[8..][..n] == s[8..8 + n] && s[8..][n..] == s[8 + n..];
    blob := Some(data);
  }

  method SendRawBlob(sock: Socket, blob: Bytes, ghost c: Suite, ghost key: Bytes)
    modifies sock`sent
    ensures sock.sent == old(sock.sent) + Encode(c, key, Raw(blob))
  {
    sock.Send(LE(|blob|, 8));
    sock.Send(blob);
  }

  /** A nonce that outlives the wrappers made with it. */
  class Nonce {
    var value: u64

    constructor (seed: u64)
      ensures value == seed
    {
      value := seed;
    }
  }

  datatype WrapType = READER | SENDER

  class SessionEncWrapper {
    var corrupted: bool
    var data: Bytes
    var nonce: u64
    const wrapType: WrapType

    /** What a reader holds. */
    function Value(): Frame
      reads this
    {
      if corrupted then Corrupt else Frame(nonce, data)
    }

    /** For writers: the nonce is incremented first, and the incremented value is
        both the one sealed under and the one sent.  The text is at most what the
        wrapper's array holds besides the seal. */
    constructor ForSender(c: Suite, plain: Bytes, tx: Bytes, counter: Nonce)
      requires SessionSound(c) && |plain| <= FILE_ENCRYPTED_CHUNK_SIZE
      modifies counter
      ensures counter.value == Inc(old(counter.value))
      ensures wrapType == SENDER && !corrupted
      ensures nonce == counter.value && data == c.seal(tx, counter.value, plain)
      ensures |data| <= STREAM_CHUNK_SIZE
    {
      counter.value := Inc(counter.value);
      wrapType := SENDER;
      data := c.seal(tx, counter.value, plain);
      nonce := counter.value;
      corrupted := false;
    }

    /** For readers: length, validation, nonce, data. */
    constructor FromSocket(sock: Socket)
      requires sock.Valid()
      modifies sock`pending
      ensures sock.Valid() && wrapType == READER
      ensures (Value(), sock.Unread()) == ReadFrame(old(sock.Unread()))
    {
      wrapType := READER;
      corrupted, data, nonce := true, [], 0;
      ghost var s := sock.Unread();
      var ok, head := sock.RecvFully(8);
      if ok {
        var len := FromLE(head);
        if len <= STREAM_CHUNK_SIZE {
          var bytes: Bytes;
          ok, bytes := sock.RecvFully(8);
          if ok {
            var body: Bytes;
            Pow256Values();
            nonce := FromLE(bytes);
            ok, body := sock.RecvFully(len);
            if ok {
              data := body;
              corrupted := false;
              Slices(s, len);
            }
          }
        }
      }
    }

    /** The decrypted bytes are in `plain` when the code is 0; otherwise the
        caller's buffer and length are as they were or unspecified. */
    method Unwrap(c: Suite, rx: Bytes, capacity: u64) returns (code: int, plain: Bytes)
      requires Value().Frame? ==> |data| <= STREAM_CHUNK_SIZE
      modifies this`corrupted
      ensures wrapType == SENDER ==> code == -1
      ensures wrapType == READER ==>
                old(Framing.Unwrap(c, rx, Value(), capacity)) == if code == 0 then Opened(plain) else Refused(code)
      ensures corrupted <==> old(corrupted) || code == 1 || code == 2
    {
      plain := [];
      if wrapType != READER {
        return -1, [];
      }
      if corrupted {
        return 4, [];
      }
      if Sub64(|data|, SEAL) > STREAM_CHUNK_SIZE {
        return 3, [];
      }
      if Sub64(|data|, SEAL) > capacity {
        corrupted := true;
        return 2, [];
      }
      match c.open(rx, nonce, data)
      case None =>
        corrupted := true;
        return 1, [];
      case Some(p) =>
        return 0, p;
    }

    method SendAll(sock: Socket) returns (code: int)
      modifies sock`sent
      ensures wrapType == SENDER ==> sock.sent == old(sock.sent) + (LE(|data|, 8) + LE(nonce, 8) + data)
      ensures wrapType == READER ==> code == -1 && sock.sent == old(sock.sent)
    {
      if wrapType != SENDER {
        return -1;
      }
      sock.Send(LE(|data|, 8) + LE(nonce, 8) + data);
      code := 16 + |data|;
    }
  }

  lemma Slices(s: Bytes, len: nat)
    requires |s| >= 16 + len
    ensures s[8..][..8] == s[8..16] && s[8..][8..] == s[16..]
    ensures s[16..][..len] == s[16..16 + len] && s[16..][len..] == s[16 + len..]
  {
  }

  /** Wrap and send one text. */
  method SendSession(sock: Socket, c: Suite, tx: Bytes, counter: Nonce, plain: Bytes)
    requires SessionSound(c) && |plain| <= FILE_ENCRYPTED_CHUNK_SIZE
    modifies sock`sent, counter
    ensures counter.value == Inc(old(counter.value))
    ensures sock.sent == old(sock.sent) + Encode(c, tx, Session(counter.value, plain))
  {
    var w := new SessionEncWrapper.ForSender(c, plain, tx, counter);
    var _ := w.SendAll(sock);
  }

  /** Read and unwrap one frame; a corrupt frame is code 4. */
  method RecvSession(sock: Socket, c: Suite, rx: Bytes, capacity: u64) returns (u: Unwrapped)
    requires sock.Valid()
    modifies sock`pending
    ensures sock.Valid()
    ensures (u, sock.Unread()) == Receive(c, rx, old(sock.Unread()), capacity)
  {
    var w := new SessionEncWrapper.FromSocket(sock);
    var code, plain := w.Unwrap(c, rx, capacity);
    u := if code == 0 then Opened(plain) else Refused(code);
  }
}
