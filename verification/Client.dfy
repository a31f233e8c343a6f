/** The client: the sending and receiving agents and the action loop, proved
    against the client functions of `Upload`, `Download` and `Actions`. */
module Client {
  import opened Octets
  import opened Crypto
  import opened Framing
  import opened Chunking
  import opened Upload
  import opened Download
  import opened Actions
  import opened Sockets
  import opened Files
  import opened TwoSlot
  import Pipeline

  class SenderAgent {
    const c: Suite
    const sock: Socket
    const tx: Bytes
    const nonce: Nonce

    constructor (c: Suite, sock: Socket, tx: Bytes, seed: u64)
      ensures this.c == c && this.sock == sock && this.tx == tx
      ensures fresh(nonce) && nonce.value == seed
    {
      this.c, this.sock, this.tx := c, sock, tx;
      nonce := new Nonce(seed);
    }

    /** `init_send` for a file that opened. */
    method SendInit(u: Sending)
      requires SessionSound(c) && nonce.value == u.nonce && u.Valid() && |u.name| <= FILE_ENCRYPTED_CHUNK_SIZE
      modifies sock`sent, nonce
      ensures nonce.value == Inc4(u.nonce)
      ensures sock.sent == old(sock.sent) + Wire(c, tx, InitItems(u), [])
    {
      hide Encode, Wire;
      SentInit(c, tx, u, sock.sent);
      SendSession(sock, c, tx, nonce, [1]);
      SendSession(sock, c, tx, nonce, u.name);
      SendSession(sock, c, tx, nonce, u.header);
      SendSession(sock, c, tx, nonce, u.salt);
    }

    /** `encrypt_and_send_to_server`: `init_send` and the chunk loop, or just the
        notice that there is no such file; `Endless` stands for not returning. */
    method EncryptAndSend(u: Sending, path: Path) returns (r: Result)
      requires SessionSound(c) && nonce.value == u.nonce && u.Valid() && |u.name| <= FILE_ENCRYPTED_CHUNK_SIZE
      modifies sock`sent, nonce
      ensures r == PutResult(path)
      ensures sock.sent == old(sock.sent) + Wire(c, tx, PutItems(c, u, path), [])
    {
      hide Encode, ChunkItems;
      ghost var sent := sock.sent;
      if path.Absent? {
        SendSession(sock, c, tx, nonce, [0]);
        ghost var items := MissingItems(u.nonce);
        assert items[1..] == [];
        return Sent(1);
      }
      SendInit(u);
      if path.Directory? {
        return Endless;
      }
      var file := new InFile(path.data);
      assert path.data[0..] == path.data;
      EncryptChunks(u, file);
      SentMore(c, tx, InitItems(u), ChunkItems(Inc4(u.nonce), u.(data := path.data).Blobs(c)), sent);
      return Sent(0);
    }

    /** Read, tag by end-of-file, push, prefix, blob, until end-of-file. */
    method EncryptChunks(u: Sending, file: InFile)
      requires SessionSound(c) && file.Valid()
      modifies sock`sent, nonce, file
      ensures sock.sent == old(sock.sent)
              + ChunkWire(c, tx, old(nonce.value), Encrypt(c, u.StartState(c), old(file.Pieces(CHUNK_SIZE))), [])
    {
      hide Encode, ChunkWire;
      var st := c.initPush(c.derive(u.password, u.salt), u.header);
      ghost var all := sock.sent + ChunkWire(c, tx, nonce.value, Encrypt(c, st, file.Pieces(CHUNK_SIZE)), []);
      while true
        invariant file.Valid()
        invariant all == sock.sent + ChunkWire(c, tx, nonce.value, Encrypt(c, st, file.Pieces(CHUNK_SIZE)), [])
        decreases |file.data| - file.pos
      {
        ghost var sent, n, pieces := sock.sent, nonce.value, file.Pieces(CHUNK_SIZE);
        ghost var blobs := Encrypt(c, st, pieces);
        var chunk := file.Read(CHUNK_SIZE);
        var tag: byte := if file.eof then TAG_FINAL else TAG_MESSAGE;
        var (next, blob) := c.push(st, chunk, tag);
        SendSession(sock, c, tx, nonce, EncInt(if tag == TAG_FINAL then END_CHUNK else MEAT_CHUNK));
        SendRawBlob(sock, blob, c, tx);
        EncryptAt(c, st, pieces, 0);
        assert blobs[1..] == Encrypt(c, next, pieces[1..]);
        SentPair(c, tx, n, blobs, sent);
        st := next;
        if file.eof {
          assert pieces[1..] == [];
          EmptyChunkWire(c, tx, nonce.value);
          return;
        }
      }
    }
  }

  lemma SentInit(c: Suite, key: Bytes, u: Sending, sent: Bytes)
    ensures sent + Wire(c, key, InitItems(u), [])
         == (((sent + Encode(c, key, InitItems(u)[0])) + Encode(c, key, InitItems(u)[1]))
             + Encode(c, key, InitItems(u)[2])) + Encode(c, key, InitItems(u)[3])
  {
    hide Encode;
    var items := InitItems(u);
    WireFour(c, key, items, []);
    var e0, e1, e2, e3 := Encode(c, key, items[0]), Encode(c, key, items[1]), Encode(c, key, items[2]), Encode(c, key, items[3]);
    assert e3 + [] == e3;
    Assoc(sent, e0, e1 + (e2 + e3));
    Assoc(sent + e0, e1, e2 + e3);
    Assoc((sent + e0) + e1, e2, e3);
  }

  class ReceiverAgent {
    const c: Suite
    const sock: Socket
    const rx: Bytes

    constructor (c: Suite, sock: Socket, rx: Bytes)
      ensures this.c == c && this.sock == sock && this.rx == rx
    {
      this.c, this.sock, this.rx := c, sock, rx;
    }

    /** `decrypt_and_read_from_server`: the return code and the file the writer
        thread leaves behind, in every schedule. */
    method DecryptAndRead(password: Bytes, junk: Junk, junks: nat -> Word) returns (code: int, file: Bytes)
      requires StreamShape(c) && sock.Valid()
      modifies sock`pending
      ensures sock.Valid()
      ensures var d := ReceiveFile(c, rx, password, old(sock.Unread()), junk, junks);
              code == d.code && file == Flatten(d.published) && sock.Unread() == d.rest
    {
      hide Receive, ReceiveLoop, StreamShape, Overlay;
      file := [];
      var header := RecvSession(sock, c, rx, HEADER);
      if header.Refused? {
        return 1, file;
      }
      var salt := RecvSession(sock, c, rx, SALT);
      if salt.Refused? {
        return 1, file;
      }
      var key := c.derive(password, Overlay(salt.plain, junk.salt));
      var st := c.initPull(key, Overlay(header.plain, junk.header));
      if st.None? {
        return 2, file;
      }
      code, file := DecryptPipelined(st.value, junks);
    }

    /** The loop with its writer thread, joined on every path. */
    method DecryptPipelined(start: Bytes, junks: nat -> Word) returns (code: int, file: Bytes)
      requires StreamShape(c) && sock.Valid()
      modifies sock`pending
      ensures sock.Valid()
      ensures var d := ReceiveLoop(c, rx, start, old(sock.Unread()), EncInt(END_CHUNK), junks, 0);
              code == d.code && file == Flatten(d.published) && sock.Unread() == d.rest
    {
      hide ReceiveLoop, StreamShape;
      var pipe := new Transfer(FILE_ENCRYPTED_CHUNK_SIZE, []);
      code := DecryptChunks(pipe, start, junks);
      pipe.FinishAndJoin();
      file := pipe.file;
    }

    /** The prefix frame, whose `unwrap` result the loop does not look at. */
    method RecvPrefix(before: Word, junk: Word) returns (prefix: Word)
      requires sock.Valid()
      modifies sock`pending
      ensures sock.Valid()
      ensures var (mark, rest) := Receive(c, rx, old(sock.Unread()), 4);
              prefix == PrefixValue(mark, before, junk) && sock.Unread() == rest
    {
      hide Receive;
      prefix := before;
      var mark := RecvSession(sock, c, rx, 4);
      if mark.Opened? {
        prefix := Overlay(mark.plain, prefix);
      } else if mark.code == 1 {
        prefix := junk;
      }
    }

    method DecryptChunks(pipe: Transfer, start: Bytes, junks: nat -> Word) returns (code: int)
      requires StreamShape(c) && sock.Valid() && pipe.Valid() && pipe.producer.Outside?
      requires pipe.slots.capacity == FILE_ENCRYPTED_CHUNK_SIZE
      modifies sock`pending, pipe, pipe.slots
      ensures sock.Valid() && pipe.Valid() && (pipe.producer.Outside? || pipe.producer.Holding?)
      ensures var d := ReceiveLoop(c, rx, start, old(sock.Unread()), EncInt(END_CHUNK), junks, 0);
              && code == d.code && sock.Unread() == d.rest
              && pipe.serial.out == old(pipe.serial.out) + Flatten(d.published)
    {
      hide Receive, ReadBlob, PrefixValue, ReceiveLoop, Remains, Flatten, Pipeline.Inv;
      var prefix: Word := EncInt(END_CHUNK);
      var st, i := start, 0;
      ghost var out0 := pipe.serial.out;
      ghost var all := ReceiveLoop(c, rx, st, sock.Unread(), prefix, junks, i);
      RemainsAll(all, out0);
      while true
        invariant sock.Valid() && pipe.Valid() && pipe.producer.Outside?
        invariant Remains(all, out0, ReceiveLoop(c, rx, st, sock.Unread(), prefix, junks, i), pipe.serial.out)
        decreases |sock.Unread()|
      {
        ghost var now := ReceiveLoop(c, rx, st, sock.Unread(), prefix, junks, i);
        ghost var out := pipe.serial.out;
        ReceiveLoopUnfolds(c, rx, st, sock.Unread(), prefix, junks, i);
        RemainsNothing(all, out0, now, out);
        prefix := RecvPrefix(prefix, junks(i));
        var blob := RecvRawBlob(sock, FILE_ENCRYPTED_CHUNK_SIZE);
        if blob.None? {
          return 1;
        }
        pipe.Acquire();
        var pulled := c.pull(st, blob.value);
        if pulled.None? {
          return 2;
        }
        var (next, plain, tag) := pulled.value;
        pipe.Deliver(plain, Sub64(|blob.value|, STREAM));
        st, i := next, i + 1;
        ghost var later := if DecInt(prefix) == END_CHUNK then Outcome(now.code, [], now.rest)
                           else ReceiveLoop(c, rx, st, sock.Unread(), prefix, junks, i);
        RemainsStep(all, out0, now, out, plain, later);
        RemainsNothing(all, out0, later, pipe.serial.out);
        if DecInt(prefix) == END_CHUNK {
          return 0;
        }
      }
    }
  }

  /** One pass of the receive loop, case by case. */
  lemma ReceiveLoopUnfolds(c: Suite, rx: Bytes, st: Bytes, s: Bytes, prefix: Word, junk: nat -> Word, i: nat)
    ensures var l := ReceiveLoop(c, rx, st, s, prefix, junk, i);
            var (mark, s0) := Receive(c, rx, s, 4);
            var p := PrefixValue(mark, prefix, junk(i));
            var (blob, s1) := ReadBlob(s0, FILE_ENCRYPTED_CHUNK_SIZE);
            && (blob.None? ==> l == Outcome(1, [], s1))
            && (blob.Some? ==>
                  var pulled := c.pull(st, blob.value);
                  && (pulled.None? ==> l == Outcome(2, [], s1))
                  && (pulled.Some? && DecInt(p) == END_CHUNK ==> l == Outcome(0, [pulled.value.1], s1))
                  && (pulled.Some? && DecInt(p) != END_CHUNK ==>
                        var more := ReceiveLoop(c, rx, pulled.value.0, s1, p, junk, i + 1);
                        l == Outcome(more.code, [pulled.value.1] + more.published, more.rest)))
  {
    hide Receive, ReadBlob, PrefixValue;
  }

  /** The client's end of a connection and its working directory. */
  class Agent {
    const c: Suite
    const sock: Socket
    const tx: Bytes
    const rx: Bytes
    const password: Bytes
    const nonce: Nonce
    var local: map<Bytes, Bytes>

    constructor (c: Suite, sock: Socket, tx: Bytes, rx: Bytes, password: Bytes, seed: u64, dir: map<Bytes, Bytes>)
      ensures this.c == c && this.sock == sock && this.tx == tx && this.rx == rx && this.password == password
      ensures local == dir && fresh(nonce) && nonce.value == seed
    {
      this.c, this.sock, this.tx, this.rx, this.password, local := c, sock, tx, rx, password, dir;
      nonce := new Nonce(seed);
    }

    /** One pass of `authed_comms`: notice, intent and the handler for it; `Aborted`
        and `Endless` stand for not returning. */
    method Perform(a: Action) returns (r: Result)
      requires SessionSound(c) && StreamShape(c) && sock.Valid() && Carriable(a)
      modifies this`local, sock`pending, sock`sent, nonce
      ensures sock.Valid() && nonce.value == Inc(Inc(old(nonce.value)))
      ensures sock.sent == old(sock.sent) + Wire(c, tx, ClientItems(c, password, old(local), a, old(nonce.value)), [])
      ensures (r, local, sock.Unread()) == ClientReceive(c, rx, password, old(local), a, old(sock.Unread()))
    {
      hide Encode, Wire, ReceiveFile, ReceiveList, ReceiveAck, UploadItems, Flatten;
      ghost var sent := sock.sent;
      SendSession(sock, c, tx, nonce, EncInt(NEW_ACTION));
      SendSession(sock, c, tx, nonce, EncInt(Intent(a)));
      ghost var head := sock.sent;
      ghost var body := BodyItems(c, password, local, a);
      SentAction(c, tx, old(nonce.value), a, body, sent);
      match a
      case Put(name, seed, header, salt) =>
        var sender := new SenderAgent(c, sock, tx, seed);
        r := sender.EncryptAndSend(SendingOf(password, a, []), Lookup(local, name));
      case Get(file, seed, junk, prefixes) =>
        SendName(file, seed);
        if |file| < |EXT| {
          return Aborted;
        }
        var receiver := new ReceiverAgent(c, sock, rx);
        var code, contents := receiver.DecryptAndRead(password, junk, prefixes);
        local := Saved(local, Stem(file), contents);
        r := Result.Got(code);
      case List(junk) =>
        EmptyWire(c, tx, []);
        r := ListNames(junk);
      case Delete(file, seed, junk) =>
        SendName(file, seed);
        r := AwaitAck(junk);
    }

    /** `authed_comms`: the user's actions in turn, at least one, then the closing
        notice, unless an action does not return. */
    method AuthedComms(acts: seq<Action>) returns (results: seq<Result>)
      requires SessionSound(c) && StreamShape(c) && sock.Valid()
      requires acts != [] && forall a | a in acts :: Carriable(a)
      modifies this`local, sock`pending, sock`sent, nonce
      ensures sock.Valid()
      ensures var r := ClientSession(c, rx, password, old(local), acts, old(nonce.value), old(sock.Unread()));
              && results == r.results && local == r.local && sock.Unread() == r.rest
              && sock.sent == old(sock.sent) + Wire(c, tx, r.items, [])
    {
      hide Encode, Wire, ClientItems, ClientReceive, ClientSession, SessionSound, StreamShape, Carriable;
      results := [];
      ghost var all := ClientSession(c, rx, password, local, acts, nonce.value, sock.Unread());
      ghost var target := sock.sent + Wire(c, tx, all.items, []);
      assert acts[0..] == acts;
      for i := 0 to |acts|
        invariant sock.Valid()
        invariant Ahead(all, results, ClientSession(c, rx, password, local, acts[i..], nonce.value, sock.Unread()))
        invariant target == sock.sent
                  + Wire(c, tx, ClientSession(c, rx, password, local, acts[i..], nonce.value, sock.Unread()).items, [])
      {
        ghost var sent, items := sock.sent, ClientItems(c, password, local, acts[i], nonce.value);
        ClientSessionStep(c, rx, password, local, acts[i..], nonce.value, sock.Unread());
        assert acts[i..][1..] == acts[i + 1..];
        var r := Perform(acts[i]);
        results := results + [r];
        if !r.Returned() {
          return;
        }
        SentMore(c, tx, items, ClientSession(c, rx, password, local, acts[i + 1..], nonce.value, sock.Unread()).items, sent);
      }
      LastWire(c, tx, Inc(nonce.value));
      ClientSessionLast(c, rx, password, local, nonce.value, sock.Unread());
      assert acts[|acts|..] == [];
      SendSession(sock, c, tx, nonce, EncInt(NO_ACTION));
    }

    method SendName(file: Bytes, seed: u64)
      requires SessionSound(c) && |file| < FILE_ENCRYPTED_CHUNK_SIZE
      modifies sock`sent
      ensures sock.sent == old(sock.sent) + Wire(c, tx, [Session(Inc(seed), file + [0])], [])
    {
      hide Encode;
      var counter := new Nonce(seed);
      SendSession(sock, c, tx, counter, file + [0]);
      ghost var items := [Session(Inc(seed), file + [0])];
      assert items[1..] == [];
    }

    method AwaitAck(junk: Word) returns (r: Result)
      requires sock.Valid()
      modifies sock`pending
      ensures sock.Valid() && (r, sock.Unread()) == ReceiveAck(c, rx, old(sock.Unread()), junk)
    {
      hide Receive;
      var ack := RecvSession(sock, c, rx, 4);
      if ack.Refused? {
        return Deleted(1, false);
      }
      r := Deleted(0, DecInt(Overlay(ack.plain, junk)) == ACK_SUC);
    }

    method ListNames(junk: Word) returns (r: Result)
      requires sock.Valid()
      modifies sock`pending
      ensures sock.Valid() && (r, sock.Unread()) == ReceiveList(c, rx, old(sock.Unread()), junk)
    {
      hide Receive;
      var word := RecvSession(sock, c, rx, 4);
      if word.Refused? {
        return Listed(1, []);
      }
      var count := DecInt(Overlay(word.plain, junk));
      var names: seq<Bytes>, i := [], 0;
      ghost var all := ReceiveNames(c, rx, sock.Unread(), count);
      assert all.0.Some? ==> [] + all.0.value == all.0.value;
      while i < count
        invariant sock.Valid() && 0 <= i
        invariant all == Prepended(names, ReceiveNames(c, rx, sock.Unread(), count - i))
      {
        ghost var rest := ReceiveNames(c, rx, sock.Unread(), count - i);
        var name := RecvSession(sock, c, rx, MAX_FILE_NAME_LENGTH - 1);
        if name.Refused? {
          return Listed(1, []);
        }
        var shown := CString(name.plain + [0]);
        PrependedStep(names, shown, ReceiveNames(c, rx, sock.Unread(), count - i - 1));
        names, i := names + [shown], i + 1;
      }
      assert names + [] == names;
      r := Listed(0, names);
    }
  }

  /** Every text of the action is within the wrapper's array. */
  predicate Carriable(a: Action)
  {
    match a
    case Put(name, _, header, salt) => |name| <= FILE_ENCRYPTED_CHUNK_SIZE && |header| == HEADER && |salt| == SALT
    case Get(file, _, _, _) => |file| < FILE_ENCRYPTED_CHUNK_SIZE
    case List(_) => true
    case Delete(file, _, _) => |file| < FILE_ENCRYPTED_CHUNK_SIZE
  }

  /** `results` and then `later` are what `all` promises. */
  predicate Ahead(all: ClientRun, results: seq<Result>, later: ClientRun)
  {
    all.results == results + later.results && all.local == later.local && all.rest == later.rest
  }

  lemma ClientSessionLast(c: Suite, rx: Bytes, password: Bytes, local: map<Bytes, Bytes>, nonce: u64, s: Bytes)
    ensures ClientSession(c, rx, password, local, [], nonce, s)
         == ClientRun([], local, [Session(Inc(nonce), EncInt(NO_ACTION))], s)
  {
  }

  function Prepended(names: seq<Bytes>, r: (Option<seq<Bytes>>, Bytes)): (Option<seq<Bytes>>, Bytes)
  {
    (if r.0.None? then None else Some(names + r.0.value), r.1)
  }

  lemma PrependedStep(names: seq<Bytes>, name: Bytes, r: (Option<seq<Bytes>>, Bytes))
    ensures Prepended(names + [name], r) == Prepended(names, Prepended([name], r))
  {
    if r.0.Some? {
      assert (names + [name]) + r.0.value == names + ([name] + r.0.value);
    }
  }

  lemma LastWire(c: Suite, key: Bytes, n: u64)
    ensures Wire(c, key, [Session(n, EncInt(NO_ACTION))], []) == Encode(c, key, Session(n, EncInt(NO_ACTION)))
  {
    hide Encode;
    var items := [Session(n, EncInt(NO_ACTION))];
    assert items[1..] == [];
  }

  lemma SentAction(c: Suite, key: Bytes, n: u64, a: Action, body: seq<Item>, sent: Bytes)
    ensures sent + Wire(c, key, NoticeItems(a, n) + body, [])
         == ((sent + Encode(c, key, NoticeItems(a, n)[0])) + Encode(c, key, NoticeItems(a, n)[1])) + Wire(c, key, body, [])
  {
    hide Encode;
    var head := NoticeItems(a, n);
    var tail := Wire(c, key, body, []);
    WireConcat(c, key, head, body, []);
    assert head[1..] == [head[1]];
    assert head[1..][1..] == [];
    assert Wire(c, key, head[1..], tail) == Encode(c, key, head[1]) + tail;
    Assoc(sent, Encode(c, key, head[0]), Encode(c, key, head[1]) + tail);
    Assoc(sent + Encode(c, key, head[0]), Encode(c, key, head[1]), tail);
  }
}
