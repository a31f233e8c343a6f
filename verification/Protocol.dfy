/** The protocol in numbers: the bytes that the two programs, compiled apart, must
    agree on.  Every statement here has the values written out. */
module Protocol {
  import opened Octets
  import opened Crypto
  import opened Framing
  import opened Chunking
  import opened Upload
  import opened Download
  import opened Actions

  // Integers and frames.

  lemma DivDiv(n: nat, p: nat)
    requires p > 0
    ensures n / 256 / p == n / (256 * p)
  {
    var a := n / 256;
    var q, s, r := a / p, a % p, n % 256;
    assert a == q * p + s;
    assert n == q * (256 * p) + (256 * s + r) by {
      assert n == 256 * (q * p + s) + r;
      assert 256 * (q * p) == q * (256 * p);
    }
    DivUnique(n, 256 * p, q, 256 * s + r);
  }

  /** Integers travel least significant byte first. */
  lemma {:induction false} LittleEndian(n: nat, k: nat, i: nat)
    requires i < k
    ensures LE(n, k)[i] == n / Pow256(i) % 256
  {
    if i > 0 {
      LittleEndian(n / 256, k - 1, i - 1);
      DivDiv(n, Pow256(i - 1));
    }
  }

  /** A small positive `int`, and the only word that means it. */
  lemma WordIs(w: Word, b: byte)
    ensures EncInt(b) == [b, 0, 0, 0]
    ensures DecInt(w) == b <==> w == [b, 0, 0, 0]
  {
    assert LE(b, 4) == [b % 256] + LE(b / 256, 3);
    assert LE(0, 3) == [0] + LE(0, 2) && LE(0, 2) == [0] + LE(0, 1) && LE(0, 1) == [0] + LE(0, 0);
    Unfold(w);
  }

  lemma Unfold(w: Word)
    ensures FromLE(w) == w[0] as int + 256 * (w[1] as int + 256 * (w[2] as int + 256 * w[3] as int))
  {
    assert w[1..][1..] == w[2..] && w[2..][1..] == w[3..] && w[3..][1..] == [];
    assert FromLE(w[3..]) == w[3] && FromLE(w[2..]) == w[2] + 256 * FromLE(w[3..]);
    assert FromLE(w[1..]) == w[1] + 256 * FromLE(w[2..]);
  }

  /** A session frame: eight bytes of length, eight of nonce, then the sealed text,
      sixteen bytes longer than the text; a blob: eight bytes of length, then itself. */
  lemma FrameLayout(c: Suite, key: Bytes, nonce: u64, text: Bytes, blob: Bytes)
    requires SessionSound(c)
    ensures var f := Encode(c, key, Session(nonce, text));
            && |f| == 32 + |text| && f[16..] == c.seal(key, nonce, text)
            && forall i | 0 <= i < 8 :: f[i] == (16 + |text|) / Pow256(i) % 256 && f[8 + i] == nonce / Pow256(i) % 256
    ensures var b := Encode(c, key, Raw(blob));
            && |b| == 8 + |blob| && b[8..] == blob
            && forall i | 0 <= i < 8 :: b[i] == |blob| / Pow256(i) % 256
  {
    hide Pow256, LE;
    forall i | 0 <= i < 8
      ensures LE(16 + |text|, 8)[i] == (16 + |text|) / Pow256(i) % 256
      ensures LE(nonce, 8)[i] == nonce / Pow256(i) % 256 && LE(|blob|, 8)[i] == |blob| / Pow256(i) % 256
    {
      LittleEndian(16 + |text|, 8, i);
      LittleEndian(nonce, 8, i);
      LittleEndian(|blob|, 8, i);
    }
  }

  /** What is written over a buffer covers its start and nothing else. */
  lemma OverlayAt(top: Bytes, under: Bytes, i: nat)
    requires i < |under|
    ensures Overlay(top, under)[i] == if i < |top| then top[i] else under[i]
  {
  }

  // The server's loop.

  /** 88 starts an action; any other notice, 99 among them, ends the loop, and so
      does one that cannot be read. */
  lemma NoticeWord(c: Suite, key: Bytes, nonce: u64, w: Word, rest: Bytes, home: Home, env: Env)
    requires SessionSound(c)
    ensures var t := ServeTurn(c, key, Wire(c, key, [Session(nonce, w)], rest), home, env);
            if w == [88, 0, 0, 0] then !t.flow.Ends? else t == Turn(Ends, home, [], rest)
  {
    hide Receive, Encode, Dispatch;
    var items := [Session(nonce, w)];
    assert items[1..] == [];
    ReceiveSession(c, key, nonce, w, rest, 4);
    WordIs(w, 88);
  }

  lemma UnreadNotice(c: Suite, key: Bytes, s: Bytes, home: Home, env: Env)
    requires Receive(c, key, s, 4).0.Refused?
    ensures ServeTurn(c, key, s, home, env) == Turn(Ends, home, [], Receive(c, key, s, 4).1)
  {
    hide Receive, Dispatch;
  }

  lemma TwoFrames(c: Suite, key: Bytes, a: Item, b: Item, rest: Bytes)
    ensures Wire(c, key, [a, b], rest) == Encode(c, key, a) + (Encode(c, key, b) + rest)
  {
    hide Encode;
    var items := [a, b];
    assert items[1..] == [b] && items[1..][1..] == [];
    assert Wire(c, key, items[1..], rest) == Encode(c, key, b) + rest;
  }

  /** 1 reads, 2 writes, 3 lists, 4 deletes; any other intent does nothing and the
      loop goes on. */
  lemma IntentWord(c: Suite, key: Bytes, nonce: u64, nonce1: u64, w: Word, rest: Bytes, home: Home, env: Env)
    requires SessionSound(c)
    ensures ServeTurn(c, key, Wire(c, key, [Session(nonce, [88, 0, 0, 0]), Session(nonce1, w)], rest), home, env)
         == if w == [1, 0, 0, 0] then ServeDownload(c, key, rest, home, env).1
            else if w == [2, 0, 0, 0] then ServeWrite(c, key, rest, home, env).1
            else if w == [3, 0, 0, 0] then ServeList(rest, home, env)
            else if w == [4, 0, 0, 0] then ServeDelete(c, key, rest, home, env).1
            else Turn(Goes, home, [], rest)
  {
    hide Receive, Encode, Wire, ServeDownload, ServeWrite, ServeList, ServeDelete, DecInt;
    var notice := Session(nonce, [88, 0, 0, 0]);
    TwoFrames(c, key, notice, Session(nonce1, w), rest);
    ReceiveSession(c, key, nonce, [88, 0, 0, 0], Encode(c, key, Session(nonce1, w)) + rest, 4);
    ReceiveSession(c, key, nonce1, w, rest, 4);
    WordIs([88, 0, 0, 0], 88);
    WordIs(w, 1);
    WordIs(w, 2);
    WordIs(w, 3);
    WordIs(w, 4);
  }

  /** An intent that cannot be read costs only its turn. */
  lemma UnreadIntent(c: Suite, key: Bytes, nonce: u64, s: Bytes, home: Home, env: Env)
    requires SessionSound(c) && Receive(c, key, s, 4).0.Refused?
    ensures ServeTurn(c, key, Wire(c, key, [Session(nonce, [88, 0, 0, 0])], s), home, env)
         == Turn(Goes, home, [], Receive(c, key, s, 4).1)
  {
    hide Receive, Encode, Dispatch, DecInt;
    var items := [Session(nonce, [88, 0, 0, 0])];
    assert items[1..] == [];
    ReceiveSession(c, key, nonce, [88, 0, 0, 0], s, 4);
    WordIs([88, 0, 0, 0], 88);
  }

  /** An acknowledgement is 0 or -1, and the client takes 0 alone for success. */
  lemma AckWord(c: Suite, key: Bytes, nonce: u64, w: Word, rest: Bytes, junk: Word)
    requires SessionSound(c)
    ensures Ack(true) == [0, 0, 0, 0] && Ack(false) == [255, 255, 255, 255]
    ensures ReceiveAck(c, key, Wire(c, key, [Session(nonce, w)], rest), junk) == (Deleted(0, w == [0, 0, 0, 0]), rest)
  {
    hide Receive, Encode;
    var items := [Session(nonce, w)];
    assert items[1..] == [];
    ReceiveSession(c, key, nonce, w, rest, 4);
    WordIs(w, 0);
    MinusOne();
  }

  lemma MinusOne()
    ensures EncInt(-1) == [255, 255, 255, 255]
  {
    assert -1 % TWO32 == 0xFFFF_FFFF;
    assert LE(0xFFFF_FFFF, 4) == [255] + LE(0xFF_FFFF, 3);
    assert LE(0xFF_FFFF, 3) == [255] + LE(0xFFFF, 2);
    assert LE(0xFFFF, 2) == [255] + LE(0xFF, 1);
  }

  // The transfer.

  /** 66 goes on and 77 stops, but the two ends ask differently: the server's loop
      goes on for 66 alone, the client's stops for 77 alone. */
  lemma PrefixWord(c: Suite, key: Bytes, st: Bytes, nonce: u64, w: Word, blob: Bytes, tail: Bytes, prefix: Word,
                   junk: nat -> Word, i: nat)
    requires SessionSound(c) && |blob| <= 65553
    ensures var s := Encode(c, key, Session(nonce, w)) + (Encode(c, key, Raw(blob)) + tail);
            && (var more := ChunkLoop(c, key, tail, w);
                ChunkLoop(c, key, s, prefix)
                == if w == [66, 0, 0, 0] then Outcome(more.code, [blob] + more.published, more.rest) else Outcome(0, [blob], tail))
            && (c.pull(st, blob).Some? ==>
                  var (next, plain, _) := c.pull(st, blob).value;
                  var more := ReceiveLoop(c, key, next, tail, w, junk, i + 1);
                  ReceiveLoop(c, key, st, s, prefix, junk, i)
                  == if w == [77, 0, 0, 0] then Outcome(0, [plain], tail)
                     else Outcome(more.code, [plain] + more.published, more.rest))
  {
    hide Receive, Encode, ChunkLoop, ReceiveLoop, DecInt;
    LoopStep(c, key, nonce, w, blob, tail, prefix);
    ReceiveStep(c, key, st, nonce, w, blob, tail, prefix, junk, i);
    WordIs(w, 66);
    WordIs(w, 77);
  }

  /** An upload, frame by frame: 1, the name, 24 bytes of header and 16 of salt; then
      n/65536 + 1 pairs, each 66 or at the last 77 and the chunk pushed with tag 0
      or at the last 3, in the stream that password, salt and header start. */
  lemma UploadLayout(c: Suite, u: Sending, i: nat)
    requires StreamShape(c) && u.Valid() && i <= |u.data| / 65536
    ensures var items, last := UploadItems(c, u), |u.data| / 65536;
            && |items| == 4 + 2 * (last + 1)
            && items[0] == Session((u.nonce + 1) % TWO64, [1]) && items[1] == Session((u.nonce + 2) % TWO64, u.name)
            && items[2] == Session((u.nonce + 3) % TWO64, u.header) && |u.header| == 24
            && items[3] == Session((u.nonce + 4) % TWO64, u.salt) && |u.salt| == 16
            && items[4 + 2 * i] == Session((u.nonce + 5 + i) % TWO64, [if i == last then 77 else 66, 0, 0, 0])
            && |u.Chunks()| == last + 1
            && items[5 + 2 * i]
               == Raw(c.push(StateAt(c, c.initPush(c.derive(u.password, u.salt), u.header), u.Chunks(), i), u.Chunks()[i],
                             if i == last then 3 else 0).1)
  {
    hide Encrypt, ChunkItems, StateAt, Cut, EncInt, Inc;
    RechunkingAgrees(c, u);
    ChunkItemsAt(Inc4(u.nonce), u.Blobs(c), i);
    EncryptAt(c, u.StartState(c), u.Chunks(), i);
    CounterSteps(u.nonce, i);
    WordIs([0, 0, 0, 0], 77);
    WordIs([0, 0, 0, 0], 66);
    assert UploadItems(c, u)[4 + 2 * i] == ChunkItems(Inc4(u.nonce), u.Blobs(c))[2 * i];
    assert UploadItems(c, u)[5 + 2 * i] == ChunkItems(Inc4(u.nonce), u.Blobs(c))[2 * i + 1];
  }

  lemma TwoSteps(n: u64, i: nat)
    ensures (Inc(Inc(n)) + i) % TWO64 == (n + 2 + i) % TWO64
  {
    hide Inc;
    IncThen(Inc(n), i);
    IncThen(n, i + 1);
  }

  lemma Steps(n: u64, m: u64, i: nat)
    requires m == Inc(Inc(n))
    ensures m == (n + 2) % TWO64 && Inc(m) == (n + 3) % TWO64 && (m + 1 + i) % TWO64 == (n + 3 + i) % TWO64
  {
    TwoSteps(n, 0);
    TwoSteps(n, 1);
    TwoSteps(n, 1 + i);
  }

  lemma CounterSteps(n: u64, i: nat)
    ensures Inc(n) == (n + 1) % TWO64 && Inc(Inc(n)) == (n + 2) % TWO64
    ensures Inc(Inc(Inc(n))) == (n + 3) % TWO64 && Inc4(n) == (n + 4) % TWO64
    ensures (Inc4(n) + 1 + i) % TWO64 == (n + 5 + i) % TWO64
    ensures (Inc(Inc(n)) + 1 + i) % TWO64 == (n + 3 + i) % TWO64
  {
    assert Inc(n) == (n + 1) % TWO64;
    hide Inc;
    var m := Inc(Inc(n));
    Steps(n, m, i);
    Steps(m, Inc(Inc(m)), i);
    TwoSteps(n, 2);
    TwoSteps(n, 3 + i);
  }

  /** The stored file: 24 bytes of header, 16 of salt, then the blobs; an upload adds
      it under the name with ".enc" and touches nothing else. */
  lemma StoredLayout(c: Suite, key: Bytes, u: Sending, store: map<Bytes, Bytes>, junk: Junk, rest: Bytes)
    requires Sound(c) && junk.Valid() && Sendable(u)
    ensures var after := ServeUpload(c, key, Wire(c, key, UploadItems(c, u), rest), store, junk).1;
            var name := u.name + [46, 101, 110, 99];
            && name in after && after - {name} == store - {name}
            && |after[name]| >= 40
            && after[name][..24] == u.header && after[name][24..40] == u.salt && after[name][40..] == Flatten(u.Blobs(c))
  {
    hide ServeUpload, Wire, UploadItems, Encrypt, Flatten, Cut;
    UploadStores(c, key, u, store, junk, rest);
    var file := u.Stored(c);
    assert file[..24] == u.header && file[24..40] == u.salt && file[40..] == Flatten(u.Blobs(c));
  }

  /** A download of it, frame by frame. */
  lemma DownloadLayout(c: Suite, u: Sending, nonce: u64, junk: Junk, i: nat)
    requires StreamShape(c) && u.Valid() && junk.Valid() && i <= |u.data| / 65536
    ensures var items, last := DownloadItems(nonce, u.Stored(c), junk), |u.data| / 65536;
            && |items| == 2 + 2 * (last + 1) && |u.Blobs(c)| == last + 1
            && items[0] == Session((nonce + 1) % TWO64, u.header) && items[1] == Session((nonce + 2) % TWO64, u.salt)
            && items[2 + 2 * i] == Session((nonce + 3 + i) % TWO64, [if i == last then 77 else 66, 0, 0, 0])
            && items[3 + 2 * i] == Raw(u.Blobs(c)[i])
  {
    hide Encrypt, ChunkItems, Cut, EncInt, Flatten, Inc;
    RechunkingAgrees(c, u);
    StoredParts(u, Flatten(u.Blobs(c)), junk);
    ChunkItemsAt(Inc(Inc(nonce)), u.Blobs(c), i);
    CounterSteps(nonce, i);
    WordIs([0, 0, 0, 0], 77);
    WordIs([0, 0, 0, 0], 66);
    var items, chunks := DownloadItems(nonce, u.Stored(c), junk), ChunkItems(Inc(Inc(nonce)), u.Blobs(c));
    assert items[2 + 2 * i] == chunks[2 * i] && items[3 + 2 * i] == chunks[2 * i + 1];
  }

  /** A download of a file that is shorter than header and salt: what there is of
      them, with stale bytes behind it, then one empty pair marked 77. */
  lemma ShortDownload(file: Bytes, nonce: u64, junk: Junk)
    requires junk.Valid() && |file| < 40
    ensures DownloadItems(nonce, file, junk)
         == [Session((nonce + 1) % TWO64, if |file| < 24 then file + junk.header[|file|..] else file[..24]),
             Session((nonce + 2) % TWO64, if |file| < 24 then junk.salt else file[24..] + junk.salt[|file| - 24..]),
             Session((nonce + 3) % TWO64, [77, 0, 0, 0]), Raw([])]
  {
    hide EncInt, Inc, StoredHeader, StoredSalt;
    CounterSteps(nonce, 0);
    WordIs([0, 0, 0, 0], 77);
    ShortHead(file, junk);
    assert Cut(StoredBody(file), FILE_ENCRYPTED_CHUNK_SIZE) == [[]];
    var pieces: seq<Bytes> := [[]];
    assert pieces[1..] == [];
    assert ChunkItems(Inc(Inc(nonce)), pieces) == [Session(Inc(Inc(Inc(nonce))), Mark(1)), Raw([])];
  }

  lemma ShortHead(file: Bytes, junk: Junk)
    requires junk.Valid() && |file| < 40
    ensures StoredHeader(file, junk) == if |file| < 24 then file + junk.header[|file|..] else file[..24]
    ensures StoredSalt(file, junk) == if |file| < 24 then junk.salt else file[24..] + junk.salt[|file| - 24..]
  {
  }

  // The client's session.

  function IntentBytes(a: Action): Word
  {
    match a
    case Get(_, _, _, _) => [1, 0, 0, 0]
    case Put(_, _, _, _) => [2, 0, 0, 0]
    case List(_) => [3, 0, 0, 0]
    case Delete(_, _, _) => [4, 0, 0, 0]
  }

  /** The `k`-th value of a counter after `n`. */
  function After(n: u64, k: nat): u64
  {
    (n + k) % TWO64
  }

  /** A whole session in positions: before body `i` the notice 88 and the intent, under
      the next two values of one counter, and at the end the notice 99. */
  function Script(acts: seq<Action>, bodies: seq<seq<Item>>, nonce: u64, i: nat): seq<Item>
    requires |bodies| == |acts| && i <= |acts|
    decreases |acts| - i
  {
    if i == |acts| then [Session(After(nonce, 2 * i + 1), [99, 0, 0, 0])] else
    [Session(After(nonce, 2 * i + 1), [88, 0, 0, 0]), Session(After(nonce, 2 * i + 2), IntentBytes(acts[i]))]
    + bodies[i] + Script(acts, bodies, nonce, i + 1)
  }

  /** The bodies of a session's actions, the replies deciding which files it has. */
  function Bodies(c: Suite, rx: Bytes, password: Bytes, local: map<Bytes, Bytes>, acts: seq<Action>, s: Bytes): (b: seq<seq<Item>>)
    ensures |b| == |acts|
    decreases |acts|
  {
    if acts == [] then [] else
    var (_, local', rest) := ClientReceive(c, rx, password, local, acts[0], s);
    [BodyItems(c, password, local, acts[0])] + Bodies(c, rx, password, local', acts[1..], rest)
  }

  lemma AfterTwo(n: u64, k: nat)
    ensures After(Inc(Inc(n)), k) == After(n, k + 2)
    ensures After(n, 1) == Inc(n) && After(n, 2) == Inc(Inc(n))
  {
    TwoSteps(n, k);
    TwoSteps(n, 0);
  }

  lemma {:induction false} ScriptShift(acts: seq<Action>, bodies: seq<seq<Item>>, nonce: u64, i: nat)
    requires |bodies| == |acts| && i < |acts|
    ensures Script(acts, bodies, nonce, i + 1) == Script(acts[1..], bodies[1..], Inc(Inc(nonce)), i)
    decreases |acts| - i
  {
    hide IntentBytes, Inc, After;
    AfterTwo(nonce, 2 * i + 1);
    AfterTwo(nonce, 2 * i + 2);
    if i + 1 < |acts| {
      ScriptShift(acts, bodies, nonce, i + 1);
    }
  }

  lemma IntentIs(a: Action)
    ensures EncInt(Intent(a)) == IntentBytes(a) && EncInt(NEW_ACTION) == [88, 0, 0, 0] && EncInt(NO_ACTION) == [99, 0, 0, 0]
  {
    WordIs([0, 0, 0, 0], 1);
    WordIs([0, 0, 0, 0], 2);
    WordIs([0, 0, 0, 0], 3);
    WordIs([0, 0, 0, 0], 4);
    WordIs([0, 0, 0, 0], 88);
    WordIs([0, 0, 0, 0], 99);
  }

  lemma {:induction false} SessionScript(c: Suite, rx: Bytes, password: Bytes, local: map<Bytes, Bytes>, acts: seq<Action>,
                                        nonce: u64, s: Bytes)
    requires forall r | r in ClientSession(c, rx, password, local, acts, nonce, s).results :: r.Returned()
    ensures ClientSession(c, rx, password, local, acts, nonce, s).items
         == Script(acts, Bodies(c, rx, password, local, acts, s), nonce, 0)
    decreases |acts|
  {
    hide ClientReceive, BodyItems, EncInt, IntentBytes, Intent, Inc, After;
    if acts == [] {
      IntentIs(List([0, 0, 0, 0]));
      AfterTwo(nonce, 0);
    } else {
      var (r, local1, rest) := ClientReceive(c, rx, password, local, acts[0], s);
      var bodies := Bodies(c, rx, password, local, acts, s);
      var later := ClientSession(c, rx, password, local1, acts[1..], Inc(Inc(nonce)), rest);
      assert r in ClientSession(c, rx, password, local, acts, nonce, s).results;
      forall x | x in later.results ensures x.Returned() {
        assert x in ClientSession(c, rx, password, local, acts, nonce, s).results;
      }
      SessionScript(c, rx, password, local1, acts[1..], Inc(Inc(nonce)), rest);
      ScriptShift(acts, bodies, nonce, 0);
      assert bodies[1..] == Bodies(c, rx, password, local1, acts[1..], rest);
      IntentIs(acts[0]);
      AfterTwo(nonce, 0);
    }
  }
}
