/** The download: what the server sends for a stored file, and what the client's
    receiving loop makes of an arbitrary byte stream. */
module Download {
  import opened Octets
  import opened Crypto
  import opened Framing
  import opened Chunking
  import opened Upload

  // The server.

  function Min(a: nat, b: nat): nat
  {
    if a <= b then a else b
  }

  /** What two reads of header and salt size find in a stored file, over what the
      variables held; a file that ends early leaves their tails alone. */
  function StoredHeader(file: Bytes, junk: Junk): Bytes
  {
    Overlay(file[..Min(HEADER, |file|)], junk.header)
  }

  function StoredSalt(file: Bytes, junk: Junk): Bytes
  {
    Overlay(file[Min(HEADER, |file|)..Min(HEADER + SALT, |file|)], junk.salt)
  }

  function StoredBody(file: Bytes): Bytes
  {
    file[Min(HEADER + SALT, |file|)..]
  }

  function DownloadItems(nonce: u64, file: Bytes, junk: Junk): seq<Item>
  {
    HeadItems(nonce, StoredHeader(file, junk), StoredSalt(file, junk))
    + ChunkItems(Inc(Inc(nonce)), Cut(StoredBody(file), FILE_ENCRYPTED_CHUNK_SIZE))
  }

  function HeadItems(nonce: u64, header: Bytes, salt: Bytes): seq<Item>
  {
    [Session(Inc(nonce), header), Session(Inc(Inc(nonce)), salt)]
  }

  // The client.

  /** The prefix variable after an ignored `unwrap` result: a failed decryption
      may leave anything, a refused frame leaves it alone. */
  function PrefixValue(u: Unwrapped, prefix: Word, junk: Word): Word
  {
    match u
    case Opened(plain) => Overlay(plain, prefix)
    case Refused(code) => if code == 1 then junk else prefix
  }

  function ReceiveLoop(c: Suite, rx: Bytes, st: Bytes, s: Bytes, prefix: Word, junk: nat -> Word, i: nat): (r: Outcome)
    ensures |r.rest| <= |s|
    decreases |s|
  {
    var (mark, s0) := Receive(c, rx, s, 4);
    var prefix' := PrefixValue(mark, prefix, junk(i));
    var (blob, s1) := ReadBlob(s0, FILE_ENCRYPTED_CHUNK_SIZE);
    if blob.None? then Outcome(1, [], s1) else
    match c.pull(st, blob.value)
    case None => Outcome(2, [], s1)
    case Some((st', plain, tag)) =>
      if DecInt(prefix') == END_CHUNK then Outcome(0, [plain], s1) else
      var more := ReceiveLoop(c, rx, st', s1, prefix', junk, i + 1);
      Outcome(more.code, [plain] + more.published, more.rest)
  }

  /** `decrypt_and_read_from_server`. */
  function ReceiveFile(c: Suite, rx: Bytes, password: Bytes, s: Bytes, junk: Junk, junks: nat -> Word): Outcome
  {
    var (header, s0) := Receive(c, rx, s, HEADER);
    if header.Refused? then Outcome(1, [], s0) else
    var (salt, s1) := Receive(c, rx, s0, SALT);
    if salt.Refused? then Outcome(1, [], s1) else
    var key := c.derive(password, Overlay(salt.plain, junk.salt));
    match c.initPull(key, Overlay(header.plain, junk.header))
    case None => Outcome(2, [], s1)
    case Some(st) => ReceiveLoop(c, rx, st, s1, EncInt(END_CHUNK), junks, 0)
  }

  /** Every published chunk fits its slot, whatever arrives. */
  lemma {:induction false} PublishedFits(c: Suite, rx: Bytes, st: Bytes, s: Bytes, prefix: Word, junk: nat -> Word, i: nat)
    requires StreamShape(c)
    ensures forall x | x in ReceiveLoop(c, rx, st, s, prefix, junk, i).published :: |x| <= CHUNK_SIZE
    decreases |s|
  {
    hide Receive, ReadBlob;
    var (mark, s0) := Receive(c, rx, s, 4);
    var (blob, s1) := ReadBlob(s0, FILE_ENCRYPTED_CHUNK_SIZE);
    if blob.Some? && c.pull(st, blob.value).Some? {
      PublishedFits(c, rx, c.pull(st, blob.value).value.0, s1, PrefixValue(mark, prefix, junk(i)), junk, i + 1);
    }
  }

  /** One whole pair in front of `tail`. */
  lemma ReceiveStep(c: Suite, rx: Bytes, st: Bytes, nonce: u64, mark: Word, blob: Bytes, tail: Bytes,
                    prefix: Word, junk: nat -> Word, i: nat)
    requires SessionSound(c) && |blob| <= FILE_ENCRYPTED_CHUNK_SIZE
    ensures ReceiveLoop(c, rx, st, Encode(c, rx, Session(nonce, mark)) + (Encode(c, rx, Raw(blob)) + tail), prefix, junk, i)
         == match c.pull(st, blob)
            case None => Outcome(2, [], tail)
            case Some((st', plain, tag)) =>
              if DecInt(mark) == END_CHUNK then Outcome(0, [plain], tail) else
              var more := ReceiveLoop(c, rx, st', tail, mark, junk, i + 1);
              Outcome(more.code, [plain] + more.published, more.rest)
  {
    hide Receive, ReadBlob, Encode;
    ReceiveSession(c, rx, nonce, mark, Encode(c, rx, Raw(blob)) + tail, 4);
    ReadBlobOfRaw(c, rx, blob, tail, FILE_ENCRYPTED_CHUNK_SIZE);
  }

  /** A whole encrypted stream decrypts to its chunks. */
  lemma {:induction false} LoopDecrypts(c: Suite, rx: Bytes, st: Bytes, nonce: u64, chunks: seq<Bytes>, rest: Bytes,
                                       prefix: Word, junk: nat -> Word, i: nat)
    requires Sound(c) && chunks != []
    requires forall i | 0 <= i < |chunks| :: |chunks[i]| <= CHUNK_SIZE
    ensures ReceiveLoop(c, rx, st, ChunkWire(c, rx, nonce, Encrypt(c, st, chunks), rest), prefix, junk, i)
         == Outcome(0, chunks, rest)
    decreases |chunks|
  {
    hide Receive, ReadBlob, Encode;
    var blobs := Encrypt(c, st, chunks);
    EncryptShape(c, st, chunks);
    ChunkWireStep(c, rx, nonce, blobs, rest);
    MarkRoundTrip(|blobs|);
    var tail := ChunkWire(c, rx, Inc(nonce), blobs[1..], rest);
    ReceiveStep(c, rx, st, Inc(nonce), Mark(|blobs|), blobs[0], tail, prefix, junk, i);
    if |chunks| == 1 {
      assert chunks == [chunks[0]];
      assert blobs[1..] == [];
    } else {
      LoopDecrypts(c, rx, c.push(st, chunks[0], Tag(|chunks|)).0, Inc(nonce), chunks[1..], rest, Mark(|blobs|), junk, i + 1);
      assert chunks == [chunks[0]] + chunks[1..];
    }
  }

  lemma EmptyEndFails(c: Suite, rx: Bytes, st: Bytes, nonce: u64, rest: Bytes, prefix: Word, junk: nat -> Word, i: nat)
    requires SessionSound(c) && StreamShape(c)
    ensures ReceiveLoop(c, rx, st, ChunkWire(c, rx, nonce, [[]], rest), prefix, junk, i) == Outcome(2, [], rest)
  {
    hide Receive, ReadBlob, Encode;
    var blobs: seq<Bytes> := [[]];
    assert blobs[1..] == [];
    ChunkWireStep(c, rx, nonce, blobs, rest);
    ReceiveStep(c, rx, st, Inc(nonce), Mark(1), [], rest, prefix, junk, i);
    assert c.pull(st, []) == None;
  }

  /** What is left of an encrypted stream after its first blob. */
  lemma EncryptTail(c: Suite, st: Bytes, chunks: seq<Bytes>, j: nat, next: Bytes)
    requires StreamShape(c) && 0 < j <= |chunks| && next == c.push(st, chunks[0], Tag(|chunks|)).0
    ensures |Encrypt(c, st, chunks)| == |chunks| && |Encrypt(c, next, chunks[1..])| == |chunks| - 1
    ensures var blobs := Encrypt(c, st, chunks)[..j] + [[]];
            && blobs[0] == c.push(st, chunks[0], Tag(|chunks|)).1
            && blobs[1..] == Encrypt(c, next, chunks[1..])[..j - 1] + [[]]
  {
    EncryptShape(c, st, chunks);
    EncryptShape(c, next, chunks[1..]);
  }

  /** A stream that lost its end, closed with the empty END blob: the chunks
      before the loss are written and the result is the decryption error. */
  lemma {:induction false} LoopRejectsEmptyEnd(c: Suite, rx: Bytes, st: Bytes, nonce: u64, chunks: seq<Bytes>, j: nat, rest: Bytes,
                                              prefix: Word, junk: nat -> Word, i: nat)
    requires Sound(c) && j <= |chunks| && |Encrypt(c, st, chunks)| == |chunks|
    requires forall i | 0 <= i < |chunks| :: |chunks[i]| <= CHUNK_SIZE
    ensures ReceiveLoop(c, rx, st, ChunkWire(c, rx, nonce, Encrypt(c, st, chunks)[..j] + [[]], rest), prefix, junk, i)
         == Outcome(2, chunks[..j], rest)
    decreases j
  {
    hide Receive, ReadBlob, Encode;
    var blobs := Encrypt(c, st, chunks)[..j] + [[]];
    if j == 0 {
      assert blobs == [[]];
      EmptyEndFails(c, rx, st, nonce, rest, prefix, junk, i);
    } else {
      var next := c.push(st, chunks[0], Tag(|chunks|)).0;
      EncryptTail(c, st, chunks, j, next);
      LoopRejectsEmptyEnd(c, rx, next, Inc(nonce), chunks[1..], j - 1, rest, Mark(|blobs|), junk, i + 1);
      ChunkWireStep(c, rx, nonce, blobs, rest);
      MarkRoundTrip(|blobs|);
      var tail := ChunkWire(c, rx, Inc(nonce), blobs[1..], rest);
      ReceiveStep(c, rx, st, Inc(nonce), Mark(|blobs|), blobs[0], tail, prefix, junk, i);
      TakeCons(chunks, j - 1);
    }
  }

  /** Prefix safety of the loop: with an authentic stream, whatever bytes arrive
      and whatever the prefixes decode to, what is published is a prefix of the
      chunks that were encrypted. */
  lemma {:induction false} LoopPrefixSafe(c: Suite, rx: Bytes, st: Bytes, s: Bytes, prefix: Word, junk: nat -> Word, i: nat,
                                         chunks: seq<Bytes>)
    requires OnlyAccepts(c, st, chunks)
    ensures ReceiveLoop(c, rx, st, s, prefix, junk, i).published <= chunks
    decreases |s|
  {
    hide Receive, ReadBlob;
    var (mark, s0) := Receive(c, rx, s, 4);
    var (blob, s1) := ReadBlob(s0, FILE_ENCRYPTED_CHUNK_SIZE);
    if blob.Some? && c.pull(st, blob.value).Some? {
      var st' := c.pull(st, blob.value).value.0;
      LoopPrefixSafe(c, rx, st', s1, PrefixValue(mark, prefix, junk(i)), junk, i + 1, chunks[1..]);
    }
  }

  /** The tag that the loop's last successful `pull` returned, `tag` before the first;
      the loop itself never looks at it. */
  function LastTag(c: Suite, rx: Bytes, st: Bytes, s: Bytes, prefix: Word, junk: nat -> Word, i: nat, tag: byte): byte
    decreases |s|
  {
    var (mark, s0) := Receive(c, rx, s, 4);
    var prefix' := PrefixValue(mark, prefix, junk(i));
    var (blob, s1) := ReadBlob(s0, FILE_ENCRYPTED_CHUNK_SIZE);
    if blob.None? then tag else
    match c.pull(st, blob.value)
    case None => tag
    case Some((st', _, tag')) =>
      if DecInt(prefix') == END_CHUNK then tag' else LastTag(c, rx, st', s1, prefix', junk, i + 1, tag')
  }

  /** What code 0 is worth: with an authentic stream it means the whole file if and
      only if the last tag was the final one. */
  lemma {:induction false} LoopCompleteIff(c: Suite, rx: Bytes, st: Bytes, s: Bytes, prefix: Word, junk: nat -> Word, i: nat,
                                          tag: byte, chunks: seq<Bytes>)
    requires OnlyAccepts(c, st, chunks) && ReceiveLoop(c, rx, st, s, prefix, junk, i).code == 0
    ensures ReceiveLoop(c, rx, st, s, prefix, junk, i).published == chunks
            <==> LastTag(c, rx, st, s, prefix, junk, i, tag) == TAG_FINAL
    decreases |s|
  {
    hide Receive, ReadBlob;
    var (mark, s0) := Receive(c, rx, s, 4);
    var prefix' := PrefixValue(mark, prefix, junk(i));
    var (blob, s1) := ReadBlob(s0, FILE_ENCRYPTED_CHUNK_SIZE);
    var (st', plain, tag') := c.pull(st, blob.value).value;
    assert chunks == [chunks[0]] + chunks[1..];
    if DecInt(prefix') != END_CHUNK {
      LoopCompleteIff(c, rx, st', s1, prefix', junk, i + 1, tag', chunks[1..]);
    }
  }

  /** And it need not: an authentic stream with END marked at its `j`-th pair is
      received with code 0 as the first `j` chunks, all of them or not. */
  lemma {:induction false} EarlyEndAccepted(c: Suite, rx: Bytes, st: Bytes, nonce: u64, chunks: seq<Bytes>, j: nat, rest: Bytes,
                                           prefix: Word, junk: nat -> Word, i: nat)
    requires SessionSound(c) && StreamShape(c) && OnlyAccepts(c, st, chunks)
    requires 0 < j <= |chunks| == |Encrypt(c, st, chunks)|
    requires forall i | 0 <= i < |chunks| :: |chunks[i]| <= CHUNK_SIZE
    ensures ReceiveLoop(c, rx, st, ChunkWire(c, rx, nonce, Encrypt(c, st, chunks)[..j], rest), prefix, junk, i)
         == Outcome(0, chunks[..j], rest)
    decreases j
  {
    hide Receive, ReadBlob, Encode;
    var blobs := Encrypt(c, st, chunks)[..j];
    var next := c.push(st, chunks[0], Tag(|chunks|)).0;
    EncryptShape(c, st, chunks);
    EncryptShape(c, next, chunks[1..]);
    assert blobs[1..] == Encrypt(c, next, chunks[1..])[..j - 1];
    ChunkWireStep(c, rx, nonce, blobs, rest);
    MarkRoundTrip(j);
    var tail := ChunkWire(c, rx, Inc(nonce), blobs[1..], rest);
    ReceiveStep(c, rx, st, Inc(nonce), Mark(j), blobs[0], tail, prefix, junk, i);
    if j > 1 {
      EarlyEndAccepted(c, rx, next, Inc(nonce), chunks[1..], j - 1, rest, Mark(j), junk, i + 1);
    }
    TakeCons(chunks, j - 1);
  }

  /** A download's chunk stream cut anywhere before its end: exactly the chunks that
      arrived whole are published, never all, and the code is 1. */
  lemma {:induction false} LoopOnCutDownload(c: Suite, rx: Bytes, st: Bytes, nonce: u64, chunks: seq<Bytes>, k: nat,
                                            prefix: Word, junk: nat -> Word, i: nat)
    requires Sound(c) && forall i | 0 <= i < |chunks| :: |chunks[i]| <= CHUNK_SIZE
    requires k < |ChunkWire(c, rx, nonce, Encrypt(c, st, chunks), [])|
    ensures var j := PairsWithin(Encrypt(c, st, chunks), k);
            && j < |chunks|
            && ReceiveLoop(c, rx, st, ChunkWire(c, rx, nonce, Encrypt(c, st, chunks), [])[..k], prefix, junk, i)
               == Outcome(1, chunks[..j], [])
    decreases |chunks|
  {
    hide Receive, ReadBlob, Encode;
    assert chunks != [];
    var blobs := Encrypt(c, st, chunks);
    var next := c.push(st, chunks[0], Tag(|chunks|)).0;
    EncryptShape(c, st, chunks);
    ChunkWireStep(c, rx, nonce, blobs, []);
    PairLength(c, rx, nonce, blobs);
    var first, raw := Encode(c, rx, Session(Inc(nonce), Mark(|blobs|))), Encode(c, rx, Raw(blobs[0]));
    var tail := ChunkWire(c, rx, Inc(nonce), blobs[1..], []);
    TakeOfConcat(first, raw, tail, k);
    if k < 44 + |blobs[0]| {
      CutPair(c, rx, st, Inc(nonce), Mark(|blobs|), blobs[0], k, prefix, junk, i);
    } else {
      var k' := k - (44 + |blobs[0]|);
      assert |chunks| > 1;
      assert blobs[1..] == Encrypt(c, next, chunks[1..]);
      LoopOnCutDownload(c, rx, next, Inc(nonce), chunks[1..], k', Mark(|blobs|), junk, i + 1);
      MarkRoundTrip(|blobs|);
      ReceiveStep(c, rx, st, Inc(nonce), Mark(|blobs|), blobs[0], tail[..k'], prefix, junk, i);
      TakeCons(chunks, PairsWithin(blobs[1..], k'));
    }
  }

  lemma CutPair(c: Suite, rx: Bytes, st: Bytes, nonce: u64, mark: Word, blob: Bytes, k: nat,
                prefix: Word, junk: nat -> Word, i: nat)
    requires SessionSound(c) && |blob| <= FILE_ENCRYPTED_CHUNK_SIZE && k < 44 + |blob|
    ensures var first, raw := Encode(c, rx, Session(nonce, mark)), Encode(c, rx, Raw(blob));
            && |first| == 36 && |raw| == 8 + |blob|
            && ReceiveLoop(c, rx, st, if k < 36 then first[..k] else first + raw[..k - 36], prefix, junk, i) == Outcome(1, [], [])
  {
    hide Receive, Encode;
    EncodedLength(c, rx, Session(nonce, mark));
    EncodedLength(c, rx, Raw(blob));
    if k < 36 {
      CutFrame(c, rx, nonce, mark, k, 4);
    } else {
      var raw := Encode(c, rx, Raw(blob));
      ReceiveSession(c, rx, nonce, mark, raw[..k - 36], 4);
      TruncatedRaw(c, rx, blob, k - 36, FILE_ENCRYPTED_CHUNK_SIZE);
    }
  }

  /** A prefix frame that arrives but is refused for its size or shortness leaves the
      variable alone.  At the first pair that is END: one chunk is taken for the
      whole file, with code 0. */
  lemma UnreadPrefixEnds(c: Suite, rx: Bytes, st: Bytes, s: Bytes, blob: Bytes, rest: Bytes, junk: nat -> Word)
    requires SessionSound(c) && |blob| <= FILE_ENCRYPTED_CHUNK_SIZE && c.pull(st, blob).Some?
    requires Receive(c, rx, s, 4) == (Refused(2), Encode(c, rx, Raw(blob)) + rest)
          || Receive(c, rx, s, 4) == (Refused(3), Encode(c, rx, Raw(blob)) + rest)
    ensures ReceiveLoop(c, rx, st, s, EncInt(END_CHUNK), junk, 0) == Outcome(0, [c.pull(st, blob).value.1], rest)
  {
    hide Receive, ReadBlob, Encode;
    ReadBlobOfRaw(c, rx, blob, rest, FILE_ENCRYPTED_CHUNK_SIZE);
    IntRoundTrip(END_CHUNK);
  }

  lemma HeadReceived(c: Suite, rx: Bytes, password: Bytes, nonce: u64, header: Bytes, salt: Bytes, rest: Bytes,
                     junk: Junk, junks: nat -> Word)
    requires SessionSound(c) && StreamInverts(c) && junk.Valid() && |header| == HEADER && |salt| == SALT
    ensures ReceiveFile(c, rx, password, Wire(c, rx, HeadItems(nonce, header, salt), rest), junk, junks)
         == ReceiveLoop(c, rx, c.initPush(c.derive(password, salt), header), rest, EncInt(END_CHUNK), junks, 0)
  {
    hide Receive, Encode, ReceiveLoop;
    var items := HeadItems(nonce, header, salt);
    assert items[1..] == [Session(Inc(Inc(nonce)), salt)];
    assert items[1..][1..] == [];
    assert Wire(c, rx, items[1..], rest) == Encode(c, rx, items[1]) + rest;
    ReceiveSession(c, rx, Inc(nonce), header, Encode(c, rx, items[1]) + rest, HEADER);
    ReceiveSession(c, rx, Inc(Inc(nonce)), salt, rest, SALT);
  }

  lemma StoredParts(u: Sending, body: Bytes, junk: Junk)
    requires u.Valid() && junk.Valid()
    ensures var file := u.header + u.salt + body;
            && StoredHeader(file, junk) == u.header && StoredSalt(file, junk) == u.salt && StoredBody(file) == body
  {
    var file := u.header + u.salt + body;
    assert file[..HEADER] == u.header;
    assert file[HEADER..HEADER + SALT] == u.salt;
    assert file[HEADER + SALT..] == body;
  }

  /** The nondeterminism of one download: the server's nonce, what the two
      ends' uninitialised variables hold, and the bytes after the reply. */
  datatype Chance = Chance(nonce: u64, server: Junk, client: Junk, prefixes: nat -> Word, rest: Bytes)
  {
    predicate Valid()
    {
      server.Valid() && client.Valid()
    }
  }

  /** What a client with `password` receives when the server sends `file`. */
  function Fetch(c: Suite, key: Bytes, password: Bytes, file: Bytes, ch: Chance): Outcome
  {
    ReceiveFile(c, key, password, Wire(c, key, DownloadItems(ch.nonce, file, ch.server), ch.rest), ch.client, ch.prefixes)
  }

  /** The download of any file with the upload's header and salt reduces to the
      loop on that file's re-cut body. */
  lemma FetchReduces(c: Suite, key: Bytes, u: Sending, body: Bytes, ch: Chance)
    requires SessionSound(c) && StreamInverts(c) && u.Valid() && ch.Valid()
    ensures Fetch(c, key, u.password, u.header + u.salt + body, ch)
         == ReceiveLoop(c, key, u.StartState(c),
                        ChunkWire(c, key, Inc(Inc(ch.nonce)), Cut(body, FILE_ENCRYPTED_CHUNK_SIZE), ch.rest),
                        EncInt(END_CHUNK), ch.prefixes, 0)
  {
    hide ReceiveFile, ReceiveLoop, Encode;
    StoredParts(u, body, ch.server);
    var chunks := ChunkItems(Inc(Inc(ch.nonce)), Cut(body, FILE_ENCRYPTED_CHUNK_SIZE));
    WireConcat(c, key, HeadItems(ch.nonce, u.header, u.salt), chunks, ch.rest);
    HeadReceived(c, key, u.password, ch.nonce, u.header, u.salt, Wire(c, key, chunks, ch.rest), ch.client, ch.prefixes);
  }

  /** Upload then download is the identity: what `UploadStores` leaves on disk is
      received with code 0 as exactly the original chunks, whose concatenation is
      the file, and only the reply's own bytes are consumed. */
  lemma DownloadRestores(c: Suite, key: Bytes, u: Sending, ch: Chance)
    requires Sound(c) && u.Valid() && ch.Valid()
    ensures Fetch(c, key, u.password, u.Stored(c), ch) == Outcome(0, u.Chunks(), ch.rest)
    ensures Flatten(u.Chunks()) == u.data
  {
    hide ReceiveLoop, Fetch, Cut, Encrypt, Flatten, ChunkWire;
    FetchReduces(c, key, u, Flatten(u.Blobs(c)), ch);
    RechunkingAgrees(c, u);
    CutShape(u.data, CHUNK_SIZE);
    LoopDecrypts(c, key, u.StartState(c), Inc(Inc(ch.nonce)), u.Chunks(), ch.rest, EncInt(END_CHUNK), ch.prefixes, 0);
  }

  /** Whatever number `j` of blobs was stored before an upload stopped, the
      client writes exactly the first `j` chunks and returns the decryption
      error, because the server ends with an empty END blob. */
  lemma InterruptedFetchFails(c: Suite, key: Bytes, u: Sending, j: nat, ch: Chance)
    requires Sound(c) && u.Valid() && ch.Valid() && j < |u.Blobs(c)|
    ensures |u.Chunks()| == |u.Blobs(c)|
    ensures Fetch(c, key, u.password, u.header + u.salt + Flatten(u.Blobs(c)[..j]), ch)
         == Outcome(2, u.Chunks()[..j], ch.rest)
  {
    hide ReceiveLoop, Fetch, Cut, Encrypt, Flatten, ChunkWire;
    FetchReduces(c, key, u, Flatten(u.Blobs(c)[..j]), ch);
    RechunkingAgrees(c, u);
    CutShape(u.data, CHUNK_SIZE);
    RecutFull(u.Blobs(c)[..j], FILE_ENCRYPTED_CHUNK_SIZE);
    LoopRejectsEmptyEnd(c, key, u.StartState(c), Inc(Inc(ch.nonce)), u.Chunks(), j, ch.rest, EncInt(END_CHUNK), ch.prefixes, 0);
  }

  /** An interrupted upload never downloads as success: cut an upload anywhere
      after `init_send`'s frames and before its last byte, and download what the
      server kept. */
  lemma InterruptedUploadNeverSucceeds(c: Suite, up: Bytes, down: Bytes, u: Sending, s: Bytes, k: nat,
                                       store: map<Bytes, Bytes>, junk: Junk, ch: Chance)
    requires Sound(c) && Sendable(u) && junk.Valid() && ch.Valid()
    requires CutUpload(c, up, u, s, k)
    ensures var store1 := ServeUpload(c, up, s, store, junk).1;
            && u.name + EXT in store1
            && var d := Fetch(c, down, u.password, store1[u.name + EXT], ch);
            d.code != 0 && d.published < u.Chunks() && |d.published| == PairsWithin(u.Blobs(c), k)
  {
    hide ServeUpload, Fetch;
    InterruptedUploadStores(c, up, u, s, k, store, junk);
    InterruptedFetchFails(c, down, u, PairsWithin(u.Blobs(c), k), ch);
  }

  /** Prefix safety of download: when the header and salt are the upload's and
      the stream is authentic, then for every byte stream the bytes written are
      those of a prefix of the file's chunks. */
  lemma DownloadPrefixSafe(c: Suite, rx: Bytes, u: Sending, s: Bytes, junk: Junk, junks: nat -> Word)
    requires u.Valid() && junk.Valid()
    requires OnlyAccepts(c, u.StartState(c), u.Chunks())
    requires c.initPull(c.derive(u.password, u.salt), u.header) == Some(u.StartState(c))
    requires var (header, s0) := Receive(c, rx, s, HEADER);
             && header == Opened(u.header)
             && Receive(c, rx, s0, SALT).0 == Opened(u.salt)
    ensures var d := ReceiveFile(c, rx, u.password, s, junk, junks);
            d.published <= u.Chunks() && Flatten(d.published) <= u.data
  {
    hide Receive, ReceiveLoop;
    var s1 := Receive(c, rx, Receive(c, rx, s, HEADER).1, SALT).1;
    LoopPrefixSafe(c, rx, u.StartState(c), s1, EncInt(END_CHUNK), junks, 0, u.Chunks());
    var d := ReceiveLoop(c, rx, u.StartState(c), s1, EncInt(END_CHUNK), junks, 0);
    assert d.published == u.Chunks()[..|d.published|];
    FlattenPrefix(u.Chunks(), |d.published|);
    CutShape(u.data, CHUNK_SIZE);
  }

  /** Completeness of download: under the same hypotheses, code 0 means all of the
      file's chunks if and only if the last tag was the final one. */
  lemma DownloadCompleteIff(c: Suite, rx: Bytes, u: Sending, s: Bytes, junk: Junk, junks: nat -> Word, tag: byte)
    requires u.Valid() && junk.Valid()
    requires OnlyAccepts(c, u.StartState(c), u.Chunks())
    requires c.initPull(c.derive(u.password, u.salt), u.header) == Some(u.StartState(c))
    requires var (header, s0) := Receive(c, rx, s, HEADER);
             && header == Opened(u.header)
             && Receive(c, rx, s0, SALT).0 == Opened(u.salt)
    requires ReceiveFile(c, rx, u.password, s, junk, junks).code == 0
    ensures ReceiveFile(c, rx, u.password, s, junk, junks).published == u.Chunks()
            <==> LastTag(c, rx, u.StartState(c), Receive(c, rx, Receive(c, rx, s, HEADER).1, SALT).1,
                         EncInt(END_CHUNK), junks, 0, tag) == TAG_FINAL
  {
    hide Receive, ReceiveLoop, LastTag;
    var s1 := Receive(c, rx, Receive(c, rx, s, HEADER).1, SALT).1;
    LoopCompleteIff(c, rx, u.StartState(c), s1, EncInt(END_CHUNK), junks, 0, tag, u.Chunks());
  }

  /** Return codes of the receiver before its loop: 1 when the header or the salt
      cannot be read, 2 when they start no stream; nothing is written. */
  lemma HeadErrors(c: Suite, rx: Bytes, password: Bytes, s: Bytes, junk: Junk, junks: nat -> Word)
    ensures var d := ReceiveFile(c, rx, password, s, junk, junks);
            var (header, s0) := Receive(c, rx, s, 24);
            var (salt, s1) := Receive(c, rx, s0, 16);
            && (header.Refused? ==> d == Outcome(1, [], s0))
            && (header.Opened? && salt.Refused? ==> d == Outcome(1, [], s1))
            && (header.Opened? && salt.Opened?
                && c.initPull(c.derive(password, Overlay(salt.plain, junk.salt)), Overlay(header.plain, junk.header)).None? ==>
                  d == Outcome(2, [], s1))
  {
    hide Receive, ReceiveLoop, Overlay;
  }

  lemma HeadLength(c: Suite, rx: Bytes, nonce: u64, header: Bytes, salt: Bytes)
    requires SessionSound(c) && |header| == HEADER && |salt| == SALT
    ensures var e0, e1 := Encode(c, rx, Session(Inc(nonce), header)), Encode(c, rx, Session(Inc(Inc(nonce)), salt));
            && |e0| == 56 && |e1| == 48
            && forall s :: Wire(c, rx, HeadItems(nonce, header, salt), s) == e0 + (e1 + s)
  {
    hide Encode;
    EncodedLength(c, rx, Session(Inc(nonce), header));
    EncodedLength(c, rx, Session(Inc(Inc(nonce)), salt));
    var items := HeadItems(nonce, header, salt);
    assert items[1..][1..] == [];
    forall s ensures Wire(c, rx, items, s) == Encode(c, rx, items[0]) + (Encode(c, rx, items[1]) + s) {
      assert Wire(c, rx, items[1..], s) == Encode(c, rx, items[1]) + s;
    }
  }

  /** The connection is lost during a download of what an upload stored: whichever
      byte is the last, exactly the chunks that arrived whole are written, never all
      of them, and the code is 1. */
  lemma InterruptedDownload(c: Suite, rx: Bytes, u: Sending, k: nat, ch: Chance)
    requires Sound(c) && u.Valid() && ch.Valid()
    requires k < |Wire(c, rx, DownloadItems(ch.nonce, u.Stored(c), ch.server), [])|
    ensures var j := if k < 104 then 0 else PairsWithin(u.Blobs(c), k - 104);
            && j < |u.Chunks()|
            && ReceiveFile(c, rx, u.password, Wire(c, rx, DownloadItems(ch.nonce, u.Stored(c), ch.server), [])[..k],
                           ch.client, ch.prefixes)
               == Outcome(1, u.Chunks()[..j], [])
  {
    hide ReceiveLoop, ReceiveFile, Encode, Cut, Encrypt, ChunkItems, Flatten;
    StoredParts(u, Flatten(u.Blobs(c)), ch.server);
    RechunkingAgrees(c, u);
    CutShape(u.data, CHUNK_SIZE);
    var n := Inc(Inc(ch.nonce));
    var items := ChunkItems(n, u.Blobs(c));
    var chunks := Wire(c, rx, items, []);
    WireConcat(c, rx, HeadItems(ch.nonce, u.header, u.salt), items, []);
    HeadLength(c, rx, ch.nonce, u.header, u.salt);
    var e0, e1 := Encode(c, rx, Session(Inc(ch.nonce), u.header)), Encode(c, rx, Session(Inc(Inc(ch.nonce)), u.salt));
    TakeOfConcat(e0, e1, chunks, k);
    if k < 104 {
      CutHead(c, rx, u, k, ch);
    } else {
      HeadReceived(c, rx, u.password, ch.nonce, u.header, u.salt, chunks[..k - 104], ch.client, ch.prefixes);
      LoopOnCutDownload(c, rx, u.StartState(c), n, u.Chunks(), k - 104, EncInt(END_CHUNK), ch.prefixes, 0);
    }
  }

  lemma CutHead(c: Suite, rx: Bytes, u: Sending, k: nat, ch: Chance)
    requires SessionSound(c) && u.Valid() && k < 104
    ensures var e0, e1 := Encode(c, rx, Session(Inc(ch.nonce), u.header)), Encode(c, rx, Session(Inc(Inc(ch.nonce)), u.salt));
            && |e0| == 56 && |e1| == 48
            && ReceiveFile(c, rx, u.password, if k < 56 then e0[..k] else e0 + e1[..k - 56], ch.client, ch.prefixes)
               == Outcome(1, [], [])
  {
    hide Receive, Encode, ReceiveLoop;
    HeadLength(c, rx, ch.nonce, u.header, u.salt);
    if k < 56 {
      CutFrame(c, rx, Inc(ch.nonce), u.header, k, HEADER);
    } else {
      ReceiveSession(c, rx, Inc(ch.nonce), u.header, Encode(c, rx, Session(Inc(Inc(ch.nonce)), u.salt))[..k - 56], HEADER);
      CutFrame(c, rx, Inc(Inc(ch.nonce)), u.salt, k - 56, SALT);
    }
  }
}
