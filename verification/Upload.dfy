/** The upload: what the client sends for a file, and what the server's handler
    makes of an arbitrary byte stream. */
module Upload {
  import opened Octets
  import opened Crypto
  import opened Framing
  import opened Chunking

  const END_CHUNK: int := 77
  const MEAT_CHUNK: int := 66
  /** ".enc" */
  const EXT: Bytes := [46, 101, 110, 99]
  const PRE_EXT_FILE_NAME_LEN: nat := 250
  const MAX_FILE_NAME_LENGTH: nat := 255

  function Mark(remaining: nat): Word
  {
    EncInt(if remaining == 1 then END_CHUNK else MEAT_CHUNK)
  }

  lemma MarkRoundTrip(remaining: nat)
    ensures DecInt(Mark(remaining)) == if remaining == 1 then END_CHUNK else MEAT_CHUNK
  {
    IntRoundTrip(END_CHUNK);
    IntRoundTrip(MEAT_CHUNK);
  }

  /** Each blob behind its prefix frame; only the last prefix says END. */
  function ChunkItems(nonce: u64, blobs: seq<Bytes>): seq<Item>
    decreases |blobs|
  {
    if blobs == [] then [] else
    [Session(Inc(nonce), Mark(|blobs|)), Raw(blobs[0])] + ChunkItems(Inc(nonce), blobs[1..])
  }

  function ChunkWire(c: Suite, key: Bytes, nonce: u64, blobs: seq<Bytes>, rest: Bytes): Bytes
  {
    Wire(c, key, ChunkItems(nonce, blobs), rest)
  }

  lemma ChunkWireStep(c: Suite, key: Bytes, nonce: u64, blobs: seq<Bytes>, rest: Bytes)
    requires blobs != []
    ensures ChunkWire(c, key, nonce, blobs, rest)
         == Encode(c, key, Session(Inc(nonce), Mark(|blobs|)))
            + (Encode(c, key, Raw(blobs[0])) + ChunkWire(c, key, Inc(nonce), blobs[1..], rest))
  {
    var items, more := ChunkItems(nonce, blobs), ChunkItems(Inc(nonce), blobs[1..]);
    assert items[1..] == [Raw(blobs[0])] + more;
    assert items[1..][1..] == more;
    assert Wire(c, key, items[1..], rest) == Encode(c, key, Raw(blobs[0])) + Wire(c, key, more, rest);
  }

  lemma SentPair(c: Suite, key: Bytes, n: u64, pieces: seq<Bytes>, sent: Bytes)
    requires pieces != []
    ensures sent + ChunkWire(c, key, n, pieces, [])
         == ((sent + Encode(c, key, Session(Inc(n), Mark(|pieces|)))) + Encode(c, key, Raw(pieces[0])))
            + ChunkWire(c, key, Inc(n), pieces[1..], [])
  {
    hide Encode, ChunkWire;
    ChunkWireStep(c, key, n, pieces, []);
    var mark, raw := Encode(c, key, Session(Inc(n), Mark(|pieces|))), Encode(c, key, Raw(pieces[0]));
    var tail := ChunkWire(c, key, Inc(n), pieces[1..], []);
    Assoc(sent, mark, raw + tail);
    Assoc(sent + mark, raw, tail);
  }

  lemma EmptyChunkWire(c: Suite, key: Bytes, n: u64)
    ensures ChunkWire(c, key, n, [], []) == []
  {
  }

  function Inc4(n: u64): u64
  {
    Inc(Inc(Inc(Inc(n))))
  }

  /** What travels at each position: the `i`-th pair is a prefix frame under the
      counter's next value, END exactly at the last blob, and the `i`-th blob. */
  lemma {:induction false} ChunkItemsAt(nonce: u64, blobs: seq<Bytes>, i: nat)
    requires i < |blobs|
    ensures |ChunkItems(nonce, blobs)| == 2 * |blobs|
    ensures ChunkItems(nonce, blobs)[2 * i]
         == Session((nonce + 1 + i) % TWO64, EncInt(if i == |blobs| - 1 then END_CHUNK else MEAT_CHUNK))
    ensures ChunkItems(nonce, blobs)[2 * i + 1] == Raw(blobs[i])
    decreases |blobs|
  {
    hide EncInt;
    var items, more := ChunkItems(nonce, blobs), ChunkItems(Inc(nonce), blobs[1..]);
    assert items == [Session(Inc(nonce), Mark(|blobs|)), Raw(blobs[0])] + more;
    if |blobs| > 1 {
      ChunkItemsAt(Inc(nonce), blobs[1..], if i == 0 then 0 else i - 1);
      if i > 0 {
        IncThen(nonce, i);
        assert items[2 * i] == more[2 * (i - 1)] && items[2 * i + 1] == more[2 * (i - 1) + 1];
      }
    }
  }

  lemma IncThen(nonce: u64, i: nat)
    ensures (Inc(nonce) + i) % TWO64 == (nonce + 1 + i) % TWO64
  {
    if nonce == TWO64 - 1 {
      assert nonce + 1 + i == TWO64 + i;
    }
  }

  /** The four frames of `init_send`. */
  function InitItems(u: Sending): seq<Item>
  {
    [Session(Inc(u.nonce), [1]), Session(Inc(Inc(u.nonce)), u.name),
     Session(Inc(Inc(Inc(u.nonce))), u.header), Session(Inc4(u.nonce), u.salt)]
  }

  /** All frames of an upload of an existing file, and of a missing one. */
  function UploadItems(c: Suite, u: Sending): seq<Item>
  {
    InitItems(u) + ChunkItems(Inc4(u.nonce), u.Blobs(c))
  }

  function MissingItems(nonce: u64): seq<Item>
  {
    [Session(Inc(nonce), [0])]
  }

  // The server.

  /** Whatever uninitialised variables hold: nothing may depend on them. */
  datatype Junk = Junk(nameTooLong: bool, name: Bytes, tail: Bytes, header: Bytes, salt: Bytes,
                       notice: Word, intent: Word)
  {
    predicate Valid()
    {
      |name| + |EXT| <= MAX_FILE_NAME_LENGTH && |header| == HEADER && |salt| == SALT
    }
  }

  /** A buffer after `top` was written at its start. */
  function Overlay(top: Bytes, under: Bytes): (r: Bytes)
    ensures |r| == |under|
    ensures |top| == |under| ==> r == top
  {
    if |top| <= |under| then top + under[|top|..] else top[..|under|]
  }

  datatype Init = InitFailed(code: int, rest: Bytes) | InitOk(name: Bytes, header: Bytes, salt: Bytes, rest: Bytes)

  /** `init_read`.  Only code 2 of the name's `unwrap` stops it, and code 3 of the
      header's does not. */
  function InitRead(c: Suite, rx: Bytes, s: Bytes, junk: Junk): (r: Init)
    ensures |r.rest| <= |s|
  {
    var (exists_, s0) := Receive(c, rx, s, 1);
    if exists_.Refused? then InitFailed(6, s0)
    else if exists_.plain == [] || exists_.plain[0] == 0 then InitFailed(5, s0)
    else
      var (name, s1) := Receive(c, rx, s0, PRE_EXT_FILE_NAME_LEN);
      if name == Refused(4) then InitFailed(9, s1)
      else if name == Refused(2) then InitFailed(8, s1)
      else if name.Refused? && junk.nameTooLong then InitFailed(7, s1)
      else
        var (header, s2) := Receive(c, rx, s1, HEADER);
        if header == Refused(4) then InitFailed(4, s2)
        else if header.Refused? && header.code != 3 then InitFailed(3, s2)
        else
          var (salt, s3) := Receive(c, rx, s2, SALT);
          if salt == Refused(4) then InitFailed(2, s3)
          else if salt.Refused? then InitFailed(1, s3)
          else InitOk(if name.Opened? then CString(name.plain + [0]) else junk.name,
                      if header.Opened? then Overlay(header.plain, junk.header) else junk.header,
                      Overlay(salt.plain, junk.salt), s3)
  }

  /** How a chunk loop ends, on either side: its return code, what it published to
      the writer thread, and the stream it leaves. */
  datatype Outcome = Outcome(code: int, published: seq<Bytes>, rest: Bytes)

  /** The chunk loop; `prefix` is the variable it tests. */
  function ChunkLoop(c: Suite, rx: Bytes, s: Bytes, prefix: Word): (r: Outcome)
    ensures |r.rest| <= |s|
    ensures r.code == 0 || r.code == 1
    decreases |s|
  {
    var (mark, s0) := Receive(c, rx, s, 4);
    if mark.Refused? then Outcome(0, [], s0) else
    var prefix' := Overlay(mark.plain, prefix);
    var (blob, s1) := ReadBlob(s0, FILE_ENCRYPTED_CHUNK_SIZE);
    if blob.None? then Outcome(1, [], s1)
    else if DecInt(prefix') != MEAT_CHUNK then Outcome(0, [blob.value], s1)
    else
      var more := ChunkLoop(c, rx, s1, prefix');
      Outcome(more.code, [blob.value] + more.published, more.rest)
  }

  /** The handler's effect on the user's directory. */
  function ServeUpload(c: Suite, rx: Bytes, s: Bytes, store: map<Bytes, Bytes>, junk: Junk)
    : (r: (int, map<Bytes, Bytes>, Bytes))
    ensures |r.2| <= |s|
  {
    match InitRead(c, rx, s, junk)
    case InitFailed(_, rest) => (1, store, rest)
    case InitOk(name, header, salt, rest) =>
      var u := ChunkLoop(c, rx, rest, EncInt(END_CHUNK));
      (u.code, store[name + EXT := header + salt + Flatten(u.published)], u.rest)
  }

  // The loop against a reference: parse first, select afterwards.

  /** All whole (prefix, blob) pairs at the start of a stream, whatever the
      prefixes say. */
  function Pairs(c: Suite, rx: Bytes, s: Bytes): seq<(Bytes, Bytes)>
    decreases |s|
  {
    var (mark, s0) := Receive(c, rx, s, 4);
    if mark.Refused? then [] else
    var (blob, s1) := ReadBlob(s0, FILE_ENCRYPTED_CHUNK_SIZE);
    if blob.None? then [] else [(mark.plain, blob.value)] + Pairs(c, rx, s1)
  }

  /** The value of the prefix variable after `i` frames have been decoded into it. */
  function PrefixAfter(pairs: seq<(Bytes, Bytes)>, i: nat, prefix: Word): Word
    requires i <= |pairs|
  {
    if i == 0 then prefix else Overlay(pairs[i - 1].0, PrefixAfter(pairs, i - 1, prefix))
  }

  /** `n` is the number of pairs up to and including the first whose prefix is
      not MEAT, or all of them. */
  ghost predicate Selects(pairs: seq<(Bytes, Bytes)>, prefix: Word, n: nat)
  {
    && n <= |pairs|
    && (forall i | 1 <= i < n :: DecInt(PrefixAfter(pairs, i, prefix)) == MEAT_CHUNK)
    && (n < |pairs| ==> n > 0 && DecInt(PrefixAfter(pairs, n, prefix)) != MEAT_CHUNK)
  }

  lemma {:induction false} PrefixAfterTail(pairs: seq<(Bytes, Bytes)>, i: nat, prefix: Word)
    requires i < |pairs|
    ensures PrefixAfter(pairs, i + 1, prefix) == PrefixAfter(pairs[1..], i, Overlay(pairs[0].0, prefix))
  {
    if i > 0 {
      PrefixAfterTail(pairs, i - 1, prefix);
    }
  }

  /** Upload handler on any stream: the published blobs are exactly those of the
      selected whole pairs. */
  lemma {:induction false} LoopSelectsPairs(c: Suite, rx: Bytes, s: Bytes, prefix: Word)
    ensures var n, pairs := |ChunkLoop(c, rx, s, prefix).published|, Pairs(c, rx, s);
            && Selects(pairs, prefix, n)
            && forall i | 0 <= i < n :: ChunkLoop(c, rx, s, prefix).published[i] == pairs[i].1
    decreases |s|
  {
    hide Receive, ReadBlob;
    var (mark, s0) := Receive(c, rx, s, 4);
    if mark.Opened? {
      var prefix' := Overlay(mark.plain, prefix);
      var (blob, s1) := ReadBlob(s0, FILE_ENCRYPTED_CHUNK_SIZE);
      if blob.Some? {
        var pairs, tail := Pairs(c, rx, s), Pairs(c, rx, s1);
        assert pairs == [(mark.plain, blob.value)] + tail;
        assert pairs[1..] == tail;
        assert PrefixAfter(pairs, 1, prefix) == Overlay(pairs[0].0, PrefixAfter(pairs, 0, prefix)) == prefix';
        if DecInt(prefix') == MEAT_CHUNK {
          LoopSelectsPairs(c, rx, s1, prefix');
          LiftSelection(pairs, prefix, |ChunkLoop(c, rx, s1, prefix').published|);
        }
      }
    }
  }

  lemma LiftSelection(pairs: seq<(Bytes, Bytes)>, prefix: Word, n: nat)
    requires pairs != [] && DecInt(PrefixAfter(pairs, 1, prefix)) == MEAT_CHUNK
    requires Selects(pairs[1..], Overlay(pairs[0].0, prefix), n)
    ensures Selects(pairs, prefix, n + 1)
  {
    forall i | 2 <= i <= n + 1
      ensures PrefixAfter(pairs, i, prefix) == PrefixAfter(pairs[1..], i - 1, Overlay(pairs[0].0, prefix))
    {
      PrefixAfterTail(pairs, i - 1, prefix);
    }
  }

  /** The stream behind the first `n` whole pairs. */
  function AfterPairs(c: Suite, rx: Bytes, s: Bytes, n: nat): Bytes
    decreases n
  {
    if n == 0 then s else AfterPairs(c, rx, ReadBlob(Receive(c, rx, s, 4).1, FILE_ENCRYPTED_CHUNK_SIZE).1, n - 1)
  }

  /** How the handler's loop ends on any stream: with code 0 behind a pair that is
      not MEAT or at a prefix it cannot read, with code 1 at a blob it cannot read. */
  lemma {:induction false} LoopEnds(c: Suite, rx: Bytes, s: Bytes, prefix: Word)
    ensures var u, pairs := ChunkLoop(c, rx, s, prefix), Pairs(c, rx, s);
            var n := |u.published|;
            var end := AfterPairs(c, rx, s, n);
            var (mark, s0) := Receive(c, rx, end, 4);
            && n <= |pairs|
            && if n > 0 && DecInt(PrefixAfter(pairs, n, prefix)) != MEAT_CHUNK then u.code == 0 && u.rest == end
               else n == |pairs| && if mark.Refused? then u.code == 0 && u.rest == s0
               else u.code == 1 && (None, u.rest) == ReadBlob(s0, FILE_ENCRYPTED_CHUNK_SIZE)
    decreases |s|
  {
    hide Receive, ReadBlob;
    var (mark, s0) := Receive(c, rx, s, 4);
    if mark.Opened? {
      var prefix' := Overlay(mark.plain, prefix);
      var (blob, s1) := ReadBlob(s0, FILE_ENCRYPTED_CHUNK_SIZE);
      if blob.Some? {
        var pairs, tail := Pairs(c, rx, s), Pairs(c, rx, s1);
        assert pairs == [(mark.plain, blob.value)] + tail;
        assert pairs[1..] == tail;
        assert PrefixAfter(pairs, 1, prefix) == Overlay(pairs[0].0, PrefixAfter(pairs, 0, prefix)) == prefix';
        if DecInt(prefix') == MEAT_CHUNK {
          LoopEnds(c, rx, s1, prefix');
          var n := |ChunkLoop(c, rx, s1, prefix').published|;
          if n > 0 {
            PrefixAfterTail(pairs, n, prefix);
          }
        } else {
          assert AfterPairs(c, rx, s, 1) == AfterPairs(c, rx, s1, 0);
        }
      }
    }
  }

  /** One whole pair in front of `tail`. */
  lemma LoopStep(c: Suite, key: Bytes, nonce: u64, mark: Word, blob: Bytes, tail: Bytes, prefix: Word)
    requires SessionSound(c) && |blob| <= FILE_ENCRYPTED_CHUNK_SIZE
    ensures ChunkLoop(c, key, Encode(c, key, Session(nonce, mark)) + (Encode(c, key, Raw(blob)) + tail), prefix)
         == if DecInt(mark) != MEAT_CHUNK then Outcome(0, [blob], tail)
            else var more := ChunkLoop(c, key, tail, mark); Outcome(more.code, [blob] + more.published, more.rest)
  {
    hide Receive, ReadBlob, Encode;
    ReceiveSession(c, key, nonce, mark, Encode(c, key, Raw(blob)) + tail, 4);
    ReadBlobOfRaw(c, key, blob, tail, FILE_ENCRYPTED_CHUNK_SIZE);
  }

  /** A complete stream of chunks is published whole and nothing else is read. */
  lemma {:induction false} LoopReadsChunks(c: Suite, key: Bytes, nonce: u64, blobs: seq<Bytes>, prefix: Word, rest: Bytes)
    requires SessionSound(c) && blobs != []
    requires forall i | 0 <= i < |blobs| :: |blobs[i]| <= FILE_ENCRYPTED_CHUNK_SIZE
    ensures ChunkLoop(c, key, ChunkWire(c, key, nonce, blobs, rest), prefix) == Outcome(0, blobs, rest)
    decreases |blobs|
  {
    hide Receive, ReadBlob, Encode;
    ChunkWireStep(c, key, nonce, blobs, rest);
    MarkRoundTrip(|blobs|);
    var tail := ChunkWire(c, key, Inc(nonce), blobs[1..], rest);
    LoopStep(c, key, Inc(nonce), Mark(|blobs|), blobs[0], tail, prefix);
    if |blobs| == 1 {
      assert blobs == [blobs[0]];
    } else {
      LoopReadsChunks(c, key, Inc(nonce), blobs[1..], Mark(|blobs|), rest);
      assert blobs == [blobs[0]] + blobs[1..];
    }
  }

  /** How many pairs fit in the first `k` bytes of a chunk stream: each blob
      travels with 44 bytes of framing. */
  function PairsWithin(blobs: seq<Bytes>, k: nat): (j: nat)
    ensures j <= |blobs|
    decreases |blobs|
  {
    if blobs == [] || k < 44 + |blobs[0]| then 0 else 1 + PairsWithin(blobs[1..], k - (44 + |blobs[0]|))
  }

  /** How far into its pair the cut falls: under 36 it is in the prefix frame. */
  function CutOffset(blobs: seq<Bytes>, k: nat): nat
    decreases |blobs|
  {
    if blobs == [] || k < 44 + |blobs[0]| then k else CutOffset(blobs[1..], k - (44 + |blobs[0]|))
  }

  lemma PairLength(c: Suite, key: Bytes, nonce: u64, blobs: seq<Bytes>)
    requires SessionSound(c) && blobs != []
    ensures |Encode(c, key, Session(Inc(nonce), Mark(|blobs|)))| == 36
    ensures |Encode(c, key, Raw(blobs[0]))| == 8 + |blobs[0]|
  {
  }

  /** A chunk stream cut anywhere before its end publishes exactly the whole
      pairs before the cut, never all of them; the code tells a cut inside a blob
      from one inside a prefix frame or between pairs. */
  lemma {:induction false} LoopOnCutStream(c: Suite, key: Bytes, nonce: u64, blobs: seq<Bytes>, prefix: Word, k: nat)
    requires SessionSound(c)
    requires forall i | 0 <= i < |blobs| :: |blobs[i]| <= FILE_ENCRYPTED_CHUNK_SIZE
    requires k < |ChunkWire(c, key, nonce, blobs, [])|
    ensures PairsWithin(blobs, k) < |blobs|
    ensures var u := ChunkLoop(c, key, ChunkWire(c, key, nonce, blobs, [])[..k], prefix);
            u == Outcome(if CutOffset(blobs, k) < 36 then 0 else 1, blobs[..PairsWithin(blobs, k)], [])
    decreases |blobs|
  {
    hide Receive, ReadBlob, Encode;
    assert blobs != [];
    ChunkWireStep(c, key, nonce, blobs, []);
    PairLength(c, key, nonce, blobs);
    var first, raw := Encode(c, key, Session(Inc(nonce), Mark(|blobs|))), Encode(c, key, Raw(blobs[0]));
    var tail := ChunkWire(c, key, Inc(nonce), blobs[1..], []);
    TakeOfConcat(first, raw, tail, k);
    if k < 36 {
      CutInMark(c, key, Inc(nonce), Mark(|blobs|), prefix, k);
    } else if k < 44 + |blobs[0]| {
      CutInBlob(c, key, Inc(nonce), Mark(|blobs|), blobs[0], prefix, k - 36);
    } else {
      var k' := k - (44 + |blobs[0]|);
      LoopOnCutStream(c, key, Inc(nonce), blobs[1..], Mark(|blobs|), k');
      CutPastPair(c, key, Inc(nonce), blobs, prefix, tail[..k'], PairsWithin(blobs[1..], k'));
    }
  }

  lemma CutPastPair(c: Suite, key: Bytes, nonce: u64, blobs: seq<Bytes>, prefix: Word, tail: Bytes, j: nat)
    requires SessionSound(c) && 1 < |blobs| && j < |blobs| && |blobs[0]| <= FILE_ENCRYPTED_CHUNK_SIZE
    ensures var more := ChunkLoop(c, key, tail, Mark(|blobs|));
            var u := ChunkLoop(c, key, Encode(c, key, Session(nonce, Mark(|blobs|))) + (Encode(c, key, Raw(blobs[0])) + tail), prefix);
            more.published == blobs[1..][..j] ==> u == Outcome(more.code, blobs[..1 + j], more.rest)
  {
    hide Receive, ReadBlob, Encode;
    MarkRoundTrip(|blobs|);
    LoopStep(c, key, nonce, Mark(|blobs|), blobs[0], tail, prefix);
    TakeCons(blobs, j);
  }

  lemma CutInMark(c: Suite, key: Bytes, nonce: u64, mark: Word, prefix: Word, k: nat)
    requires SessionSound(c) && k < |Encode(c, key, Session(nonce, mark))|
    ensures ChunkLoop(c, key, Encode(c, key, Session(nonce, mark))[..k], prefix) == Outcome(0, [], [])
  {
    TruncatedSession(c, key, nonce, mark, k);
  }

  lemma CutInBlob(c: Suite, key: Bytes, nonce: u64, mark: Word, blob: Bytes, prefix: Word, k: nat)
    requires SessionSound(c) && |blob| <= FILE_ENCRYPTED_CHUNK_SIZE && k < 8 + |blob|
    ensures ChunkLoop(c, key, Encode(c, key, Session(nonce, mark)) + Encode(c, key, Raw(blob))[..k], prefix)
         == Outcome(1, [], [])
  {
    ReceiveSession(c, key, nonce, mark, Encode(c, key, Raw(blob))[..k], 4);
    TruncatedRaw(c, key, blob, k, FILE_ENCRYPTED_CHUNK_SIZE);
  }

  lemma TakeCons(blobs: seq<Bytes>, j: nat)
    requires j < |blobs|
    ensures blobs[..1 + j] == [blobs[0]] + blobs[1..][..j]
  {
  }

  lemma TakeOfConcat(a: Bytes, b: Bytes, c: Bytes, k: nat)
    requires k <= |a| + |b| + |c|
    ensures k < |a| ==> (a + (b + c))[..k] == a[..k]
    ensures |a| <= k < |a| + |b| ==> (a + (b + c))[..k] == a + b[..k - |a|]
    ensures |a| + |b| <= k ==> (a + (b + c))[..k] == a + (b + c[..k - |a| - |b|])
  {
  }

  /** A name `init_read` takes as it is: no NUL, and short enough. */
  predicate Sendable(u: Sending)
  {
    u.Valid() && |u.name| <= PRE_EXT_FILE_NAME_LEN && 0 !in u.name
  }

  /** `init_read` takes exactly the four frames `init_send` wrote. */
  lemma InitReadsInit(c: Suite, key: Bytes, u: Sending, junk: Junk, rest: Bytes)
    requires SessionSound(c) && junk.Valid() && Sendable(u)
    ensures InitRead(c, key, Wire(c, key, InitItems(u), rest), junk) == InitOk(u.name, u.header, u.salt, rest)
  {
    hide Receive, Encode;
    var items := InitItems(u);
    var s3 := Encode(c, key, items[3]) + rest;
    var s2 := Encode(c, key, items[2]) + s3;
    var s1 := Encode(c, key, items[1]) + s2;
    WireFour(c, key, items, rest);
    ReceiveSession(c, key, items[0].nonce, [1], s1, 1);
    ReceiveSession(c, key, items[1].nonce, u.name, s2, PRE_EXT_FILE_NAME_LEN);
    ReceiveSession(c, key, items[2].nonce, u.header, s3, HEADER);
    ReceiveSession(c, key, items[3].nonce, u.salt, rest, SALT);
    CStringStops(u.name, []);
    assert u.name + [0] + [] == u.name + [0];
  }

  lemma WireFour(c: Suite, key: Bytes, items: seq<Item>, rest: Bytes)
    requires |items| == 4
    ensures Wire(c, key, items, rest)
         == Encode(c, key, items[0]) + (Encode(c, key, items[1]) + (Encode(c, key, items[2]) + (Encode(c, key, items[3]) + rest)))
  {
    assert items[1..][1..] == items[2..];
    assert items[2..][1..] == items[3..];
    assert items[3..][1..] == [];
    assert Wire(c, key, items[3..], rest) == Encode(c, key, items[3]) + rest;
    assert Wire(c, key, items[2..], rest) == Encode(c, key, items[2]) + Wire(c, key, items[3..], rest);
    assert Wire(c, key, items[1..], rest) == Encode(c, key, items[1]) + Wire(c, key, items[2..], rest);
  }

  lemma ServeAfterInit(c: Suite, key: Bytes, s: Bytes, store: map<Bytes, Bytes>, junk: Junk, init: Init, u: Outcome)
    requires init.InitOk?
    ensures InitRead(c, key, s, junk) == init && ChunkLoop(c, key, init.rest, EncInt(END_CHUNK)) == u ==>
              ServeUpload(c, key, s, store, junk)
              == (u.code, store[init.name + EXT := init.header + init.salt + Flatten(u.published)], u.rest)
  {
  }

  /** A complete upload, with anything after it: stored whole, only its own
      frames consumed. */
  lemma UploadStores(c: Suite, key: Bytes, u: Sending, store: map<Bytes, Bytes>, junk: Junk, rest: Bytes)
    requires Sound(c) && junk.Valid() && Sendable(u)
    ensures ServeUpload(c, key, Wire(c, key, UploadItems(c, u), rest), store, junk)
         == (0, store[u.name + EXT := u.Stored(c)], rest)
  {
    hide InitRead, ChunkLoop;
    var n4 := Inc4(u.nonce);
    var chunks := ChunkWire(c, key, n4, u.Blobs(c), rest);
    WireConcat(c, key, InitItems(u), ChunkItems(n4, u.Blobs(c)), rest);
    InitReadsInit(c, key, u, junk, chunks);
    BlobsFit(c, u);
    LoopReadsChunks(c, key, n4, u.Blobs(c), EncInt(END_CHUNK), rest);
    ServeAfterInit(c, key, Wire(c, key, InitItems(u), chunks), store, junk,
                   InitOk(u.name, u.header, u.salt, chunks), Outcome(0, u.Blobs(c), rest));
  }

  /** The first frame says no, with a zero byte or with none at all. */
  lemma UnconfirmedUpload(c: Suite, key: Bytes, nonce: u64, text: Bytes, junk: Junk, rest: Bytes)
    requires SessionSound(c) && (text == [] || text == [0])
    ensures InitRead(c, key, Encode(c, key, Session(nonce, text)) + rest, junk) == InitFailed(5, rest)
  {
    hide Receive, Encode;
    ReceiveSession(c, key, nonce, text, rest, 1);
  }

  /** An upload of a missing local file changes nothing and consumes its one frame. */
  lemma MissingUploadIgnored(c: Suite, key: Bytes, nonce: u64, store: map<Bytes, Bytes>, junk: Junk, rest: Bytes)
    requires SessionSound(c)
    ensures ServeUpload(c, key, Wire(c, key, MissingItems(nonce), rest), store, junk) == (1, store, rest)
  {
    hide Encode, InitRead;
    var items := MissingItems(nonce);
    assert items[1..] == [];
    UnconfirmedUpload(c, key, items[0].nonce, [0], junk, rest);
  }

  /** `s` is an upload's stream cut somewhere after `init_send`'s frames and
      before its last byte, `k` bytes into the chunks. */
  ghost predicate CutUpload(c: Suite, key: Bytes, u: Sending, s: Bytes, k: nat)
  {
    var chunks := ChunkWire(c, key, Inc4(u.nonce), u.Blobs(c), []);
    k < |chunks| && s == Wire(c, key, InitItems(u), chunks[..k])
  }

  /** Every proper prefix of the upload that contains `init_send`'s frames is
      such a cut, and every cut is such a prefix. */
  lemma CutsArePrefixes(c: Suite, key: Bytes, u: Sending, s: Bytes)
    ensures (exists k :: CutUpload(c, key, u, s, k)) <==>
            && s <= Wire(c, key, UploadItems(c, u), [])
            && |Wire(c, key, InitItems(u), [])| <= |s| < |Wire(c, key, UploadItems(c, u), [])|
  {
    hide Encode;
    var items := InitItems(u);
    var init, chunks := Wire(c, key, items, []), ChunkWire(c, key, Inc4(u.nonce), u.Blobs(c), []);
    var whole := Wire(c, key, UploadItems(c, u), []);
    WireConcat(c, key, items, ChunkItems(Inc4(u.nonce), u.Blobs(c)), []);
    WireAppend(c, key, items, [], chunks);
    assert [] + chunks == chunks;
    assert whole == init + chunks;
    forall k: nat | k < |chunks| ensures Wire(c, key, items, chunks[..k]) == init + chunks[..k] == whole[..|init| + k] {
      WireAppend(c, key, items, [], chunks[..k]);
      assert [] + chunks[..k] == chunks[..k];
    }
    if s <= whole && |init| <= |s| < |whole| {
      assert CutUpload(c, key, u, s, |s| - |init|);
    }
  }

  /** An interrupted upload: the stored file is header, salt and the blobs that
      arrived whole, which are never all of them. */
  lemma InterruptedUploadStores(c: Suite, key: Bytes, u: Sending, s: Bytes, k: nat, store: map<Bytes, Bytes>, junk: Junk)
    requires Sound(c) && junk.Valid() && Sendable(u)
    requires CutUpload(c, key, u, s, k)
    ensures var j := PairsWithin(u.Blobs(c), k);
            && j < |u.Blobs(c)|
            && ServeUpload(c, key, s, store, junk)
               == (if CutOffset(u.Blobs(c), k) < 36 then 0 else 1,
                   store[u.name + EXT := u.header + u.salt + Flatten(u.Blobs(c)[..j])], [])
  {
    hide InitRead, ChunkLoop;
    var rest := ChunkWire(c, key, Inc4(u.nonce), u.Blobs(c), [])[..k];
    InitReadsInit(c, key, u, junk, rest);
    BlobsFit(c, u);
    LoopOnCutStream(c, key, Inc4(u.nonce), u.Blobs(c), EncInt(END_CHUNK), k);
    ServeAfterInit(c, key, s, store, junk, InitOk(u.name, u.header, u.salt, rest),
                   ChunkLoop(c, key, rest, EncInt(END_CHUNK)));
  }

  // Streams that go wrong inside `init_send`'s own frames.

  /** The buffer each of the four frames is read into. */
  function InitCapacity(j: nat): u64
  {
    if j == 0 then 1 else if j == 1 then 250 else if j == 2 then 24 else 16
  }

  /** `init_read`'s error for a refusal of frame `j`, if it is one: a name that does
      not open passes when the stale length does, and a header frame shorter than
      the overhead always does. */
  function InitError(j: nat, code: int, junk: Junk): Option<int>
  {
    if j == 0 then Some(6)
    else if j == 1 then if code == 4 then Some(9) else if code == 2 then Some(8) else if junk.nameTooLong then Some(7) else None
    else if j == 2 then if code == 4 then Some(4) else if code == 3 then None else Some(3)
    else Some(if code == 4 then 2 else 1)
  }

  lemma WireInit(c: Suite, key: Bytes, u: Sending, s: Bytes)
    ensures var i := InitItems(u);
            var e0, e1, e2 := Encode(c, key, i[0]), Encode(c, key, i[1]), Encode(c, key, i[2]);
            && Wire(c, key, i[..0], s) == s
            && Wire(c, key, i[..1], s) == e0 + s
            && Wire(c, key, i[..2], s) == e0 + (e1 + s)
            && Wire(c, key, i[..3], s) == e0 + (e1 + (e2 + s))
  {
    hide Encode;
    var i := InitItems(u);
    assert i[..1] == [i[0]];
    assert i[..2] == [i[0]] + [i[1]];
    assert i[..3] == [i[0]] + ([i[1]] + [i[2]]);
    WireOne(c, key, i[0], [], s);
    WireOne(c, key, i[1], [], s);
    WireOne(c, key, i[2], [], s);
    WireOne(c, key, i[0], [i[1]], s);
    WireOne(c, key, i[1], [i[2]], s);
    WireOne(c, key, i[0], [i[1]] + [i[2]], s);
    assert [i[0]] + [] == [i[0]] && [i[1]] + [] == [i[1]] && [i[2]] + [] == [i[2]];
  }

  lemma WireOne(c: Suite, key: Bytes, item: Item, items: seq<Item>, s: Bytes)
    ensures Wire(c, key, [item] + items, s) == Encode(c, key, item) + Wire(c, key, items, s)
  {
    assert ([item] + items)[1..] == items;
  }

  /** After `j` good frames, a frame that is refused: the error, and where it leaves
      the stream. */
  lemma InitStops(c: Suite, key: Bytes, u: Sending, j: nat, s: Bytes, junk: Junk)
    requires SessionSound(c) && junk.Valid() && Sendable(u) && j < 4
    requires Receive(c, key, s, InitCapacity(j)).0.Refused?
    ensures var (frame, rest) := Receive(c, key, s, InitCapacity(j));
            var error := InitError(j, frame.code, junk);
            error.Some? ==> InitRead(c, key, Wire(c, key, InitItems(u)[..j], s), junk) == InitFailed(error.value, rest)
  {
    hide Receive, Encode, Wire, CString, Overlay;
    var items := InitItems(u);
    var e1, e2 := Encode(c, key, items[1]), Encode(c, key, items[2]);
    WireInit(c, key, u, s);
    if j > 0 {
      ReceiveSession(c, key, items[0].nonce, [1], if j == 1 then s else if j == 2 then e1 + s else e1 + (e2 + s), 1);
    }
    if j > 1 {
      ReceiveSession(c, key, items[1].nonce, u.name, if j == 2 then s else e2 + s, PRE_EXT_FILE_NAME_LEN);
    }
    if j > 2 {
      ReceiveSession(c, key, items[2].nonce, u.header, s, HEADER);
    }
  }

  /** An upload that goes wrong inside its first four frames leaves the directory as
      it was. */
  lemma RefusedInitKeepsStore(c: Suite, key: Bytes, u: Sending, j: nat, s: Bytes, store: map<Bytes, Bytes>, junk: Junk)
    requires SessionSound(c) && junk.Valid() && Sendable(u) && j < 4
    requires Receive(c, key, s, InitCapacity(j)).0.Refused?
    requires InitError(j, Receive(c, key, s, InitCapacity(j)).0.code, junk).Some?
    ensures ServeUpload(c, key, Wire(c, key, InitItems(u)[..j], s), store, junk)
         == (1, store, Receive(c, key, s, InitCapacity(j)).1)
  {
    hide InitRead, Receive, ChunkLoop;
    InitStops(c, key, u, j, s, junk);
  }

  /** The two refusals that pass: the upload then goes on under whatever the name
      buffer held, or with whatever the header variable held. */
  lemma RefusedInitPasses(c: Suite, key: Bytes, u: Sending, s: Bytes, junk: Junk, rest: Bytes)
    requires SessionSound(c) && junk.Valid() && Sendable(u)
    ensures var (name, s1) := Receive(c, key, s, 250);
            name.Refused? && (name.code == 1 || name.code == 3) && !junk.nameTooLong
            && s1 == Wire(c, key, InitItems(u)[2..], rest) ==>
              InitRead(c, key, Wire(c, key, InitItems(u)[..1], s), junk) == InitOk(junk.name, u.header, u.salt, rest)
    ensures var (header, s2) := Receive(c, key, s, 24);
            header == Refused(3) && s2 == Wire(c, key, InitItems(u)[3..], rest) ==>
              InitRead(c, key, Wire(c, key, InitItems(u)[..2], s), junk) == InitOk(u.name, junk.header, u.salt, rest)
  {
    hide Receive, Encode;
    var items := InitItems(u);
    WireInit(c, key, u, s);
    assert items[2..] == [items[2]] + [items[3]] && items[3..] == [items[3]];
    assert items[3..][1..] == [];
    WireOne(c, key, items[2], [items[3]], rest);
    var e3 := Encode(c, key, items[3]) + rest;
    assert Wire(c, key, [items[3]], rest) == e3;
    ReceiveSession(c, key, items[0].nonce, [1], s, 1);
    ReceiveSession(c, key, items[0].nonce, [1], Encode(c, key, items[1]) + s, 1);
    ReceiveSession(c, key, items[1].nonce, u.name, s, PRE_EXT_FILE_NAME_LEN);
    ReceiveSession(c, key, items[2].nonce, u.header, e3, HEADER);
    ReceiveSession(c, key, items[3].nonce, u.salt, rest, SALT);
    CStringStops(u.name, []);
    assert u.name + [0] + [] == u.name + [0];
  }

  /** A stream of four pieces cut in one of them. */
  lemma TakeOfFour(a: Bytes, b: Bytes, c: Bytes, d: Bytes, k: nat)
    requires k < |a| + |b| + |c| + |d|
    ensures var s := (a + (b + (c + d)))[..k];
            && (k < |a| ==> s == a[..k])
            && (|a| <= k < |a| + |b| ==> s == a + b[..k - |a|])
            && (|a| + |b| <= k < |a| + |b| + |c| ==> s == a + (b + c[..k - |a| - |b|]))
            && (|a| + |b| + |c| <= k ==> s == a + (b + (c + d[..k - |a| - |b| - |c|])))
  {
  }

  /** The connection is lost inside `init_send`'s four frames: whichever byte is the
      last, the error is that frame's and the directory is as it was. */
  lemma CutInitKeepsStore(c: Suite, key: Bytes, u: Sending, k: nat, store: map<Bytes, Bytes>, junk: Junk)
    requires SessionSound(c) && junk.Valid() && Sendable(u) && k < |Wire(c, key, InitItems(u), [])|
    ensures var s, n := Wire(c, key, InitItems(u), [])[..k], |u.name|;
            && InitRead(c, key, s, junk)
               == InitFailed(if k < 33 then 6 else if k < 65 + n then 9 else if k < 121 + n then 4 else 2, [])
            && ServeUpload(c, key, s, store, junk) == (1, store, [])
  {
    hide Receive, Encode, InitRead, ChunkLoop;
    var items := InitItems(u);
    var e := seq(4, i requires 0 <= i < 4 => Encode(c, key, items[i]));
    WireFour(c, key, items, []);
    assert e[3] + [] == e[3];
    TakeOfFour(e[0], e[1], e[2], e[3], k);
    EncodedLength(c, key, items[0]);
    EncodedLength(c, key, items[1]);
    EncodedLength(c, key, items[2]);
    EncodedLength(c, key, items[3]);
    var n := |u.name|;
    var j, at := if k < 33 then 0 else if k < 65 + n then 1 else if k < 121 + n then 2 else 3,
                 if k < 33 then k else if k < 65 + n then k - 33 else if k < 121 + n then k - 65 - n else k - 121 - n;
    CutFrame(c, key, items[j].nonce, items[j].plain, at, InitCapacity(j));
    WireInit(c, key, u, e[j][..at]);
    InitStops(c, key, u, j, e[j][..at], junk);
  }

  /** An upload cut anywhere: the directory is as it was while the cut is inside the
      first four frames, and afterwards has the blobs that arrived whole. */
  lemma UploadCutAnywhere(c: Suite, key: Bytes, u: Sending, s: Bytes, store: map<Bytes, Bytes>, junk: Junk)
    requires Sound(c) && junk.Valid() && Sendable(u)
    requires s <= Wire(c, key, UploadItems(c, u), []) && |s| < |Wire(c, key, UploadItems(c, u), [])|
    ensures var init := |Wire(c, key, InitItems(u), [])|;
            var (_, after, rest) := ServeUpload(c, key, s, store, junk);
            && rest == []
            && if |s| < init then after == store
               else
                 var j := PairsWithin(u.Blobs(c), |s| - init);
                 j < |u.Blobs(c)| && after == store[u.name + EXT := u.header + u.salt + Flatten(u.Blobs(c)[..j])]
  {
    hide ServeUpload, Encode, ChunkItems, InitRead, ChunkLoop;
    var items := InitItems(u);
    var init, chunks := Wire(c, key, items, []), ChunkWire(c, key, Inc4(u.nonce), u.Blobs(c), []);
    WireConcat(c, key, items, ChunkItems(Inc4(u.nonce), u.Blobs(c)), []);
    WireAppend(c, key, items, [], chunks);
    assert [] + chunks == chunks;
    if |s| < |init| {
      assert s == init[..|s|];
      CutInitKeepsStore(c, key, u, |s|, store, junk);
    } else {
      var k := |s| - |init|;
      WireAppend(c, key, items, [], chunks[..k]);
      assert [] + chunks[..k] == chunks[..k];
      assert s == init + chunks[..k];
      InterruptedUploadStores(c, key, u, s, k, store, junk);
    }
  }

  // Reasoning about a loop in progress.

  /** What the loop has published so far and what it has still to do make up what
      it was to do at the start. */
  predicate Remains(all: Outcome, start: Bytes, now: Outcome, out: Bytes)
  {
    all.code == now.code && all.rest == now.rest && start + Flatten(all.published) == out + Flatten(now.published)
  }

  lemma RemainsAll(all: Outcome, start: Bytes)
    ensures Remains(all, start, all, start)
  {
  }

  lemma RemainsNothing(all: Outcome, start: Bytes, now: Outcome, out: Bytes)
    requires Remains(all, start, now, out)
    ensures all.code == now.code && all.rest == now.rest
    ensures now.published == [] ==> out == start + Flatten(all.published)
  {
  }

  lemma RemainsStep(all: Outcome, start: Bytes, now: Outcome, out: Bytes, blob: Bytes, later: Outcome)
    requires Remains(all, start, now, out)
    requires now == Outcome(later.code, [blob] + later.published, later.rest)
    ensures Remains(all, start, later, out + blob)
  {
    assert now.published[1..] == later.published;
    Assoc(out, blob, Flatten(later.published));
  }
}
