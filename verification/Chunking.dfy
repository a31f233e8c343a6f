/** Cutting a file into chunks, encrypting them, and cutting the stored file
    again at the larger size without any lengths in it. */
module Chunking {
  import opened Octets
  import opened Crypto
  import opened Framing

  /** What a loop of `read`s of `n` bytes sees up to and including the first
      short one: end-of-file is only noticed by a read that falls short, so the
      last piece is always short and may be empty. */
  function Cut(data: Bytes, n: nat): (pieces: seq<Bytes>)
    requires n > 0
    ensures pieces != []
  {
    if |data| < n then [data] else [data[..n]] + Cut(data[n..], n)
  }

  /** Every piece but the last is full and the last is not. */
  predicate LastShort(pieces: seq<Bytes>, n: nat)
  {
    && pieces != []
    && (forall i | 0 <= i < |pieces| - 1 :: |pieces[i]| == n)
    && |pieces[|pieces| - 1]| < n
  }

  lemma {:induction false} CutShape(data: Bytes, n: nat)
    requires n > 0
    ensures LastShort(Cut(data, n), n)
    ensures Flatten(Cut(data, n)) == data
  {
    if |data| < n {
      assert Flatten([data]) == data + Flatten([]);
    } else {
      var rest := Cut(data[n..], n);
      CutShape(data[n..], n);
      assert Cut(data, n) == [data[..n]] + rest;
      assert forall i | 1 <= i < |rest| + 1 :: Cut(data, n)[i] == rest[i - 1];
      assert Cut(data, n)[1..] == rest;
      assert data == data[..n] + data[n..];
    }
  }

  lemma {:induction false} CutCount(data: Bytes, n: nat)
    requires n > 0
    ensures |Cut(data, n)| == |data| / n + 1
  {
    if |data| >= n {
      CutCount(data[n..], n);
      assert |data| == |data| - n + n;
      DivStep(|data| - n, n);
    }
  }

  lemma DivStep(a: nat, n: nat)
    requires n > 0
    ensures (a + n) / n == a / n + 1
  {
    var q, r := a / n, a % n;
    assert a == q * n + r;
    assert a + n == (q + 1) * n + r;
    DivUnique(a + n, n, q + 1, r);
  }

  lemma DivUnique(a: nat, n: nat, q: nat, r: nat)
    requires n > 0 && a == q * n + r && r < n
    ensures a / n == q
  {
    var p := a / n;
    assert a == p * n + a % n;
    MulMono(p + 1, q, n);
    MulMono(q + 1, p, n);
  }

  lemma MulMono(a: nat, b: nat, n: nat)
    ensures a <= b ==> a * n <= b * n
  {
  }

  /** Re-chunking: cutting a concatenation gives back any pieces of which all
      but the last are full. */
  lemma {:induction false} CutOfFlatten(pieces: seq<Bytes>, n: nat)
    requires n > 0 && LastShort(pieces, n)
    ensures Cut(Flatten(pieces), n) == pieces
  {
    if |pieces| == 1 {
      assert pieces == [pieces[0]];
      assert pieces[1..] == [];
      assert Flatten(pieces) == pieces[0];
    } else {
      var rest := pieces[1..];
      assert rest[|rest| - 1] == pieces[|pieces| - 1];
      assert forall i | 0 <= i < |rest| - 1 :: rest[i] == pieces[i + 1];
      CutOfFlatten(rest, n);
      assert Flatten(pieces)[..n] == pieces[0];
      assert Flatten(pieces)[n..] == Flatten(rest);
    }
  }

  /** The same for chunks that each grew by `overhead`, both sizes arbitrary. */
  lemma RecutGrown(chunks: seq<Bytes>, blobs: seq<Bytes>, size: nat, overhead: nat)
    requires size > 0 && LastShort(chunks, size)
    requires |blobs| == |chunks| && forall i | 0 <= i < |chunks| :: |blobs[i]| == |chunks[i]| + overhead
    ensures Cut(Flatten(blobs), size + overhead) == blobs
  {
    CutOfFlatten(blobs, size + overhead);
  }

  /** Full pieces only: the cut ends with an empty piece. */
  lemma RecutFull(blobs: seq<Bytes>, n: nat)
    requires n > 0 && forall i | 0 <= i < |blobs| :: |blobs[i]| == n
    ensures Cut(Flatten(blobs), n) == blobs + [[]]
  {
    FlattenConcat(blobs, [[]]);
    assert Flatten([[]]) == [];
    CutOfFlatten(blobs + [[]], n);
  }

  /** The chunk loop's secretstream: the last chunk is tagged final. */
  function Encrypt(c: Suite, st: Bytes, chunks: seq<Bytes>): seq<Bytes>
    decreases |chunks|
  {
    if chunks == [] then [] else
    var (next, blob) := c.push(st, chunks[0], Tag(|chunks|));
    [blob] + Encrypt(c, next, chunks[1..])
  }

  /** The stream state in front of the `i`-th chunk. */
  function StateAt(c: Suite, st: Bytes, chunks: seq<Bytes>, i: nat): Bytes
    requires i <= |chunks|
  {
    if i == 0 then st else c.push(StateAt(c, st, chunks, i - 1), chunks[i - 1], Tag(|chunks| - (i - 1))).0
  }

  lemma {:induction false} StateAtTail(c: Suite, st: Bytes, chunks: seq<Bytes>, i: nat)
    requires 0 < i <= |chunks|
    ensures StateAt(c, st, chunks, i) == StateAt(c, c.push(st, chunks[0], Tag(|chunks|)).0, chunks[1..], i - 1)
  {
    if i > 1 {
      StateAtTail(c, st, chunks, i - 1);
    }
  }

  /** Each blob is its chunk pushed in the state its predecessors left, tagged final
      exactly at the last one. */
  lemma {:induction false} EncryptAt(c: Suite, st: Bytes, chunks: seq<Bytes>, i: nat)
    requires i < |chunks|
    ensures |Encrypt(c, st, chunks)| == |chunks|
    ensures Encrypt(c, st, chunks)[i]
         == c.push(StateAt(c, st, chunks, i), chunks[i], if i == |chunks| - 1 then TAG_FINAL else TAG_MESSAGE).1
    decreases |chunks|
  {
    var next := c.push(st, chunks[0], Tag(|chunks|)).0;
    if |chunks| == 1 {
      assert chunks[1..] == [];
    } else {
      EncryptAt(c, next, chunks[1..], if i == 0 then 0 else i - 1);
      if i > 0 {
        StateAtTail(c, st, chunks, i);
      }
    }
  }

  lemma {:induction false} EncryptShape(c: Suite, st: Bytes, chunks: seq<Bytes>)
    requires StreamShape(c)
    ensures |Encrypt(c, st, chunks)| == |chunks|
    ensures forall i | 0 <= i < |chunks| :: |Encrypt(c, st, chunks)[i]| == |chunks[i]| + STREAM
    decreases |chunks|
  {
    if chunks != [] {
      var next := c.push(st, chunks[0], Tag(|chunks|)).0;
      EncryptShape(c, next, chunks[1..]);
    }
  }

  /** One upload: the file, the name it is sent under, and the random values
      the client drew for it. */
  datatype Sending = Sending(password: Bytes, nonce: u64, header: Bytes, salt: Bytes, name: Bytes, data: Bytes)
  {
    predicate Valid()
    {
      |header| == HEADER && |salt| == SALT
    }

    function Chunks(): seq<Bytes>
    {
      Cut(data, CHUNK_SIZE)
    }

    function StartState(c: Suite): Bytes
    {
      c.initPush(c.derive(password, salt), header)
    }

    function Blobs(c: Suite): seq<Bytes>
    {
      Encrypt(c, StartState(c), Chunks())
    }

    /** What the server stores: header, salt, ciphertext chunks. */
    function Stored(c: Suite): Bytes
    {
      header + salt + Flatten(Blobs(c))
    }
  }

  /** Re-chunking agreement: the server's reads of the stored body reproduce the
      blobs the client sent, so the end falls on the same blob. */
  lemma RechunkingAgrees(c: Suite, u: Sending)
    requires StreamShape(c)
    ensures Cut(Flatten(u.Blobs(c)), FILE_ENCRYPTED_CHUNK_SIZE) == u.Blobs(c)
    ensures LastShort(u.Blobs(c), FILE_ENCRYPTED_CHUNK_SIZE)
    ensures |u.Blobs(c)[|u.Blobs(c)| - 1]| >= STREAM
    ensures |u.Blobs(c)| == |u.Chunks()| == |u.data| / CHUNK_SIZE + 1
  {
    hide Cut, Encrypt, Flatten;
    CutShape(u.data, CHUNK_SIZE);
    CutCount(u.data, CHUNK_SIZE);
    EncryptShape(c, u.StartState(c), u.Chunks());
    RecutGrown(u.Chunks(), u.Blobs(c), CHUNK_SIZE, STREAM);
  }

  lemma BlobsFit(c: Suite, u: Sending)
    requires StreamShape(c)
    ensures u.Blobs(c) != []
    ensures forall i | 0 <= i < |u.Blobs(c)| :: |u.Blobs(c)[i]| <= FILE_ENCRYPTED_CHUNK_SIZE
  {
    RechunkingAgrees(c, u);
  }

  lemma {:induction false} FlattenLength(chunks: seq<Bytes>, blobs: seq<Bytes>, overhead: nat)
    requires |blobs| == |chunks| && forall i | 0 <= i < |chunks| :: |blobs[i]| == |chunks[i]| + overhead
    ensures |Flatten(blobs)| == |Flatten(chunks)| + overhead * |chunks|
  {
    if chunks != [] {
      FlattenLength(chunks[1..], blobs[1..], overhead);
      assert overhead * |chunks| == overhead + overhead * (|chunks| - 1);
    }
  }

  lemma StoredSize(c: Suite, u: Sending)
    requires StreamShape(c) && u.Valid()
    ensures |u.Stored(c)| == 40 + |u.data| + 17 * (|u.data| / 65536 + 1)
  {
    CutShape(u.data, CHUNK_SIZE);
    CutCount(u.data, CHUNK_SIZE);
    EncryptShape(c, u.StartState(c), u.Chunks());
    FlattenLength(u.Chunks(), u.Blobs(c), STREAM);
  }
}
