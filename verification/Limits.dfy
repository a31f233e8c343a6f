/** Exact limits: how long a nonce counter stays fresh, which names and which
    requests work, and what an unsent intent does to the session. */
module Limits {
  import opened Octets
  import opened Crypto
  import opened Framing
  import opened Chunking
  import opened Upload
  import opened Download
  import opened Actions
  import opened Protocol

  // Nonces.

  /** The nonces that session frames carry, in order. */
  function Nonces(items: seq<Item>): seq<u64>
  {
    if items == [] then []
    else if items[0].Session? then [items[0].nonce] + Nonces(items[1..])
    else Nonces(items[1..])
  }

  /** The `n` values a counter takes after `seed`. */
  ghost predicate CountsFrom(nonces: seq<u64>, seed: u64)
  {
    forall i | 0 <= i < |nonces| :: nonces[i] == (seed + 1 + i) % TWO64
  }

  ghost predicate PairwiseDistinct(nonces: seq<u64>)
  {
    forall i, j | 0 <= i < j < |nonces| :: nonces[i] != nonces[j]
  }

  /** A counter repeats itself exactly after 2^64 values. */
  lemma CounterDistinctIff(nonces: seq<u64>, seed: u64)
    requires CountsFrom(nonces, seed)
    ensures PairwiseDistinct(nonces) <==> |nonces| <= TWO64
  {
    if |nonces| <= TWO64 {
      forall i, j | 0 <= i < j < |nonces| ensures nonces[i] != nonces[j] {
        ModApart(seed + 1 + i, seed + 1 + j);
      }
    } else {
      ModTurn(seed + 1);
      assert nonces[0] == nonces[TWO64];
    }
  }

  lemma ModApart(a: nat, b: nat)
    requires a < b < a + TWO64
    ensures a % TWO64 != b % TWO64
  {
  }

  lemma ModTurn(a: nat)
    ensures (a + TWO64) % TWO64 == a % TWO64
  {
  }

  lemma {:induction false} ChunkNonces(seed: u64, blobs: seq<Bytes>)
    ensures |Nonces(ChunkItems(seed, blobs))| == |blobs|
    ensures CountsFrom(Nonces(ChunkItems(seed, blobs)), seed)
    decreases |blobs|
  {
    if blobs != [] {
      var items, more := ChunkItems(seed, blobs), ChunkItems(Inc(seed), blobs[1..]);
      ChunkNonces(Inc(seed), blobs[1..]);
      assert items[1..] == [Raw(blobs[0])] + more;
      assert items[1..][1..] == more;
      assert Nonces(items) == [Inc(seed)] + Nonces(more);
      ConsCounts(Nonces(more), seed);
    }
  }

  lemma ConsCounts(nonces: seq<u64>, seed: u64)
    requires CountsFrom(nonces, Inc(seed))
    ensures CountsFrom([Inc(seed)] + nonces, seed)
  {
    var all := [Inc(seed)] + nonces;
    forall i | 0 <= i < |all| ensures all[i] == (seed + 1 + i) % TWO64 {
      if i > 0 {
        IncThen(seed, i);
      }
    }
  }

  /** Prepending a session frame under the counter's next value. */
  lemma NoncesCons(plain: Bytes, more: seq<Item>, seed: u64)
    requires CountsFrom(Nonces(more), Inc(seed))
    ensures CountsFrom(Nonces([Session(Inc(seed), plain)] + more), seed)
    ensures |Nonces([Session(Inc(seed), plain)] + more)| == 1 + |Nonces(more)|
  {
    var items := [Session(Inc(seed), plain)] + more;
    assert items[1..] == more;
    ConsCounts(Nonces(more), seed);
  }

  /** Nonce discipline of an upload: its frames carry successive counter values, all
      distinct exactly while there are at most 2^64 of them. */
  lemma UploadNonces(c: Suite, u: Sending)
    requires StreamShape(c)
    ensures |Nonces(UploadItems(c, u))| == 4 + (|u.data| / CHUNK_SIZE + 1)
    ensures CountsFrom(Nonces(UploadItems(c, u)), u.nonce)
    ensures PairwiseDistinct(Nonces(UploadItems(c, u))) <==> 4 + (|u.data| / CHUNK_SIZE + 1) <= TWO64
  {
    hide Nonces, CountsFrom;
    RechunkingAgrees(c, u);
    var i0, i4 := InitItems(u), ChunkItems(Inc4(u.nonce), u.Blobs(c));
    ChunkNonces(Inc4(u.nonce), u.Blobs(c));
    NoncesCons(u.salt, i4, Inc(Inc(Inc(u.nonce))));
    NoncesCons(u.header, [i0[3]] + i4, Inc(Inc(u.nonce)));
    NoncesCons(u.name, [i0[2]] + ([i0[3]] + i4), Inc(u.nonce));
    NoncesCons([1], [i0[1]] + ([i0[2]] + ([i0[3]] + i4)), u.nonce);
    assert UploadItems(c, u) == [i0[0]] + ([i0[1]] + ([i0[2]] + ([i0[3]] + i4)));
    CounterDistinctIff(Nonces(UploadItems(c, u)), u.nonce);
  }

  /** The same for a download of any stored file. */
  lemma DownloadNonces(nonce: u64, file: Bytes, junk: Junk)
    ensures CountsFrom(Nonces(DownloadItems(nonce, file, junk)), nonce)
    ensures |Nonces(DownloadItems(nonce, file, junk))| == 2 + (|StoredBody(file)| / FILE_ENCRYPTED_CHUNK_SIZE + 1)
    ensures PairwiseDistinct(Nonces(DownloadItems(nonce, file, junk)))
            <==> 2 + (|StoredBody(file)| / FILE_ENCRYPTED_CHUNK_SIZE + 1) <= TWO64
  {
    hide Nonces, CountsFrom;
    var pieces := Cut(StoredBody(file), FILE_ENCRYPTED_CHUNK_SIZE);
    CutCount(StoredBody(file), FILE_ENCRYPTED_CHUNK_SIZE);
    var i2 := ChunkItems(Inc(Inc(nonce)), pieces);
    var header, salt := StoredHeader(file, junk), StoredSalt(file, junk);
    ChunkNonces(Inc(Inc(nonce)), pieces);
    NoncesCons(salt, i2, Inc(nonce));
    NoncesCons(header, [Session(Inc(Inc(nonce)), salt)] + i2, nonce);
    assert DownloadItems(nonce, file, junk)
        == [Session(Inc(nonce), header)] + ([Session(Inc(Inc(nonce)), salt)] + i2);
    CounterDistinctIff(Nonces(DownloadItems(nonce, file, junk)), nonce);
  }

  lemma {:induction false} NameNonces(nonces: nat -> u64, names: seq<Bytes>, i: nat)
    ensures Nonces(NameItems(nonces, names, i)) == seq(|names|, k requires 0 <= k => Inc(nonces(i + k)))
    decreases |names|
  {
    if names != [] {
      var items := NameItems(nonces, names, i);
      assert items[1..] == NameItems(nonces, names[1..], i + 1);
      NameNonces(nonces, names[1..], i + 1);
    }
  }

  /** Nonce discipline of a listing: the count and every name go out under a value of
      their own, so the frames' nonces are distinct exactly when the drawn ones are. */
  lemma ListNonces(store: Store, env: Env)
    requires env.Valid()
    ensures Nonces(ListItems(store, env)) == [Inc(env.nonce)] + seq(|store|, k requires 0 <= k => Inc(env.nameNonce(k)))
    ensures PairwiseDistinct(Nonces(ListItems(store, env)))
            <==> PairwiseDistinct([env.nonce] + seq(|store|, k requires 0 <= k => env.nameNonce(k)))
  {
    var names := env.order(store.Keys);
    assert Lists(names, store.Keys);
    assert |names| == |store.Keys| == |store|;
    var items := ListItems(store, env);
    assert items[1..] == NameItems(env.nameNonce, names, 0);
    NameNonces(env.nameNonce, names, 0);
    assert seq(|names|, k requires 0 <= k => Inc(env.nameNonce(0 + k))) == seq(|store|, k requires 0 <= k => Inc(env.nameNonce(k)));
    IncApart([env.nonce] + seq(|store|, k requires 0 <= k => env.nameNonce(k)), Nonces(items));
  }

  lemma IncApart(drawn: seq<u64>, used: seq<u64>)
    requires |used| == |drawn| && forall i | 0 <= i < |drawn| :: used[i] == Inc(drawn[i])
    ensures PairwiseDistinct(used) <==> PairwiseDistinct(drawn)
  {
    if PairwiseDistinct(drawn) {
      forall i, j | 0 <= i < j < |used| ensures used[i] != used[j] {
        assert drawn[i] != drawn[j];
      }
    } else {
      var i, j :| 0 <= i < j < |drawn| && drawn[i] == drawn[j];
      assert used[i] == used[j];
    }
  }

  /** Nonce discipline of an action's body: successive values after the seed drawn for
      it, whether a file, a missing file, a directory or a name is sent. */
  lemma BodyNonces(c: Suite, password: Bytes, local: map<Bytes, Bytes>, a: Action)
    requires StreamShape(c) && !a.List?
    ensures CountsFrom(Nonces(BodyItems(c, password, local, a)), a.nonce)
    ensures a.Get? || a.Delete? ==> |Nonces(BodyItems(c, password, local, a))| == 1
  {
    match a
    case Put(name, nonce, _, _) =>
      var u := SendingOf(password, a, []);
      match Lookup(local, name) {
        case Absent => OneNonce([0], nonce);
        case Regular(data) => UploadNonces(c, u.(data := data));
        case Directory =>
          var i := InitItems(u);
          OneNonce(u.salt, Inc(Inc(Inc(nonce))));
          NoncesCons(u.header, [i[3]], Inc(Inc(nonce)));
          NoncesCons(u.name, [i[2]] + [i[3]], Inc(nonce));
          NoncesCons([1], [i[1]] + ([i[2]] + [i[3]]), nonce);
          assert i == [i[0]] + ([i[1]] + ([i[2]] + [i[3]]));
      }
    case Get(file, nonce, _, _) => OneNonce(file + [0], nonce);
    case Delete(file, nonce, _) => OneNonce(file + [0], nonce);
  }

  lemma OneNonce(text: Bytes, seed: u64)
    ensures CountsFrom(Nonces([Session(Inc(seed), text)]), seed) && |Nonces([Session(Inc(seed), text)])| == 1
  {
    NoncesCons(text, [], seed);
    assert [Session(Inc(seed), text)] + [] == [Session(Inc(seed), text)];
  }

  lemma {:induction false} ScriptCounts(acts: seq<Action>, nonce: u64)
    ensures var own := Nonces(Script(acts, seq(|acts|, k => []), nonce, 0));
            |own| == 2 * |acts| + 1 && CountsFrom(own, nonce)
    decreases |acts|
  {
    hide Nonces, CountsFrom, IntentBytes, Inc, After;
    AfterTwo(nonce, 0);
    if acts == [] {
      OneNonce([99, 0, 0, 0], nonce);
    } else {
      var bodies: seq<seq<Item>> := seq(|acts|, k => []);
      var n1, n2 := Inc(nonce), Inc(Inc(nonce));
      ScriptCounts(acts[1..], n2);
      ScriptShift(acts, bodies, nonce, 0);
      assert bodies[1..] == seq(|acts| - 1, k => []);
      var more := Script(acts, bodies, nonce, 1);
      NoncesCons(IntentBytes(acts[0]), more, n1);
      NoncesCons([88, 0, 0, 0], [Session(n2, IntentBytes(acts[0]))] + more, nonce);
      assert Script(acts, bodies, nonce, 0) == [Session(n1, [88, 0, 0, 0])] + ([Session(n2, IntentBytes(acts[0]))] + more);
    }
  }

  /** Nonce discipline of the client's notices and intents: over a whole session they
      are the successive values of one counter, distinct exactly up to 2^64 of them. */
  lemma ScriptNonces(acts: seq<Action>, nonce: u64)
    ensures var own := Nonces(Script(acts, seq(|acts|, k => []), nonce, 0));
            && |own| == 2 * |acts| + 1 && CountsFrom(own, nonce)
            && (PairwiseDistinct(own) <==> 2 * |acts| + 1 <= TWO64)
  {
    hide Nonces, CountsFrom, Script, PairwiseDistinct;
    ScriptCounts(acts, nonce);
    CounterDistinctIff(Nonces(Script(acts, seq(|acts|, k => []), nonce, 0)), nonce);
  }

  // Names and requests.

  /** A one-frame request is read whole exactly when its text fits the capacity;
      the bytes behind it are untouched either way. */
  lemma RequestOpensIff(c: Suite, key: Bytes, nonce: u64, text: Bytes, capacity: u64, rest: Bytes)
    requires SessionSound(c) && |text| <= FILE_ENCRYPTED_CHUNK_SIZE
    ensures Receive(c, key, Wire(c, key, [Session(nonce, text)], rest), capacity)
         == (if |text| <= capacity then Opened(text) else Refused(2), rest)
  {
    hide Receive, Encode;
    var items := [Session(nonce, text)];
    assert items[1..] == [];
    if |text| <= capacity {
      ReceiveSession(c, key, nonce, text, rest, capacity);
    } else {
      ReceiveTooLarge(c, key, nonce, text, rest, capacity);
    }
  }

  /** A refused name leaves the directory as it was and the stream at the header
      frame. */
  lemma OverlongUpload(c: Suite, key: Bytes, u: Sending, store: Store, junk: Junk, rest: Bytes)
    requires SessionSound(c) && 250 < |u.name| <= FILE_ENCRYPTED_CHUNK_SIZE
    ensures ServeUpload(c, key, Wire(c, key, UploadItems(c, u), rest), store, junk)
         == (1, store, Wire(c, key, UploadItems(c, u)[2..], rest))
  {
    hide Receive, Encode, ChunkLoop, ChunkItems;
    var items := UploadItems(c, u);
    var s2 := Wire(c, key, items[2..], rest);
    assert items[1..][1..] == items[2..];
    assert Wire(c, key, items[1..], rest) == Encode(c, key, items[1]) + s2;
    ReceiveSession(c, key, items[0].nonce, [1], Encode(c, key, items[1]) + s2, 1);
    ReceiveTooLarge(c, key, items[1].nonce, u.name, s2, PRE_EXT_FILE_NAME_LEN);
  }

  /** `init_read` accepts the upload of a name without NUL exactly up to 250 bytes. */
  lemma UploadAcceptsIff(c: Suite, key: Bytes, u: Sending, store: Store, junk: Junk, rest: Bytes)
    requires Sound(c) && junk.Valid() && u.Valid() && 0 !in u.name && |u.name| <= FILE_ENCRYPTED_CHUNK_SIZE
    ensures ServeUpload(c, key, Wire(c, key, UploadItems(c, u), rest), store, junk).0 == 0 <==> |u.name| <= 250
    ensures |u.name| > 250 ==> ServeUpload(c, key, Wire(c, key, UploadItems(c, u), rest), store, junk).1 == store
  {
    hide ServeUpload, UploadItems, Wire;
    if |u.name| <= 250 {
      UploadStores(c, key, u, store, junk, rest);
    } else {
      OverlongUpload(c, key, u, store, junk, rest);
    }
  }

  /** An upload whose name is over 250 bytes costs the session: the client goes on
      sending, the server takes the 24-byte header for a notice and ends the loop
      with the salt and every chunk unread, the directory unchanged. */
  lemma OverlongUploadEndsSession(c: Suite, key: Bytes, password: Bytes, local: map<Bytes, Bytes>, a: Action,
                                  nonce: u64, rest: Bytes, home: Home, envs: nat -> Env, i: nat)
    requires SessionSound(c) && a.Put? && |a.header| == HEADER
    requires a.name in local && 250 < |a.name| <= FILE_ENCRYPTED_CHUNK_SIZE
    ensures var unread := UploadItems(c, SendingOf(password, a, local[a.name]))[3..];
            ServeSession(c, key, Wire(c, key, ClientItems(c, password, local, a, nonce), rest), home, envs, i)
            == Served(2, Ends, home, [], Wire(c, key, unread, rest))
  {
    hide ServeTurn, ServeUpload, Wire, UploadItems;
    var u := SendingOf(password, a, local[a.name]);
    var items := UploadItems(c, u);
    TurnReaches(c, key, a, items, nonce, rest, home, envs(i));
    OverlongUpload(c, key, u, if home.Home? then home.files else map[], envs(i).junk, rest);
    NotANotice(c, key, u, home, envs(i + 1), rest);
  }

  lemma NotANotice(c: Suite, key: Bytes, u: Sending, home: Home, env: Env, rest: Bytes)
    requires SessionSound(c) && |u.header| == HEADER
    ensures ServeTurn(c, key, Wire(c, key, UploadItems(c, u)[2..], rest), home, env)
         == Turn(Ends, home, [], Wire(c, key, UploadItems(c, u)[3..], rest))
  {
    hide Receive, Encode, ChunkItems;
    var items := UploadItems(c, u)[2..];
    assert items[1..] == UploadItems(c, u)[3..];
    ReceiveTooLarge(c, key, items[0].nonce, u.header, Wire(c, key, items[1..], rest), 4);
  }

  /** A download succeeds exactly when the file is there and its name, terminator
      included, fits 250 bytes; otherwise the server replies nothing, and the client
      fails, or throws if the name is shorter than the extension. */
  lemma DownloadSucceedsIff(c: Suite, up: Bytes, down: Bytes, password: Bytes, w: World, home: Home, a: Action,
                            nonce: u64, env: Env, rest: Bytes)
    requires Sound(c) && env.Valid() && Represents(c, password, home, w.remote)
    requires a.Get? && a.junk.Valid() && Plain(a.file) && |a.file| < FILE_ENCRYPTED_CHUNK_SIZE
    ensures var t := Answer(c, up, password, w, home, a, nonce, env, rest);
            var success := a.file in w.remote && |a.file| < 250;
            && t.flow.Goes? && t.rest == rest && t.home == home
            && (t.reply != [] <==> success)
            && Reported(c, down, password, w, a, t)
               == if success then Got(0) else if |a.file| < |EXT| then Aborted else Got(1)
  {
    hide ServeTurn, Receive, ClientItems, Represents;
    if a.file in w.remote && |a.file| < 250 {
      GetTurn(c, up, password, w, a, nonce, rest, home, env);
      GetReceived(c, down, password, w, a, [], home, env);
    } else {
      DownloadUnanswered(c, up, password, w, home, a, nonce, env, rest);
      NothingReceived(c, down);
    }
  }

  lemma NothingReceived(c: Suite, key: Bytes)
    ensures Receive(c, key, [], HEADER) == (Refused(4), [])
    ensures Receive(c, key, [], 4) == (Refused(4), [])
  {
  }

  lemma DownloadUnanswered(c: Suite, up: Bytes, password: Bytes, w: World, home: Home, a: Action, nonce: u64, env: Env, rest: Bytes)
    requires Sound(c) && env.Valid() && Represents(c, password, home, w.remote)
    requires a.Get? && Plain(a.file) && |a.file| < FILE_ENCRYPTED_CHUNK_SIZE
    requires !(a.file in w.remote && |a.file| < 250)
    ensures Answer(c, up, password, w, home, a, nonce, env, rest) == Turn(Goes, home, [], rest)
  {
    hide ServeTurn, Receive, Wire;
    TurnReaches(c, up, a, BodyItems(c, password, w.local, a), nonce, rest, home, env);
    RequestOpensIff(c, up, Inc(a.nonce), a.file + [0], PRE_EXT_FILE_NAME_LEN, rest);
    CStringStops(a.file, env.junk.tail);
  }

  /** The server acts on a deletion exactly when the name fits; then the client
      learns whether the file was there. */
  lemma DeleteAnsweredIff(c: Suite, up: Bytes, down: Bytes, password: Bytes, w: World, home: Home, a: Action,
                          nonce: u64, env: Env, rest: Bytes)
    requires Sound(c) && env.Valid() && Represents(c, password, home, w.remote)
    requires a.Delete? && Plain(a.file) && |a.file| < FILE_ENCRYPTED_CHUNK_SIZE
    ensures var t := Answer(c, up, password, w, home, a, nonce, env, rest);
            && t.flow.Goes? && t.rest == rest
            && t.home == (if |a.file| < 250 then Home(home.files - {a.file}) else home)
            && Reported(c, down, password, w, a, t)
               == if |a.file| < 250 then Deleted(0, a.file in w.remote) else Deleted(1, false)
  {
    hide ServeTurn, Receive, ClientItems, Ack;
    if |a.file| < 250 {
      DeleteTurn(c, up, password, w, a, nonce, rest, home, env);
      AckReceived(c, down, password, w.local, a, [], env.nonce, a.file in home.files);
    } else {
      DeleteUnanswered(c, up, password, w, home, a, nonce, env, rest);
      NothingReceived(c, down);
    }
  }

  lemma DeleteUnanswered(c: Suite, up: Bytes, password: Bytes, w: World, home: Home, a: Action, nonce: u64, env: Env, rest: Bytes)
    requires Sound(c) && a.Delete? && 250 <= |a.file| < FILE_ENCRYPTED_CHUNK_SIZE
    ensures Answer(c, up, password, w, home, a, nonce, env, rest) == Turn(Goes, home, [], rest)
  {
    hide ServeTurn, Receive, Wire, Ack;
    TurnReaches(c, up, a, BodyItems(c, password, w.local, a), nonce, rest, home, env);
    RequestOpensIff(c, up, Inc(a.nonce), a.file + [0], PRE_EXT_FILE_NAME_LEN, rest);
  }

  /** The read handler's return codes: 3 for a request that never arrived, 2 for one
      that cannot be read, its name too long among them, 1 for a file that is not
      there, 0 for one that was sent. */
  lemma DownloadCodes(c: Suite, key: Bytes, nonce: u64, file: Bytes, rest: Bytes, s: Bytes, files: Store, env: Env)
    requires SessionSound(c) && env.Valid() && Plain(file) && |file| < FILE_ENCRYPTED_CHUNK_SIZE
    ensures ServeDownload(c, key, Wire(c, key, [Session(nonce, file + [0])], rest), Home(files), env).0
         == if |file| >= 250 then 2 else if file in files then 0 else 1
    ensures var (frame, left) := Receive(c, key, s, 250);
            frame.Refused? ==>
              ServeDownload(c, key, s, Home(files), env)
              == (if ReadFrame(s).0.Corrupt? then 3 else 2, Turn(Goes, Home(files), [], left))
  {
    hide Encode, Wire, ReadFrame, DownloadItems;
    RequestOpensIff(c, key, nonce, file + [0], PRE_EXT_FILE_NAME_LEN, rest);
    CStringStops(file, env.junk.tail);
    UnwrapCodes(c, key, ReadFrame(s).0, 250);
  }

  /** The delete handler's: 2 for a request that never arrived, 1 for one that cannot
      be read, 0 otherwise, whether or not there was such a file. */
  lemma DeleteCodes(c: Suite, key: Bytes, nonce: u64, file: Bytes, rest: Bytes, s: Bytes, files: Store, env: Env)
    requires SessionSound(c) && env.Valid() && Plain(file) && |file| < FILE_ENCRYPTED_CHUNK_SIZE
    ensures ServeDelete(c, key, Wire(c, key, [Session(nonce, file + [0])], rest), Home(files), env).0
         == if |file| >= 250 then 1 else 0
    ensures var (frame, left) := Receive(c, key, s, 250);
            frame.Refused? ==>
              ServeDelete(c, key, s, Home(files), env)
              == (if ReadFrame(s).0.Corrupt? then 2 else 1, Turn(Goes, Home(files), [], left))
  {
    hide Encode, Wire, ReadFrame, Ack;
    RequestOpensIff(c, key, nonce, file + [0], PRE_EXT_FILE_NAME_LEN, rest);
    CStringStops(file, [0]);
    assert file + [0] + [0] == (file + [0]) + [0];
    UnwrapCodes(c, key, ReadFrame(s).0, 250);
  }

  /** A name sent without its NUL: the read handler's buffer is not cleared, so the
      name runs on into what was there before; the delete handler's is, and the name
      is taken as sent. */
  lemma UnterminatedName(c: Suite, key: Bytes, nonce: u64, name: Bytes, rest: Bytes, files: Store, env: Env)
    requires SessionSound(c) && env.Valid() && 0 !in name && |name| <= 250
    requires !env.directory(name + CString(env.junk.tail)) && !env.directory(name)
    ensures var s, read := Wire(c, key, [Session(nonce, name)], rest), name + CString(env.junk.tail);
            && ServeDownload(c, key, s, Home(files), env)
               == (if read in files then (0, Turn(Goes, Home(files), DownloadItems(env.nonce, files[read], env.junk), rest))
                   else (1, Turn(Goes, Home(files), [], rest)))
            && ServeDelete(c, key, s, Home(files), env).1.home == Home(files - {name})
  {
    hide Receive, Encode, Wire, DownloadItems, Ack;
    RequestOpensIff(c, key, nonce, name, PRE_EXT_FILE_NAME_LEN, rest);
    CStringRuns(name, env.junk.tail);
    CStringStops(name, []);
    assert name + [0] + [] == name + [0];
  }

  // Names of directories: "", "." and "..".

  /** An upload of a directory never ends: the client sends the four first frames and
      then chunks for ever, and gets to no later action and no closing notice. */
  lemma DirectoryUploadEndless(c: Suite, down: Bytes, password: Bytes, local: map<Bytes, Bytes>, acts: seq<Action>,
                               nonce: u64, back: Bytes)
    requires acts != [] && acts[0].Put? && DirName(acts[0].name)
    ensures var a := acts[0];
            ClientSession(c, down, password, local, acts, nonce, back)
            == ClientRun([Endless], local,
                         NoticeItems(a, nonce) + InitItems(Sending(password, a.nonce, a.header, a.salt, a.name, [])), back)
  {
    hide InitItems;
  }

  /** A download of a directory hangs the session at once, whatever follows on the
      stream; this client, after sending the request, throws. */
  lemma DirectoryDownloadHangs(c: Suite, up: Bytes, down: Bytes, password: Bytes, w: World, files: Store, a: Action,
                               nonce: u64, envs: nat -> Env, i: nat, rest: Bytes, back: Bytes)
    requires SessionSound(c) && envs(i).Valid() && a.Get? && DirName(a.file)
    ensures var env := envs(i);
            ServeSession(c, up, Wire(c, up, ClientItems(c, password, w.local, a, nonce), rest), Home(files), envs, i)
            == Served(1, Hangs, Home(files), HeadItems(env.nonce, env.junk.header, env.junk.salt), rest)
    ensures ClientReceive(c, down, password, w.local, a, back) == (Aborted, w.local, back)
  {
    hide ServeTurn, Receive, Wire;
    TurnReaches(c, up, a, BodyItems(c, password, w.local, a), nonce, rest, Home(files), envs(i));
    NameReceived(c, up, a.nonce, a.file, envs(i).junk.tail, rest);
  }

  /** A deletion of a directory kills the server, except that the empty name removes
      the user's own directory when no file is left in it. */
  lemma DirectoryDelete(c: Suite, up: Bytes, password: Bytes, w: World, files: Store, a: Action,
                        nonce: u64, env: Env, rest: Bytes)
    requires SessionSound(c) && env.Valid() && a.Delete? && DirName(a.file)
    ensures Answer(c, up, password, w, Home(files), a, nonce, env, rest)
         == if a.file == [] && files == map[] then Turn(Goes, Removed, [Session(Inc(env.nonce), Ack(true))], rest)
            else Turn(Crashes, Home(files), [], rest)
  {
    hide ServeTurn, Receive, Wire, Ack;
    TurnReaches(c, up, a, BodyItems(c, password, w.local, a), nonce, rest, Home(files), env);
    NameReceived(c, up, a.nonce, a.file, [0], rest);
  }

  /** After the empty name has removed the user's directory: nothing is found, deleted
      or stored, uploads are read all the same, and a listing throws. */
  lemma GoneDirectory(c: Suite, up: Bytes, password: Bytes, w: World, a: Action, nonce: u64, env: Env, rest: Bytes)
    requires Sound(c) && env.Valid()
    requires match a
             case Put(name, _, header, salt) => Plain(name) && |name| <= 250 && |header| == HEADER && |salt| == SALT
             case Get(file, _, _, _) => 0 !in file && |file| < 250
             case List(_) => true
             case Delete(file, _, _) => 0 !in file && |file| < 250
    ensures Answer(c, up, password, w, Removed, a, nonce, env, rest)
         == match a
            case Put(_, _, _, _) => Turn(Goes, Removed, [], rest)
            case Get(_, _, _, _) => Turn(Goes, Removed, [], rest)
            case List(_) => Turn(Crashes, Removed, [], rest)
            case Delete(_, _, _) => Turn(Goes, Removed, [Session(Inc(env.nonce), [255, 255, 255, 255])], rest)
  {
    hide ServeTurn, Receive, Wire, ServeUpload, UploadItems, EncInt;
    TurnReaches(c, up, a, BodyItems(c, password, w.local, a), nonce, rest, Removed, env);
    match a
    case Put(name, _, _, _) =>
      if name in w.local {
        UploadStores(c, up, SendingOf(password, a, w.local[name]), map[], env.junk, rest);
      } else {
        MissingUploadIgnored(c, up, a.nonce, map[], env.junk, rest);
      }
    case Get(file, _, _, _) => NameReceived(c, up, a.nonce, file, env.junk.tail, rest);
    case List(_) => EmptyWire(c, up, rest);
    case Delete(file, _, _) =>
      NameReceived(c, up, a.nonce, file, [0], rest);
      MinusOne();
  }

  lemma {:induction false} NamesReceivedIff(c: Suite, key: Bytes, nonces: nat -> u64, names: seq<Bytes>, i: nat, rest: Bytes)
    requires SessionSound(c)
    requires forall k | 0 <= k < |names| :: |names[k]| < FILE_ENCRYPTED_CHUNK_SIZE
    ensures ReceiveNames(c, key, Wire(c, key, NameItems(nonces, names, i), rest), |names|).0.Some?
            <==> forall k | 0 <= k < |names| :: |names[k]| < 254
    decreases |names|
  {
    hide Receive, Encode;
    if names != [] {
      var items := NameItems(nonces, names, i);
      assert items[1..] == NameItems(nonces, names[1..], i + 1);
      var tail := Wire(c, key, items[1..], rest);
      NamesReceivedIff(c, key, nonces, names[1..], i + 1, rest);
      if |names[0]| < 254 {
        ReceiveSession(c, key, Inc(nonces(i)), names[0] + [0], tail, MAX_FILE_NAME_LENGTH - 1);
        assert (forall k | 0 <= k < |names| :: |names[k]| < 254) <==> forall k | 0 <= k < |names| - 1 :: |names[1..][k]| < 254 by {
          assert forall k | 1 <= k < |names| :: names[k] == names[1..][k - 1];
        }
      } else {
        ReceiveTooLarge(c, key, Inc(nonces(i)), names[0] + [0], tail, MAX_FILE_NAME_LENGTH - 1);
      }
    }
  }

  /** A listing succeeds exactly when every stored name is shorter than 254 bytes:
      one stem of 250 bytes, which an upload accepts, makes every listing fail. */
  lemma ListSucceedsIff(c: Suite, key: Bytes, store: Store, env: Env, junk: Word, rest: Bytes)
    requires Sound(c) && env.Valid() && |store| < 0x8000_0000
    requires forall m | m in store :: |m| < FILE_ENCRYPTED_CHUNK_SIZE
    ensures ReceiveList(c, key, Wire(c, key, ListItems(store, env), rest), junk).0.code
         == if forall m | m in store :: |m| < 254 then 0 else 1
  {
    hide Receive, Encode, ReceiveNames;
    var names := env.order(store.Keys);
    assert Lists(names, store.Keys);
    forall k | 0 <= k < |names| ensures names[k] in store { assert names[k] in names; }
    forall m | m in store ensures exists k :: 0 <= k < |names| && names[k] == m { assert m in names; }
    var items := ListItems(store, env);
    assert items[1..] == NameItems(env.nameNonce, names, 0);
    assert |store| == |store.Keys|;
    ReceiveSession(c, key, Inc(env.nonce), EncInt(|store|), Wire(c, key, items[1..], rest), 4);
    IntRoundTrip(|store|);
    NamesReceivedIff(c, key, env.nameNonce, names, 0, rest);
  }

  /** A listing that was cut: whichever byte is the last, the client fails and shows
      nothing more. */
  lemma ListCut(c: Suite, key: Bytes, store: Store, env: Env, junk: Word, k: nat)
    requires Sound(c) && env.Valid() && |store| < 0x8000_0000
    requires forall m | m in store :: |m| < 254
    requires k < |Wire(c, key, ListItems(store, env), [])|
    ensures ReceiveList(c, key, Wire(c, key, ListItems(store, env), [])[..k], junk) == (Listed(1, []), [])
  {
    hide Receive, Encode, ReceiveNames, NameItems;
    var names := env.order(store.Keys);
    assert Lists(names, store.Keys);
    forall n | 0 <= n < |names| ensures |names[n]| < 254 { assert names[n] in names; }
    var items := ListItems(store, env);
    assert items[1..] == NameItems(env.nameNonce, names, 0);
    var first, tail := Encode(c, key, items[0]), Wire(c, key, items[1..], []);
    TakeOfConcat(first, tail, [], k);
    assert tail + [] == tail;
    if k < |first| {
      CutFrame(c, key, Inc(env.nonce), EncInt(|store|), k, 4);
    } else {
      ReceiveSession(c, key, Inc(env.nonce), EncInt(|store|), tail[..k - |first|], 4);
      IntRoundTrip(|store|);
      assert |names| == |store.Keys| == |store|;
      NamesCut(c, key, env.nameNonce, names, 0, k - |first|);
    }
  }

  lemma {:induction false} NamesCut(c: Suite, key: Bytes, nonces: nat -> u64, names: seq<Bytes>, i: nat, k: nat)
    requires SessionSound(c) && forall n | 0 <= n < |names| :: |names[n]| < 254
    requires k < |Wire(c, key, NameItems(nonces, names, i), [])|
    ensures ReceiveNames(c, key, Wire(c, key, NameItems(nonces, names, i), [])[..k], |names|) == (None, [])
    decreases |names|
  {
    hide Receive, Encode;
    assert names != [];
    var items := NameItems(nonces, names, i);
    assert items[1..] == NameItems(nonces, names[1..], i + 1);
    var first, tail := Encode(c, key, items[0]), Wire(c, key, items[1..], []);
    TakeOfConcat(first, tail, [], k);
    assert tail + [] == tail;
    if k < |first| {
      CutFrame(c, key, Inc(nonces(i)), names[0] + [0], k, MAX_FILE_NAME_LENGTH - 1);
    } else {
      ReceiveSession(c, key, Inc(nonces(i)), names[0] + [0], tail[..k - |first|], MAX_FILE_NAME_LENGTH - 1);
      NamesCut(c, key, nonces, names[1..], i + 1, k - |first|);
    }
  }

  /** A count that is zero or negative lists nothing and succeeds. */
  lemma NothingListed(c: Suite, key: Bytes, nonce: u64, w: Word, junk: Word, rest: Bytes)
    requires SessionSound(c) && (w == [0, 0, 0, 0] || w[3] >= 128)
    ensures ReceiveList(c, key, Wire(c, key, [Session(nonce, w)], rest), junk) == (Listed(0, []), rest)
  {
    hide Receive, Encode;
    var items := [Session(nonce, w)];
    assert items[1..] == [];
    ReceiveSession(c, key, nonce, w, rest, 4);
    Unfold(w);
  }

  /** Name addressability: a stem of up to 250 bytes is accepted by an upload; the
      stored file can then be downloaded exactly up to 245 bytes, deleted exactly up
      to 245, and listed, among names that can be, exactly up to 249. */
  lemma NameAddressability(c: Suite, up: Bytes, down: Bytes, password: Bytes, w: World, home: Home, u: Sending,
                           get: Action, del: Action, nonce: u64, env: Env, junk: Word, rest: Bytes)
    requires Sound(c) && env.Valid() && Represents(c, password, home, w.remote) && u.Valid()
    requires Plain(u.name) && |u.name| <= 250 && u.name + EXT in w.remote && |w.remote| < 0x8000_0000
    requires get.Get? && get.file == u.name + EXT && get.junk.Valid() && del.Delete? && del.file == u.name + EXT
    requires forall m | m in w.remote && m != u.name + EXT :: |m| < 254
    ensures ServeUpload(c, up, Wire(c, up, UploadItems(c, u), rest), home.files, env.junk).0 == 0
    ensures var t := Answer(c, up, password, w, home, get, nonce, env, rest);
            Reported(c, down, password, w, get, t) == Got(0) <==> |u.name| <= 245
    ensures var t := Answer(c, up, password, w, home, del, nonce, env, rest);
            && (Reported(c, down, password, w, del, t) == Deleted(0, true) <==> |u.name| <= 245)
            && (t.home == Home(home.files - {del.file}) <==> |u.name| <= 245)
    ensures ReceiveList(c, down, Wire(c, down, ListItems(home.files, env), rest), junk).0.code == 0 <==> |u.name| <= 249
  {
    hide ServeUpload, Answer, Reported, ReceiveList, Wire, Represents, ListItems;
    RepresentsFiles(c, password, home, w.remote);
    PlainWithExtension(u.name);
    assert |home.files| == |home.files.Keys| == |w.remote.Keys| == |w.remote|;
    UploadAcceptsIff(c, up, u, home.files, env.junk, rest);
    DownloadSucceedsIff(c, up, down, password, w, home, get, nonce, env, rest);
    DeleteAnsweredIff(c, up, down, password, w, home, del, nonce, env, rest);
    ListSucceedsIff(c, down, home.files, env, junk, rest);
  }

  /** An invalid intention is never sent, so after its notice the next action's
      notice is read as the intent and that action's intent as a notice: whatever
      the action, the server does nothing, replies nothing and ends the session
      with the action's body unread. */
  lemma InvalidIntentionDesynchronises(c: Suite, key: Bytes, password: Bytes, local: map<Bytes, Bytes>, a: Action,
                                       nonce: u64, rest: Bytes, home: Home, envs: nat -> Env, i: nat)
    requires SessionSound(c)
    ensures ServeSession(c, key, Wire(c, key, [Session(Inc(nonce), EncInt(NEW_ACTION))]
                                      + ClientItems(c, password, local, a, Inc(nonce)), rest), home, envs, i)
         == Served(2, Ends, home, [], Wire(c, key, BodyItems(c, password, local, a), rest))
  {
    hide Receive, Encode, BodyItems;
    var body := Wire(c, key, BodyItems(c, password, local, a), rest);
    var notice := Session(Inc(nonce), EncInt(NEW_ACTION));
    var head := NoticeItems(a, Inc(nonce));
    var s1 := Encode(c, key, head[1]) + body;
    var s0 := Encode(c, key, head[0]) + s1;
    WireConcat(c, key, head, BodyItems(c, password, local, a), rest);
    assert head[1..] == [head[1]];
    assert head[1..][1..] == [];
    assert Wire(c, key, head[1..], body) == s1;
    var items := [notice] + ClientItems(c, password, local, a, Inc(nonce));
    assert items[1..] == ClientItems(c, password, local, a, Inc(nonce));
    assert Wire(c, key, items, rest) == Encode(c, key, notice) + s0;
    ReceiveSession(c, key, notice.nonce, EncInt(NEW_ACTION), s0, 4);
    ReceiveSession(c, key, head[0].nonce, EncInt(NEW_ACTION), s1, 4);
    ReceiveSession(c, key, head[1].nonce, EncInt(Intent(a)), body, 4);
    IntRoundTrip(NEW_ACTION);
    IntRoundTrip(Intent(a));
  }
}
