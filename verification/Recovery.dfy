/** What each end is left with when things go wrong: the client's directory after a
    download, whatever happened to it, and the server's when the connection is lost
    anywhere in a session. */
module Recovery {
  import opened Octets
  import opened Crypto
  import opened Framing
  import opened Chunking
  import opened Upload
  import opened Download
  import opened Actions
  import opened Protocol

  /** On every stream an action leaves alone every file but the one a download saves
      to. */
  lemma OnlyTargetChanges(c: Suite, rx: Bytes, password: Bytes, local: map<Bytes, Bytes>, a: Action, s: Bytes, name: Bytes)
    requires a.Get? && |EXT| <= |a.file| ==> name != Stem(a.file)
    ensures var after := ClientReceive(c, rx, password, local, a, s).1;
            && (name in after <==> name in local)
            && (name in local ==> after[name] == local[name])
  {
    hide ReceiveFile, ReceiveList, ReceiveAck, Flatten;
  }

  /** A name that leaves "", "." or ".." without its extension is saved nowhere. */
  lemma UnsaveableName(c: Suite, rx: Bytes, password: Bytes, local: map<Bytes, Bytes>, a: Action, s: Bytes)
    requires a.Get? && |EXT| <= |a.file| && DirName(Stem(a.file))
    ensures ClientReceive(c, rx, password, local, a, s).1 == local
  {
    hide ReceiveFile, Flatten;
  }

  /** `s` starts with the header and the salt of the upload. */
  ghost predicate Announces(c: Suite, rx: Bytes, u: Sending, s: Bytes)
  {
    var (header, s0) := Receive(c, rx, s, HEADER);
    header == Opened(u.header) && Receive(c, rx, s0, SALT).0 == Opened(u.salt)
  }

  /** The file after a download, when the stream is authentic: for every byte stream
      a prefix of the original, and the original if code 0 came with the final tag. */
  lemma SavedIsPrefix(c: Suite, rx: Bytes, u: Sending, local: map<Bytes, Bytes>, a: Action, s: Bytes, tag: byte)
    requires u.Valid() && a.Get? && a.junk.Valid() && |EXT| <= |a.file| && !DirName(Stem(a.file))
    requires OnlyAccepts(c, u.StartState(c), u.Chunks())
    requires c.initPull(c.derive(u.password, u.salt), u.header) == Some(u.StartState(c))
    requires Announces(c, rx, u, s)
    ensures var (r, after, _) := ClientReceive(c, rx, u.password, local, a, s);
            && r.Got? && Stem(a.file) in after && after[Stem(a.file)] <= u.data
            && (r.code == 0
                && LastTag(c, rx, u.StartState(c), Receive(c, rx, Receive(c, rx, s, HEADER).1, SALT).1,
                           EncInt(END_CHUNK), a.prefixes, 0, tag) == TAG_FINAL ==>
                  after[Stem(a.file)] == u.data)
  {
    hide ReceiveFile, Receive, LastTag, Flatten, Cut, OnlyAccepts;
    DownloadPrefixSafe(c, rx, u, s, a.junk, a.prefixes);
    CutShape(u.data, CHUNK_SIZE);
    if ReceiveFile(c, rx, u.password, s, a.junk, a.prefixes).code == 0 {
      DownloadCompleteIff(c, rx, u, s, a.junk, a.prefixes, tag);
    }
  }

  /** The file after an unanswered download: empty. */
  lemma UnansweredSavesEmpty(c: Suite, rx: Bytes, password: Bytes, local: map<Bytes, Bytes>, a: Action)
    requires a.Get? && |EXT| <= |a.file| && !DirName(Stem(a.file))
    ensures ClientReceive(c, rx, password, local, a, []) == (Got(1), local[Stem(a.file) := []], [])
  {
    hide ReceiveLoop;
    assert Receive(c, rx, [], HEADER) == (Refused(4), []);
  }

  /** The file after the download of an interrupted upload: cut the upload anywhere
      behind its first four frames, then download what the server kept, with any
      bytes behind the reply.  The client has exactly the chunks that had arrived
      and knows, by code 2, that they are not all. */
  lemma InterruptedUploadSaved(c: Suite, up: Bytes, down: Bytes, u: Sending, s: Bytes, k: nat, store: Store, junk: Junk,
                               w: World, get: Action, nonce: u64, env: Env, rest: Bytes, back: Bytes)
    requires Sound(c) && Sendable(u) && Plain(u.name) && |u.name| <= 245 && junk.Valid() && env.Valid()
    requires CutUpload(c, up, u, s, k)
    requires get.Get? && get.file == u.name + EXT && get.junk.Valid()
    ensures var kept := ServeUpload(c, up, s, store, junk).1;
            var t := Answer(c, up, u.password, w, Home(kept), get, nonce, env, rest);
            var j := PairsWithin(u.Blobs(c), k);
            && j < |u.Chunks()|
            && ClientReceive(c, down, u.password, w.local, get, Wire(c, down, t.reply, back))
               == (Got(2), w.local[u.name := Flatten(u.Chunks()[..j])], back)
  {
    hide ServeUpload, ServeTurn, ReceiveFile, DownloadItems, Wire, Flatten;
    InterruptedUploadStores(c, up, u, s, k, store, junk);
    var kept := ServeUpload(c, up, s, store, junk).1;
    assert Stem(get.file) == u.name;
    PlainWithExtension(u.name);
    GetAnswered(c, up, u.password, w, get, nonce, rest, kept, env);
    InterruptedFetchFails(c, down, u, PairsWithin(u.Blobs(c), k), Chance(env.nonce, env.junk, get.junk, get.prefixes, back));
  }

  /** The file after a download that was itself cut: the chunks that arrived whole, a
      prefix of the original, with code 1. */
  lemma InterruptedDownloadSaved(c: Suite, rx: Bytes, u: Sending, k: nat, local: map<Bytes, Bytes>, get: Action, env: Env)
    requires Sound(c) && u.Valid() && get.Get? && get.junk.Valid() && env.Valid()
    requires |EXT| <= |get.file| && !DirName(Stem(get.file))
    requires k < |Wire(c, rx, DownloadItems(env.nonce, u.Stored(c), env.junk), [])|
    ensures var j := if k < 104 then 0 else PairsWithin(u.Blobs(c), k - 104);
            && j < |u.Chunks()| && Flatten(u.Chunks()[..j]) <= u.data
            && ClientReceive(c, rx, u.password, local, get, Wire(c, rx, DownloadItems(env.nonce, u.Stored(c), env.junk), [])[..k])
               == (Got(1), local[Stem(get.file) := Flatten(u.Chunks()[..j])], [])
  {
    hide ReceiveFile, DownloadItems, Wire, Flatten, Cut, Encrypt;
    InterruptedDownload(c, rx, u, k, Chance(env.nonce, env.junk, get.junk, get.prefixes, []));
    CutShape(u.data, CHUNK_SIZE);
    FlattenPrefix(u.Chunks(), if k < 104 then 0 else PairsWithin(u.Blobs(c), k - 104));
  }

  // The server, when the connection is lost.

  /** The upload of `a` got part of the way: its file has the blobs that arrived whole,
      never all, and everything else is as in `w`. */
  ghost predicate PartlyPut(c: Suite, password: Bytes, w: World, a: Action, home: Home)
  {
    && a.Put? && a.name in w.local
    && var u := SendingOf(password, a, w.local[a.name]);
      exists before: Home, j: nat :: Part(c, u, w, before, j, home)
  }

  ghost predicate Part(c: Suite, u: Sending, w: World, before: Home, j: nat, home: Home)
  {
    && Represents(c, u.password, before, w.remote) && j < |u.Blobs(c)|
    && home == Home(before.files[u.name + EXT := u.header + u.salt + Flatten(u.Blobs(c)[..j])])
  }

  /** How many actions have all their bytes among the first `k`. */
  function WholeActions(c: Suite, key: Bytes, password: Bytes, w: World, acts: seq<Action>, nonce: u64, k: nat): (m: nat)
    ensures m <= |acts|
    decreases |acts|
  {
    if acts == [] then 0 else
    var first := |Wire(c, key, ClientItems(c, password, w.local, acts[0], nonce), [])|;
    if k < first then 0
    else 1 + WholeActions(c, key, password, SpecWorld(w, acts[0]), acts[1..], Inc(Inc(nonce)), k - first)
  }

  /** The directory is that of `w`, except perhaps for one upload under way. */
  ghost predicate StandsAt(c: Suite, password: Bytes, w: World, acts: seq<Action>, home: Home)
  {
    Represents(c, password, home, w.remote) || (acts != [] && PartlyPut(c, password, w, acts[0], home))
  }

  lemma Exhausted(c: Suite, key: Bytes, s: Bytes, home: Home, envs: nat -> Env, i: nat)
    ensures var t := ServeTurn(c, key, s, home, envs(i));
            var r := ServeSession(c, key, s, home, envs, i);
            && (t.flow.Ends? ==> r.flow.Ends? && r.home == t.home && r.rest == t.rest)
            && (t.flow.Goes? && t.rest == [] ==> r.flow.Ends? && r.home == t.home && r.rest == [])
  {
    hide ServeTurn;
    var t := ServeTurn(c, key, s, home, envs(i));
    if t.flow.Goes? && t.rest == [] {
      assert Receive(c, key, [], 4) == (Refused(4), []);
      UnreadNotice(c, key, [], t.home, envs(i + 1));
      ServeSessionStep(c, key, s, home, envs, i);
    }
  }

  /** Only the body of an action was cut. */
  lemma BodyCut(c: Suite, key: Bytes, password: Bytes, w: World, home: Home, a: Action, k: nat, env: Env)
    requires Sound(c) && env.Valid() && Represents(c, password, home, w.remote) && ValidAction(w, a)
    requires k < |Wire(c, key, BodyItems(c, password, w.local, a), [])|
    ensures var t := Dispatch(c, key, Intent(a), Wire(c, key, BodyItems(c, password, w.local, a), [])[..k], home, env);
            t.flow.Goes? && t.rest == [] && StandsAt(c, password, w, [a], t.home)
  {
    hide Receive, Encode, InitRead, ChunkLoop, Represents, UploadItems, InitItems, Wire;
    RepresentsFiles(c, password, home, w.remote);
    match a
    case Put(name, _, _, _) =>
      if name in w.local {
        PutCut(c, key, password, w, home, a, k, env);
      } else {
        FrameCut(c, key, Inc(a.nonce), [0], k, 1);
        assert InitRead(c, key, Wire(c, key, MissingItems(a.nonce), [])[..k], env.junk) == InitFailed(6, []) by {
          FirstFrameCut(c, key, Wire(c, key, MissingItems(a.nonce), [])[..k], env.junk);
        }
      }
    case Get(file, _, _, _) => FrameCut(c, key, Inc(a.nonce), file + [0], k, PRE_EXT_FILE_NAME_LEN);
    case List(_) => EmptyWire(c, key, []);
    case Delete(file, _, _) => FrameCut(c, key, Inc(a.nonce), file + [0], k, PRE_EXT_FILE_NAME_LEN);
  }

  lemma FrameCut(c: Suite, key: Bytes, nonce: u64, text: Bytes, k: nat, capacity: u64)
    requires SessionSound(c) && |text| <= FILE_ENCRYPTED_CHUNK_SIZE && k < |Wire(c, key, [Session(nonce, text)], [])|
    ensures Receive(c, key, Wire(c, key, [Session(nonce, text)], [])[..k], capacity) == (Refused(4), [])
  {
    hide Receive, Encode;
    var items := [Session(nonce, text)];
    assert items[1..] == [];
    assert Wire(c, key, items, []) == Encode(c, key, items[0]) + [] == Encode(c, key, items[0]);
    CutFrame(c, key, nonce, text, k, capacity);
  }

  lemma FirstFrameCut(c: Suite, key: Bytes, s: Bytes, junk: Junk)
    requires Receive(c, key, s, 1) == (Refused(4), [])
    ensures InitRead(c, key, s, junk) == InitFailed(6, [])
  {
    hide Receive;
  }

  lemma PutCut(c: Suite, key: Bytes, password: Bytes, w: World, home: Home, a: Action, k: nat, env: Env)
    requires Sound(c) && env.Valid() && a.Put? && ValidAction(w, a) && a.name in w.local && Represents(c, password, home, w.remote)
    requires k < |Wire(c, key, UploadItems(c, SendingOf(password, a, w.local[a.name])), [])|
    ensures var s := Wire(c, key, UploadItems(c, SendingOf(password, a, w.local[a.name])), [])[..k];
            var t := ServeWrite(c, key, s, home, env).1;
            t.rest == [] && StandsAt(c, password, w, [a], t.home)
  {
    hide ServeUpload, Wire, UploadItems, InitItems, Represents, Flatten;
    RepresentsFiles(c, password, home, w.remote);
    var u := SendingOf(password, a, w.local[a.name]);
    var s := Wire(c, key, UploadItems(c, u), [])[..k];
    UploadCutAnywhere(c, key, u, s, home.files, env.junk);
    var init := |Wire(c, key, InitItems(u), [])|;
    if k >= init {
      assert Part(c, u, w, home, PairsWithin(u.Blobs(c), k - init), ServeWrite(c, key, s, home, env).1.home);
    }
  }

  /** The session's only action was cut. */
  lemma ActionCut(c: Suite, key: Bytes, password: Bytes, w: World, home: Home, a: Action, nonce: u64, k: nat,
                  envs: nat -> Env, i: nat)
    requires Sound(c) && envs(i).Valid() && Represents(c, password, home, w.remote) && ValidAction(w, a)
    requires k < |Wire(c, key, ClientItems(c, password, w.local, a, nonce), [])|
    ensures var r := ServeSession(c, key, Wire(c, key, ClientItems(c, password, w.local, a, nonce), [])[..k], home, envs, i);
            r.flow.Ends? && r.rest == [] && StandsAt(c, password, w, [a], r.home)
  {
    hide Receive, Encode, Represents, BodyItems, ServeTurn, ServeSession, Dispatch, EncInt, ValidAction;
    var head, body := NoticeItems(a, nonce), BodyItems(c, password, w.local, a);
    var e0, e1, b := Encode(c, key, head[0]), Encode(c, key, head[1]), Wire(c, key, body, []);
    WireConcat(c, key, head, body, []);
    TwoFrames(c, key, head[0], head[1], b);
    assert head == [head[0], head[1]];
    EncodedLength(c, key, head[0]);
    EncodedLength(c, key, head[1]);
    TakeOfConcat(e0, e1, b, k);
    IntentIs(a);
    var s := Wire(c, key, ClientItems(c, password, w.local, a, nonce), [])[..k];
    Exhausted(c, key, s, home, envs, i);
    if k < 36 {
      CutFrame(c, key, head[0].nonce, head[0].plain, k, 4);
      UnreadNotice(c, key, s, home, envs(i));
    } else if k < 72 {
      CutFrame(c, key, head[1].nonce, head[1].plain, k - 36, 4);
      UnreadIntent(c, key, head[0].nonce, e1[..k - 36], home, envs(i));
      WireOne(c, key, head[0], [], e1[..k - 36]);
      EmptyWire(c, key, e1[..k - 36]);
      assert [head[0]] + [] == [head[0]];
    } else {
      TwoFrames(c, key, head[0], head[1], b[..k - 72]);
      TurnReaches(c, key, a, [], nonce, b[..k - 72], home, envs(i));
      EmptyWire(c, key, b[..k - 72]);
      assert head + [] == head;
      BodyCut(c, key, password, w, home, a, k - 72, envs(i));
    }
  }

  /** The connection is lost anywhere in a session of valid actions.  The server's loop
      ends; its directory is the simple store's after exactly the actions that had
      arrived whole, except that an upload under way behind its first four frames
      has left the blobs that arrived, never all of them, under its name. */
  lemma {:induction false} SessionCutAnywhere(c: Suite, key: Bytes, password: Bytes, w: World, home: Home, acts: seq<Action>,
                                             nonce: u64, k: nat, envs: nat -> Env, i: nat)
    requires Sound(c) && Represents(c, password, home, w.remote) && ValidActions(w, acts)
    requires forall n :: envs(n).Valid()
    requires k < |Wire(c, key, SessionItems(c, password, w, acts, nonce), [])|
    ensures var r := ServeSession(c, key, Wire(c, key, SessionItems(c, password, w, acts, nonce), [])[..k], home, envs, i);
            var m := WholeActions(c, key, password, w, acts, nonce, k);
            r.flow.Ends? && r.rest == [] && StandsAt(c, password, SpecWorlds(w, acts[..m]), acts[m..], r.home)
    decreases |acts|
  {
    hide ServeTurn, ServeSession, ClientItems, Represents, ValidAction, Wire, SpecWorld, SpecWorlds, PartlyPut, Answer;
    Regroup(w, acts, 0);
    if acts == [] {
      LastCut(c, key, home, nonce, k, envs, i);
    } else {
      var w1, n1 := SpecWorld(w, acts[0]), Inc(Inc(nonce));
      var first, later := ClientItems(c, password, w.local, acts[0], nonce), SessionItems(c, password, w1, acts[1..], n1);
      var f, l := Wire(c, key, first, []), Wire(c, key, later, []);
      WireConcat(c, key, first, later, []);
      WireAppend(c, key, first, [], l);
      assert [] + l == l;
      if k < |f| {
        assert (f + l)[..k] == f[..k];
        ActionCut(c, key, password, w, home, acts[0], nonce, k, envs, i);
      } else {
        var left := l[..k - |f|];
        LaterCut(c, key, password, w, home, acts, nonce, k, envs, i, first, l, left);
        var t := Answer(c, key, password, w, home, acts[0], nonce, envs(i), left);
        SessionCutAnywhere(c, key, password, w1, t.home, acts[1..], n1, k - |f|, envs, i + 1);
        Regroup(w, acts, WholeActions(c, key, password, w1, acts[1..], n1, k - |f|));
      }
    }
  }

  lemma Regroup(w: World, acts: seq<Action>, m: nat)
    ensures SpecWorlds(w, acts[..0]) == w && acts[0..] == acts
    ensures m < |acts| ==>
              && SpecWorlds(w, acts[..m + 1]) == SpecWorlds(SpecWorld(w, acts[0]), acts[1..][..m])
              && acts[m + 1..] == acts[1..][m..]
  {
    if m < |acts| {
      assert acts[..m + 1][1..] == acts[1..][..m];
    }
  }

  lemma LastCut(c: Suite, key: Bytes, home: Home, nonce: u64, k: nat, envs: nat -> Env, i: nat)
    requires SessionSound(c) && k < |Wire(c, key, [Session(Inc(nonce), EncInt(NO_ACTION))], [])|
    ensures var r := ServeSession(c, key, Wire(c, key, [Session(Inc(nonce), EncInt(NO_ACTION))], [])[..k], home, envs, i);
            r.flow.Ends? && r.rest == [] && r.home == home
  {
    hide Receive, Wire, ServeSession, ServeTurn;
    FrameCut(c, key, Inc(nonce), EncInt(NO_ACTION), k, 4);
    var s := Wire(c, key, [Session(Inc(nonce), EncInt(NO_ACTION))], [])[..k];
    UnreadNotice(c, key, s, home, envs(i));
    Exhausted(c, key, s, home, envs, i);
  }

  /** The first action arrived whole: its turn, and what is left to do. */
  lemma LaterCut(c: Suite, key: Bytes, password: Bytes, w: World, home: Home, acts: seq<Action>, nonce: u64, k: nat,
                 envs: nat -> Env, i: nat, first: seq<Item>, l: Bytes, left: Bytes)
    requires Sound(c) && Represents(c, password, home, w.remote) && acts != [] && ValidAction(w, acts[0]) && envs(i).Valid()
    requires first == ClientItems(c, password, w.local, acts[0], nonce)
    requires |Wire(c, key, first, [])| <= k < |Wire(c, key, first, [])| + |l| && left == l[..k - |Wire(c, key, first, [])|]
    ensures var t := Answer(c, key, password, w, home, acts[0], nonce, envs(i), left);
            var r := ServeSession(c, key, (Wire(c, key, first, []) + l)[..k], home, envs, i);
            var later := ServeSession(c, key, left, t.home, envs, i + 1);
            && t.flow.Goes? && Represents(c, password, t.home, SpecWorld(w, acts[0]).remote)
            && r.flow == later.flow && r.home == later.home && r.rest == later.rest
  {
    hide ServeTurn, ServeSession, ClientItems, Represents, ValidAction, Wire, ClientReceive, SpecWorld, Agrees;
    WireAppend(c, key, first, [], left);
    assert [] + left == left;
    assert (Wire(c, key, first, []) + l)[..k] == Wire(c, key, first, []) + left;
    Exchange(c, key, key, password, w, home, acts[0], nonce, envs(i), left, []);
    ServeSessionStep(c, key, Wire(c, key, first, left), home, envs, i);
  }
}
