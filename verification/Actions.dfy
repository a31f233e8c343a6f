/** The authenticated session: the server's notice/intent/handler loop, the
    client's side of each action, and the simple file store that the two
    together implement. */
module Actions {
  import opened Octets
  import opened Crypto
  import opened Framing
  import opened Chunking
  import opened Upload
  import opened Download

  const NEW_ACTION: int := 88
  const NO_ACTION: int := 99
  const READ_FROM_FILESYSTEM: int := 1
  const WRITE_TO_FILESYSTEM: int := 2
  const LIST_FILES: int := 3
  const DELETE_FILE: int := 4
  const ACK_SUC: int := 0
  const ACK_FAIL: int := -1

  /** The regular files of a directory. */
  type Store = map<Bytes, Bytes>

  /** One user's directory; `Removed` once a deletion has taken the directory itself. */
  datatype Home = Home(files: Store) | Removed

  /** "", "." and "..": appended to the user's directory they are that directory or
      the one above it. */
  predicate DirName(name: Bytes)
  {
    name == [] || name == [46] || name == [46, 46]
  }

  ghost predicate Lists(names: seq<Bytes>, keys: set<Bytes>)
  {
    |names| == |keys| && forall x :: x in names <==> x in keys
  }

  /** What one turn of the server draws or finds: fresh nonces, the order in which
      the directory is iterated, which names lead to a directory, uninitialised
      variables. */
  datatype Env = Env(nonce: u64, nameNonce: nat -> u64, order: set<Bytes> -> seq<Bytes>, directory: Bytes -> bool, junk: Junk)
  {
    ghost predicate Valid()
    {
      && junk.Valid()
      && (forall keys :: Lists(order(keys), keys))
      && (forall name | 47 !in name :: directory(name) <==> DirName(name))
    }
  }

  /** Some order of a set's elements. */
  ghost function Enumerate(keys: set<Bytes>): (names: seq<Bytes>)
    ensures Lists(names, keys)
  {
    if keys == {} then [] else
    var x :| x in keys;
    assert keys == (keys - {x}) + {x};
    [x] + Enumerate(keys - {x})
  }

  lemma EnvSatisfiable(junk: Junk)
    requires junk.Valid()
    ensures exists env: Env :: env.Valid() && env.junk == junk
  {
    var env := Env(0, i => 0, keys => Enumerate(keys), name => DirName(name), junk);
    assert env.Valid();
  }

  // The server's handlers.

  /** How a handler or a turn leaves the loop: on to the next turn, out of the loop,
      in a loop without end, or by an exception that nothing catches. */
  datatype Flow = Goes | Ends | Hangs | Crashes

  datatype Turn = Turn(flow: Flow, home: Home, reply: seq<Item>, rest: Bytes)

  /** Return code of the write handler, and its turn. */
  function ServeWrite(c: Suite, rx: Bytes, s: Bytes, home: Home, env: Env): (r: (int, Turn))
    ensures |r.1.rest| <= |s| && r.1.flow.Goes?
  {
    var (code, files, rest) := ServeUpload(c, rx, s, if home.Home? then home.files else map[], env.junk);
    (code, Turn(Goes, if home.Home? then Home(files) else Removed, [], rest))
  }

  /** Return code, if it returns, and turn of the read handler.  A directory opens
      like a file, but every read of it fails without reaching end-of-file: after
      the two head frames, whose variables no read has filled, the loop sends
      empty pairs for ever. */
  function ServeDownload(c: Suite, rx: Bytes, s: Bytes, home: Home, env: Env): (r: (int, Turn))
    ensures |r.1.rest| <= |s|
  {
    var (name, rest) := Receive(c, rx, s, PRE_EXT_FILE_NAME_LEN);
    if name.Refused? then (if name.code == 4 then 3 else 2, Turn(Goes, home, [], rest)) else
    var file := CString(name.plain + env.junk.tail);
    if home.Removed? then (1, Turn(Goes, home, [], rest))
    else if env.directory(file) then (0, Turn(Hangs, home, HeadItems(env.nonce, env.junk.header, env.junk.salt), rest))
    else if file !in home.files then (1, Turn(Goes, home, [], rest))
    else (0, Turn(Goes, home, DownloadItems(env.nonce, home.files[file], env.junk), rest))
  }

  function NameItems(nonces: nat -> u64, names: seq<Bytes>, i: nat): seq<Item>
    decreases |names|
  {
    if names == [] then [] else [Session(Inc(nonces(i)), names[0] + [0])] + NameItems(nonces, names[1..], i + 1)
  }

  function ListItems(store: Store, env: Env): seq<Item>
  {
    [Session(Inc(env.nonce), EncInt(|store|))] + NameItems(env.nameNonce, env.order(store.Keys), 0)
  }

  /** The list handler; iterating a directory that is gone throws. */
  function ServeList(s: Bytes, home: Home, env: Env): Turn
  {
    if home.Removed? then Turn(Crashes, home, [], s) else Turn(Goes, home, ListItems(home.files, env), s)
  }

  function Ack(success: bool): Word
  {
    EncInt(if success then ACK_SUC else ACK_FAIL)
  }

  /** Return code, if it returns, and turn of the delete handler.  `remove` throws on
      a directory that it cannot remove; the one it can is the user's own, under
      the empty name, when no file is left in it. */
  function ServeDelete(c: Suite, rx: Bytes, s: Bytes, home: Home, env: Env): (r: (int, Turn))
    ensures |r.1.rest| <= |s|
  {
    var (name, rest) := Receive(c, rx, s, PRE_EXT_FILE_NAME_LEN);
    if name.Refused? then (if name.code == 4 then 2 else 1, Turn(Goes, home, [], rest)) else
    var file := CString(name.plain + [0]);
    var answer := (success: bool) => [Session(Inc(env.nonce), Ack(success))];
    if home.Removed? then (0, Turn(Goes, home, answer(false), rest))
    else if !env.directory(file) then (0, Turn(Goes, Home(home.files - {file}), answer(file in home.files), rest))
    else if file == [] && home.files == map[] then (0, Turn(Goes, Removed, answer(true), rest))
    else (0, Turn(Crashes, home, [], rest))
  }

  function Dispatch(c: Suite, rx: Bytes, intent: int, s: Bytes, home: Home, env: Env): (t: Turn)
    ensures !t.flow.Ends? && |t.rest| <= |s|
  {
    if intent == READ_FROM_FILESYSTEM then ServeDownload(c, rx, s, home, env).1
    else if intent == WRITE_TO_FILESYSTEM then ServeWrite(c, rx, s, home, env).1
    else if intent == LIST_FILES then ServeList(s, home, env)
    else if intent == DELETE_FILE then ServeDelete(c, rx, s, home, env).1
    else Turn(Goes, home, [], s)
  }

  /** Refused frames end the loop at the notice and only this turn at the intent. */
  function ServeTurn(c: Suite, rx: Bytes, s: Bytes, home: Home, env: Env): (t: Turn)
    ensures |t.rest| <= |s|
    ensures t.flow.Goes? ==> |t.rest| + 32 <= |s|
  {
    var (notice, s0) := Receive(c, rx, s, 4);
    if notice.Refused? || DecInt(Overlay(notice.plain, env.junk.notice)) != NEW_ACTION then Turn(Ends, home, [], s0) else
    var (intent, s1) := Receive(c, rx, s0, 4);
    if intent.Refused? then Turn(Goes, home, [], s1) else
    Dispatch(c, rx, DecInt(Overlay(intent.plain, env.junk.intent)), s1, home, env)
  }

  datatype Served = Served(turns: nat, flow: Flow, home: Home, reply: seq<Item>, rest: Bytes)

  /** The whole loop on the bytes that ever arrive. */
  function ServeSession(c: Suite, rx: Bytes, s: Bytes, home: Home, envs: nat -> Env, i: nat): (r: Served)
    ensures |r.rest| <= |s| && !r.flow.Goes?
    decreases |s|
  {
    var t := ServeTurn(c, rx, s, home, envs(i));
    if !t.flow.Goes? then Served(1, t.flow, t.home, t.reply, t.rest) else
    var later := ServeSession(c, rx, t.rest, t.home, envs, i + 1);
    Served(later.turns + 1, later.flow, later.home, t.reply + later.reply, later.rest)
  }

  // Which streams the loop ends on.

  /** The intent that the turn on `s` reads, and the bytes behind it. */
  function IntentRead(c: Suite, rx: Bytes, s: Bytes, env: Env): Option<(int, Bytes)>
  {
    var (notice, s0) := Receive(c, rx, s, 4);
    if notice.Refused? || DecInt(Overlay(notice.plain, env.junk.notice)) != NEW_ACTION then None else
    var (intent, s1) := Receive(c, rx, s0, 4);
    if intent.Refused? then None else Some((DecInt(Overlay(intent.plain, env.junk.intent)), s1))
  }

  /** The name in the turn's request, when the request has this intent and its name
      can be read; `tail` is what follows the name in its buffer. */
  function NameRead(c: Suite, rx: Bytes, s: Bytes, env: Env, intent: int, tail: Bytes): Option<Bytes>
  {
    var r := IntentRead(c, rx, s, env);
    if r.None? || r.value.0 != intent then None else
    var frame := Receive(c, rx, r.value.1, PRE_EXT_FILE_NAME_LEN).0;
    if frame.Refused? then None else Some(CString(frame.plain + tail))
  }

  /** A download of a directory. */
  predicate ReadsDirectory(c: Suite, rx: Bytes, s: Bytes, home: Home, env: Env)
  {
    var name := NameRead(c, rx, s, env, READ_FROM_FILESYSTEM, env.junk.tail);
    home.Home? && name.Some? && env.directory(name.value)
  }

  /** A deletion of a directory other than the user's own emptied one, or a listing
      after that one is gone. */
  predicate Throws(c: Suite, rx: Bytes, s: Bytes, home: Home, env: Env)
  {
    match home
    case Removed =>
      var r := IntentRead(c, rx, s, env);
      r.Some? && r.value.0 == LIST_FILES
    case Home(files) =>
      var name := NameRead(c, rx, s, env, DELETE_FILE, [0]);
      name.Some? && env.directory(name.value) && !(name.value == [] && files == map[])
  }

  lemma TurnFlow(c: Suite, rx: Bytes, s: Bytes, home: Home, env: Env)
    ensures ServeTurn(c, rx, s, home, env).flow.Hangs? <==> ReadsDirectory(c, rx, s, home, env)
    ensures ServeTurn(c, rx, s, home, env).flow.Crashes? <==> Throws(c, rx, s, home, env)
  {
    hide Receive, DecInt, Overlay, CString, ServeUpload, ListItems, DownloadItems, HeadItems, Ack;
  }

  /** Stream and directory when turn `k` starts, if the loop gets there. */
  function AtTurn(c: Suite, rx: Bytes, s: Bytes, home: Home, envs: nat -> Env, i: nat, k: nat): Option<(Bytes, Home)>
    decreases k
  {
    if k == 0 then Some((s, home)) else
    var t := ServeTurn(c, rx, s, home, envs(i));
    if t.flow.Goes? then AtTurn(c, rx, t.rest, t.home, envs, i + 1, k - 1) else None
  }

  predicate ReadsDirectoryAt(c: Suite, rx: Bytes, s: Bytes, home: Home, envs: nat -> Env, i: nat, k: nat)
  {
    var at := AtTurn(c, rx, s, home, envs, i, k);
    at.Some? && ReadsDirectory(c, rx, at.value.0, at.value.1, envs(i + k))
  }

  predicate ThrowsAt(c: Suite, rx: Bytes, s: Bytes, home: Home, envs: nat -> Env, i: nat, k: nat)
  {
    var at := AtTurn(c, rx, s, home, envs, i, k);
    at.Some? && Throws(c, rx, at.value.0, at.value.1, envs(i + k))
  }

  /** Session termination, exactly.  On every finite stream, well formed or not, the
      loop takes at most one turn per 32 bytes and one more; it hangs if and only
      if it reaches a download of a directory, dies of an exception if and only if
      it reaches a request on which the file system throws, and otherwise ends. */
  lemma {:induction false} SessionTerminates(c: Suite, rx: Bytes, s: Bytes, home: Home, envs: nat -> Env, i: nat)
    ensures 32 * (ServeSession(c, rx, s, home, envs, i).turns - 1) <= |s|
    ensures ServeSession(c, rx, s, home, envs, i).flow.Hangs? <==> exists k: nat :: ReadsDirectoryAt(c, rx, s, home, envs, i, k)
    ensures ServeSession(c, rx, s, home, envs, i).flow.Crashes? <==> exists k: nat :: ThrowsAt(c, rx, s, home, envs, i, k)
    decreases |s|
  {
    hide ServeTurn, ReadsDirectory, Throws;
    var t, next := ServeTurn(c, rx, s, home, envs(i)), i + 1;
    TurnFlow(c, rx, s, home, envs(i));
    assert ReadsDirectoryAt(c, rx, s, home, envs, i, 0) <==> t.flow.Hangs?;
    assert ThrowsAt(c, rx, s, home, envs, i, 0) <==> t.flow.Crashes?;
    if t.flow.Goes? {
      SessionTerminates(c, rx, t.rest, t.home, envs, next);
      forall k: nat | k > 0
        ensures ReadsDirectoryAt(c, rx, s, home, envs, i, k) <==> ReadsDirectoryAt(c, rx, t.rest, t.home, envs, next, k - 1)
        ensures ThrowsAt(c, rx, s, home, envs, i, k) <==> ThrowsAt(c, rx, t.rest, t.home, envs, next, k - 1)
      {
        assert i + k == next + (k - 1);
      }
      if k: nat :| ReadsDirectoryAt(c, rx, t.rest, t.home, envs, next, k) {
        assert ReadsDirectoryAt(c, rx, s, home, envs, i, k + 1);
      }
      if k: nat :| ThrowsAt(c, rx, t.rest, t.home, envs, next, k) {
        assert ThrowsAt(c, rx, s, home, envs, i, k + 1);
      }
    }
  }

  // The client's side of an action.

  /** What the user asks for, with the client's random values for it. */
  datatype Action =
    | Put(name: Bytes, nonce: u64, header: Bytes, salt: Bytes)
    | Get(file: Bytes, nonce: u64, junk: Junk, prefixes: nat -> Word)
    | List(count: Word)
    | Delete(file: Bytes, nonce: u64, result: Word)

  function Intent(a: Action): int
  {
    match a
    case Put(_, _, _, _) => WRITE_TO_FILESYSTEM
    case Get(_, _, _, _) => READ_FROM_FILESYSTEM
    case List(_) => LIST_FILES
    case Delete(_, _, _) => DELETE_FILE
  }

  function SendingOf(password: Bytes, a: Action, data: Bytes): Sending
    requires a.Put?
  {
    Sending(password, a.nonce, a.header, a.salt, a.name, data)
  }

  /** What a name leads to in the client's working directory. */
  datatype Path = Absent | Regular(data: Bytes) | Directory

  function Lookup(local: map<Bytes, Bytes>, name: Bytes): Path
  {
    if DirName(name) then Directory else if name in local then Regular(local[name]) else Absent
  }

  /** What an upload sends for what its name leads to.  A directory opens, and after
      the first four frames its chunks, all empty, never come to an end. */
  function PutItems(c: Suite, u: Sending, path: Path): seq<Item>
  {
    match path
    case Absent => MissingItems(u.nonce)
    case Regular(data) => UploadItems(c, u.(data := data))
    case Directory => InitItems(u)
  }

  /** The frames after notice and intent. */
  function BodyItems(c: Suite, password: Bytes, local: map<Bytes, Bytes>, a: Action): seq<Item>
  {
    match a
    case Put(name, _, _, _) => PutItems(c, SendingOf(password, a, []), Lookup(local, name))
    case Get(file, nonce, _, _) => [Session(Inc(nonce), file + [0])]
    case List(_) => []
    case Delete(file, nonce, _) => [Session(Inc(nonce), file + [0])]
  }

  function NoticeItems(a: Action, nonce: u64): seq<Item>
  {
    [Session(Inc(nonce), EncInt(NEW_ACTION)), Session(Inc(Inc(nonce)), EncInt(Intent(a)))]
  }

  function ClientItems(c: Suite, password: Bytes, local: map<Bytes, Bytes>, a: Action, nonce: u64): seq<Item>
  {
    NoticeItems(a, nonce) + BodyItems(c, password, local, a)
  }

  /** What the client's handler for an action comes to.  `Got` is the return value of
      `decrypt_and_read_from_server`, which its handler drops; `Aborted` is an
      uncaught exception and `Endless` a loop without end. */
  datatype Result =
    | Sent(code: int) | Got(code: int) | Listed(code: int, names: seq<Bytes>) | Deleted(code: int, success: bool)
    | Aborted | Endless
  {
    predicate Returned()
    {
      !Aborted? && !Endless?
    }
  }

  /** The requested name without its last four characters: the name the download is
      saved under. */
  function Stem(file: Bytes): Bytes
    requires |EXT| <= |file|
  {
    file[..|file| - |EXT|]
  }

  /** The working directory after a download.  No file can be created under the name
      of a directory, and then nothing is written. */
  function Saved(local: map<Bytes, Bytes>, name: Bytes, data: Bytes): map<Bytes, Bytes>
  {
    if DirName(name) then local else local[name := data]
  }

  function PutResult(path: Path): Result
  {
    match path
    case Absent => Sent(1)
    case Regular(_) => Sent(0)
    case Directory => Endless
  }

  function ReceiveNames(c: Suite, rx: Bytes, s: Bytes, count: int): (r: (Option<seq<Bytes>>, Bytes))
    decreases count
  {
    if count <= 0 then (Some([]), s) else
    var (name, rest) := Receive(c, rx, s, MAX_FILE_NAME_LENGTH - 1);
    if name.Refused? then (None, rest) else
    match ReceiveNames(c, rx, rest, count - 1)
    case (None, left) => (None, left)
    case (Some(more), left) => (Some([CString(name.plain + [0])] + more), left)
  }

  function ReceiveList(c: Suite, rx: Bytes, s: Bytes, junk: Word): (r: (Result, Bytes))
    ensures r.0.Listed?
  {
    var (count, s0) := Receive(c, rx, s, 4);
    if count.Refused? then (Listed(1, []), s0) else
    match ReceiveNames(c, rx, s0, DecInt(Overlay(count.plain, junk)))
    case (None, rest) => (Listed(1, []), rest)
    case (Some(names), rest) => (Listed(0, names), rest)
  }

  function ReceiveAck(c: Suite, rx: Bytes, s: Bytes, junk: Word): (Result, Bytes)
  {
    var (ack, rest) := Receive(c, rx, s, 4);
    if ack.Refused? then (Deleted(1, false), rest) else
    (Deleted(0, DecInt(Overlay(ack.plain, junk)) == ACK_SUC), rest)
  }

  /** What the client makes of the reply: result, local files, bytes left over. */
  function ClientReceive(c: Suite, rx: Bytes, password: Bytes, local: map<Bytes, Bytes>, a: Action, s: Bytes)
    : (Result, map<Bytes, Bytes>, Bytes)
  {
    match a
    case Put(name, _, _, _) => (PutResult(Lookup(local, name)), local, s)
    case Get(file, _, junk, prefixes) =>
      if |file| < |EXT| then (Aborted, local, s) else
      var d := ReceiveFile(c, rx, password, s, junk, prefixes);
      (Got(d.code), Saved(local, Stem(file), Flatten(d.published)), d.rest)
    case List(junk) =>
      var (r, rest) := ReceiveList(c, rx, s, junk);
      (r, local, rest)
    case Delete(_, _, junk) =>
      var (r, rest) := ReceiveAck(c, rx, s, junk);
      (r, local, rest)
  }

  datatype ClientRun = ClientRun(results: seq<Result>, local: map<Bytes, Bytes>, items: seq<Item>, rest: Bytes)

  /** The client's whole session on the replies that ever arrive; an action that does
      not return is its last. */
  function ClientSession(c: Suite, rx: Bytes, password: Bytes, local: map<Bytes, Bytes>, acts: seq<Action>,
                         nonce: u64, s: Bytes): ClientRun
    decreases |acts|
  {
    if acts == [] then ClientRun([], local, [Session(Inc(nonce), EncInt(NO_ACTION))], s) else
    var (r, local', rest) := ClientReceive(c, rx, password, local, acts[0], s);
    if !r.Returned() then ClientRun([r], local', ClientItems(c, password, local, acts[0], nonce), rest) else
    var later := ClientSession(c, rx, password, local', acts[1..], Inc(Inc(nonce)), rest);
    ClientRun([r] + later.results, later.local, ClientItems(c, password, local, acts[0], nonce) + later.items, later.rest)
  }

  // The simple store the session is supposed to be.

  datatype World = World(local: map<Bytes, Bytes>, remote: map<Bytes, Bytes>)

  function SpecWorld(w: World, a: Action): World
  {
    match a
    case Put(name, _, _, _) => if name in w.local then w.(remote := w.remote[name + EXT := w.local[name]]) else w
    case Get(file, _, _, _) =>
      if file in w.remote && |EXT| <= |file| then w.(local := w.local[Stem(file) := w.remote[file]]) else w
    case List(_) => w
    case Delete(file, _, _) => w.(remote := w.remote - {file})
  }

  ghost predicate Agrees(w: World, a: Action, r: Result)
  {
    match a
    case Put(name, _, _, _) => r == Sent(if name in w.local then 0 else 1)
    case Get(_, _, _, _) => r == Got(0)
    case List(_) => r.Listed? && r.code == 0 && Lists(r.names, w.remote.Keys)
    case Delete(file, _, _) => r == Deleted(0, file in w.remote)
  }

  /** No NUL, no '/' and no directory: a name that can be one file of a directory. */
  predicate Plain(name: Bytes)
  {
    0 !in name && 47 !in name && !DirName(name)
  }

  /** A name that an upload of a plain name stores under. */
  predicate StoredName(name: Bytes)
  {
    |EXT| <= |name| && name == Stem(name) + EXT && Plain(Stem(name))
  }

  /** The hypotheses under which an action works: plain names within the fields
      that carry them, and a download only of a file that is there. */
  predicate ValidAction(w: World, a: Action)
  {
    match a
    case Put(name, _, header, salt) =>
      && |header| == HEADER && |salt| == SALT && Plain(name)
      && (name in w.local ==> |name| <= PRE_EXT_FILE_NAME_LEN)
    case Get(file, _, junk, _) => junk.Valid() && file in w.remote && |file| < PRE_EXT_FILE_NAME_LEN
    case List(_) => |w.remote| < 0x8000_0000 && forall m | m in w.remote :: |m| < MAX_FILE_NAME_LENGTH - 1
    case Delete(file, _, _) => Plain(file) && |file| < PRE_EXT_FILE_NAME_LEN
  }

  /** `file` is some upload of `data` under the session's password. */
  ghost predicate Encrypts(c: Suite, password: Bytes, file: Bytes, data: Bytes)
  {
    exists u: Sending :: u.Valid() && u.password == password && u.data == data && file == u.Stored(c)
  }

  ghost predicate Represents(c: Suite, password: Bytes, home: Home, remote: map<Bytes, Bytes>)
  {
    && home.Home? && home.files.Keys == remote.Keys
    && (forall m | m in remote :: StoredName(m) && Encrypts(c, password, home.files[m], remote[m]))
  }

  lemma RepresentsFiles(c: Suite, password: Bytes, home: Home, remote: map<Bytes, Bytes>)
    requires Represents(c, password, home, remote)
    ensures home.Home? && home.files.Keys == remote.Keys
  {
  }

  lemma StoredNameIsPlain(name: Bytes)
    requires StoredName(name)
    ensures Plain(name)
  {
  }

  lemma PlainWithExtension(stem: Bytes)
    requires Plain(stem)
    ensures Plain(stem + EXT)
  {
    assert Stem(stem + EXT) == stem;
    StoredNameIsPlain(stem + EXT);
  }

  // One turn, handler by handler, with anything after it in both channels.

  lemma TurnReaches(c: Suite, key: Bytes, a: Action, items: seq<Item>, nonce: u64, rest: Bytes, home: Home, env: Env)
    requires SessionSound(c)
    ensures ServeTurn(c, key, Wire(c, key, NoticeItems(a, nonce) + items, rest), home, env)
         == Dispatch(c, key, Intent(a), Wire(c, key, items, rest), home, env)
  {
    hide Receive, Encode, Dispatch;
    var head := NoticeItems(a, nonce);
    var body := Wire(c, key, items, rest);
    WireConcat(c, key, head, items, rest);
    assert head[1..] == [head[1]];
    assert head[1..][1..] == [];
    assert Wire(c, key, head[1..], body) == Encode(c, key, head[1]) + body;
    ReceiveSession(c, key, head[0].nonce, EncInt(NEW_ACTION), Encode(c, key, head[1]) + body, 4);
    ReceiveSession(c, key, head[1].nonce, EncInt(Intent(a)), body, 4);
    IntRoundTrip(NEW_ACTION);
    IntRoundTrip(Intent(a));
  }

  lemma NameReceived(c: Suite, key: Bytes, nonce: u64, file: Bytes, tail: Bytes, rest: Bytes)
    requires SessionSound(c) && 0 !in file && |file| < PRE_EXT_FILE_NAME_LEN
    ensures Receive(c, key, Wire(c, key, [Session(Inc(nonce), file + [0])], rest), PRE_EXT_FILE_NAME_LEN)
         == (Opened(file + [0]), rest)
    ensures CString(file + [0] + tail) == file
  {
    var items := [Session(Inc(nonce), file + [0])];
    assert items[1..] == [];
    ReceiveSession(c, key, Inc(nonce), file + [0], rest, PRE_EXT_FILE_NAME_LEN);
    CStringStops(file, tail);
  }

  function AfterPut(c: Suite, password: Bytes, w: World, a: Action, home: Home): Home
    requires a.Put? && home.Home?
  {
    if a.name in w.local then Home(home.files[a.name + EXT := SendingOf(password, a, w.local[a.name]).Stored(c)]) else home
  }

  lemma PutTurn(c: Suite, key: Bytes, password: Bytes, w: World, a: Action, nonce: u64, rest: Bytes, home: Home, env: Env)
    requires Sound(c) && env.Valid() && a.Put? && ValidAction(w, a) && Represents(c, password, home, w.remote)
    ensures ServeTurn(c, key, Wire(c, key, ClientItems(c, password, w.local, a, nonce), rest), home, env)
         == Turn(Goes, AfterPut(c, password, w, a, home), [], rest)
    ensures Represents(c, password, AfterPut(c, password, w, a, home), SpecWorld(w, a).remote)
  {
    hide ServeTurn, ServeUpload, Wire, UploadItems, Represents;
    RepresentsFiles(c, password, home, w.remote);
    TurnReaches(c, key, a, BodyItems(c, password, w.local, a), nonce, rest, home, env);
    if a.name in w.local {
      var u := SendingOf(password, a, w.local[a.name]);
      UploadStores(c, key, u, home.files, env.junk, rest);
      StoreGrows(c, home, w.remote, u);
    } else {
      MissingUploadIgnored(c, key, a.nonce, home.files, env.junk, rest);
    }
  }

  lemma StoreGrows(c: Suite, home: Home, remote: map<Bytes, Bytes>, u: Sending)
    requires Represents(c, u.password, home, remote) && u.Valid() && Plain(u.name)
    ensures Represents(c, u.password, Home(home.files[u.name + EXT := u.Stored(c)]), remote[u.name + EXT := u.data])
  {
    assert Stem(u.name + EXT) == u.name;
    assert Encrypts(c, u.password, u.Stored(c), u.data);
  }

  lemma GetTurn(c: Suite, key: Bytes, password: Bytes, w: World, a: Action, nonce: u64, rest: Bytes, home: Home, env: Env)
    requires Sound(c) && env.Valid() && a.Get? && ValidAction(w, a) && Represents(c, password, home, w.remote)
    ensures a.file in home.files
    ensures ServeTurn(c, key, Wire(c, key, ClientItems(c, password, w.local, a, nonce), rest), home, env)
         == Turn(Goes, home, DownloadItems(env.nonce, home.files[a.file], env.junk), rest)
  {
    hide ServeTurn, DownloadItems;
    StoredNameIsPlain(a.file);
    GetAnswered(c, key, password, w, a, nonce, rest, home.files, env);
  }

  /** A stored file is sent whatever is in it. */
  lemma GetAnswered(c: Suite, key: Bytes, password: Bytes, w: World, a: Action, nonce: u64, rest: Bytes, files: Store, env: Env)
    requires SessionSound(c) && env.Valid() && a.Get? && Plain(a.file) && |a.file| < PRE_EXT_FILE_NAME_LEN && a.file in files
    ensures ServeTurn(c, key, Wire(c, key, ClientItems(c, password, w.local, a, nonce), rest), Home(files), env)
         == Turn(Goes, Home(files), DownloadItems(env.nonce, files[a.file], env.junk), rest)
  {
    hide ServeTurn, Receive, Wire, DownloadItems;
    TurnReaches(c, key, a, BodyItems(c, password, w.local, a), nonce, rest, Home(files), env);
    NameReceived(c, key, a.nonce, a.file, env.junk.tail, rest);
  }

  lemma ListTurn(c: Suite, key: Bytes, password: Bytes, w: World, a: Action, nonce: u64, rest: Bytes, home: Home, env: Env)
    requires Sound(c) && a.List? && home.Home?
    ensures ServeTurn(c, key, Wire(c, key, ClientItems(c, password, w.local, a, nonce), rest), home, env)
         == Turn(Goes, home, ListItems(home.files, env), rest)
  {
    hide ServeTurn, ListItems;
    TurnReaches(c, key, a, BodyItems(c, password, w.local, a), nonce, rest, home, env);
  }

  lemma DeleteTurn(c: Suite, key: Bytes, password: Bytes, w: World, a: Action, nonce: u64, rest: Bytes, home: Home, env: Env)
    requires Sound(c) && env.Valid() && a.Delete? && ValidAction(w, a) && home.Home?
    ensures ServeTurn(c, key, Wire(c, key, ClientItems(c, password, w.local, a, nonce), rest), home, env)
         == Turn(Goes, Home(home.files - {a.file}), [Session(Inc(env.nonce), Ack(a.file in home.files))], rest)
  {
    hide ServeTurn, Receive, Wire, Ack;
    TurnReaches(c, key, a, BodyItems(c, password, w.local, a), nonce, rest, home, env);
    NameReceived(c, key, a.nonce, a.file, [0], rest);
  }

  lemma GetReceived(c: Suite, key: Bytes, password: Bytes, w: World, a: Action, rest: Bytes, home: Home, env: Env)
    requires Sound(c) && env.Valid() && a.Get? && ValidAction(w, a) && Represents(c, password, home, w.remote)
    ensures a.file in home.files
    ensures ClientReceive(c, key, password, w.local, a, Wire(c, key, DownloadItems(env.nonce, home.files[a.file], env.junk), rest))
         == (Got(0), SpecWorld(w, a).local, rest)
  {
    hide ReceiveFile, Wire, DownloadItems;
    var u: Sending :| u.Valid() && u.password == password && u.data == w.remote[a.file] && home.files[a.file] == u.Stored(c);
    DownloadRestores(c, key, u, Chance(env.nonce, env.junk, a.junk, a.prefixes, rest));
  }

  lemma {:induction false} NamesReceived(c: Suite, key: Bytes, nonces: nat -> u64, names: seq<Bytes>, i: nat, rest: Bytes)
    requires SessionSound(c)
    requires forall k | 0 <= k < |names| :: 0 !in names[k] && |names[k]| < MAX_FILE_NAME_LENGTH - 1
    ensures ReceiveNames(c, key, Wire(c, key, NameItems(nonces, names, i), rest), |names|) == (Some(names), rest)
    decreases |names|
  {
    hide Receive, Encode;
    if names != [] {
      var items := NameItems(nonces, names, i);
      assert items[1..] == NameItems(nonces, names[1..], i + 1);
      var tail := Wire(c, key, items[1..], rest);
      ReceiveSession(c, key, Inc(nonces(i)), names[0] + [0], tail, MAX_FILE_NAME_LENGTH - 1);
      CStringStops(names[0], [0]);
      NamesReceived(c, key, nonces, names[1..], i + 1, rest);
      assert names == [names[0]] + names[1..];
    }
  }

  lemma ListedNames(c: Suite, password: Bytes, w: World, a: Action, home: Home, names: seq<Bytes>)
    requires a.List? && ValidAction(w, a) && Represents(c, password, home, w.remote) && Lists(names, home.files.Keys)
    ensures |home.files| == |names| < 0x8000_0000 && Lists(names, w.remote.Keys)
    ensures forall k | 0 <= k < |names| :: 0 !in names[k] && |names[k]| < MAX_FILE_NAME_LENGTH - 1
  {
    assert |home.files| == |home.files.Keys| == |w.remote.Keys| == |w.remote|;
    forall k | 0 <= k < |names| ensures 0 !in names[k] && |names[k]| < MAX_FILE_NAME_LENGTH - 1 {
      assert names[k] in names;
      assert names[k] in w.remote;
      StoredNameIsPlain(names[k]);
    }
  }

  lemma ListReceived(c: Suite, key: Bytes, password: Bytes, w: World, a: Action, rest: Bytes, home: Home, env: Env)
    requires Sound(c) && env.Valid() && a.List? && ValidAction(w, a) && Represents(c, password, home, w.remote)
    ensures ClientReceive(c, key, password, w.local, a, Wire(c, key, ListItems(home.files, env), rest))
         == (Listed(0, env.order(home.files.Keys)), w.local, rest)
    ensures Agrees(w, a, Listed(0, env.order(home.files.Keys)))
  {
    hide Receive, Encode, ReceiveNames, Represents;
    RepresentsFiles(c, password, home, w.remote);
    var names := env.order(home.files.Keys);
    ListedNames(c, password, w, a, home, names);
    var items := ListItems(home.files, env);
    assert items[1..] == NameItems(env.nameNonce, names, 0);
    ReceiveSession(c, key, Inc(env.nonce), EncInt(|home.files|), Wire(c, key, items[1..], rest), 4);
    IntRoundTrip(|home.files|);
    NamesReceived(c, key, env.nameNonce, names, 0, rest);
  }

  lemma AckReceived(c: Suite, key: Bytes, password: Bytes, local: map<Bytes, Bytes>, a: Action, rest: Bytes, nonce: u64, success: bool)
    requires SessionSound(c) && a.Delete?
    ensures ClientReceive(c, key, password, local, a, Wire(c, key, [Session(Inc(nonce), Ack(success))], rest))
         == (Deleted(0, success), local, rest)
  {
    hide Receive, Encode;
    var items := [Session(Inc(nonce), Ack(success))];
    assert items[1..] == [];
    ReceiveSession(c, key, Inc(nonce), Ack(success), rest, 4);
    IntRoundTrip(ACK_SUC);
    IntRoundTrip(ACK_FAIL);
  }

  // Both ends together.

  /** The server's turn on an action's frames with `rest` behind them. */
  function Answer(c: Suite, up: Bytes, password: Bytes, w: World, home: Home, a: Action, nonce: u64, env: Env, rest: Bytes): Turn
  {
    ServeTurn(c, up, Wire(c, up, ClientItems(c, password, w.local, a, nonce), rest), home, env)
  }

  /** What that turn's reply comes to at the client. */
  function Reported(c: Suite, down: Bytes, password: Bytes, w: World, a: Action, t: Turn): Result
  {
    ClientReceive(c, down, password, w.local, a, Wire(c, down, t.reply, [])).0
  }

  /** One action between the two loops, with any bytes behind it in either channel:
      the server takes exactly the action's frames, the client exactly the reply,
      and both end up where the simple store says. */
  lemma Exchange(c: Suite, up: Bytes, down: Bytes, password: Bytes, w: World, home: Home, a: Action, nonce: u64,
                 env: Env, rest: Bytes, back: Bytes)
    requires Sound(c) && env.Valid() && Represents(c, password, home, w.remote) && ValidAction(w, a)
    ensures var t := Answer(c, up, password, w, home, a, nonce, env, rest);
            && t.flow.Goes? && t.rest == rest && Represents(c, password, t.home, SpecWorld(w, a).remote)
            && var (r, local, left) := ClientReceive(c, down, password, w.local, a, Wire(c, down, t.reply, back));
            local == SpecWorld(w, a).local && left == back && r.Returned() && Agrees(w, a, r)
  {
    hide ServeTurn, ClientReceive, ClientItems, Represents, DownloadItems, ListItems, Ack, Wire;
    RepresentsFiles(c, password, home, w.remote);
    match a
    case Put(name, _, _, _) =>
      PutTurn(c, up, password, w, a, nonce, rest, home, env);
      PutReceived(c, down, password, w, a, back);
    case Get(_, _, _, _) =>
      GetTurn(c, up, password, w, a, nonce, rest, home, env);
      GetReceived(c, down, password, w, a, back, home, env);
    case List(_) =>
      ListTurn(c, up, password, w, a, nonce, rest, home, env);
      ListReceived(c, down, password, w, a, back, home, env);
    case Delete(_, _, _) =>
      DeleteTurn(c, up, password, w, a, nonce, rest, home, env);
      StoreShrinks(c, password, home, w.remote, a.file);
      AckReceived(c, down, password, w.local, a, back, env.nonce, a.file in home.files);
  }

  lemma PutReceived(c: Suite, key: Bytes, password: Bytes, w: World, a: Action, back: Bytes)
    requires a.Put? && ValidAction(w, a)
    ensures ClientReceive(c, key, password, w.local, a, Wire(c, key, [], back))
         == (Sent(if a.name in w.local then 0 else 1), SpecWorld(w, a).local, back)
  {
  }

  lemma StoreShrinks(c: Suite, password: Bytes, home: Home, remote: map<Bytes, Bytes>, file: Bytes)
    requires Represents(c, password, home, remote)
    ensures Represents(c, password, Home(home.files - {file}), remote - {file})
    ensures file in home.files <==> file in remote
  {
  }

  function SpecWorlds(w: World, acts: seq<Action>): World
    decreases |acts|
  {
    if acts == [] then w else SpecWorlds(SpecWorld(w, acts[0]), acts[1..])
  }

  predicate ValidActions(w: World, acts: seq<Action>)
    decreases |acts|
  {
    acts == [] || (ValidAction(w, acts[0]) && ValidActions(SpecWorld(w, acts[0]), acts[1..]))
  }

  ghost predicate AllAgree(w: World, acts: seq<Action>, results: seq<Result>)
    decreases |acts|
  {
    if acts == [] then results == []
    else results != [] && Agrees(w, acts[0], results[0]) && AllAgree(SpecWorld(w, acts[0]), acts[1..], results[1..])
  }

  /** The client's last notice ends the server's loop. */
  lemma SessionEnds(c: Suite, key: Bytes, nonce: u64, rest: Bytes, home: Home, env: Env)
    requires SessionSound(c)
    ensures ServeTurn(c, key, Wire(c, key, [Session(Inc(nonce), EncInt(NO_ACTION))], rest), home, env)
         == Turn(Ends, home, [], rest)
  {
    hide Receive, Encode;
    var items := [Session(Inc(nonce), EncInt(NO_ACTION))];
    assert items[1..] == [];
    ReceiveSession(c, key, Inc(nonce), EncInt(NO_ACTION), rest, 4);
    IntRoundTrip(NO_ACTION);
  }

  /** Everything the client sends, its files changing as the simple store says. */
  function SessionItems(c: Suite, password: Bytes, w: World, acts: seq<Action>, nonce: u64): seq<Item>
    decreases |acts|
  {
    if acts == [] then [Session(Inc(nonce), EncInt(NO_ACTION))] else
    ClientItems(c, password, w.local, acts[0], nonce)
    + SessionItems(c, password, SpecWorld(w, acts[0]), acts[1..], Inc(Inc(nonce)))
  }

  /** Connect the two loops back to back.  The server takes one turn per action and
      one for the closing notice, ends its loop, and its directory stands for the
      simple store's final state; the client, fed the server's reply, sends exactly
      what the server was fed, and its files and results are the simple store's;
      neither channel has a byte too many or too few. */
  ghost predicate Refines(c: Suite, up: Bytes, down: Bytes, password: Bytes, w: World, home: Home,
                          acts: seq<Action>, nonce: u64, envs: nat -> Env, i: nat, rest: Bytes, back: Bytes)
  {
    var items := SessionItems(c, password, w, acts, nonce);
    var served := ServeSession(c, up, Wire(c, up, items, rest), home, envs, i);
    var client := ClientSession(c, down, password, w.local, acts, nonce, Wire(c, down, served.reply, back));
    && served.turns == |acts| + 1 && served.flow.Ends? && served.rest == rest
    && Represents(c, password, served.home, SpecWorlds(w, acts).remote)
    && client.items == items && client.rest == back
    && client.local == SpecWorlds(w, acts).local && AllAgree(w, acts, client.results)
  }

  /** Session refinement: for every sequence of valid actions, uploads of missing
      files included, the two loops implement the simple store. */
  lemma {:induction false} SessionRefines(c: Suite, up: Bytes, down: Bytes, password: Bytes, w: World, home: Home,
                                         acts: seq<Action>, nonce: u64, envs: nat -> Env, i: nat, rest: Bytes, back: Bytes)
    requires Sound(c) && Represents(c, password, home, w.remote) && ValidActions(w, acts)
    requires forall k :: envs(k).Valid()
    ensures Refines(c, up, down, password, w, home, acts, nonce, envs, i, rest, back)
    decreases |acts|
  {
    hide Answer, ServeTurn, ClientReceive, ClientItems, Represents, Agrees, ValidAction, Encode, SpecWorld;
    if acts == [] {
      SessionEnds(c, up, nonce, rest, home, envs(i));
    } else {
      SessionStep(c, up, down, password, w, home, acts, nonce, envs, i, rest, back);
    }
  }

  lemma {:induction false} SessionStep(c: Suite, up: Bytes, down: Bytes, password: Bytes, w: World, home: Home,
                                      acts: seq<Action>, nonce: u64, envs: nat -> Env, i: nat, rest: Bytes, back: Bytes)
    requires Sound(c) && Represents(c, password, home, w.remote) && ValidActions(w, acts) && acts != []
    requires forall k :: envs(k).Valid()
    ensures Refines(c, up, down, password, w, home, acts, nonce, envs, i, rest, back)
    decreases |acts|, 0
  {
    hide ServeTurn, ServeSession, ClientSession, ClientReceive, ClientItems, Represents, Agrees, ValidAction, Wire, SpecWorld;
    var w1, n1 := SpecWorld(w, acts[0]), Inc(Inc(nonce));
    var first, later := ClientItems(c, password, w.local, acts[0], nonce), SessionItems(c, password, w1, acts[1..], n1);
    var tail := Wire(c, up, later, rest);
    var t := Answer(c, up, password, w, home, acts[0], nonce, envs(i), tail);
    WireConcat(c, up, first, later, rest);
    Exchange(c, up, down, password, w, home, acts[0], nonce, envs(i), tail, back);
    SessionRefines(c, up, down, password, w1, t.home, acts[1..], n1, envs, i + 1, rest, back);
    var more := ServeSession(c, up, tail, t.home, envs, i + 1).reply;
    WireConcat(c, down, t.reply, more, back);
    Exchange(c, up, down, password, w, home, acts[0], nonce, envs(i), tail, Wire(c, down, more, back));
    ServeSessionStep(c, up, Wire(c, up, first + later, rest), home, envs, i);
    ClientSessionStep(c, down, password, w.local, acts, nonce, Wire(c, down, t.reply + more, back));
  }

  lemma ServeSessionStep(c: Suite, rx: Bytes, s: Bytes, home: Home, envs: nat -> Env, i: nat)
    ensures var t := ServeTurn(c, rx, s, home, envs(i));
            t.flow.Goes? ==>
              var later := ServeSession(c, rx, t.rest, t.home, envs, i + 1);
              ServeSession(c, rx, s, home, envs, i)
              == Served(later.turns + 1, later.flow, later.home, t.reply + later.reply, later.rest)
  {
    hide ServeTurn;
  }

  lemma ClientSessionStep(c: Suite, rx: Bytes, password: Bytes, local: map<Bytes, Bytes>, acts: seq<Action>, nonce: u64, s: Bytes)
    requires acts != []
    ensures var (r, local1, rest) := ClientReceive(c, rx, password, local, acts[0], s);
            var items := ClientItems(c, password, local, acts[0], nonce);
            var later := ClientSession(c, rx, password, local1, acts[1..], Inc(Inc(nonce)), rest);
            ClientSession(c, rx, password, local, acts, nonce, s)
            == if r.Returned() then ClientRun([r] + later.results, later.local, items + later.items, later.rest)
               else ClientRun([r], local1, items, rest)
  {
    hide ClientReceive, ClientItems;
  }

  lemma OneResult(w: World, a: Action, results: seq<Result>)
    requires AllAgree(w, [a], results)
    ensures |results| == 1 && results == [results[0]] && Agrees(w, a, results[0])
  {
    assert [a][1..] == [];
    assert AllAgree(SpecWorld(w, a), [], results[1..]);
    assert results[1..] == [];
  }

  /** Upload then download is the identity on contents and name, across two
      sessions and two working directories: the second client ends up with the
      first client's file under the first client's name, and nothing else of its
      directory changes. */
  lemma UploadThenDownload(c: Suite, up: Bytes, down: Bytes, password: Bytes, w: World, home: Home, put: Action, get: Action,
                           nonce: u64, envs: nat -> Env, other: map<Bytes, Bytes>, nonce1: u64)
    requires Sound(c) && Represents(c, password, home, w.remote) && forall k :: envs(k).Valid()
    requires put.Put? && ValidAction(w, put) && put.name in w.local && |put.name| <= 245
    requires get.Get? && get.file == put.name + EXT && get.junk.Valid()
    ensures var home1 := ServeSession(c, up, Wire(c, up, SessionItems(c, password, w, [put], nonce), []), home, envs, 0).home;
            var w1 := World(other, w.remote[put.name + EXT := w.local[put.name]]);
            var served := ServeSession(c, up, Wire(c, up, SessionItems(c, password, w1, [get], nonce1), []), home1, envs, 1);
            var client := ClientSession(c, down, password, other, [get], nonce1, Wire(c, down, served.reply, []));
            && client.results == [Got(0)]
            && client.local == other[put.name := w.local[put.name]]
            && Represents(c, password, served.home, w1.remote)
  {
    hide ServeSession, ClientSession, Represents, SessionItems, Wire;
    var w1 := World(other, w.remote[put.name + EXT := w.local[put.name]]);
    var home1 := ServeSession(c, up, Wire(c, up, SessionItems(c, password, w, [put], nonce), []), home, envs, 0).home;
    assert Stem(get.file) == put.name;
    assert SpecWorlds(w, [put]).remote == w1.remote by { assert [put][1..] == []; }
    assert SpecWorlds(w1, [get]) == SpecWorld(w1, get) by { assert [get][1..] == []; }
    SessionRefines(c, up, down, password, w, home, [put], nonce, envs, 0, [], []);
    SessionRefines(c, up, down, password, w1, home1, [get], nonce1, envs, 1, [], []);
    var served := ServeSession(c, up, Wire(c, up, SessionItems(c, password, w1, [get], nonce1), []), home1, envs, 1);
    var results := ClientSession(c, down, password, other, [get], nonce1, Wire(c, down, served.reply, [])).results;
    OneResult(w1, get, results);
  }
}
