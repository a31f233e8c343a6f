/** The server's file operator: its handlers as loops over the socket, the file and
    the pipeline, proved against the handlers of `Upload` and `Actions`. */
module Server {
  import opened Octets
  import opened Crypto
  import opened Framing
  import opened Chunking
  import opened Upload
  import opened Download
  import opened Actions
  import opened Sockets
  import opened Files
  import opened TwoSlot
  import Pipeline

  class FsOperator {
    const c: Suite
    const sock: Socket
    const rx: Bytes
    const tx: Bytes
    const nonce: Nonce
    var home: Home

    /** The user's directory is created if it is not there. */
    constructor (c: Suite, sock: Socket, rx: Bytes, tx: Bytes, dir: Home)
      ensures this.c == c && this.sock == sock && this.rx == rx && this.tx == tx
      ensures home == if dir.Removed? then Home(map[]) else dir
      ensures fresh(nonce)
    {
      this.c, this.sock, this.rx, this.tx, home := c, sock, rx, tx, if dir.Removed? then Home(map[]) else dir;
      nonce := new Nonce(0);
    }

    /** `init_read`, with its nine error returns. */
    method ReadInit(junk: Junk) returns (r: Init)
      requires sock.Valid()
      modifies sock`pending
      ensures sock.Valid() && r == InitRead(c, rx, old(sock.Unread()), junk) && sock.Unread() == r.rest
    {
      hide Receive;
      var confirm := RecvSession(sock, c, rx, 1);
      if confirm.Refused? { return InitFailed(6, sock.Unread()); }
      if confirm.plain == [] || confirm.plain[0] == 0 { return InitFailed(5, sock.Unread()); }
      var nameFrame := RecvSession(sock, c, rx, PRE_EXT_FILE_NAME_LEN);
      if nameFrame == Refused(4) { return InitFailed(9, sock.Unread()); }
      if nameFrame == Refused(2) { return InitFailed(8, sock.Unread()); }
      if nameFrame.Refused? && junk.nameTooLong { return InitFailed(7, sock.Unread()); }
      var name := if nameFrame.Opened? then CString(nameFrame.plain + [0]) else junk.name;
      var headerFrame := RecvSession(sock, c, rx, HEADER);
      if headerFrame == Refused(4) { return InitFailed(4, sock.Unread()); }
      if headerFrame.Refused? && headerFrame.code != 3 { return InitFailed(3, sock.Unread()); }
      var header := if headerFrame.Opened? then Overlay(headerFrame.plain, junk.header) else junk.header;
      var saltFrame := RecvSession(sock, c, rx, SALT);
      if saltFrame == Refused(4) { return InitFailed(2, sock.Unread()); }
      if saltFrame.Refused? { return InitFailed(1, sock.Unread()); }
      return InitOk(name, header, Overlay(saltFrame.plain, junk.salt), sock.Unread());
    }

    /** The write-to-filesystem handler, its writer thread scheduled arbitrarily. */
    method WriteToFs(env: Env) returns (code: int)
      requires sock.Valid() && SessionSound(c) && env.junk.Valid() && NamesFit(home)
      modifies this`home, sock`pending
      ensures sock.Valid() && NamesFit(home)
      ensures var (returned, t) := ServeWrite(c, rx, old(sock.Unread()), old(home), env);
              code == returned && home == t.home && sock.Unread() == t.rest && t.reply == []
    {
      hide InitRead, ChunkLoop, Pipeline.Inv;
      InitNameFits(c, rx, sock.Unread(), env.junk);
      var init := ReadInit(env.junk);
      if init.InitFailed? {
        return 1;
      }
      var file := init.name + EXT;
      var pipe := new Transfer(FILE_ENCRYPTED_CHUNK_SIZE, init.header + init.salt);
      code := ReceiveChunks(pipe);
      pipe.FinishAndJoin();
      if home.Home? {
        home := Home(home.files[file := pipe.file]);
      }
    }

    /** The chunk loop up to its break or error return; what is published is what
        the parser selects. */
    method ReceiveChunks(pipe: Transfer) returns (code: int)
      requires sock.Valid() && pipe.Valid() && pipe.producer.Outside?
      requires pipe.slots.capacity == FILE_ENCRYPTED_CHUNK_SIZE
      modifies sock`pending, pipe, pipe.slots
      ensures sock.Valid() && pipe.Valid() && (pipe.producer.Outside? || pipe.producer.Holding?)
      ensures var all := ChunkLoop(c, rx, old(sock.Unread()), EncInt(END_CHUNK));
              && code == all.code && sock.Unread() == all.rest
              && pipe.serial.out == old(pipe.serial.out) + Flatten(all.published)
    {
      hide Receive, ReadBlob, ChunkLoop, Remains, Flatten, Pipeline.Inv;
      var prefix: Word := EncInt(END_CHUNK);
      ghost var start := pipe.serial.out;
      ghost var all := ChunkLoop(c, rx, sock.Unread(), prefix);
      RemainsAll(all, start);
      while true
        invariant sock.Valid() && pipe.Valid() && pipe.producer.Outside?
        invariant Remains(all, start, ChunkLoop(c, rx, sock.Unread(), prefix), pipe.serial.out)
        decreases |sock.Unread()|
      {
        ghost var now := ChunkLoop(c, rx, sock.Unread(), prefix);
        ghost var out := pipe.serial.out;
        ChunkLoopUnfolds(c, rx, sock.Unread(), prefix);
        RemainsNothing(all, start, now, out);
        var mark := RecvSession(sock, c, rx, 4);
        if mark.Refused? {
          return 0;
        }
        prefix := Overlay(mark.plain, prefix);
        pipe.Acquire();
        var blob := RecvRawBlob(sock, FILE_ENCRYPTED_CHUNK_SIZE);
        if blob.None? {
          return 1;
        }
        pipe.Deliver(blob.value, |blob.value|);
        ghost var later := if DecInt(prefix) != MEAT_CHUNK then Outcome(now.code, [], now.rest)
                           else ChunkLoop(c, rx, sock.Unread(), prefix);
        RemainsStep(all, start, now, out, blob.value, later);
        RemainsNothing(all, start, later, pipe.serial.out);
        if DecInt(prefix) == END_CHUNK {
          return 0;
        }
        if DecInt(prefix) != MEAT_CHUNK {
          return 0;
        }
      }
    }

    /** The read-from-filesystem handler; `Hangs` stands for not returning. */
    method ReadFromFs(env: Env) returns (flow: Flow, code: int)
      requires sock.Valid() && SessionSound(c) && env.junk.Valid()
      modifies sock`pending, sock`sent, nonce
      ensures sock.Valid()
      ensures var (returned, t) := ServeDownload(c, rx, old(sock.Unread()), home, env);
              && flow == t.flow && code == returned && home == t.home && sock.Unread() == t.rest
              && sock.sent == old(sock.sent) + Wire(c, tx, t.reply, [])
    {
      hide Receive;
      nonce.value := env.nonce;
      var name := RecvSession(sock, c, rx, PRE_EXT_FILE_NAME_LEN);
      if name == Refused(4) {
        return Goes, 3;
      }
      if name.Refused? {
        return Goes, 2;
      }
      var path := CString(name.plain + env.junk.tail);
      if home.Removed? {
        return Goes, 1;
      }
      if env.directory(path) {
        SendHead(env.junk.header, env.junk.salt);
        return Hangs, 0;
      }
      if path !in home.files {
        return Goes, 1;
      }
      SendFile(home.files[path], env.junk);
      return Goes, 0;
    }

    /** The two frames in front of the body. */
    method SendHead(header: Bytes, salt: Bytes)
      requires SessionSound(c) && |header| == HEADER && |salt| == SALT
      modifies sock`sent, nonce
      ensures nonce.value == Inc(Inc(old(nonce.value)))
      ensures sock.sent == old(sock.sent) + Wire(c, tx, HeadItems(old(nonce.value), header, salt), [])
    {
      hide Wire, Encode;
      SentHead(c, tx, nonce.value, header, salt, sock.sent);
      SendSession(sock, c, tx, nonce, header);
      SendSession(sock, c, tx, nonce, salt);
    }

    /** Header, salt and the body cut again at the ciphertext chunk size. */
    method SendFile(contents: Bytes, junk: Junk)
      requires SessionSound(c) && junk.Valid()
      modifies sock`sent, nonce
      ensures sock.sent == old(sock.sent) + Wire(c, tx, DownloadItems(old(nonce.value), contents, junk), [])
    {
      hide Wire, Encode, ChunkItems;
      ghost var sent, n := sock.sent, nonce.value;
      var file := new InFile(contents);
      var header := file.Read(HEADER);
      assert header == contents[..Min(HEADER, |contents|)];
      var salt := file.Read(SALT);
      assert salt == contents[Min(HEADER, |contents|)..Min(HEADER + SALT, |contents|)];
      SendHead(Overlay(header, junk.header), Overlay(salt, junk.salt));
      assert file.Pieces(FILE_ENCRYPTED_CHUNK_SIZE) == Cut(StoredBody(contents), FILE_ENCRYPTED_CHUNK_SIZE);
      SendBody(file);
      SentMore(c, tx, HeadItems(n, StoredHeader(contents, junk), StoredSalt(contents, junk)),
               ChunkItems(Inc(Inc(n)), Cut(StoredBody(contents), FILE_ENCRYPTED_CHUNK_SIZE)), sent);
    }

    /** The loop of reads: a prefix frame and a raw blob for each piece. */
    method SendBody(file: InFile)
      requires SessionSound(c) && file.Valid()
      modifies sock`sent, nonce, file
      ensures sock.sent == old(sock.sent)
              + ChunkWire(c, tx, old(nonce.value), old(file.Pieces(FILE_ENCRYPTED_CHUNK_SIZE)), [])
    {
      hide Encode, ChunkWire;
      ghost var all := sock.sent + ChunkWire(c, tx, nonce.value, file.Pieces(FILE_ENCRYPTED_CHUNK_SIZE), []);
      while true
        invariant file.Valid()
        invariant all == sock.sent + ChunkWire(c, tx, nonce.value, file.Pieces(FILE_ENCRYPTED_CHUNK_SIZE), [])
        decreases |file.data| - file.pos
      {
        ghost var sent, n, pieces := sock.sent, nonce.value, file.Pieces(FILE_ENCRYPTED_CHUNK_SIZE);
        var chunk := file.Read(FILE_ENCRYPTED_CHUNK_SIZE);
        SendSession(sock, c, tx, nonce, EncInt(if file.eof then END_CHUNK else MEAT_CHUNK));
        SendRawBlob(sock, chunk, c, tx);
        SentPair(c, tx, n, pieces, sent);
        if file.eof {
          assert pieces[1..] == [];
          EmptyChunkWire(c, tx, nonce.value);
          return;
        }
      }
    }

    /** The list handler; `Crashes` stands for its exception. */
    method ListFs(env: Env) returns (flow: Flow, code: int)
      requires SessionSound(c) && env.Valid() && NamesFit(home)
      modifies sock`sent, nonce
      ensures var t := ServeList([], home, env);
              flow == t.flow && sock.sent == old(sock.sent) + Wire(c, tx, t.reply, [])
    {
      hide Encode;
      if home.Removed? {
        return Crashes, 0;
      }
      var names := env.order(home.files.Keys);
      assert Lists(names, home.files.Keys);
      nonce.value := env.nonce;
      ghost var items := ListItems(home.files, env);
      ghost var all := sock.sent + Wire(c, tx, items, []);
      SendSession(sock, c, tx, nonce, EncInt(|home.files|));
      assert items[1..] == NameItems(env.nameNonce, names, 0);
      Assoc(old(sock.sent), Encode(c, tx, items[0]), Wire(c, tx, items[1..], []));
      assert names[0..] == names;
      for i := 0 to |names|
        invariant all == sock.sent + Wire(c, tx, NameItems(env.nameNonce, names[i..], i), [])
      {
        nonce.value := env.nameNonce(i);
        ghost var sent, left := sock.sent, NameItems(env.nameNonce, names[i..], i);
        assert names[i] in names;
        SendSession(sock, c, tx, nonce, names[i] + [0]);
        assert names[i..][1..] == names[i + 1..];
        assert left[1..] == NameItems(env.nameNonce, names[i + 1..], i + 1);
        Assoc(sent, Encode(c, tx, left[0]), Wire(c, tx, left[1..], []));
      }
      return Goes, 0;
    }

    /** The delete handler; `Crashes` stands for the exception of `remove`. */
    method DeleteFromFs(env: Env) returns (flow: Flow, code: int)
      requires sock.Valid() && SessionSound(c) && NamesFit(home)
      modifies this`home, sock`pending, sock`sent, nonce
      ensures sock.Valid() && NamesFit(home)
      ensures var (returned, t) := ServeDelete(c, rx, old(sock.Unread()), old(home), env);
              && flow == t.flow && code == returned && home == t.home && sock.Unread() == t.rest
              && sock.sent == old(sock.sent) + Wire(c, tx, t.reply, [])
    {
      hide Receive, Encode;
      var name := RecvSession(sock, c, rx, PRE_EXT_FILE_NAME_LEN);
      if name == Refused(4) {
        return Goes, 2;
      }
      if name.Refused? {
        return Goes, 1;
      }
      var path := CString(name.plain + [0]);
      var success := false;
      if home.Home? {
        if !env.directory(path) {
          success := path in home.files;
          home := Home(home.files - {path});
        } else if path == [] && home.files == map[] {
          success := true;
          home := Removed;
        } else {
          return Crashes, 0;
        }
      }
      nonce.value := env.nonce;
      ghost var items := [Session(Inc(env.nonce), Ack(success))];
      assert items[1..] == [];
      SendSession(sock, c, tx, nonce, Ack(success));
      return Goes, 0;
    }

    /** `receive_notice_of_new_action`, `read_intent` and the handler they select. */
    method Turn(env: Env) returns (flow: Flow)
      requires sock.Valid() && SessionSound(c) && env.Valid() && NamesFit(home)
      modifies this`home, sock`pending, sock`sent, nonce
      ensures sock.Valid() && NamesFit(home)
      ensures var t := ServeTurn(c, rx, old(sock.Unread()), old(home), env);
              && flow == t.flow && home == t.home && sock.Unread() == t.rest
              && sock.sent == old(sock.sent) + Wire(c, tx, t.reply, [])
    {
      hide Receive, ServeWrite, ServeDownload, ServeDelete, ListItems, NamesFit, SessionSound;
      var notice := RecvSession(sock, c, rx, 4);
      if notice.Refused? || DecInt(Overlay(notice.plain, env.junk.notice)) != NEW_ACTION {
        return Ends;
      }
      flow := Goes;
      var word := RecvSession(sock, c, rx, 4);
      if word.Refused? {
        return;
      }
      var intent := DecInt(Overlay(word.plain, env.junk.intent));
      var code: int;
      if intent == READ_FROM_FILESYSTEM {
        flow, code := ReadFromFs(env);
      } else if intent == WRITE_TO_FILESYSTEM {
        code := WriteToFs(env);
      } else if intent == LIST_FILES {
        flow, code := ListFs(env);
      } else if intent == DELETE_FILE {
        flow, code := DeleteFromFs(env);
      }
    }

    /** The authenticated loop of `handle_conn`, up to where it ends, hangs or throws. */
    method Serve(envs: nat -> Env) returns (turns: nat, flow: Flow)
      requires sock.Valid() && SessionSound(c) && NamesFit(home) && forall k :: envs(k).Valid()
      modifies this`home, sock`pending, sock`sent, nonce
      ensures sock.Valid() && NamesFit(home)
      ensures var r := ServeSession(c, rx, old(sock.Unread()), old(home), envs, 0);
              && turns == r.turns && flow == r.flow && home == r.home && sock.Unread() == r.rest
              && sock.sent == old(sock.sent) + Wire(c, tx, r.reply, [])
    {
      hide ServeTurn, Wire, NamesFit, SessionSound;
      turns := 0;
      ghost var all := ServeSession(c, rx, sock.Unread(), home, envs, 0);
      while true
        invariant sock.Valid() && NamesFit(home)
        invariant var r := ServeSession(c, rx, sock.Unread(), home, envs, turns);
                  && all.turns == turns + r.turns && all.flow == r.flow && all.home == r.home && all.rest == r.rest
                  && old(sock.sent) + Wire(c, tx, all.reply, []) == sock.sent + Wire(c, tx, r.reply, [])
        decreases |sock.Unread()|
      {
        ghost var s, dir, sent := sock.Unread(), home, sock.sent;
        flow := Turn(envs(turns));
        ghost var t := ServeTurn(c, rx, s, dir, envs(turns));
        turns := turns + 1;
        if !flow.Goes? {
          return;
        }
        SentMore(c, tx, t.reply, ServeSession(c, rx, sock.Unread(), home, envs, turns).reply, sent);
      }
    }
  }

  /** Every stored name is one that a file system can hold, terminator not counted. */
  predicate NamesFit(home: Home)
  {
    home.Home? ==> forall m | m in home.files :: |m| <= MAX_FILE_NAME_LENGTH
  }

  /** The name under which an upload is stored fits, whatever was received. */
  lemma InitNameFits(c: Suite, rx: Bytes, s: Bytes, junk: Junk)
    requires SessionSound(c) && junk.Valid()
    ensures InitRead(c, rx, s, junk).InitOk? ==> |InitRead(c, rx, s, junk).name + EXT| <= MAX_FILE_NAME_LENGTH
  {
    hide Receive, CString;
    OpenedFits(c, rx, Receive(c, rx, s, 1).1, PRE_EXT_FILE_NAME_LEN);
  }

  /** One pass of the chunk loop, case by case. */
  lemma ChunkLoopUnfolds(c: Suite, rx: Bytes, s: Bytes, prefix: Word)
    ensures var l := ChunkLoop(c, rx, s, prefix);
            var (mark, s0) := Receive(c, rx, s, 4);
            && (mark.Refused? ==> l == Outcome(0, [], s0))
            && (mark.Opened? ==>
                  var p := Overlay(mark.plain, prefix);
                  var (blob, s1) := ReadBlob(s0, FILE_ENCRYPTED_CHUNK_SIZE);
                  && (blob.None? ==> l == Outcome(1, [], s1))
                  && (blob.Some? && DecInt(p) != MEAT_CHUNK ==> l == Outcome(0, [blob.value], s1))
                  && (blob.Some? && DecInt(p) == MEAT_CHUNK ==>
                        var more := ChunkLoop(c, rx, s1, p);
                        l == Outcome(more.code, [blob.value] + more.published, more.rest)))
  {
    hide Receive, ReadBlob;
  }

  lemma SentHead(c: Suite, key: Bytes, n: u64, header: Bytes, salt: Bytes, sent: Bytes)
    ensures sent + Wire(c, key, HeadItems(n, header, salt), [])
         == (sent + Encode(c, key, Session(Inc(n), header))) + Encode(c, key, Session(Inc(Inc(n)), salt))
  {
    hide Encode;
    var items := HeadItems(n, header, salt);
    assert items[1..] == [items[1]];
    assert items[1..][1..] == [];
    assert Wire(c, key, items[1..], []) == Encode(c, key, items[1]);
    Assoc(sent, Encode(c, key, items[0]), Encode(c, key, items[1]));
  }
}
