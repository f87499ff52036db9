/** Both peers together: the transport hands each write of one peer to the
    other as one delivery, a line to `lineReceived` in line mode (without its
    "\n") and a chunk to `rawDataReceived` in raw mode. */
module Session {
  import opened Runtime
  import opened Common
  import opened Framing
  import Server
  import Client

  /** The line `LineReceiver` hands over for a write that ends in its "\n" delimiter. */
  function LineOf(write: string): (line: string)
    requires EndsWith(write, "\n")
    ensures line + "\n" == write
  {
    write[..|write| - 1]
  }

  /** A line written by a peer is received as itself. */
  lemma LineOfLine(line: string)
    ensures EndsWith(line + "\n", "\n") && LineOf(line + "\n") == line
  {
    assert (line + "\n")[..|line|] == line;
  }

  /** The writes after a known prefix. */
  lemma DropWritten(before: seq<Bytes>, after: seq<Bytes>)
    ensures (before + after)[|before|..] == after
  {
  }

  lemma Regroup(a: seq<Bytes>, b: Bytes, c: seq<Bytes>)
    ensures a + [b] + c == a + ([b] + c)
  {
  }

  /** Deliveries of which only the last ends in the marker. */
  predicate OnlyLastTerminal(deliveries: seq<Bytes>) {
    && |deliveries| > 0
    && IsTerminal(deliveries[|deliveries| - 1])
    && forall i :: 0 <= i < |deliveries| - 1 ==> !IsTerminal(deliveries[i])
  }

  /** A cleanly framed file, sent write by write, is one transfer that carries
      exactly the file. */
  lemma SenderWritesTransfer(content: Bytes)
    requires CleanlyFramed(content)
    ensures var w := SenderWrites(content); OnlyLastTerminal(w) && Payload(w) == content
  {
    var w := SenderWrites(content);
    assert w[|w| - 1] == EndOfPayload;
    PayloadIsFlattenMinusMarker(w);
    assert (content + EndOfPayload)[..|content|] == content;
  }

  /** The transport handing a whole upload to the server, chunk by chunk. */
  method DeliverUpload(server: Server.FileTransferProtocol, chunks: seq<Bytes>)
    requires server.Valid() && server.connected && server.mode == RawMode && server.fileHandler.None?
    requires Server.Writable(server.dir, server.fileData.value.0)
    requires OnlyLastTerminal(chunks)
    modifies server
    ensures server.Valid() && server.connected && server.mode == LineMode && server.fileHandler.None?
    ensures server.fileData == old(server.fileData) && server.dir.dirs == old(server.dir.dirs)
    ensures var name, digest, stored := old(server.fileData).value.0, old(server.fileData).value.1, Payload(chunks);
      && (server.md5(stored) == digest ==>
            server.dir.files == old(server.dir.files)[name := stored]
            && server.writes == old(server.writes) + [Server.Saved, Server.EndMsg])
      && (server.md5(stored) != digest ==>
            server.dir.files == old(server.dir.files) - {name}
            && server.writes == old(server.writes) + [Server.NotSaved, Server.EndMsg])
  {
    var name := server.fileData.value.0;
    var i := 0;
    while i < |chunks| - 1
      invariant 0 <= i <= |chunks| - 1
      invariant server.Valid() && server.connected && server.mode == RawMode
      invariant server.fileData == old(server.fileData) && server.dir.dirs == old(server.dir.dirs)
      invariant server.writes == old(server.writes) && server.received == chunks[..i]
      invariant i == 0 ==> server.fileHandler.None? && server.dir == old(server.dir)
      invariant i > 0 ==>
        server.fileHandler == Some(name) && server.dir.files == old(server.dir.files)[name := Flatten(chunks[..i])]
    {
      server.RawDataReceived(chunks[i]);
      assert chunks[..i + 1] == chunks[..i] + [chunks[i]];
      i := i + 1;
    }
    assert chunks[..i] + [chunks[i]] == chunks;
    server.RawDataReceived(chunks[i]);
  }

  /** The transport handing a whole download to the client, chunk by chunk. */
  method DeliverDownload(client: Client.FileTransferProtocol, chunks: seq<Bytes>)
    requires client.Valid() && client.connected && client.mode == RawMode && client.fileHandler.None?
    requires Client.Writable(client.fs, PathJoin(client.filesPath, client.fileData.value.0))
    requires OnlyLastTerminal(chunks)
    modifies client
    ensures client.Valid() && client.connected && client.mode == LineMode && client.fileHandler.None?
    ensures client.fileData == old(client.fileData) && client.fs.dirs == old(client.fs.dirs)
    ensures client.buffer == old(client.buffer) && client.replies == old(client.replies)
    ensures var path, digest, stored :=
        PathJoin(client.filesPath, old(client.fileData).value.0), old(client.fileData).value.1, Payload(chunks);
      && (client.md5(stored) == digest ==> client.fs.files == old(client.fs.files)[path := stored])
      && (client.md5(stored) != digest ==> client.fs.files == old(client.fs.files) - {path})
  {
    var path := PathJoin(client.filesPath, client.fileData.value.0);
    var i := 0;
    while i < |chunks| - 1
      invariant 0 <= i <= |chunks| - 1
      invariant client.Valid() && client.connected && client.mode == RawMode
      invariant client.fileData == old(client.fileData) && client.fs.dirs == old(client.fs.dirs)
      invariant client.buffer == old(client.buffer) && client.replies == old(client.replies)
      invariant client.received == chunks[..i]
      invariant i == 0 ==> client.fileHandler.None? && client.fs == old(client.fs)
      invariant i > 0 ==>
        client.fileHandler == Some(path) && client.fs.files == old(client.fs.files)[path := Flatten(chunks[..i])]
    {
      client.RawDataReceived(chunks[i]);
      assert chunks[..i + 1] == chunks[..i] + [chunks[i]];
      i := i + 1;
    }
    assert chunks[..i] + [chunks[i]] == chunks;
    client.RawDataReceived(chunks[i]);
  }

  /** `put path name` typed at the client, carried to a fresh connection of a
      server serving `served`: the client shows nothing, the server stores the
      local file's bytes under `name`, and its replies after the welcome are
      the saved message and ENDMSG. */
  method Upload(md5: Md5, local: Directory, path: string, name: string, filesPath: string, served: Directory)
    returns (shown: seq<string>, stored: Directory, replies: seq<string>)
    requires IsFile(local, path) && IsWord(path) && IsWord(name)
    requires IsWord(md5(local.files[path])) && CleanlyFramed(local.files[path])
    requires name !in served.dirs
    ensures shown == []
    ensures stored == served.(files := served.files[name := local.files[path]])
    ensures replies == Server.Welcome + [Server.Saved, Server.EndMsg]
  {
    var content, digest := local.files[path], md5(local.files[path]);
    Client.PutCommandUnderstood(path, name);
    var sent;
    sent, shown := Client.CommandLineReceived("put " + path + " " + name, local, md5);
    var header := "PUT " + name + " " + digest;
    assert sent == [header + "\n"] + SenderWrites(content);
    var factory := new Server.FileTransferServerFactory(filesPath);
    var server := new Server.FileTransferProtocol(factory, md5, served);
    LineOfLine(header);
    Server.PutHeaderUnderstood(name, digest);
    server.LineReceived(LineOf(sent[0]));
    SenderWritesTransfer(content);
    assert sent[1..] == SenderWrites(content);
    DeliverUpload(server, sent[1..]);
    stored := server.dir;
    replies := server.writes;
  }

  /** A fresh client connection handed the server's reply to `get name`:
      the HASH line, then the file's writes. The client stores the bytes under
      its download path and keeps them exactly when they match the announced
      digest. */
  method ReceiveDownload(md5: Md5, downloadsPath: string, local: Directory, reply: seq<Bytes>,
                         name: string, digest: string, content: Bytes)
    returns (saved: Directory)
    requires IsWord(name) && IsWord(digest) && CleanlyFramed(content)
    requires reply == [Server.HashLine(name, digest)] + SenderWrites(content)
    requires Client.Writable(local, PathJoin(downloadsPath, name))
    ensures md5(content) == digest ==> saved == local.(files := local.files[PathJoin(downloadsPath, name) := content])
    ensures md5(content) != digest ==> saved == local.(files := local.files - {PathJoin(downloadsPath, name)})
  {
    var client := new Client.FileTransferProtocol(downloadsPath, md5, local);
    var announcement := "HASH " + name + " " + digest;
    LineOfLine(announcement);
    Client.HashLineUnderstood(name, digest);
    client.LineReceived(LineOf(reply[0]));
    SenderWritesTransfer(content);
    assert reply[1..] == SenderWrites(content);
    DeliverDownload(client, reply[1..]);
    saved := client.fs;
  }

  /** `get name` typed at the client, against a fresh connection of a server
      serving a file `name`; the server's writes after its welcome are carried
      back to the client: the client saves the served bytes under its download
      path and keeps them. */
  method Download(md5: Md5, filesPath: string, served: Directory, name: string, downloadsPath: string, local: Directory)
    returns (sent: seq<Bytes>, saved: Directory)
    requires IsFile(served, name) && IsWord(name)
    requires IsWord(md5(served.files[name])) && CleanlyFramed(served.files[name])
    requires Client.Writable(local, PathJoin(downloadsPath, name))
    ensures sent == ["get " + name + "\n"]
    ensures saved == local.(files := local.files[PathJoin(downloadsPath, name) := served.files[name]])
  {
    var content, digest := served.files[name], md5(served.files[name]);
    Client.GetCommandUnderstood(name);
    var shown;
    sent, shown := Client.CommandLineReceived("get " + name, local, md5);
    var factory := new Server.FileTransferServerFactory(filesPath);
    var server := new Server.FileTransferProtocol(factory, md5, served);
    LineOfLine("get " + name);
    Server.GetRequestUnderstood(name);
    ghost var index := Server.IndexOf(filesPath, served, md5);
    assert name in index && index[name].digest == digest;
    server.LineReceived(LineOf(sent[0]));
    assert factory.files == Some(index) && server.FileSent(Server.Welcome, index, name);
    var reply := [Server.HashLine(name, digest)] + SenderWrites(content);
    assert server.writes == Server.Welcome + [Server.HashLine(name, digest)] + SenderWrites(content);
    Regroup(Server.Welcome, Server.HashLine(name, digest), SenderWrites(content));
    DropWritten(Server.Welcome, reply);
    assert server.writes[|Server.Welcome|..] == reply;
    saved := ReceiveDownload(md5, downloadsPath, local, reply, name, digest, content);
  }

  /** A fresh connection of a server serving `served` that has answered `list`:
      the factory now holds the index of `served`. */
  method ListedConnection(md5: Md5, filesPath: string, served: Directory) returns (server: Server.FileTransferProtocol)
    ensures fresh(server) && fresh(server.factory)
    ensures server.Valid() && server.connected && server.mode == LineMode && server.fileHandler.None?
    ensures server.md5 == md5 && server.dir == served
    ensures server.factory.files == Some(Server.IndexOf(filesPath, served, md5))
  {
    var factory := new Server.FileTransferServerFactory(filesPath);
    server := new Server.FileTransferProtocol(factory, md5, served);
    Server.ListRequestUnderstood();
    server.LineReceived("list");
  }

  /** The upload, on a listed connection, of new bytes for the listed file
      `name`: the file is replaced on disk and the index is kept. */
  method ReplaceListed(server: Server.FileTransferProtocol, name: string, newContent: Bytes)
    requires server.Valid() && server.connected && server.mode == LineMode && server.fileHandler.None?
    requires server.factory.files.Some? && name in server.factory.files.value
    requires name !in server.dir.dirs && IsWord(name) && IsWord(server.md5(newContent))
    requires CleanlyFramed(newContent)
    modifies server, server.factory
    ensures server.Valid() && server.connected && server.mode == LineMode && server.fileHandler.None?
    ensures server.factory.files == old(server.factory.files)
    ensures server.dir == old(server.dir).(files := old(server.dir.files)[name := newContent])
    ensures server.writes == old(server.writes) + [Server.Saved, Server.EndMsg]
  {
    var newDigest := server.md5(newContent);
    assert server.factory.files.value != map[] by {
      assert name in server.factory.files.value;
    }
    Server.PutHeaderUnderstood(name, newDigest);
    server.LineReceived("PUT " + name + " " + newDigest);
    SenderWritesTransfer(newContent);
    DeliverUpload(server, SenderWrites(newContent));
  }

  /** On one connection of a server serving a file `name`: `list`, then an
      upload that gives `name` new bytes, then `get name`. `get` reuses the
      index that `list` built, so the server's reply to `get` announces the
      digest of the old bytes while it sends the new bytes. */
  method ServeAfterReplace(md5: Md5, filesPath: string, served: Directory, name: string, newContent: Bytes)
    returns (reply: seq<Bytes>)
    requires IsFile(served, name) && IsWord(name) && IsWord(md5(newContent))
    requires CleanlyFramed(newContent)
    ensures reply == [Server.HashLine(name, md5(served.files[name]))] + SenderWrites(newContent)
  {
    var server := ListedConnection(md5, filesPath, served);
    ghost var index := Server.IndexOf(filesPath, served, md5);
    assert name in index && index[name].digest == md5(served.files[name]);
    ReplaceListed(server, name, newContent);
    assert IsFile(server.dir, name) && server.dir.files[name] == newContent;
    assert !Server.NeedsRebuild(server.factory.files);
    var before := server.writes;
    Server.GetRequestUnderstood(name);
    server.LineReceived("get " + name);
    assert server.FileSent(before, index, name);
    var sentBack := [Server.HashLine(name, index[name].digest)] + SenderWrites(newContent);
    Regroup(before, Server.HashLine(name, index[name].digest), SenderWrites(newContent));
    DropWritten(before, sentBack);
    reply := server.writes[|before|..];
  }

  /** The stale index seen from the user's side: after another upload replaced
      the listed file on that connection, the download of it is deleted by the
      client although it carries the current bytes. */
  method StaleDigest(md5: Md5, filesPath: string, served: Directory, name: string, newContent: Bytes,
                     downloadsPath: string, local: Directory)
    returns (saved: Directory)
    requires IsFile(served, name) && IsWord(name)
    requires IsWord(md5(served.files[name])) && IsWord(md5(newContent))
    requires md5(newContent) != md5(served.files[name])
    requires CleanlyFramed(newContent)
    requires Client.Writable(local, PathJoin(downloadsPath, name))
    ensures saved == local.(files := local.files - {PathJoin(downloadsPath, name)})
  {
    var reply := ServeAfterReplace(md5, filesPath, served, name, newContent);
    saved := ReceiveDownload(md5, downloadsPath, local, reply, name, md5(served.files[name]), newContent);
  }
}
