/** The server side of one connection: `FileTransferProtocol` in server.py,
    with the lazily built directory index it shares through its factory. */
module Server {
  import opened Runtime
  import opened Common
  import opened Framing

  // ---------------------------------------------------------------------
  // Replies.

  /** The end-of-response marker line. */
  const EndMsg: string := "ENDMSG\n"
  const Welcome: seq<string> := ["Welcome\n", "Type help for list of all the available commands\n", EndMsg]
  const InvalidCommand: string := "Invalid command\n"
  const MissingFilename: string := "Missing filename\n"
  const MissingPutArgs: string := "Missing filename or file MD5 hash\n"
  const Saved: string := "File was successfully transfered and saved\n"
  const NotSaved: string := "File was successfully transfered but not saved, due to invalid MD5 hash\n"
  const HelpHeader: string := "Available commands:\n\n"

  function NoSuchFile(name: string): string {
    "File with filename " + name + " does not exist\n"
  }

  /** The payload-announcement line of a download. */
  function HashLine(name: string, digest: string): string {
    "HASH " + name + " " + digest + "\n"
  }

  /** The usage line of `command` in a table of (usage, description) pairs. */
  function HelpLine(table: map<string, (string, string)>, command: string): string
    requires command in table
  {
    table[command].0 + " - " + table[command].1 + "\n"
  }

  function HelpLines(table: map<string, (string, string)>, order: seq<string>): seq<string>
    requires forall i :: 0 <= i < |order| ==> order[i] in table
  {
    seq(|order|, i requires 0 <= i < |order| => HelpLine(table, order[i]))
  }

  function ListHeader(count: nat): string {
    "Files (" + Decimal(count) + "): \n\n"
  }

  /** One line of the listing: the name, then the size in whole kilobytes
      followed by the literal text ".2 KB" that the format string prints. */
  function ListLine(name: string, size: nat): string {
    "- " + name + " (" + Decimal(size / 1024) + ".2 KB)\n"
  }

  // ---------------------------------------------------------------------
  // The directory index.

  /** An index entry: the joined path, the size in bytes and the MD5 digest. */
  datatype FileEntry = FileEntry(path: string, size: nat, digest: string)

  type Index = map<string, FileEntry>

  function EntryFor(filesPath: string, dir: Directory, md5: Md5, name: string): FileEntry
    requires name in dir.files
  {
    FileEntry(PathJoin(filesPath, name), |dir.files[name]|, md5(dir.files[name]))
  }

  /** The index of the served directory: every entry that is not a directory. */
  function IndexOf(filesPath: string, dir: Directory, md5: Md5): Index {
    map name | name in dir.files && name !in dir.dirs :: EntryFor(filesPath, dir, md5, name)
  }

  function ListLines(index: Index, order: seq<string>): seq<string>
    requires forall i :: 0 <= i < |order| ==> order[i] in index
  {
    seq(|order|, i requires 0 <= i < |order| => ListLine(order[i], index[order[i]].size))
  }

  /** `if not self.factory.files`: no index yet, or an empty one. */
  predicate NeedsRebuild(files: Option<Index>) {
    files.None? || files.value == map[]
  }

  // ---------------------------------------------------------------------
  // Command lines.

  /** What `lineReceived` makes of a line. */
  datatype Request =
    | Unknown
    | ListFiles
    | GetMissingName
    | GetFile(name: string)
    | PutMissingArgs
    | PutFile(name: string, digest: string)
    | ShowHelp
    | Quit

  /** The dispatch of `lineReceived`: the first token, lower-cased, picks the
      command; missing arguments are answered with an error. */
  function Classify(line: string): (r: Request)
    ensures r.GetFile? ==> ' ' !in r.name
    ensures r.PutFile? ==> ' ' !in r.name && ' ' !in r.digest
  {
    Dispatch(CleanAndSplitInput(line))
  }

  /** The dispatch on the tokens of a line. */
  function Dispatch(data: seq<string>): (r: Request)
    requires |data| >= 1
    ensures r.GetFile? ==> |data| >= 2 && r.name == data[1]
    ensures r.PutFile? ==> |data| >= 3 && r.name == data[1] && r.digest == data[2]
  {
    var command := Lower(data[0]);
    if command !in Commands then Unknown
    else if command == "list" then ListFiles
    else if command == "get" then (if |data| < 2 then GetMissingName else GetFile(data[1]))
    else if command == "put" then (if |data| < 3 then PutMissingArgs else PutFile(data[1], data[2]))
    else if command == "help" then ShowHelp
    else Quit
  }

  /** What the dispatch means: a line is invalid exactly when its lower-cased
      first token is not in `COMMANDS`, and `get` and `put` are served exactly
      when their arguments are present. */
  lemma DispatchMeaning(data: seq<string>)
    requires |data| >= 1
    ensures Dispatch(data) == Unknown <==> Lower(data[0]) !in Commands
    ensures Dispatch(data).GetFile? <==> Lower(data[0]) == "get" && |data| >= 2
    ensures Dispatch(data).GetMissingName? <==> Lower(data[0]) == "get" && |data| < 2
    ensures Dispatch(data).PutFile? <==> Lower(data[0]) == "put" && |data| >= 3
    ensures Dispatch(data).PutMissingArgs? <==> Lower(data[0]) == "put" && |data| < 3
  {
    CommandsTable();
  }

  /** Command names are matched without regard to case: a first token that
      differs only in ASCII case is dispatched the same way. */
  lemma DispatchIgnoresCase(data: seq<string>, word: string)
    requires |data| >= 1 && SameIgnoringCase(data[0], word)
    ensures Dispatch([word] + data[1..]) == Dispatch(data)
  {
    LowerCaseInsensitive(data[0], word);
    var other := [word] + data[1..];
    assert other[0] == word && other[1..] == data[1..];
  }

  /** A blank line, or one of whitespace only, is an invalid command. */
  lemma BlankLineIsUnknown(line: string)
    requires AllSpace(line)
    ensures Classify(line) == Unknown
  {
    CleanAndSplitBlank(line);
  }

  /** The header the client sends for an upload is read back as that upload. */
  lemma PutHeaderUnderstood(name: string, digest: string)
    requires IsWord(name) && IsWord(digest)
    ensures Classify("PUT " + name + " " + digest) == PutFile(name, digest)
  {
    var words := ["PUT", name, digest];
    assert words[1..] == [name, digest] && words[1..][1..] == [digest];
    assert JoinTokens(words[1..]) == name + " " + digest;
    assert JoinTokens(words) == "PUT " + name + " " + digest;
    assert Lower("PUT") == "put";
    assert Dispatch(words) == PutFile(name, digest);
    CleanAndSplitWords(words);
  }

  /** The download request the client sends is read back as that request. */
  lemma GetRequestUnderstood(name: string)
    requires IsWord(name)
    ensures Classify("get " + name) == GetFile(name)
  {
    var words := ["get", name];
    assert words[1..] == [name];
    assert JoinTokens(words) == "get " + name;
    assert Lower("get") == "get";
    assert Dispatch(words) == GetFile(name);
    CleanAndSplitWords(words);
  }

  /** The listing request the client sends is read back as that request. */
  lemma ListRequestUnderstood()
    ensures Classify("list") == ListFiles
  {
    assert Lower("list") == "list";
    assert Dispatch(["list"]) == ListFiles;
    CleanAndSplitWords(["list"]);
  }

  /** Whether the entry `name` can be opened for writing: it is neither the
      served directory itself (`os.path.join(path, '')`) nor a subdirectory. */
  predicate Writable(dir: Directory, name: string) {
    name != [] && name !in dir.dirs
  }

  // ---------------------------------------------------------------------
  // State.

  class FileTransferServerFactory {
    const filesPath: string
    /** `files`: the cached index, None until first built. */
    var files: Option<Index>

    constructor (filesPath: string)
      ensures this.filesPath == filesPath && files == None
    {
      this.filesPath := filesPath;
      files := None;
    }
  }

  class FileTransferProtocol {
    const factory: FileTransferServerFactory
    const md5: Md5
    /** The command table `help` documents: `COMMANDS`. */
    const commands: map<string, (string, string)>
    /** The served directory on disk. */
    var dir: Directory
    var mode: Mode
    /** The entry open for writing during an upload. */
    var fileHandler: Option<string>
    /** `file_data`: the announced (filename, digest) of the last upload, None for `()`. */
    var fileData: Option<(string, string)>
    /** Everything written to the transport, one element per `write` call. */
    var writes: seq<string>
    /** False once the connection is closed by `quit` or by an uncaught exception. */
    var connected: bool
    /** The chunks received so far in the upload in progress. */
    ghost var received: seq<Bytes>

    ghost predicate Valid()
      reads this
    {
      && (connected && mode == RawMode ==> fileData.Some?)
      && (fileHandler.Some? ==>
            && connected && mode == RawMode && fileData.Some?
            && fileHandler.value == fileData.value.0
            && fileHandler.value in dir.files
            && dir.files[fileHandler.value] == Flatten(received))
      && (fileHandler.None? ==> received == [])
    }

    /** A reply of one message followed by the end-of-response marker, in line mode. */
    ghost predicate Answered(before: seq<string>, message: string)
      reads this
    {
      writes == before + [message, EndMsg] && mode == LineMode && connected
    }

    /** The reply to `help`: the header, one usage line per command in some
        dict order, then the end-of-response marker. */
    ghost predicate HelpSent(before: seq<string>, table: map<string, (string, string)>)
      reads this
    {
      exists order ::
        && Enumerates(order, table.Keys)
        && (forall i :: 0 <= i < |order| ==> order[i] in table)
        && writes == before + [HelpHeader] + HelpLines(table, order) + [EndMsg]
    }

    /** The reply to `list` for the index `files`: the header with the count,
        one line per file in some dict order, then the end-of-response marker. */
    ghost predicate ListingSent(before: seq<string>, files: Index)
      reads this
    {
      exists order ::
        && Enumerates(order, files.Keys)
        && (forall i :: 0 <= i < |order| ==> order[i] in files)
        && writes == before + [ListHeader(|files.Keys|)] + ListLines(files, order) + [EndMsg]
    }

    /** The reply to `get name` against the index `index`: an error for a name
        not in the index; otherwise the HASH line with the indexed digest, then
        the file as it is on disk now and the marker, or a dropped connection
        when the entry is no longer a file. */
    ghost predicate FileSent(before: seq<string>, index: Index, name: string)
      reads this
    {
      && (name !in index ==> Answered(before, NoSuchFile(name)))
      && (name in index && IsFile(dir, name) ==>
            && writes == before + [HashLine(name, index[name].digest)] + SenderWrites(dir.files[name])
            && mode == LineMode && connected)
      && (name in index && !IsFile(dir, name) ==>
            writes == before + [HashLine(name, index[name].digest)] && mode == RawMode && !connected)
    }

    /** `connectionMade`. */
    constructor (factory: FileTransferServerFactory, md5: Md5, dir: Directory)
      ensures Valid()
      ensures this.factory == factory && this.md5 == md5 && this.dir == dir && commands == Commands
      ensures mode == LineMode && fileHandler == None && fileData == None
      ensures connected && writes == Welcome
    {
      this.factory := factory;
      this.md5 := md5;
      this.dir := dir;
      commands := Commands;
      mode := LineMode;
      fileHandler := None;
      fileData := None;
      writes := Welcome;
      connected := true;
      received := [];
    }

    /** `connectionLost`: the handler and the transfer context are dropped;
        a partly written file stays on disk. */
    method ConnectionLost()
      requires Valid()
      modifies this
      ensures Valid()
      ensures fileHandler == None && fileData == None && !connected
      ensures dir == old(dir) && writes == old(writes) && mode == old(mode)
    {
      fileHandler := None;
      fileData := None;
      connected := false;
      received := [];
    }

    /** `lineReceived`: the line is classified and answered. */
    method LineReceived(line: string)
      requires Valid() && connected && mode == LineMode
      modifies this, factory
      ensures Valid()
      ensures dir == old(dir) && fileHandler == None
      ensures Responded(Classify(line), old(writes), old(factory.files), old(fileData))
    {
      Respond(Classify(line));
    }

    /** What the connection has done after answering `req`, given the replies
        written, the factory's index and the transfer context before it. */
    ghost predicate Responded(req: Request, before: seq<string>, files: Option<Index>, data: Option<(string, string)>)
      reads this, factory
    {
      && (!req.PutFile? ==> fileData == data)
      && (!req.ListFiles? && !req.GetFile? ==> factory.files == files)
      && (req.Unknown? ==> Answered(before, InvalidCommand))
      && (req.GetMissingName? ==> Answered(before, MissingFilename))
      && (req.PutMissingArgs? ==> Answered(before, MissingPutArgs))
      && (req.PutFile? ==>
            fileData == Some((req.name, req.digest)) && mode == RawMode && connected && writes == before)
      && (req.Quit? ==> !connected && writes == before && mode == LineMode)
      && (req.ShowHelp? ==> HelpSent(before, commands) && mode == LineMode && connected)
      && (req.ListFiles? ==>
            var index := IndexOf(factory.filesPath, dir, md5);
            factory.files == Some(index) && ListingSent(before, index) && mode == LineMode && connected)
      && (req.GetFile? ==>
            var index := if NeedsRebuild(files) then IndexOf(factory.filesPath, dir, md5) else files.value;
            factory.files == Some(index) && FileSent(before, index, req.name))
    }

    /** The dispatch of `lineReceived` on a classified request. */
    method Respond(req: Request)
      requires Valid() && connected && mode == LineMode
      modifies this`writes, this`fileData, this`mode, this`connected, factory`files
      ensures Valid()
      ensures dir == old(dir) && fileHandler == None
      ensures Responded(req, old(writes), old(factory.files), old(fileData))
    {
      if req.ListFiles? || req.GetFile? {
        RespondFromIndex(req);
      } else if req.ShowHelp? {
        SendHelp();
      } else {
        RespondLocally(req);
      }
    }

    /** The requests answered from the directory index: `list` and `get name`. */
    method RespondFromIndex(req: Request)
      requires Valid() && connected && mode == LineMode
      requires req.ListFiles? || req.GetFile?
      modifies this`writes, this`mode, this`connected, factory`files
      ensures Valid()
      ensures Responded(req, old(writes), old(factory.files), fileData)
    {
      if req.ListFiles? {
        SendListOfFiles();
      } else {
        SendFile(req.name);
      }
    }

    /** The requests answered without the index or the command table: the
        error messages, `put` switching to raw mode, and `quit`. */
    method RespondLocally(req: Request)
      requires Valid() && connected && mode == LineMode
      requires !req.ListFiles? && !req.GetFile? && !req.ShowHelp?
      modifies this`writes, this`fileData, this`mode, this`connected
      ensures Valid()
      ensures Responded(req, old(writes), factory.files, old(fileData))
    {
      match req
      case Unknown =>
        writes := writes + [InvalidCommand, EndMsg];
      case GetMissingName =>
        writes := writes + [MissingFilename, EndMsg];
      case PutMissingArgs =>
        writes := writes + [MissingPutArgs, EndMsg];
      case PutFile(name, digest) =>
        fileData := Some((name, digest));
        mode := RawMode;
      case Quit =>
        connected := false;
    }

    /** The `get` branch with its file name: look the name up in the index
        (building it first if there is none), announce the digest, stream the
        file as it is on disk now, then the marker. Opening an entry that is no
        longer a file raises, and the connection is dropped. */
    method SendFile(name: string)
      requires Valid() && connected && mode == LineMode
      modifies this`writes, this`mode, this`connected, factory`files
      ensures Valid()
      ensures var index := if NeedsRebuild(old(factory.files)) then IndexOf(factory.filesPath, dir, md5)
                           else old(factory.files).value;
        factory.files == Some(index) && FileSent(old(writes), index, name)
    {
      LoadIndex();
      var index := factory.files.value;
      if name !in index {
        writes := writes + [NoSuchFile(name), EndMsg];
        return;
      }
      writes := writes + [HashLine(name, index[name].digest)];
      mode := RawMode;
      if !IsFile(dir, name) {
        connected := false;
        return;
      }
      StreamFile(dir.files[name]);
      mode := LineMode;
    }

    /** The lazy index of `get`: the factory's index is rebuilt when there is
        none or it is empty, and kept otherwise. */
    method LoadIndex()
      modifies factory`files
      ensures factory.files == Some(if NeedsRebuild(old(factory.files)) then IndexOf(factory.filesPath, dir, md5)
                                    else old(factory.files).value)
    {
      if NeedsRebuild(factory.files) {
        var files := GetFileList();
        factory.files := Some(files);
      }
    }

    /** The loop that writes a file's chunks to the transport, then the marker. */
    method StreamFile(content: Bytes)
      modifies this`writes
      ensures writes == old(writes) + SenderWrites(content)
    {
      var chunks := ReadBytesFromFile(content, DefaultChunkSize);
      for i := 0 to |chunks|
        invariant writes == old(writes) + chunks[..i]
      {
        assert chunks[..i + 1] == chunks[..i] + [chunks[i]];
        writes := writes + [chunks[i]];
      }
      assert chunks[..|chunks|] == chunks;
      writes := writes + [EndOfPayload];
    }

    /** The `help` branch: one usage line per command, in dict order. */
    method SendHelp()
      modifies this`writes
      ensures HelpSent(old(writes), commands)
    {
      WriteHelp(commands);
    }

    /** The loop of the `help` branch over a command table. */
    method WriteHelp(table: map<string, (string, string)>)
      modifies this`writes
      ensures HelpSent(old(writes), table)
    {
      writes := writes + [HelpHeader];
      var remaining := table.Keys;
      ghost var order: seq<string> := [];
      while remaining != {}
        invariant remaining <= table.Keys
        invariant forall i :: 0 <= i < |order| ==> order[i] in table && order[i] !in remaining
        invariant forall k :: k in table && k !in remaining ==> k in order
        invariant |order| + |remaining| == |table.Keys|
        invariant writes == old(writes) + [HelpHeader] + HelpLines(table, order)
        decreases remaining
      {
        var key :| key in remaining;
        assert HelpLines(table, order + [key]) == HelpLines(table, order) + [HelpLine(table, key)];
        writes := writes + [HelpLine(table, key)];
        order := order + [key];
        remaining := remaining - {key};
      }
      writes := writes + [EndMsg];
      assert Enumerates(order, table.Keys);
    }

    /** `_send_list_of_files`: rebuild the index, store it in the factory, and
        list every file with its size. */
    method SendListOfFiles()
      modifies this`writes, factory`files
      ensures var index := IndexOf(factory.filesPath, dir, md5);
        factory.files == Some(index) && ListingSent(old(writes), index)
    {
      var files := GetFileList();
      factory.files := Some(files);
      WriteListing(files);
    }

    /** The lines of `_send_list_of_files`: a header with the count, one line
        per file in dict order, then the end-of-response marker. */
    method WriteListing(files: Index)
      modifies this`writes
      ensures ListingSent(old(writes), files)
    {
      writes := writes + [ListHeader(|files.Keys|)];
      var remaining := files.Keys;
      ghost var order: seq<string> := [];
      while remaining != {}
        invariant remaining <= files.Keys
        invariant forall i :: 0 <= i < |order| ==> order[i] in files && order[i] !in remaining
        invariant forall k :: k in files && k !in remaining ==> k in order
        invariant |order| + |remaining| == |files.Keys|
        invariant writes == old(writes) + [ListHeader(|files.Keys|)] + ListLines(files, order)
        decreases remaining
      {
        var name :| name in remaining;
        assert ListLines(files, order + [name]) == ListLines(files, order) + [ListLine(name, files[name].size)];
        writes := writes + [ListLine(name, files[name].size)];
        order := order + [name];
        remaining := remaining - {name};
      }
      writes := writes + [EndMsg];
      assert Enumerates(order, files.Keys);
    }

    /** `_get_file_list`: walk the directory listing, skip subdirectories, and
        record each file's joined path, size and digest. */
    method GetFileList() returns (files: Index)
      ensures files == IndexOf(factory.filesPath, dir, md5)
    {
      files := map[];
      var remaining := dir.files.Keys + dir.dirs;
      while remaining != {}
        invariant remaining <= dir.files.Keys + dir.dirs
        invariant forall n :: n in files <==> (n in dir.files && n !in dir.dirs && n !in remaining)
        invariant forall n :: n in files ==> n in dir.files && files[n] == EntryFor(factory.filesPath, dir, md5, n)
        decreases remaining
      {
        var name :| name in remaining;
        remaining := remaining - {name};
        if name in dir.dirs {
          continue;
        }
        var size := |dir.files[name]|;
        var digest := GetFileMd5Hash(md5, dir.files[name]);
        files := files[name := FileEntry(PathJoin(factory.filesPath, name), size, digest)];
      }
      assert files == IndexOf(factory.filesPath, dir, md5);
    }

    /** `rawDataReceived`: the payload framer of an upload. The sink is opened
        (truncating) on the first chunk; a chunk ending in "\r\n" is written
        without those bytes, the sink is closed, line mode resumes and the
        stored file is kept or deleted by its digest. */
    method RawDataReceived(data: Bytes)
      requires Valid() && connected && mode == RawMode
      modifies this
      ensures Valid()
      ensures fileData == old(fileData) && dir.dirs == old(dir.dirs)
      ensures var name, digest := old(fileData).value.0, old(fileData).value.1;
        && (old(fileHandler).None? && !Writable(old(dir), name) ==>
              !connected && dir == old(dir) && writes == old(writes) && mode == RawMode)
        && (old(fileHandler).Some? || Writable(old(dir), name) ==>
              && connected
              && (IsTerminal(data) ==>
                    var stored := Payload(old(received) + [data]);
                    && mode == LineMode && fileHandler == None
                    && (md5(stored) == digest ==>
                          dir.files == old(dir.files)[name := stored] && writes == old(writes) + [Saved, EndMsg])
                    && (md5(stored) != digest ==>
                          dir.files == old(dir.files) - {name} && writes == old(writes) + [NotSaved, EndMsg]))
              && (!IsTerminal(data) ==>
                    && mode == RawMode && fileHandler == Some(name) && received == old(received) + [data]
                    && dir.files == old(dir.files)[name := Flatten(received)] && writes == old(writes)))
    {
      if fileHandler.None? {
        if !Writable(dir, fileData.value.0) {
          connected := false;
          return;
        }
        OpenSink();
      }
      if IsTerminal(data) {
        RewriteEntry(old(dir.files), fileData.value.0, [], Payload(old(received) + [data]));
        FinishUpload(data);
      } else {
        AppendChunk(data);
        RewriteEntry(old(dir.files), fileData.value.0, [], Flatten(received));
      }
    }

    /** `open(file_path, 'wb')` on the first chunk: the entry is created empty. */
    method OpenSink()
      requires Valid() && connected && mode == RawMode && fileHandler.None?
      requires Writable(dir, fileData.value.0)
      modifies this`dir, this`fileHandler
      ensures Valid() && fileHandler == Some(fileData.value.0)
      ensures dir == old(dir).(files := old(dir.files)[fileData.value.0 := []])
    {
      dir := dir.(files := dir.files[fileData.value.0 := []]);
      fileHandler := Some(fileData.value.0);
    }

    /** A chunk that does not end the upload is appended to the open entry. */
    method AppendChunk(data: Bytes)
      requires Valid() && fileHandler.Some? && !IsTerminal(data)
      modifies this`dir, this`received
      ensures Valid() && received == old(received) + [data]
      ensures dir == old(dir).(files := old(dir.files)[fileHandler.value := Flatten(received)])
    {
      FlattenSnoc(received, data);
      dir := dir.(files := dir.files[fileHandler.value := dir.files[fileHandler.value] + data]);
      received := received + [data];
    }

    /** The chunk ending in "\r\n": it is written without those bytes, the
        entry is closed, line mode resumes, and the file is kept with the saved
        message or deleted with the not-saved message, by its digest. */
    method FinishUpload(data: Bytes)
      requires Valid() && fileHandler.Some? && IsTerminal(data)
      modifies this`dir, this`mode, this`fileHandler, this`received, this`writes
      ensures Valid() && mode == LineMode && fileHandler == None
      ensures var name, digest, stored := old(fileHandler).value, fileData.value.1, Payload(old(received) + [data]);
        && (md5(stored) == digest ==>
              dir == old(dir).(files := old(dir.files)[name := stored]) && writes == old(writes) + [Saved, EndMsg])
        && (md5(stored) != digest ==>
              dir == old(dir).(files := old(dir.files) - {name}) && writes == old(writes) + [NotSaved, EndMsg])
    {
      var name := fileHandler.value;
      var body := WithoutMarker(data);
      assert Payload(received + [data]) == Flatten(received) + body by {
        assert (received + [data])[..|received|] == received;
      }
      dir := dir.(files := dir.files[name := dir.files[name] + body]);
      mode := LineMode;
      fileHandler := None;
      received := [];
      var ok := ValidateFileMd5Hash(md5, dir.files[name], fileData.value.1);
      if ok {
        writes := writes + [Saved, EndMsg];
      } else {
        dir := dir.(files := dir.files - {name});
        writes := writes + [NotSaved, EndMsg];
      }
    }
  }
}
