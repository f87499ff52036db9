/** The client side: `CommandLineProtocol`, which turns a line typed by the
    user into writes to the server connection, and `FileTransferProtocol`,
    which buffers the server's reply lines up to ENDMSG and stores downloads. */
module Client {
  import opened Runtime
  import opened Common
  import opened Framing

  // ---------------------------------------------------------------------
  // Commands typed by the user.

  const Prompt: string := "> "
  const InvalidCommand: string := "Invalid command"
  const MissingFilename: string := "Missing filename"
  const MissingPutArgs: string := "Missing local file path or remote file name"
  const NoLocalFile: string := "This file does not exist"

  /** What the terminal shows for `_display_message(message)`: the printed
      message, then the prompt. */
  function Displayed(message: string): seq<string> {
    [message + "\n", Prompt]
  }

  /** The upload header line. */
  function PutHeader(name: string, digest: string): string {
    "PUT " + name + " " + digest + "\n"
  }

  /** What `_sendCommand` makes of a line. */
  datatype Command =
    | Invalid
    | Plain(command: string)
    | GetMissingName
    | Get(name: string)
    | PutMissingArgs
    | Put(path: string, name: string)

  /** The checks of `_sendCommand`: the first token, lower-cased, picks the
      command; `get` needs a name, `put` a local path and a remote name. */
  function ParseCommand(line: string): (c: Command)
    ensures c.Get? ==> ' ' !in c.name
    ensures c.Put? ==> ' ' !in c.path && ' ' !in c.name
  {
    ParseTokens(CleanAndSplitInput(line))
  }

  /** The checks of `_sendCommand` on the tokens of a line. */
  function ParseTokens(data: seq<string>): (c: Command)
    requires |data| >= 1
    ensures c.Get? ==> |data| >= 2 && c.name == data[1]
    ensures c.Put? ==> |data| >= 3 && c.path == data[1] && c.name == data[2]
  {
    var command := Lower(data[0]);
    if command !in Commands then Invalid
    else if command == "list" || command == "help" || command == "quit" then Plain(command)
    else if command == "get" then (if |data| < 2 then GetMissingName else Get(data[1]))
    else if |data| < 3 then PutMissingArgs
    else Put(data[1], data[2])
  }

  /** What the checks mean: a line is invalid exactly when its lower-cased first
      token is not in `COMMANDS`; list, help and quit are sent as that lower-cased
      word; `get` and `put` go ahead exactly when their arguments are present. */
  lemma ParseTokensMeaning(data: seq<string>)
    requires |data| >= 1
    ensures ParseTokens(data) == Invalid <==> Lower(data[0]) !in Commands
    ensures ParseTokens(data).Plain? <==> Lower(data[0]) in {"list", "help", "quit"}
    ensures ParseTokens(data).Plain? ==> ParseTokens(data).command == Lower(data[0])
    ensures ParseTokens(data).Get? <==> Lower(data[0]) == "get" && |data| >= 2
    ensures ParseTokens(data).GetMissingName? <==> Lower(data[0]) == "get" && |data| < 2
    ensures ParseTokens(data).Put? <==> Lower(data[0]) == "put" && |data| >= 3
    ensures ParseTokens(data).PutMissingArgs? <==> Lower(data[0]) == "put" && |data| < 3
  {
    CommandsTable();
  }

  /** Command names are matched without regard to case. */
  lemma ParseTokensIgnoresCase(data: seq<string>, word: string)
    requires |data| >= 1 && SameIgnoringCase(data[0], word)
    ensures ParseTokens([word] + data[1..]) == ParseTokens(data)
  {
    LowerCaseInsensitive(data[0], word);
    var other := [word] + data[1..];
    assert other[0] == word && other[1..] == data[1..];
  }

  /** A line of whitespace only is an invalid command. */
  lemma BlankCommandIsInvalid(line: string)
    requires AllSpace(line)
    ensures ParseCommand(line) == Invalid
  {
    CleanAndSplitBlank(line);
  }

  /** `get name`, typed with one space, is a download request for `name`. */
  lemma GetCommandUnderstood(name: string)
    requires IsWord(name)
    ensures ParseCommand("get " + name) == Get(name)
  {
    var words := ["get", name];
    assert words[1..] == [name];
    assert JoinTokens(words) == "get " + name;
    assert Lower("get") == "get";
    assert ParseTokens(words) == Get(name);
    CleanAndSplitWords(words);
  }

  /** `put path name`, typed with single spaces, is an upload of `path` as `name`. */
  lemma PutCommandUnderstood(path: string, name: string)
    requires IsWord(path) && IsWord(name)
    ensures ParseCommand("put " + path + " " + name) == Put(path, name)
  {
    var words := ["put", path, name];
    assert words[1..] == [path, name] && words[1..][1..] == [name];
    assert JoinTokens(words[1..]) == path + " " + name;
    assert JoinTokens(words) == "put " + path + " " + name;
    assert Lower("put") == "put";
    assert ParseTokens(words) == Put(path, name);
    CleanAndSplitWords(words);
  }

  /** The writes to the server and the terminal output for one command line. */
  ghost predicate CommandOutcome(line: string, local: Directory, md5: Md5, sent: seq<Bytes>, shown: seq<string>) {
    match ParseCommand(line)
    case Invalid => sent == [] && shown == Displayed(InvalidCommand)
    case Plain(command) => sent == [command + "\n"] && shown == []
    case GetMissingName => sent == [] && shown == Displayed(MissingFilename)
    case Get(name) => sent == ["get " + name + "\n"] && shown == []
    case PutMissingArgs => sent == [] && shown == Displayed(MissingPutArgs)
    case Put(path, name) =>
      if IsFile(local, path) then
        sent == [PutHeader(name, md5(local.files[path]))] + SenderWrites(local.files[path]) && shown == []
      else
        sent == [] && shown == Displayed(NoLocalFile)
  }

  /** `CommandLineProtocol.lineReceived`: an empty line only prompts again;
      any other line goes to `_sendCommand`. */
  method CommandLineReceived(line: string, local: Directory, md5: Md5) returns (sent: seq<Bytes>, shown: seq<string>)
    ensures line == [] ==> sent == [] && shown == [Prompt]
    ensures line != [] ==> CommandOutcome(line, local, md5, sent, shown)
  {
    if line == [] {
      return [], [Prompt];
    }
    sent, shown := SendCommand(line, local, md5);
  }

  /** `CommandLineProtocol._sendCommand`. */
  method SendCommand(line: string, local: Directory, md5: Md5) returns (sent: seq<Bytes>, shown: seq<string>)
    ensures CommandOutcome(line, local, md5, sent, shown)
  {
    match ParseCommand(line)
    case Invalid =>
      sent, shown := [], Displayed(InvalidCommand);
    case Plain(command) =>
      sent, shown := [command + "\n"], [];
    case GetMissingName =>
      sent, shown := [], Displayed(MissingFilename);
    case Get(name) =>
      sent, shown := ["get " + name + "\n"], [];
    case PutMissingArgs =>
      sent, shown := [], Displayed(MissingPutArgs);
    case Put(path, name) =>
      if !IsFile(local, path) {
        sent, shown := [], Displayed(NoLocalFile);
        return;
      }
      var digest := GetFileMd5Hash(md5, local.files[path]);
      sent := StreamUpload(PutHeader(name, digest), local.files[path]);
      shown := [];
  }

  /** The put branch of `_sendCommand` after the header: every chunk read from
      the file is written, then the marker. */
  method StreamUpload(header: Bytes, content: Bytes) returns (sent: seq<Bytes>)
    ensures sent == [header] + SenderWrites(content)
  {
    sent := [header];
    var chunks := ReadBytesFromFile(content, DefaultChunkSize);
    for i := 0 to |chunks|
      invariant sent == [header] + chunks[..i]
    {
      assert chunks[..i + 1] == chunks[..i] + [chunks[i]];
      sent := sent + [chunks[i]];
    }
    assert chunks[..|chunks|] == chunks;
    sent := sent + [EndOfPayload];
  }

  // ---------------------------------------------------------------------
  // Replies from the server.

  /** The end-of-response line as `lineReceived` gets it, without its "\n". */
  const EndMsgLine: string := "ENDMSG"

  /** Whether a download can be written to `path`: `open(path, 'wb')` fails on
      an empty path, on one that ends in a separator and on a directory. */
  predicate Writable(fs: Directory, path: string) {
    path != [] && path[|path| - 1] != '/' && path !in fs.dirs
  }

  /** The HASH line the server writes for a download, as delivered without its
      "\n", announces that file and digest. */
  lemma HashLineUnderstood(name: string, digest: string)
    requires IsWord(name) && IsWord(digest)
    ensures StartsWith("HASH " + name + " " + digest, "HASH")
    ensures CleanAndSplitInput("HASH " + name + " " + digest) == ["HASH", name, digest]
  {
    var words := ["HASH", name, digest];
    assert words[1..] == [name, digest] && words[1..][1..] == [digest];
    assert JoinTokens(words[1..]) == name + " " + digest;
    assert JoinTokens(words) == "HASH " + name + " " + digest;
    CleanAndSplitWords(words);
  }

  class FileTransferProtocol {
    /** The directory downloads are saved in. */
    const filesPath: string
    const md5: Md5
    /** The local filesystem, keyed by path. */
    var fs: Directory
    var mode: Mode
    /** The reply lines received since the last ENDMSG. */
    var buffer: seq<string>
    /** The path open for writing during a download. */
    var fileHandler: Option<string>
    /** `file_data`: the announced (filename, digest) of the last download, None for `()`. */
    var fileData: Option<(string, string)>
    /** The replies handed to the deferred, one list of lines per ENDMSG. */
    var replies: seq<seq<string>>
    /** False once the connection is dropped by an uncaught exception. */
    var connected: bool
    /** The chunks received so far in the download in progress. */
    ghost var received: seq<Bytes>

    ghost predicate Valid()
      reads this
    {
      && (connected && mode == RawMode ==> fileData.Some?)
      && (fileHandler.Some? ==>
            && connected && mode == RawMode && fileData.Some?
            && fileHandler.value == PathJoin(filesPath, fileData.value.0)
            && fileHandler.value in fs.files
            && fs.files[fileHandler.value] == Flatten(received))
      && (fileHandler.None? ==> received == [])
    }

    /** `connectionMade`. */
    constructor (filesPath: string, md5: Md5, fs: Directory)
      ensures Valid()
      ensures this.filesPath == filesPath && this.md5 == md5 && this.fs == fs
      ensures mode == LineMode && buffer == [] && fileHandler == None && fileData == None
      ensures replies == [] && connected
    {
      this.filesPath := filesPath;
      this.md5 := md5;
      this.fs := fs;
      mode := LineMode;
      buffer := [];
      fileHandler := None;
      fileData := None;
      replies := [];
      connected := true;
      received := [];
    }

    /** `connectionLost`: the handler and the transfer context are dropped. */
    method ConnectionLost()
      requires Valid()
      modifies this
      ensures Valid()
      ensures fileHandler == None && fileData == None && !connected
      ensures fs == old(fs) && buffer == old(buffer) && replies == old(replies) && mode == old(mode)
    {
      fileHandler := None;
      fileData := None;
      connected := false;
      received := [];
    }

    /** `lineReceived`: ENDMSG hands the buffered lines over and empties the
        buffer; a line starting with HASH announces a download and switches to
        raw mode (with fewer than three tokens it raises and the connection is
        dropped); any other line is buffered. */
    method LineReceived(line: string)
      requires Valid() && connected && mode == LineMode
      modifies this
      ensures Valid()
      ensures fs == old(fs) && fileHandler == None
      ensures line == EndMsgLine ==>
        && replies == old(replies) + [old(buffer)] && buffer == []
        && mode == LineMode && connected && fileData == old(fileData)
      ensures line != EndMsgLine && StartsWith(line, "HASH") ==>
        var data := CleanAndSplitInput(line);
        && buffer == old(buffer) && replies == old(replies)
        && (|data| >= 3 ==> fileData == Some((data[1], data[2])) && mode == RawMode && connected)
        && (|data| < 3 ==> fileData == old(fileData) && mode == LineMode && !connected)
      ensures line != EndMsgLine && !StartsWith(line, "HASH") ==>
        && buffer == old(buffer) + [line] && replies == old(replies)
        && mode == LineMode && connected && fileData == old(fileData)
    {
      if line == EndMsgLine {
        replies := replies + [buffer];
        buffer := [];
      } else if |line| >= 4 && line[..4] == "HASH" {
        AnnounceDownload(line);
      } else {
        buffer := buffer + [line];
      }
    }

    /** The HASH branch of `lineReceived`: the announced name and digest are the
        second and third tokens; a line with fewer tokens raises `IndexError`. */
    method AnnounceDownload(line: string)
      requires Valid() && connected && mode == LineMode && fileHandler.None?
      modifies this`fileData, this`mode, this`connected
      ensures Valid()
      ensures var data := CleanAndSplitInput(line);
        && (|data| >= 3 ==> fileData == Some((data[1], data[2])) && mode == RawMode && connected)
        && (|data| < 3 ==> fileData == old(fileData) && mode == LineMode && !connected)
    {
      var data := CleanAndSplitInput(line);
      if |data| < 3 {
        connected := false;
        return;
      }
      fileData := Some((data[1], data[2]));
      mode := RawMode;
    }

    /** `rawDataReceived`: the payload framer of a download, as on the server;
        the stored file is kept when its digest matches the announced one and
        unlinked otherwise. */
    method RawDataReceived(data: Bytes)
      requires Valid() && connected && mode == RawMode
      modifies this
      ensures Valid()
      ensures fileData == old(fileData) && fs.dirs == old(fs.dirs)
      ensures buffer == old(buffer) && replies == old(replies)
      ensures var path, digest := PathJoin(filesPath, old(fileData).value.0), old(fileData).value.1;
        && (old(fileHandler).None? && !Writable(old(fs), path) ==>
              !connected && fs == old(fs) && mode == RawMode)
        && (old(fileHandler).Some? || Writable(old(fs), path) ==>
              && connected
              && (IsTerminal(data) ==>
                    var stored := Payload(old(received) + [data]);
                    && mode == LineMode && fileHandler == None
                    && (md5(stored) == digest ==> fs.files == old(fs.files)[path := stored])
                    && (md5(stored) != digest ==> fs.files == old(fs.files) - {path}))
              && (!IsTerminal(data) ==>
                    && mode == RawMode && fileHandler == Some(path) && received == old(received) + [data]
                    && fs.files == old(fs.files)[path := Flatten(received)]))
    {
      var path := PathJoin(filesPath, fileData.value.0);
      if fileHandler.None? {
        if !Writable(fs, path) {
          connected := false;
          return;
        }
        OpenSink();
      }
      if IsTerminal(data) {
        RewriteEntry(old(fs.files), path, [], Payload(old(received) + [data]));
        FinishDownload(data);
      } else {
        AppendChunk(data);
        RewriteEntry(old(fs.files), path, [], Flatten(received));
      }
    }

    /** `open(file_path, 'wb')` on the first chunk: the entry is created empty. */
    method OpenSink()
      requires Valid() && connected && mode == RawMode && fileHandler.None?
      requires Writable(fs, PathJoin(filesPath, fileData.value.0))
      modifies this`fs, this`fileHandler
      ensures Valid() && fileHandler == Some(PathJoin(filesPath, fileData.value.0))
      ensures fs == old(fs).(files := old(fs.files)[PathJoin(filesPath, fileData.value.0) := []])
    {
      var path := PathJoin(filesPath, fileData.value.0);
      fs := fs.(files := fs.files[path := []]);
      fileHandler := Some(path);
    }

    /** A chunk that does not end the download is appended to the open file. */
    method AppendChunk(data: Bytes)
      requires Valid() && fileHandler.Some? && !IsTerminal(data)
      modifies this`fs, this`received
      ensures Valid() && received == old(received) + [data]
      ensures fs == old(fs).(files := old(fs.files)[fileHandler.value := Flatten(received)])
    {
      FlattenSnoc(received, data);
      fs := fs.(files := fs.files[fileHandler.value := fs.files[fileHandler.value] + data]);
      received := received + [data];
    }

    /** The chunk ending in "\r\n": it is written without those bytes, the
        file is closed, line mode resumes, and the file is kept or unlinked by
        its digest. */
    method FinishDownload(data: Bytes)
      requires Valid() && fileHandler.Some? && IsTerminal(data)
      modifies this`fs, this`mode, this`fileHandler, this`received
      ensures Valid() && mode == LineMode && fileHandler == None
      ensures var path, digest, stored := old(fileHandler).value, fileData.value.1, Payload(old(received) + [data]);
        && (md5(stored) == digest ==> fs == old(fs).(files := old(fs.files)[path := stored]))
        && (md5(stored) != digest ==> fs == old(fs).(files := old(fs.files) - {path}))
    {
      var path := fileHandler.value;
      var body := WithoutMarker(data);
      assert Payload(received + [data]) == Flatten(received) + body by {
        assert (received + [data])[..|received|] == received;
      }
      FlattenSnoc(received, data);
      fs := fs.(files := fs.files[path := fs.files[path] + body]);
      mode := LineMode;
      fileHandler := None;
      received := [];
      var ok := ValidateFileMd5Hash(md5, fs.files[path], fileData.value.1);
      if !ok {
        fs := fs.(files := fs.files - {path});
      }
    }
  }
}
