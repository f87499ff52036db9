# Twisted binary file transfer demo, modelled in Dafny

This project models a small line-oriented file server and its command-line
client. They use a protocol over one TCP connection.

- **Commands.** The client sends `list`, `help`, `quit`, `get <name>` or
  `PUT <name> <md5>`. Each is one text line ending in `\n`.
- **Replies.** The server answers with text lines. A reply ends with the
  line `ENDMSG`.
- **File transfers.** A file travels after a header line: `HASH <name> <md5>`
  for a download, the `PUT` line for an upload. The sender writes the file in
  chunks of 8100 bytes, then the two bytes `\r\n`.
- **Receiving.** The receiver is in raw mode during a transfer. It writes
  every chunk it is handed to the file. The first chunk that itself ends in
  `\r\n` ends the transfer, and those two bytes are dropped. The receiver
  then compares the MD5 digest of what it stored with the announced one, and
  deletes the file on a mismatch.
- **Server index.** The server keeps a per-factory index of its directory:
  name ↦ (path, size, digest). `list` rebuilds the index. `get` rebuilds it
  only when there is none or it is empty.

The modules follow the program's files:

- `runtime.dfy` (`Runtime`): what Python and the operating system provide.
  - Byte strings, with MD5 as an uninterpreted function of the bytes.
  - A directory as a map from entry to contents plus a set of subdirectories.
  - `os.path.join`, `%d`, `str.lower`, `isspace`.
- `common.dfy` (`Common`), from common.py:
  - the command table;
  - `clean_and_split_input`, which is `strip` followed by `split(' ')`;
  - the chunk reader, as an imperative loop proved equal to a chunking
    function;
  - the MD5 fold over the chunks, and the digest check.
- `framing.dfy` (`Framing`): the raw-mode framing rule that both
  `rawDataReceived` methods follow, stated over the sequence of deliveries.
  It covers:
  - what is stored once the transfer ends;
  - exact reassembly when only the last delivery ends in the marker;
  - early end when an earlier chunk happens to end in `\r\n`;
  - a marker split across two deliveries, which is never seen.
- `server.dfy` (`Server`), from server.py:
  - `FileTransferServerFactory`, which holds the index cache;
  - `FileTransferProtocol`, a class whose methods update its mode, transfer
    context, directory and transport writes.
- `client.dfy` (`Client`), from client.py:
  - `CommandLineProtocol.lineReceived` and `_sendCommand`. These return what
    they write to the server connection and what they show on the terminal.
  - The client `FileTransferProtocol`, a class that holds:
    - the reply buffer;
    - the replies handed over at `ENDMSG`;
    - the download context;
    - the local filesystem, keyed by path.
- `session.dfy` (`Session`): the two peers connected. Each write of one peer
  is handed to the other as one delivery. This module proves these facts:
  - An upload typed as `put path name` is stored by the server byte for byte,
    and the server answers that it was saved.
  - A download typed as `get name` is saved by the client byte for byte.
  - On one connection, `list`, then an upload that changes a listed file,
    then `get` of that file: the server announces the old digest, and the
    client deletes the current bytes it received.

Quirks of the code that the model keeps:

- A blank line tokenizes to `['']` and is answered `Invalid command`.
- A successful `get` writes no `ENDMSG`.
- A file chunk before the last that ends in `\r\n` ends the transfer early.

An exception the code does not catch drops the connection. This covers an
`IndexError` on a short `HASH` line, and an `IOError` from `open` on a
directory or a vanished file. The model records it as `connected == false`.

## Model

| member | source | states |
|---|---|---|
| Runtime.PathJoin | server.py:112 | `os.path.join` of Python 2: an absolute second part replaces the first; otherwise the two are joined with one `/`, which is left out when the first is empty or already ends in `/`; what callers rely on is stated by the two lemmas below |
| Runtime.PathJoinEndsWith | client.py:156 | the joined download path ends in the file name |
| Runtime.PathJoinStartsWith | client.py:156 | a relative file name is joined under the directory, so the path starts with the directory; an absolute one replaces it |
| Runtime.Decimal | server.py:146 | `%d` of a count is a non-empty string of decimal digits with no leading zero (only the count 0 prints as `0`) whose value, read back digit by digit, is the count |
| Runtime.DecimalInjective | server.py:146 | different counts print differently |
| Runtime.LowerIdempotent | server.py:53 | `lower()` keeps the length and every byte that is not an ASCII capital, leaves no ASCII capital, and applied twice changes nothing more |
| Runtime.LowerCaseInsensitive | server.py:53-54 | two strings lower-case to the same string exactly when they differ only in the case of ASCII letters |
| Common.CommandsTable | common.py:4-10 | the command table has exactly the keys list, get, put, help and quit, with the get and put usage strings |
| Common.TrimLeft | common.py:53 | the leading whitespace removed by `strip()` is a prefix of whitespace only, and what remains does not begin with whitespace |
| Common.TrimRight | common.py:53 | the trailing whitespace removed by `strip()` is a suffix of whitespace only, and what remains does not end with whitespace |
| Common.Strip | common.py:53 | `strip()` returns a string no longer than its input that neither begins nor ends with whitespace |
| Common.StripSlice | common.py:53 | what `strip()` keeps is a contiguous part of the input, and everything before and after it is whitespace (the slicing step is the helper `Common.SplitAround`) |
| Common.StripUnchanged | common.py:53 | `strip()` leaves a non-empty string that neither begins nor ends with whitespace unchanged |
| Common.StripBlank | common.py:53 | `strip()` returns the empty string exactly when the input is all whitespace |
| Common.Split | common.py:54 | `split(' ')` returns at least one token and no token contains a space |
| Common.JoinSplit | common.py:54 | joining the tokens of `split(' ')` with single spaces gives back the string |
| Common.SplitCons | common.py:54 | a space-free token followed by a space splits off as the first token, and the rest splits on its own |
| Common.SplitWithoutSpace | common.py:54 | a string without a space splits into itself alone |
| Common.SplitJoin | common.py:54 | splitting space-free tokens joined by single spaces gives back those tokens |
| Common.SplitDoubleSpace | common.py:54 | two consecutive spaces produce an empty token |
| Common.CleanAndSplitInput | common.py:50-56 | at least one token, and no token contains a space; this also models the server's own copy `_cleanAndSplitInput` at server.py:172-176, identical line for line, which `Server.Classify` calls |
| Common.CleanAndSplitJoin | common.py:53-54 | the tokens joined by single spaces are the stripped input |
| Common.JoinTokensEnds | common.py:54 | words joined by single spaces begin with the first word's first character and end with the last word's last character |
| Common.CleanAndSplitBlank | common.py:53-55 | the result is `['']` exactly when the input is blank or whitespace only |
| Common.CleanAndSplitWords | common.py:50-56 | a line of whitespace-free words separated by single spaces tokenizes to exactly those words |
| Common.ReadBytesFromFile | common.py:38-48 | the read loop yields exactly the chunking of the file's bytes by the chunk size |
| Common.Chunks | common.py:41-48 | what the generator yields: successive reads of the chunk size until a read returns nothing; its properties are the rows below |
| Common.ChunksFlatten | common.py:41-48 | the chunks concatenate back to the file's bytes |
| Common.ChunksSizes | common.py:41-46 | every chunk is non-empty and at most the chunk size, and all but the last are exactly the chunk size |
| Common.ChunksUnique | common.py:41-48 | any well-sized chunking that concatenates to the file is the one the reader produces |
| Common.TwentyThousandBytes | common.py:38-46 | 20000 bytes are read as chunks of 8100, 8100 and 3800 bytes that concatenate to the file |
| Common.FoldUpdatesFeeds | common.py:32-34 | folding `update` over chunks feeds their concatenation to the hash |
| Common.DigestIndependentOfChunkSize | common.py:29-36 | the digest folded over the chunks of any positive size is the hash of the whole content |
| Common.GetFileMd5Hash | common.py:29-36 | the update loop returns the MD5 digest of the file's bytes |
| Common.ValidateFileMd5Hash | common.py:21-27 | true exactly when the recomputed digest equals the given one |
| Framing.WithoutMarker | server.py:121 | stripping a terminal chunk removes exactly the final `\r\n` |
| Framing.PayloadIsFlattenMinusMarker | server.py:116-126 | the stored file is all delivered chunks concatenated minus the final two bytes |
| Framing.TerminalIndex | server.py:119 | the transfer ends at the first delivery ending in `\r\n`, and there is none exactly when no delivery ends so |
| Framing.Received | server.py:116-126 | what a receiver has stored when it returns to line mode; there is no stored file exactly when no delivery ends in `\r\n` |
| Framing.LastTerminalIndex | server.py:119 | when only the last delivery ends in `\r\n`, the transfer ends at the last delivery |
| Framing.Reassembly | server.py:110-140 | deliveries that carry the content plus the marker, where only the last one ends in the marker, are stored as exactly the content |
| Framing.SenderWrites | server.py:81-84 | the sender's writes after the header concatenate to the file followed by `\r\n` |
| Framing.SenderWritesReassembled | client.py:89-92 | a cleanly framed file, with each write delivered as one chunk, is stored exactly |
| Framing.EarlyEnd | server.py:116-126 | a non-final delivery ending in `\r\n` ends the transfer with a strict prefix of the file stored |
| Framing.EarlyEndExample | server.py:119-122 | an 8102-byte file whose first chunk ends in `\r\n` is stored as its first 8098 bytes |
| Framing.SplitMarkerExample | server.py:119 | a marker split across two deliveries does not end the transfer |
| Server.Classify | server.py:49-108 | the request of a line; a file name or digest it carries contains no space |
| Server.Dispatch | server.py:53-99 | `get` and `put` requests take their file name and digest from the tokens after the command |
| Server.DispatchMeaning | server.py:53-99 | a line is invalid exactly when its lower-cased first token is not in `COMMANDS`; `get` is served exactly when a name follows and otherwise answered as missing its name; `put` likewise with name and digest |
| Server.DispatchIgnoresCase | server.py:53 | a first token that differs only in ASCII case is dispatched the same way |
| Server.BlankLineIsUnknown | server.py:49-57 | a blank or whitespace-only line is an invalid command |
| Server.PutHeaderUnderstood | server.py:86-95 | the client's `PUT name digest` header is read as an upload of that name with that digest |
| Server.GetRequestUnderstood | server.py:60-62 | the client's `get name` line is read as a download request for that name |
| Server.ListRequestUnderstood | server.py:58-59 | the line `list` is read as a listing request |
| Server.FileTransferServerFactory.constructor | server.py:182-186 | a new factory has no index |
| Server.FileTransferProtocol.constructor | server.py:28-35 | a new connection is in line mode with no transfer, documents the command table `COMMANDS`, and has written the welcome lines then ENDMSG |
| Server.FileTransferProtocol.ConnectionLost | server.py:39-42 | the handler and the transfer context are cleared, and the directory (with any partial upload) stays |
| Server.FileTransferProtocol.LineReceived | server.py:46-108 | the line is tokenized and classified, and the connection then answers the request as `Respond` states |
| Server.FileTransferProtocol.Respond | server.py:53-108 | per request: each error writes its one message plus ENDMSG and stays in line mode; `put` records the name and digest and enters raw mode; `quit` closes; `help`, `list` and `get` as below; only `list` and `get` change the factory's index, and only `put` changes the transfer context |
| Server.FileTransferProtocol.RespondFromIndex | server.py:58-85 | `list` and `get name` answer as `SendListOfFiles` and `SendFile` state, and leave the transfer context alone |
| Server.FileTransferProtocol.RespondLocally | server.py:54-108 | (the branches at lines 54-57, 63-66, 90-99 and 107-108) an unknown command, `get` without a name and `put` without both arguments write their message plus ENDMSG; `put` records the name and digest and enters raw mode without writing; `quit` closes without writing; the index is untouched |
| Server.FileTransferProtocol.SendFile | server.py:68-85 | `get name` looks the name up in the index, building it if there is none or it is empty; an unindexed name gets the error plus ENDMSG; otherwise the HASH line with the indexed digest, then the file's current chunks and `\r\n`, with no ENDMSG; an indexed entry that is no longer a file drops the connection after the HASH line |
| Server.FileTransferProtocol.LoadIndex | server.py:68-69 | the index is rebuilt exactly when there is none or it is empty, and is otherwise kept |
| Server.FileTransferProtocol.StreamFile | server.py:81-84 | the loop writes the file's chunks in order, then `\r\n` |
| Server.FileTransferProtocol.SendHelp | server.py:100-106 | the header, one `usage - description` line per command of the connection's table in some order of its keys, then ENDMSG |
| Server.FileTransferProtocol.WriteHelp | server.py:101-106 | for any command table, the loop writes the header, one line per key in some order that lists each key exactly once, then ENDMSG |
| Server.FileTransferProtocol.SendListOfFiles | server.py:142-150 | `list` rebuilds the index, stores it in the factory, and writes the count header, one line per indexed file with its size in KB, then ENDMSG |
| Server.FileTransferProtocol.WriteListing | server.py:146-150 | the header with the number of files, one line per file in some order of the index's keys, then ENDMSG |
| Server.FileTransferProtocol.GetFileList | server.py:152-170 | the index holds exactly the directory's entries that are not subdirectories, each mapped to its joined path, size and digest |
| Server.FileTransferProtocol.OpenSink | server.py:116-117 | the first chunk opens the entry, truncated to empty, and records it as the open handler |
| Server.FileTransferProtocol.AppendChunk | server.py:139-140 | a chunk not ending in `\r\n` is appended whole, and the entry holds the chunks received so far |
| Server.FileTransferProtocol.FinishUpload | server.py:119-138 | the terminal chunk completes the entry as the received chunks minus `\r\n` and resumes line mode; the file is kept with the saved message plus ENDMSG when its digest matches the announced one, and deleted with the not-saved message plus ENDMSG otherwise |
| Server.FileTransferProtocol.RawDataReceived | server.py:110-140 | the sink is opened, truncating, on the first chunk (a directory, or the served directory itself, drops the connection); a chunk not ending in `\r\n` is appended whole and raw mode stays; a terminal chunk completes the file as the received chunks minus `\r\n`, resumes line mode and keeps the file with the saved message plus ENDMSG when the digest matches, or deletes it with the not-saved message plus ENDMSG |
| Client.ParseCommand | client.py:51-76 | the command of a line; a path or name it carries contains no space |
| Client.ParseTokens | client.py:55-76 | `get` takes its name, and `put` its local path and remote name, from the tokens after the command |
| Client.ParseTokensMeaning | client.py:55-76 | a line is invalid exactly when its lower-cased first token is not in `COMMANDS`; list, help and quit are sent as that lower-cased word; `get` goes ahead exactly when a name follows and `put` exactly when a path and a name follow, and otherwise each reports the missing arguments |
| Client.ParseTokensIgnoresCase | client.py:55 | a first token that differs only in ASCII case is parsed the same way |
| Client.BlankCommandIsInvalid | client.py:51-58 | a whitespace-only command line is an invalid command |
| Client.GetCommandUnderstood | client.py:62-69 | `get name` typed with one space is a download request for that name |
| Client.PutCommandUnderstood | client.py:70-76 | `put path name` typed with single spaces is an upload of that local path under that name |
| Client.CommandLineReceived | client.py:39-46 | an empty line only shows the prompt and sends nothing; any other line is handled as a command |
| Client.SendCommand | client.py:48-97 | an unknown command, `get` without a name, `put` with fewer than two arguments and `put` of a path that is not a file each show their message and the prompt and send nothing; list, help and quit send the lower-cased command line; `get` sends `get name`; `put` sends the `PUT` header with the file's digest, the file's chunks and `\r\n` |
| Client.StreamUpload | client.py:86-92 | after the header line, the chunks of the file are written in order, then `\r\n` |
| Client.HashLineUnderstood | client.py:142-149 | the server's HASH line starts with `HASH` and tokenizes to the name and digest it announces |
| Client.FileTransferProtocol.constructor | client.py:124-127 | a new connection has an empty buffer, no download and no transfer context |
| Client.FileTransferProtocol.ConnectionLost | client.py:131-133 | the handler and the transfer context are cleared |
| Client.FileTransferProtocol.LineReceived | client.py:138-152 | ENDMSG hands over the buffered lines in arrival order and empties the buffer; a HASH line with at least three tokens records name and digest and enters raw mode, leaving the buffer, and with fewer it drops the connection; any other line is appended to the buffer |
| Client.FileTransferProtocol.AnnounceDownload | client.py:142-150 | a HASH line with at least three tokens records the second and third as the announced name and digest and enters raw mode; with fewer the connection drops |
| Client.FileTransferProtocol.OpenSink | client.py:160-161 | the first chunk opens the joined download path, truncated to empty, and records it as the open handler |
| Client.FileTransferProtocol.AppendChunk | client.py:177-178 | a chunk not ending in `\r\n` is appended whole, and the file holds the chunks received so far |
| Client.FileTransferProtocol.FinishDownload | client.py:163-176 | the terminal chunk completes the file as the received chunks minus `\r\n` and resumes line mode; the file is kept when its digest matches the announced one and unlinked otherwise |
| Client.FileTransferProtocol.RawDataReceived | client.py:154-178 | the download path is opened, truncating, on the first chunk (failure drops the connection); non-terminal chunks are appended and raw mode stays; the terminal chunk completes the file as the chunks minus `\r\n` and resumes line mode, and the file is kept when its digest matches the announced one and unlinked otherwise |
| Session.SenderWritesTransfer | client.py:89-92 | a cleanly framed file sent write by write is one transfer, ended only by its last write, whose payload is exactly the file |
| Session.DeliverUpload | server.py:110-140 | handed a whole upload chunk by chunk, the server stores the chunks minus the final `\r\n`, keeps the file and answers saved when the digest matches, and otherwise deletes it and answers not saved |
| Session.DeliverDownload | client.py:154-178 | handed a whole download chunk by chunk, the client stores the chunks minus the final `\r\n` and keeps the file exactly when the digest matches |
| Session.Upload | client.py:70-92 | `put path name` at the client leads the server to store the local file's bytes under the name, with the saved message and ENDMSG after the welcome |
| Session.ReceiveDownload | client.py:138-178 | a client handed the HASH line and the file's writes saves the file when the bytes match the announced digest and deletes it otherwise |
| Session.Download | server.py:60-85 | `get name` at the client sends `get name` and makes the client save the served file's bytes under its download path |
| Session.ListedConnection | server.py:142-150 | a new connection that has answered `list` holds the index of its directory in the factory |
| Session.ReplaceListed | server.py:86-99 | an upload on a listed connection replaces the file's bytes on disk, answers saved, and leaves the index as `list` built it |
| Session.ServeAfterReplace | server.py:68-78 | after `list` and an upload that replaces the listed file, `get` announces the digest from the old index while sending the new bytes |
| Session.StaleDigest | client.py:172-176 | in that situation the client deletes its download, although it received the current bytes |

## Left out

- Twisted is not modelled: the reactor, the TCP and stdio transports, `connectTCP`, `listenTCP` and `LineReceiver`'s splitting of the byte stream into lines. A receiver is handed one delivery at a time: a line without its `\n` in line mode, a chunk in raw mode. `Session` hands over each write of the other peer as one delivery. Other segmentations are covered by the framing lemmas, not by the session methods.
- The `Deferred` chain (`addCallback`, `_display_response`, renewing `factory.deferred`) is a library mechanism. The client records each list of lines it hands over at ENDMSG in `replies`.
- `reactor.stop()` in the client's `connectionLost` and `loseConnection` for `quit` are modelled only as the connection being closed.
- `display_message`, `timestamp` and every `print` are console output: the clock, the peer address, the sizes shown in KB. They are left out, except the client's `_display_message` and prompt, which are the modelled terminal output.
- MD5 is an uninterpreted function of the bytes. The digest is assumed to be a single whitespace-free word only where a session needs it to survive tokenizing.
- Bytes are Dafny characters. Nothing restricts them to the range 0–255.
- The filesystem is a value: a map from entry to contents plus the set of subdirectories. Listing order is left open wherever it shows up, in `help`, `list` and `_get_file_list`. The server's entries are keyed by name inside the served directory. The model does not resolve a name containing `/` or `..` against other directories. The client's entries are keyed by the joined path string, with no normalisation.
- Server.Writable: the server's `open` fails only when the name is empty (the served directory itself) or names a subdirectory. A name with a trailing `/`, such as `put f x/`, is stored as the entry `x/`, and the name `.`, as in `put f .`, is stored as the entry `.` and answered with the saved message, whereas in both cases the program's `open` raises and the connection drops. The same holds for a name containing a NUL byte (`put a<NUL>b d`, where `open` raises TypeError) and for a name longer than the filesystem allows (`open` raises IOError with ENAMETOOLONG): the model stores the entry and answers saved. This follows from keying entries by name, described above.
- Client.Writable: the client's `open` fails only on an empty path, a path ending in `/`, or a subdirectory; a path containing a NUL byte or longer than the filesystem allows, on which the program's `open` also raises, is treated as writable.
- Permissions and missing parent directories are not modelled for either side.
- Server.ListLine: `%d` of `size / 1024.0` is written as integer division. This is exact for sizes below 2^53 bytes. Larger sizes, where the float rounds, are not modelled.
- The guard `len(data) == 0 or data == ''` at server.py:50 and client.py:52 can never hold. `clean_and_split_input` always returns at least one token, as `Common.CleanAndSplitInput` proves, so the model has no branch for it.
- The final `else` at client.py:97 is unreachable. Every command in the table is handled by an earlier branch.
- The client's `setRawMode`/`setLineMode` around an upload (client.py:87, client.py:95) switch the terminal side only while the method runs. They change nothing the model observes.
- `factory.clients` (server.py:29, server.py:40) and the peer address are used only for log messages.
- `optparse` and the `__main__` blocks are process start-up.
- An exception the code does not catch is modelled only as the connection being dropped. Twisted's logging of it, and the partial write that survives it, are not modelled beyond the directory state at that moment.
