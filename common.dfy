/** The helpers both peers share: the command table, the tokenizer, the
    fixed-size chunk reader and the MD5 digest of a file. */
module Common {
  import opened Runtime

  /** COMMANDS: each command name mapped to (usage, description). */
  const Commands: map<string, (string, string)> := map[
    "list" := ("list", "Displays a list of all the available files"),
    "get" := ("get <remote filename>", "Downloads a file with a given filename"),
    "put" := ("put <local file path> <remote file name>", "Uploads a file with a given filename"),
    "help" := ("help", "Displays a list of all the available commands"),
    "quit" := ("quit", "Disconnects from the server")
  ]

  lemma CommandsTable()
    ensures Commands.Keys == {"list", "get", "put", "help", "quit"}
    ensures Commands["get"].0 == "get <remote filename>"
    ensures Commands["put"].0 == "put <local file path> <remote file name>"
  {
  }

  // ---------------------------------------------------------------------
  // Tokenizer: strip, then split on every single space.

  /** The input without its leading whitespace. */
  function TrimLeft(s: string): (r: string)
    ensures |r| <= |s| && r == s[|s| - |r|..]
    ensures AllSpace(s[..|s| - |r|])
    ensures r == [] || !IsSpace(r[0])
  {
    if s != [] && IsSpace(s[0]) then
      var r := TrimLeft(s[1..]);
      assert s[..|s| - |r|] == [s[0]] + s[1..][..|s[1..]| - |r|];
      r
    else s
  }

  /** The input without its trailing whitespace. */
  function TrimRight(s: string): (r: string)
    ensures |r| <= |s| && r == s[..|r|]
    ensures AllSpace(s[|r|..])
    ensures r == [] || !IsSpace(r[|r| - 1])
  {
    if s != [] && IsSpace(s[|s| - 1]) then
      var r := TrimRight(s[..|s| - 1]);
      assert s[|r|..] == s[..|s| - 1][|r|..] + [s[|s| - 1]];
      r
    else s
  }

  /** `str.strip()`: the input minus its leading and trailing whitespace. */
  function Strip(s: string): (r: string)
    ensures |r| <= |s|
    ensures r == [] || (!IsSpace(r[0]) && !IsSpace(r[|r| - 1]))
  {
    TrimRight(TrimLeft(s))
  }

  /** A prefix `r` of the suffix `left` of `s` splits `s` into three parts. */
  lemma SplitAround(s: string, i: nat, left: string, r: string)
    requires i <= |s| && left == s[i..] && |r| <= |left| && r == left[..|r|]
    ensures s == s[..i] + r + left[|r|..]
  {
    assert left == r + left[|r|..];
    assert s == s[..i] + left;
  }

  /** What `strip()` keeps is a contiguous part of the input, with only
      whitespace before and after it. */
  lemma StripSlice(s: string) returns (before: string, after: string)
    ensures s == before + Strip(s) + after
    ensures AllSpace(before) && AllSpace(after)
  {
    var left := TrimLeft(s);
    var r := TrimRight(left);
    SplitAround(s, |s| - |left|, left, r);
    before, after := s[..|s| - |left|], left[|r|..];
  }

  /** A string that neither begins nor ends with whitespace is unchanged by `strip()`. */
  lemma StripUnchanged(s: string)
    requires s != [] && !IsSpace(s[0]) && !IsSpace(s[|s| - 1])
    ensures Strip(s) == s
  {
    assert TrimLeft(s) == s;
  }

  /** `strip()` returns the empty string exactly when the input is all whitespace. */
  lemma {:induction false} StripBlank(s: string)
    ensures Strip(s) == [] <==> AllSpace(s)
  {
    var left := TrimLeft(s);
    var i := |s| - |left|;
    if Strip(s) == [] {
      assert left[0..] == left && AllSpace(left);
      assert s == s[..i] + left;
    }
  }

  /** `s.split(' ')`. */
  function Split(s: string): (tokens: seq<string>)
    decreases |s|
    ensures |tokens| >= 1
    ensures forall i :: 0 <= i < |tokens| ==> ' ' !in tokens[i]
  {
    if s == [] then [[]]
    else
      var rest := Split(s[1..]);
      if s[0] == ' ' then [[]] + rest
      else [[s[0]] + rest[0]] + rest[1..]
  }

  /** `' '.join(tokens)` for a non-empty list. */
  function JoinTokens(tokens: seq<string>): (s: string)
    requires |tokens| >= 1
  {
    if |tokens| == 1 then tokens[0] else tokens[0] + " " + JoinTokens(tokens[1..])
  }

  lemma {:induction false} JoinSplit(s: string)
    decreases |s|
    ensures JoinTokens(Split(s)) == s
  {
    if s != [] {
      var rest := Split(s[1..]);
      JoinSplit(s[1..]);
      if s[0] == ' ' {
        assert ([[]] + rest)[1..] == rest;
      } else if |rest| == 1 {
        assert Split(s) == [[s[0]] + rest[0]];
      } else {
        var t := [[s[0]] + rest[0]] + rest[1..];
        assert t[1..] == rest[1..];
        assert JoinTokens(rest) == rest[0] + " " + JoinTokens(rest[1..]);
      }
    }
  }

  /** Splitting a space-free token followed by a space peels that token off. */
  lemma {:induction false} SplitCons(t: string, rest: string)
    requires ' ' !in t
    decreases |t|
    ensures Split(t + " " + rest) == [t] + Split(rest)
  {
    if t == [] {
      assert t + " " + rest == [' '] + rest;
      assert (t + " " + rest)[1..] == rest;
    } else {
      var s := t + " " + rest;
      assert s[0] == t[0] && s[1..] == t[1..] + " " + rest;
      SplitCons(t[1..], rest);
      assert [t[0]] + t[1..] == t;
    }
  }

  lemma {:induction false} SplitJoin(tokens: seq<string>)
    requires |tokens| >= 1
    requires forall i :: 0 <= i < |tokens| ==> ' ' !in tokens[i]
    ensures Split(JoinTokens(tokens)) == tokens
  {
    if |tokens| == 1 {
      SplitWithoutSpace(tokens[0]);
    } else {
      SplitJoin(tokens[1..]);
      SplitCons(tokens[0], JoinTokens(tokens[1..]));
    }
  }

  lemma {:induction false} SplitWithoutSpace(t: string)
    requires ' ' !in t
    decreases |t|
    ensures Split(t) == [t]
  {
    if t != [] {
      SplitWithoutSpace(t[1..]);
      assert [t[0]] + t[1..] == t;
    }
  }

  /** Two consecutive spaces after a token produce an empty token. */
  lemma SplitDoubleSpace(a: string, b: string)
    requires ' ' !in a
    ensures Split(a + "  " + b) == [a, []] + Split(b)
  {
    assert a + "  " + b == a + " " + (" " + b);
    SplitCons(a, " " + b);
    assert " " + b == [] + " " + b;
    SplitCons([], b);
  }

  /** `clean_and_split_input`: strip, then split on single spaces. */
  function CleanAndSplitInput(input: string): (tokens: seq<string>)
    ensures |tokens| >= 1
    ensures forall i :: 0 <= i < |tokens| ==> ' ' !in tokens[i]
  {
    Split(Strip(input))
  }

  /** The tokens joined by single spaces are the stripped input. */
  lemma CleanAndSplitJoin(input: string)
    ensures JoinTokens(CleanAndSplitInput(input)) == Strip(input)
  {
    JoinSplit(Strip(input));
  }

  /** A blank or whitespace-only line, and only such a line, tokenizes to ['']. */
  lemma CleanAndSplitBlank(input: string)
    ensures CleanAndSplitInput(input) == [[]] <==> AllSpace(input)
  {
    StripBlank(input);
    CleanAndSplitJoin(input);
    if CleanAndSplitInput(input) == [[]] {
      assert Strip(input) == JoinTokens([[]]) == [];
    }
  }

  /** Words joined by single spaces begin with the first word's first
      character and end with the last word's last character. */
  lemma {:induction false} JoinTokensEnds(words: seq<string>)
    requires |words| >= 1 && forall i :: 0 <= i < |words| ==> words[i] != []
    ensures var s, last := JoinTokens(words), words[|words| - 1];
      s != [] && s[0] == words[0][0] && s[|s| - 1] == last[|last| - 1]
  {
    if |words| > 1 {
      JoinTokensEnds(words[1..]);
    }
  }

  /** A line of words separated by single spaces tokenizes to those words. */
  lemma CleanAndSplitWords(words: seq<string>)
    requires |words| >= 1 && forall i :: 0 <= i < |words| ==> IsWord(words[i])
    ensures CleanAndSplitInput(JoinTokens(words)) == words
  {
    var line := JoinTokens(words);
    JoinTokensEnds(words);
    StripUnchanged(line);
    forall i | 0 <= i < |words| ensures ' ' !in words[i] {
      assert IsWord(words[i]);
    }
    SplitJoin(words);
  }

  // ---------------------------------------------------------------------
  // Chunked reading.

  const DefaultChunkSize: nat := 8100

  /** The chunks `read_bytes_from_file` yields for a file with these contents:
      successive reads of `chunkSize` bytes until a read returns nothing. */
  function Chunks(content: Bytes, chunkSize: nat): seq<Bytes>
    decreases |content|
  {
    if chunkSize == 0 || content == [] then []
    else if |content| <= chunkSize then [content]
    else [content[..chunkSize]] + Chunks(content[chunkSize..], chunkSize)
  }

  /** `read_bytes_from_file(file, chunk_size)`: the loop of `file.read(chunk_size)`
      calls, collecting every non-empty chunk, stopping at the first empty one. */
  method ReadBytesFromFile(content: Bytes, chunkSize: nat) returns (chunks: seq<Bytes>)
    ensures chunks == Chunks(content, chunkSize)
  {
    chunks := [];
    var pos := 0;
    while true
      invariant 0 <= pos <= |content|
      invariant chunks + Chunks(content[pos..], chunkSize) == Chunks(content, chunkSize)
      decreases |content| - pos
    {
      var end := if pos + chunkSize <= |content| then pos + chunkSize else |content|;
      var chunk := content[pos..end];
      if chunk != [] {
        ghost var rest := content[pos..];
        if |rest| > chunkSize {
          assert rest[..chunkSize] == chunk;
          assert rest[chunkSize..] == content[end..];
        } else {
          assert chunk == rest;
          assert content[end..] == [];
        }
        chunks := chunks + [chunk];
        pos := end;
      } else {
        break;
      }
    }
    assert chunkSize == 0 || content[pos..] == [];
  }

  /** The chunks concatenate back to the file. */
  lemma {:induction false} ChunksFlatten(content: Bytes, chunkSize: nat)
    requires chunkSize > 0
    decreases |content|
    ensures Flatten(Chunks(content, chunkSize)) == content
  {
    if content != [] && |content| > chunkSize {
      ChunksFlatten(content[chunkSize..], chunkSize);
      assert content[..chunkSize] + content[chunkSize..] == content;
    }
  }

  /** Every chunk is non-empty and at most `chunkSize`; all but the last are exactly `chunkSize`. */
  predicate WellSized(chunks: seq<Bytes>, chunkSize: nat) {
    && (forall i :: 0 <= i < |chunks| ==> 0 < |chunks[i]| <= chunkSize)
    && (forall i :: 0 <= i < |chunks| - 1 ==> |chunks[i]| == chunkSize)
  }

  lemma {:induction false} ChunksSizes(content: Bytes, chunkSize: nat)
    decreases |content|
    ensures WellSized(Chunks(content, chunkSize), chunkSize)
  {
    if chunkSize != 0 && |content| > chunkSize {
      var c := Chunks(content, chunkSize);
      var t := Chunks(content[chunkSize..], chunkSize);
      ChunksSizes(content[chunkSize..], chunkSize);
      assert c == [content[..chunkSize]] + t;
      forall i | 0 <= i < |c| ensures 0 < |c[i]| <= chunkSize && (i < |c| - 1 ==> |c[i]| == chunkSize) {
        if i > 0 {
          assert c[i] == t[i - 1];
        }
      }
    }
  }

  /** The chunking is the only well-sized one that concatenates to the content. */
  lemma {:induction false} ChunksUnique(content: Bytes, chunkSize: nat, chunks: seq<Bytes>)
    requires chunkSize > 0
    requires WellSized(chunks, chunkSize) && Flatten(chunks) == content
    decreases |chunks|
    ensures chunks == Chunks(content, chunkSize)
  {
    if chunks == [] {
    } else if |chunks| == 1 {
      assert Flatten(chunks) == chunks[0] + Flatten(chunks[1..]);
      assert chunks[1..] == [];
      assert Flatten(chunks[1..]) == [];
      assert content == chunks[0];
      assert chunks == [content];
    } else {
      var rest := chunks[1..];
      assert WellSized(rest, chunkSize) by {
        forall i | 0 <= i < |rest| ensures 0 < |rest[i]| <= chunkSize {
          assert rest[i] == chunks[i + 1];
        }
        forall i | 0 <= i < |rest| - 1 ensures |rest[i]| == chunkSize {
          assert rest[i] == chunks[i + 1];
        }
      }
      assert |chunks[0]| == chunkSize;
      assert |rest[0]| > 0;
      assert content == chunks[0] + Flatten(rest);
      assert content[..chunkSize] == chunks[0];
      assert content[chunkSize..] == Flatten(rest);
      ChunksUnique(content[chunkSize..], chunkSize, rest);
    }
  }

  /** A 20000-byte file read with the default chunk size gives 8100, 8100 and 3800 bytes. */
  lemma TwentyThousandBytes(content: Bytes)
    requires |content| == 20000
    ensures var c := Chunks(content, DefaultChunkSize);
      |c| == 3 && |c[0]| == 8100 && |c[1]| == 8100 && |c[2]| == 3800 && Flatten(c) == content
  {
    var c := Chunks(content, DefaultChunkSize);
    var rest := content[8100..];
    assert c == [content[..8100]] + Chunks(rest, 8100);
    assert Chunks(rest, 8100) == [rest[..8100]] + Chunks(rest[8100..], 8100);
    assert Chunks(rest[8100..], 8100) == [rest[8100..]];
    ChunksFlatten(content, DefaultChunkSize);
  }

  // ---------------------------------------------------------------------
  // MD5 digest.

  /** The state of an `hashlib.md5()` object: the bytes fed to it so far. */
  datatype Md5State = Md5State(fed: Bytes)

  /** `md5_hash.update(bytes)`. */
  function Update(h: Md5State, bytes: Bytes): Md5State {
    Md5State(h.fed + bytes)
  }

  /** `md5_hash.hexdigest()`. */
  function HexDigest(md5: Md5, h: Md5State): string {
    md5(h.fed)
  }

  /** A fresh hash state updated with each chunk in turn. */
  function FoldUpdates(h: Md5State, chunks: seq<Bytes>): Md5State
    decreases |chunks|
  {
    if chunks == [] then h else FoldUpdates(Update(h, chunks[0]), chunks[1..])
  }

  lemma {:induction false} FoldUpdatesFeeds(h: Md5State, chunks: seq<Bytes>)
    decreases |chunks|
    ensures FoldUpdates(h, chunks).fed == h.fed + Flatten(chunks)
  {
    if chunks != [] {
      FoldUpdatesFeeds(Update(h, chunks[0]), chunks[1..]);
    }
  }

  /** Folding `update` over the chunks of any positive chunk size gives the
      digest of the whole content: the digest does not depend on the chunking. */
  lemma DigestIndependentOfChunkSize(md5: Md5, content: Bytes, chunkSize: nat)
    requires chunkSize > 0
    ensures HexDigest(md5, FoldUpdates(Md5State([]), Chunks(content, chunkSize))) == md5(content)
  {
    FoldUpdatesFeeds(Md5State([]), Chunks(content, chunkSize));
    ChunksFlatten(content, chunkSize);
    assert [] + content == content;
  }

  /** `get_file_md5_hash`: feed every chunk of the file to a fresh MD5 state. */
  method GetFileMd5Hash(md5: Md5, content: Bytes) returns (digest: string)
    ensures digest == md5(content)
  {
    var h := Md5State([]);
    var chunks := ReadBytesFromFile(content, DefaultChunkSize);
    for i := 0 to |chunks|
      invariant h.fed == Flatten(chunks[..i])
    {
      FlattenSnoc(chunks[..i], chunks[i]);
      assert chunks[..i + 1] == chunks[..i] + [chunks[i]];
      h := Update(h, chunks[i]);
    }
    assert chunks[..|chunks|] == chunks;
    ChunksFlatten(content, DefaultChunkSize);
    digest := HexDigest(md5, h);
  }

  /** `validate_file_md5_hash`: true exactly when the recomputed digest equals the given one. */
  method ValidateFileMd5Hash(md5: Md5, content: Bytes, originalHash: string) returns (ok: bool)
    ensures ok <==> md5(content) == originalHash
  {
    var digest := GetFileMd5Hash(md5, content);
    if digest == originalHash {
      return true;
    }
    return false;
  }
}
