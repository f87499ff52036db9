/** The payload framing rule that `rawDataReceived` in server.py and client.py
    both follow: in raw mode every delivered chunk goes to the sink, and the
    first chunk that itself ends in "\r\n" ends the transfer, with those two
    bytes stripped. There is no length field and no look-back across chunks. */
module Framing {
  import opened Runtime
  import opened Common

  /** `setLineMode` / `setRawMode`: whether the transport delivers lines or raw chunks. */
  datatype Mode = LineMode | RawMode

  /** The end-of-payload marker. */
  const EndOfPayload: Bytes := "\r\n"

  /** `data.endswith('\r\n')`: this chunk ends the transfer. */
  predicate IsTerminal(data: Bytes) {
    EndsWith(data, EndOfPayload)
  }

  /** `data[:-2]` of a terminal chunk. */
  function WithoutMarker(data: Bytes): (body: Bytes)
    requires IsTerminal(data)
    ensures body + EndOfPayload == data
  {
    data[..|data| - 2]
  }

  /** The file a receiver has stored once it has written `deliveries`, the last
      of which is the terminal chunk. */
  function Payload(deliveries: seq<Bytes>): Bytes
    requires |deliveries| > 0 && IsTerminal(deliveries[|deliveries| - 1])
  {
    Flatten(deliveries[..|deliveries| - 1]) + WithoutMarker(deliveries[|deliveries| - 1])
  }

  /** The stored file is the concatenated chunks minus the final two bytes. */
  lemma PayloadIsFlattenMinusMarker(deliveries: seq<Bytes>)
    requires |deliveries| > 0 && IsTerminal(deliveries[|deliveries| - 1])
    ensures Payload(deliveries) + EndOfPayload == Flatten(deliveries)
    ensures Payload(deliveries) == Flatten(deliveries)[..|Flatten(deliveries)| - 2]
  {
    var n := |deliveries|;
    assert deliveries == deliveries[..n - 1] + [deliveries[n - 1]];
    FlattenSnoc(deliveries[..n - 1], deliveries[n - 1]);
  }

  /** The position of the chunk that ends a transfer: the first one ending in
      the marker, if any. */
  function TerminalIndex(deliveries: seq<Bytes>): (r: Option<nat>)
    decreases |deliveries|
    ensures r.Some? ==> r.value < |deliveries| && IsTerminal(deliveries[r.value])
    ensures r.Some? ==> forall i :: 0 <= i < r.value ==> !IsTerminal(deliveries[i])
    ensures r.None? <==> forall i :: 0 <= i < |deliveries| ==> !IsTerminal(deliveries[i])
  {
    if deliveries == [] then None
    else if IsTerminal(deliveries[0]) then Some(0)
    else
      match TerminalIndex(deliveries[1..])
      case None => None
      case Some(i) => Some(i + 1)
  }

  /** What a receiver that enters raw mode and is handed `deliveries` one by
      one has stored when it returns to line mode, or None while it is still
      in raw mode. Chunks after the terminal one are no longer payload. */
  function Received(deliveries: seq<Bytes>): (r: Option<Bytes>)
    ensures r.None? <==> forall i :: 0 <= i < |deliveries| ==> !IsTerminal(deliveries[i])
  {
    match TerminalIndex(deliveries)
    case None => None
    case Some(i) => Some(Payload(deliveries[..i + 1]))
  }

  /** When only the last delivery ends in the marker, the transfer ends there. */
  lemma {:induction false} LastTerminalIndex(deliveries: seq<Bytes>)
    requires |deliveries| > 0 && IsTerminal(deliveries[|deliveries| - 1])
    requires forall i :: 0 <= i < |deliveries| - 1 ==> !IsTerminal(deliveries[i])
    decreases |deliveries|
    ensures TerminalIndex(deliveries) == Some(|deliveries| - 1)
  {
    if |deliveries| > 1 {
      var rest := deliveries[1..];
      assert !IsTerminal(deliveries[0]);
      assert rest[|rest| - 1] == deliveries[|deliveries| - 1];
      assert forall i :: 0 <= i < |rest| - 1 ==> rest[i] == deliveries[i + 1];
      LastTerminalIndex(rest);
    }
  }

  /** Chunks that carry the content followed by the marker and in which only the
      last one ends in the marker are reassembled exactly. */
  lemma Reassembly(content: Bytes, deliveries: seq<Bytes>)
    requires Flatten(deliveries) == content + EndOfPayload
    requires |deliveries| > 0 && IsTerminal(deliveries[|deliveries| - 1])
    requires forall i :: 0 <= i < |deliveries| - 1 ==> !IsTerminal(deliveries[i])
    ensures TerminalIndex(deliveries) == Some(|deliveries| - 1)
    ensures Received(deliveries) == Some(content)
  {
    var n := |deliveries|;
    LastTerminalIndex(deliveries);
    assert deliveries[..n] == deliveries;
    PayloadIsFlattenMinusMarker(deliveries);
    assert Payload(deliveries) == content;
    assert Received(deliveries) == Some(Payload(deliveries[..n]));
  }

  /** What a sender writes after its header line: the file's chunks, then the marker. */
  function SenderWrites(content: Bytes): (writes: seq<Bytes>)
    ensures Flatten(writes) == content + EndOfPayload
  {
    ChunksFlatten(content, DefaultChunkSize);
    FlattenSnoc(Chunks(content, DefaultChunkSize), EndOfPayload);
    Chunks(content, DefaultChunkSize) + [EndOfPayload]
  }

  /** No chunk of the file as the sender reads it happens to end in "\r\n". */
  predicate CleanlyFramed(content: Bytes) {
    forall i :: 0 <= i < |Chunks(content, DefaultChunkSize)| ==> !IsTerminal(Chunks(content, DefaultChunkSize)[i])
  }

  /** When every write arrives as one chunk and the file is cleanly framed,
      the receiver stores exactly the sent file. */
  lemma SenderWritesReassembled(content: Bytes)
    requires CleanlyFramed(content)
    ensures Received(SenderWrites(content)) == Some(content)
  {
    var w := SenderWrites(content);
    assert w[|w| - 1] == EndOfPayload;
    Reassembly(content, w);
  }

  /** A chunk before the last that ends in "\r\n" ends the transfer early: the
      receiver stores a strict prefix of the content. */
  lemma EarlyEnd(content: Bytes, deliveries: seq<Bytes>, i: nat)
    requires Flatten(deliveries) == content + EndOfPayload
    requires TerminalIndex(deliveries) == Some(i)
    requires forall j :: 0 <= j < |deliveries| ==> deliveries[j] != []
    requires i < |deliveries| - 1
    ensures Received(deliveries).Some?
    ensures var stored := Received(deliveries).value;
      |stored| < |content| && stored == content[..|stored|]
  {
    var head, tail := deliveries[..i + 1], deliveries[i + 1..];
    assert deliveries == head + tail;
    FlattenAppend(head, tail);
    assert Flatten(tail) == tail[0] + Flatten(tail[1..]);
    PayloadIsFlattenMinusMarker(head);
    var stored := Payload(head);
    assert stored + EndOfPayload + Flatten(tail) == content + EndOfPayload;
    assert (content + EndOfPayload)[..|stored|] == content[..|stored|];
  }

  /** For example: a 8102-byte file whose first 8100 bytes end in "\r\n", sent
      chunk by chunk, is stored as its first 8098 bytes. */
  lemma EarlyEndExample(content: Bytes)
    requires |content| == 8102 && content[8098..8100] == EndOfPayload
    ensures Received(SenderWrites(content)) == Some(content[..8098])
  {
    var w := SenderWrites(content);
    assert Chunks(content, DefaultChunkSize)[0] == content[..8100];
    assert w[0] == content[..8100];
    assert IsTerminal(w[0]);
    assert TerminalIndex(w) == Some(0);
    assert w[..1] == [content[..8100]];
    assert Flatten(w[..1][..0]) == [];
    assert WithoutMarker(w[0]) == content[..8098];
    assert Payload(w[..1]) == [] + content[..8098] == content[..8098];
    assert Received(w) == Some(Payload(w[..1]));
  }

  /** A marker split across two deliveries is not seen: the transfer never ends. */
  lemma SplitMarkerExample()
    ensures Received(["abc\r", "\n"]) == None
  {
    assert !IsTerminal("abc\r") && !IsTerminal("\n");
    assert TerminalIndex(["abc\r", "\n"][1..]) == None;
  }
}
