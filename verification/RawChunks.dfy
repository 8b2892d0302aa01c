/** Chunks of wire messages: which envelopes are accepted, what a chunk may hold, what Kafka is handed. */
module RawChunks {
  import opened Text

  /** Bytes, each as the character of its code. */
  type Bytes = seq<char>

  const MAX_RECORDS := 1000
  const MAX_BYTES := 16_777_216 // 16 MiB

  /** A decoded wire message; a field is None when the JSON lacks it or holds no string there. */
  datatype Envelope = Envelope(topic: Option<string>, tenantId: Option<string>,
                               sourceSystem: Option<string>, sourceRecordId: Option<string>,
                               payload: Option<Payload>)

  datatype SourceOp = SnapshotRead | OtherOp

  datatype Payload = Payload(connectorId: Option<string>, batchId: Option<string>,
                             sourceTable: Option<string>, sourceOp: SourceOp, hasAfterPayload: bool)

  /** JSON decoding of a wire message, and UTF-8 encoding of a string; either may fail. */
  datatype Codec = Codec(parse: Bytes -> Option<Envelope>, encode: string -> Option<Bytes>)

  datatype Scope = Scope(tenant: string, connector: string, batch: string, table: string, topic: string)

  datatype Chunk = Chunk(scope: Scope, wires: seq<Bytes>)

  /** Why a message is rejected, and why a chunk is not stored. */
  datatype Rejection = IncompleteMessage | RecordTooLarge
  datatype StorageFault = RecordBounds | ByteBounds | IncompleteWire | MixedScopes | UnencodableName | NotConfirmed

  datatype Error = Rejected(why: Rejection) | NotStored(fault: StorageFault) | ProduceFailed | DeliveryNotConfirmed

  datatype Outcome = Done | Raised(error: Error)

  /** Neither a rejection of the message given, nor the byte or the scope guard, nor, unless storage had
      failed before, the record guard. */
  predicate Expected(e: Error, failedBefore: bool) {
    && !e.Rejected?
    && (e.NotStored? ==>
          e.fault.UnencodableName? || e.fault.NotConfirmed? || (e.fault.RecordBounds? && failedBefore))
  }

  // ---- Scopes -----------------------------------------------------------------------

  predicate Named(field: Option<string>) {
    field.Some? && |field.value| > 0
  }

  /** The scope of a wire message under a key, if it is a complete source message of that tenant. */
  function RawScope(codec: Codec, topic: string, key: Bytes, wire: Bytes): Option<Scope> {
    var parsed := codec.parse(wire);
    if parsed.None? || parsed.value.payload.None? then None
    else
      var record, payload := parsed.value, parsed.value.payload.value;
      if && Named(record.tenantId) && Named(payload.connectorId) && Named(payload.batchId) && Named(payload.sourceTable)
         && record.topic == Some(topic) && codec.encode(record.tenantId.value) == Some(key)
         && Named(record.sourceSystem) && Named(record.sourceRecordId)
         && payload.hasAfterPayload && payload.sourceOp == SnapshotRead
         && '\n' !in wire && '\r' !in wire
      then Some(Scope(record.tenantId.value, payload.connectorId.value, payload.batchId.value,
                      payload.sourceTable.value, topic))
      else None
  }

  /** The message belongs to the scope, under the key its tenant encodes to. */
  predicate InScope(codec: Codec, scope: Scope, wire: Bytes) {
    var key := codec.encode(scope.tenant);
    key.Some? && RawScope(codec, scope.topic, key.value, wire) == Some(scope)
  }

  lemma RawScopeIsInScope(codec: Codec, topic: string, key: Bytes, wire: Bytes)
    requires RawScope(codec, topic, key, wire).Some?
    ensures var scope := RawScope(codec, topic, key, wire).value;
            && codec.encode(scope.tenant) == Some(key) && scope.topic == topic
            && InScope(codec, scope, wire)
  {
  }

  predicate Encodable(codec: Codec, scope: Scope) {
    && codec.encode(scope.tenant).Some? && codec.encode(scope.connector).Some? && codec.encode(scope.batch).Some?
    && codec.encode(scope.table).Some? && codec.encode(scope.topic).Some?
  }

  // ---- Chunks -------------------------------------------------------------------------

  /** The size of the newline-terminated body. */
  function BodySize(wires: seq<Bytes>): nat {
    if wires == [] then 0 else BodySize(wires[..|wires| - 1]) + |wires[|wires| - 1]| + 1
  }

  predicate AllInScope(codec: Codec, scope: Scope, wires: seq<Bytes>) {
    forall i :: 0 <= i < |wires| ==> InScope(codec, scope, wires[i])
  }

  /** Complete messages of one scope, within the byte bound. */
  predicate Coherent(codec: Codec, scope: Scope, wires: seq<Bytes>) {
    BodySize(wires) <= MAX_BYTES && AllInScope(codec, scope, wires)
  }

  function Flatten(chunks: seq<Chunk>): seq<Bytes> {
    if chunks == [] then [] else Flatten(chunks[..|chunks| - 1]) + chunks[|chunks| - 1].wires
  }

  // ---- What Kafka is handed ---------------------------------------------------------------

  datatype Message = Message(topic: string, key: Bytes, value: Bytes)

  /** A message handed to Kafka, out of an archived chunk or directly. */
  datatype Handed = Handed(message: Message, archived: bool)

  datatype Fate = InFlight | Acknowledged | Failed

  function Archived(log: seq<Handed>): seq<Message> {
    if log == [] then []
    else
      var last := log[|log| - 1];
      Archived(log[..|log| - 1]) + if last.archived then [last.message] else []
  }

  /** The key a scope's messages are sent under; a stored scope has an encodable tenant. */
  function KeyOf(codec: Codec, scope: Scope): Bytes {
    var key := codec.encode(scope.tenant);
    if key.Some? then key.value else []
  }

  function MessagesOf(codec: Codec, scope: Scope, wires: seq<Bytes>): (r: seq<Message>)
    ensures |r| == |wires|
    ensures forall i :: 0 <= i < |wires| ==> r[i] == Message(scope.topic, KeyOf(codec, scope), wires[i])
  {
    seq(|wires|, i requires 0 <= i < |wires| => Message(scope.topic, KeyOf(codec, scope), wires[i]))
  }

  predicate CountsFit(chunks: seq<Chunk>, counts: seq<nat>) {
    && |counts| == |chunks|
    && forall c :: 0 <= c < |chunks| ==> counts[c] <= |chunks[c].wires|
  }

  /** The first `n` chunks are counted whole. */
  predicate FullBefore(chunks: seq<Chunk>, counts: seq<nat>, n: nat)
    requires n <= |chunks| && n <= |counts|
  {
    forall c :: 0 <= c < n ==> counts[c] == |chunks[c].wires|
  }

  /** The messages of the first `counts[c]` wires of each chunk `c`, in order. */
  function FirstMessages(codec: Codec, chunks: seq<Chunk>, counts: seq<nat>): seq<Message>
    requires CountsFit(chunks, counts)
  {
    if chunks == [] then []
    else
      var n := |chunks| - 1;
      FirstMessages(codec, chunks[..n], counts[..n])
      + MessagesOf(codec, chunks[n].scope, chunks[n].wires[..counts[n]])
  }

  function Values(messages: seq<Message>): (r: seq<Bytes>)
    ensures |r| == |messages|
    ensures forall i :: 0 <= i < |messages| ==> r[i] == messages[i].value
  {
    seq(|messages|, i requires 0 <= i < |messages| => messages[i].value)
  }

  lemma ChunkAdded(codec: Codec, chunks: seq<Chunk>, counts: seq<nat>, chunk: Chunk)
    requires CountsFit(chunks, counts)
    ensures Flatten(chunks + [chunk]) == Flatten(chunks) + chunk.wires
    ensures CountsFit(chunks + [chunk], counts + [0])
    ensures FirstMessages(codec, chunks + [chunk], counts + [0]) == FirstMessages(codec, chunks, counts)
  {
    assert (chunks + [chunk])[..|chunks|] == chunks && (counts + [0])[..|chunks|] == counts;
  }

  /** One more wire of the last chunk. */
  lemma WireHanded(codec: Codec, chunks: seq<Chunk>, counts: seq<nat>)
    requires chunks != [] && CountsFit(chunks, counts)
    requires counts[|chunks| - 1] < |chunks[|chunks| - 1].wires|
    ensures var n := |chunks| - 1;
            var more := counts[n := counts[n] + 1];
            && CountsFit(chunks, more)
            && FirstMessages(codec, chunks, more)
               == FirstMessages(codec, chunks, counts)
                  + [Message(chunks[n].scope.topic, KeyOf(codec, chunks[n].scope), chunks[n].wires[counts[n]])]
  {
    var n := |chunks| - 1;
    var k := counts[n];
    assert counts[n := k + 1][..n] == counts[..n];
    assert MessagesOf(codec, chunks[n].scope, chunks[n].wires[..k + 1])
        == MessagesOf(codec, chunks[n].scope, chunks[n].wires[..k])
           + [Message(chunks[n].scope.topic, KeyOf(codec, chunks[n].scope), chunks[n].wires[k])];
  }

  /** Each message handed over carries a wire of one of the chunks, to the chunk's topic and under its
      tenant's key. */
  lemma {:induction false} HandedLiesInChunk(codec: Codec, chunks: seq<Chunk>, counts: seq<nat>, m: Message)
    requires CountsFit(chunks, counts) && m in FirstMessages(codec, chunks, counts)
    ensures exists c :: 0 <= c < |chunks| && m.value in chunks[c].wires && m.topic == chunks[c].scope.topic
                        && m.key == KeyOf(codec, chunks[c].scope)
  {
    var n := |chunks| - 1;
    if m in FirstMessages(codec, chunks[..n], counts[..n]) {
      HandedLiesInChunk(codec, chunks[..n], counts[..n], m);
      var c :| 0 <= c < n && m.value in chunks[..n][c].wires && m.topic == chunks[..n][c].scope.topic
               && m.key == KeyOf(codec, chunks[..n][c].scope);
      assert chunks[..n][c] == chunks[c];
    } else {
      assert m in MessagesOf(codec, chunks[n].scope, chunks[n].wires[..counts[n]]);
      assert m.value in chunks[n].wires;
    }
  }

  /** Full counts hand over exactly what the chunks hold. */
  lemma {:induction false} FullCountsHandAll(codec: Codec, chunks: seq<Chunk>, counts: seq<nat>)
    requires |counts| == |chunks| && FullBefore(chunks, counts, |counts|)
    ensures Values(FirstMessages(codec, chunks, counts)) == Flatten(chunks)
  {
    if chunks != [] {
      var n := |chunks| - 1;
      FullCountsHandAll(codec, chunks[..n], counts[..n]);
      var before := FirstMessages(codec, chunks[..n], counts[..n]);
      assert chunks[n].wires[..counts[n]] == chunks[n].wires;
      var last := MessagesOf(codec, chunks[n].scope, chunks[n].wires);
      assert Values(before + last) == Values(before) + chunks[n].wires;
    }
  }

  lemma {:induction false} HandedAtMostAll(codec: Codec, chunks: seq<Chunk>, counts: seq<nat>)
    requires CountsFit(chunks, counts)
    ensures |FirstMessages(codec, chunks, counts)| <= |Flatten(chunks)|
    ensures !FullBefore(chunks, counts, |counts|) ==> |FirstMessages(codec, chunks, counts)| < |Flatten(chunks)|
  {
    if chunks != [] {
      var n := |chunks| - 1;
      HandedAtMostAll(codec, chunks[..n], counts[..n]);
      if FullBefore(chunks[..n], counts[..n], n) && counts[n] == |chunks[n].wires| {
        forall c | 0 <= c < |counts| ensures counts[c] == |chunks[c].wires| {
          assert c < n ==> counts[..n][c] == |chunks[..n][c].wires|;
        }
      }
    }
  }

  /** Kafka was handed all that the chunks hold if and only if each was handed over whole. */
  lemma AllHandedIffFull(codec: Codec, chunks: seq<Chunk>, counts: seq<nat>)
    requires CountsFit(chunks, counts)
    ensures Values(FirstMessages(codec, chunks, counts)) == Flatten(chunks) <==> FullBefore(chunks, counts, |counts|)
  {
    HandedAtMostAll(codec, chunks, counts);
    if FullBefore(chunks, counts, |counts|) {
      FullCountsHandAll(codec, chunks, counts);
    }
  }

  // ---- Fates --------------------------------------------------------------------------------

  function Count(fates: seq<Fate>, fate: Fate): nat {
    if fates == [] then 0
    else Count(fates[..|fates| - 1], fate) + if fates[|fates| - 1] == fate then 1 else 0
  }

  lemma {:induction false} NoneCounted(fates: seq<Fate>, fate: Fate, i: nat)
    requires Count(fates, fate) == 0 && i < |fates|
    ensures fates[i] != fate
  {
    if i < |fates| - 1 {
      NoneCounted(fates[..|fates| - 1], fate, i);
    }
  }

  lemma {:induction false} SomeCounted(fates: seq<Fate>, fate: Fate)
    requires Count(fates, fate) > 0
    ensures exists i :: 0 <= i < |fates| && fates[i] == fate
  {
    if fates[|fates| - 1] != fate {
      SomeCounted(fates[..|fates| - 1], fate);
      var i :| 0 <= i < |fates| - 1 && fates[..|fates| - 1][i] == fate;
      assert fates[i] == fate;
    }
  }

  lemma {:induction false} FateChanged(fates: seq<Fate>, i: nat, now: Fate, counted: Fate)
    requires i < |fates|
    ensures Count(fates[i := now], counted)
         == Count(fates, counted) - (if fates[i] == counted then 1 else 0) + (if now == counted then 1 else 0)
  {
    var n := |fates| - 1;
    if i < n {
      FateChanged(fates[..n], i, now, counted);
      assert fates[i := now][..n] == fates[..n][i := now];
    } else {
      assert fates[i := now][..n] == fates[..n];
    }
  }

  lemma FateReported(fates: seq<Fate>, i: nat, failed: bool)
    requires i < |fates| && fates[i] == InFlight
    ensures var now := fates[i := if failed then Failed else Acknowledged];
            && Count(now, InFlight) == Count(fates, InFlight) - 1
            && Count(now, Failed) == Count(fates, Failed) + if failed then 1 else 0
  {
    FateChanged(fates, i, if failed then Failed else Acknowledged, InFlight);
    FateChanged(fates, i, if failed then Failed else Acknowledged, Failed);
  }

  lemma FateAppended(fates: seq<Fate>, fate: Fate, counted: Fate)
    ensures Count(fates + [fate], counted) == Count(fates, counted) + if fate == counted then 1 else 0
  {
    assert (fates + [fate])[..|fates|] == fates;
  }

  lemma WireBuffered(codec: Codec, scope: Scope, wires: seq<Bytes>, wire: Bytes)
    requires Coherent(codec, scope, wires) && InScope(codec, scope, wire) && BodySize(wires) + |wire| + 1 <= MAX_BYTES
    ensures BodySize(wires + [wire]) == BodySize(wires) + |wire| + 1
    ensures Coherent(codec, scope, wires + [wire])
  {
    assert (wires + [wire])[..|wires|] == wires;
  }

  lemma MessageLogged(log: seq<Handed>, handed: Handed)
    ensures Archived(log + [handed]) == Archived(log) + if handed.archived then [handed.message] else []
  {
    assert (log + [handed])[..|log|] == log;
  }

  // ---- The ledger -----------------------------------------------------------------------------

  /** Accepted wires are archived or buffered; Kafka's log holds the first wires of each archived chunk. */
  predicate InLedger(codec: Codec, accepted: seq<Bytes>, buffer: seq<Bytes>, chunks: seq<Chunk>, counts: seq<nat>,
                     log: seq<Handed>)
  {
    && accepted == Flatten(chunks) + buffer
    && CountsFit(chunks, counts)
    && Archived(log) == FirstMessages(codec, chunks, counts)
  }

  lemma WireAccepted(codec: Codec, accepted: seq<Bytes>, buffer: seq<Bytes>, chunks: seq<Chunk>, counts: seq<nat>,
                     log: seq<Handed>, wire: Bytes)
    requires InLedger(codec, accepted, buffer, chunks, counts, log)
    ensures InLedger(codec, accepted + [wire], buffer + [wire], chunks, counts, log)
  {
    assert Flatten(chunks) + (buffer + [wire]) == Flatten(chunks) + buffer + [wire];
  }

  lemma ChunkStored(codec: Codec, accepted: seq<Bytes>, scope: Scope, buffer: seq<Bytes>, chunks: seq<Chunk>,
                    counts: seq<nat>, log: seq<Handed>)
    requires InLedger(codec, accepted, buffer, chunks, counts, log)
    ensures InLedger(codec, accepted, [], chunks + [Chunk(scope, buffer)], counts + [0], log)
    ensures Coherent(codec, scope, [])
  {
    ChunkAdded(codec, chunks, counts, Chunk(scope, buffer));
  }

  lemma WireLogged(codec: Codec, accepted: seq<Bytes>, buffer: seq<Bytes>, chunks: seq<Chunk>, counts: seq<nat>,
                   log: seq<Handed>)
    requires InLedger(codec, accepted, buffer, chunks, counts, log) && chunks != []
    requires counts[|chunks| - 1] < |chunks[|chunks| - 1].wires|
    ensures var n := |chunks| - 1;
            var message := Message(chunks[n].scope.topic, KeyOf(codec, chunks[n].scope), chunks[n].wires[counts[n]]);
            InLedger(codec, accepted, buffer, chunks, counts[n := counts[n] + 1], log + [Handed(message, true)])
  {
    var n := |chunks| - 1;
    WireHanded(codec, chunks, counts);
    var message := Message(chunks[n].scope.topic, KeyOf(codec, chunks[n].scope), chunks[n].wires[counts[n]]);
    MessageLogged(log, Handed(message, true));
  }

  lemma {:induction false} LoggedIsArchived(log: seq<Handed>, i: nat)
    requires i < |log| && log[i].archived
    ensures log[i].message in Archived(log)
  {
    if i < |log| - 1 {
      LoggedIsArchived(log[..|log| - 1], i);
    }
  }

  /** Every archived message in Kafka's log carries a wire of a chunk that is already stored, to the
      chunk's topic and under its tenant's key. */
  lemma StoredBeforeHanded(codec: Codec, accepted: seq<Bytes>, buffer: seq<Bytes>, chunks: seq<Chunk>,
                           counts: seq<nat>, log: seq<Handed>, i: nat)
    requires InLedger(codec, accepted, buffer, chunks, counts, log) && i < |log| && log[i].archived
    ensures exists c :: 0 <= c < |chunks| && log[i].message.value in chunks[c].wires
                        && log[i].message.topic == chunks[c].scope.topic
                        && log[i].message.key == KeyOf(codec, chunks[c].scope)
  {
    LoggedIsArchived(log, i);
    HandedLiesInChunk(codec, chunks, counts, log[i].message);
  }
}
