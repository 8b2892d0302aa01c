/** The archive, a Kafka client that may refuse, delay or fail any message, and the producer between them. */
module Publication {
  import opened Text
  import opened RawChunks

  // ---- The archive -----------------------------------------------------------------------

  class RawArchive {
    const codec: Codec
    /** Which of its writes the object store confirms; any store is one such function in a given run. */
    const confirms: nat -> bool
    var writes: nat
    /** The chunks whose storage was confirmed, in order. */
    ghost var confirmed: seq<Chunk>

    constructor (codec: Codec, confirms: nat -> bool)
      ensures this.codec == codec && this.confirms == confirms && confirmed == []
    {
      this.codec, this.confirms := codec, confirms;
      writes, confirmed := 0, [];
    }

    /** Stores a chunk within bounds and of one scope. Storage may fail, and then nothing counts as stored. */
    method Persist(scope: Scope, wires: seq<Bytes>) returns (r: Outcome)
      modifies this
      ensures r.Done? ==> 0 < |wires| <= MAX_RECORDS && Coherent(codec, scope, wires) && Encodable(codec, scope)
      ensures r.Done? ==> confirmed == old(confirmed) + [Chunk(scope, wires)]
      ensures r.Raised? ==> confirmed == old(confirmed)
      ensures r == Raised(NotStored(RecordBounds)) <==> !(0 < |wires| <= MAX_RECORDS)
      ensures r.Raised? ==> r.error.NotStored?
      ensures r.Raised? && !Expected(r.error, true) ==> !Coherent(codec, scope, wires)
      ensures r == Raised(NotStored(UnencodableName)) ==> !Encodable(codec, scope)
      ensures r == Raised(NotStored(NotConfirmed)) ==> !confirms(old(writes))
    {
      if wires == [] || |wires| > MAX_RECORDS {
        return Raised(NotStored(RecordBounds));
      }
      if BodySize(wires) > MAX_BYTES {
        return Raised(NotStored(ByteBounds));
      }
      var key := codec.encode(scope.tenant);
      if key.None? {
        return Raised(NotStored(UnencodableName));
      }
      for i := 0 to |wires|
        invariant forall k :: 0 <= k < i ==> InScope(codec, scope, wires[k])
      {
        var found := RawScope(codec, scope.topic, key.value, wires[i]);
        if found.None? {
          return Raised(NotStored(IncompleteWire));
        }
        if found.value != scope {
          return Raised(NotStored(MixedScopes));
        }
      }
      if !Encodable(codec, scope) {
        return Raised(NotStored(UnencodableName));
      }
      writes := writes + 1;
      if !confirms(writes - 1) {
        return Raised(NotStored(NotConfirmed));
      }
      confirmed := confirmed + [Chunk(scope, wires)];
      r := Done;
    }
  }

  // ---- The Kafka client ------------------------------------------------------------------------

  function ErrorsIn(reports: seq<Option<string>>): seq<string> {
    if reports == [] then []
    else
      var last := reports[|reports| - 1];
      ErrorsIn(reports[..|reports| - 1]) + if last.Some? then [last.value] else []
  }

  lemma ErrorAdded(reports: seq<Option<string>>, report: Option<string>)
    ensures ErrorsIn(reports + [report]) == ErrorsIn(reports) + if report.Some? then [report.value] else []
  {
    assert (reports + [report])[..|reports|] == reports;
  }

  class KafkaClient {
    /** What was handed over, and what became of it. */
    var log: seq<Handed>
    var fates: seq<Fate>
    /** Which of the messages offered it takes. */
    const takes: nat -> bool
    var offers: nat

    ghost predicate Valid()
      reads this
    {
      |fates| == |log|
    }

    constructor (takes: nat -> bool)
      ensures Valid() && log == [] && this.takes == takes
    {
      log, fates, offers := [], [], 0;
      this.takes := takes;
    }

    /** Takes a message, or refuses it. */
    method Produce(message: Message, archived: bool) returns (taken: bool)
      requires Valid()
      modifies this
      ensures Valid()
      ensures taken ==> log == old(log) + [Handed(message, archived)] && fates == old(fates) + [InFlight]
      ensures !taken ==> log == old(log) && fates == old(fates)
      ensures taken == takes(old(offers))
    {
      offers := offers + 1;
      if !takes(offers - 1) {
        return false;
      }
      log := log + [Handed(message, archived)];
      fates := fates + [InFlight];
      taken := true;
    }

    /** Reports the fate of any messages in flight, in any order, and of each only once. */
    method Serve() returns (reports: seq<Option<string>>)
      requires Valid()
      modifies this`fates
      ensures Valid()
      ensures forall i :: 0 <= i < |fates| && old(fates)[i] != InFlight ==> fates[i] == old(fates)[i]
      ensures Count(fates, InFlight) == old(Count(fates, InFlight)) - |reports|
      ensures Count(fates, Failed) == old(Count(fates, Failed)) + |ErrorsIn(reports)|
    {
      reports := [];
      while Count(fates, InFlight) > 0
        invariant |fates| == |log|
        invariant forall i :: 0 <= i < |fates| && old(fates)[i] != InFlight ==> fates[i] == old(fates)[i]
        invariant Count(fates, InFlight) == old(Count(fates, InFlight)) - |reports|
        invariant Count(fates, Failed) == old(Count(fates, Failed)) + |ErrorsIn(reports)|
        decreases Count(fates, InFlight)
      {
        if * {
          break;
        }
        SomeCounted(fates, InFlight);
        var i :| 0 <= i < |fates| && fates[i] == InFlight;
        var error: Option<string> := *;
        var fate := if error.Some? then Failed else Acknowledged;
        FateReported(fates, i, error.Some?);
        fates := fates[i := fate];
        ErrorAdded(reports, error);
        reports := reports + [error];
      }
    }

    /** How many messages are still undelivered. */
    function Undelivered(): nat
      reads this
    {
      Count(fates, InFlight)
    }
  }

  // ---- The producer --------------------------------------------------------------------------------

  class ConfirmedProducer {
    const client: KafkaClient
    const archive: RawArchive?

    var pending: int
    var errors: seq<string>
    var rawBuffer: seq<Bytes>
    var rawBytes: nat
    var rawScope: Scope
    var archiveChunks: nat
    var archiveRecords: nat

    /** The wires `PublishRaw` took, and how many wires of each archived chunk went to Kafka. */
    ghost var accepted: seq<Bytes>
    ghost var counts: seq<nat>
    /** Some call failed to store a chunk, or to hand a wire of a stored chunk to Kafka. */
    ghost var storageFailed: bool
    ghost var handoverFailed: bool

    /** Every message handed over is still pending, acknowledged, or among the errors. */
    ghost predicate Accounted()
      reads this, client
    {
      && client.Valid()
      && pending == Count(client.fates, InFlight)
      && |errors| == Count(client.fates, Failed)
    }

    /** The buffer holds complete messages of one scope, within both bounds. */
    ghost predicate BufferFits()
      requires archive != null
      reads this
    {
      && rawBytes == BodySize(rawBuffer)
      && Coherent(archive.codec, rawScope, rawBuffer)
      && (|rawBuffer| > MAX_RECORDS ==> storageFailed)
    }

    /** Accepted wires are archived or buffered; Kafka holds the first wires of each archived chunk. */
    ghost predicate ArchivedFirst()
      requires archive != null
      reads this, client, archive
    {
      && InLedger(archive.codec, accepted, rawBuffer, archive.confirmed, counts, client.log)
      && archiveChunks == |archive.confirmed|
      && archiveRecords + |rawBuffer| == |accepted|
    }

    /** Kafka holds the archived chunks whole unless, and only unless, a hand-over failed. */
    ghost predicate HandedWhole()
      requires archive != null
      reads this, archive
    {
      && |counts| == |archive.confirmed|
      && (!handoverFailed <==> FullBefore(archive.confirmed, counts, |counts|))
    }

    /** Likewise, but for the last chunk, of which nothing was handed over yet. */
    ghost predicate HandedAllButLast(scope: Scope, wires: seq<Bytes>)
      requires archive != null
      reads this, archive
    {
      var n := |counts| - 1;
      && n >= 0 && counts[n] == 0
      && |archive.confirmed| == n + 1 && archive.confirmed[n] == Chunk(scope, wires)
      && (!handoverFailed <==> FullBefore(archive.confirmed, counts, n))
    }

    /** What holds within a call. */
    ghost predicate Working()
      reads this, client, archive
    {
      && Accounted()
      && (archive == null ==> rawBuffer == [] && accepted == [] && Archived(client.log) == [])
      && (archive != null ==> BufferFits() && ArchivedFirst() && HandedWhole())
    }

    /** What holds between calls: a buffer is full only where storing it failed. */
    ghost predicate Valid()
      reads this, client, archive
    {
      Working() && (|rawBuffer| >= MAX_RECORDS ==> storageFailed)
    }

    constructor (archive: RawArchive?, takes: nat -> bool)
      requires archive != null ==> archive.confirmed == []
      ensures Valid() && fresh(client) && this.archive == archive && client.takes == takes
      ensures accepted == [] && rawBuffer == [] && client.log == [] && errors == []
      ensures !storageFailed && !handoverFailed
    {
      client := new KafkaClient(takes);
      this.archive := archive;
      pending, errors := 0, [];
      rawBuffer, rawBytes, archiveChunks, archiveRecords := [], 0, 0, 0;
      accepted, counts, storageFailed, handoverFailed := [], [], false, false;
    }

    /** Nothing handed over, archived or failed is ever taken back. */
    twostate predicate Grows()
      reads this, client, archive
    {
      && old(client.log) <= client.log
      && old(errors) <= errors
      && (archive != null ==> old(archive.confirmed) <= archive.confirmed)
      && (old(storageFailed) ==> storageFailed)
      && (old(handoverFailed) ==> handoverFailed)
    }

    /** The call's outcome tells whether it failed to store a chunk, or to hand a stored one over. */
    twostate predicate Noted(r: Outcome)
      reads this
    {
      && storageFailed == (old(storageFailed) || (r.Raised? && r.error.NotStored?))
      && handoverFailed == (old(handoverFailed) || r == Raised(ProduceFailed))
    }

    /** A delivery report. */
    method Delivered(error: Option<string>)
      modifies this`pending, this`errors
      ensures pending == old(pending) - 1
      ensures errors == old(errors) + if error.Some? then [error.value] else []
    {
      pending := pending - 1;
      if error.Some? {
        errors := errors + [error.value];
      }
    }

    method DeliveredAll(reports: seq<Option<string>>)
      modifies this`pending, this`errors
      ensures pending == old(pending) - |reports|
      ensures errors == old(errors) + ErrorsIn(reports)
    {
      for i := 0 to |reports|
        invariant pending == old(pending) - i
        invariant errors == old(errors) + ErrorsIn(reports[..i])
      {
        ErrorAdded(reports[..i], reports[i]);
        assert reports[..i + 1] == reports[..i] + [reports[i]];
        Delivered(reports[i]);
      }
      assert reports[..|reports|] == reports;
    }

    /** Lets the client report. */
    method Poll()
      requires Accounted()
      modifies this`pending, this`errors, client`fates
      ensures Accounted()
      ensures old(errors) <= errors
    {
      var reports := client.Serve();
      DeliveredAll(reports);
    }

    /** Hands one message to Kafka; `archived` says that it comes out of a chunk. */
    method HandOver(topic: string, key: Bytes, value: Bytes, archived: bool) returns (r: Outcome)
      requires Accounted()
      modifies this`pending, this`errors, client
      ensures Accounted() && old(errors) <= errors
      ensures r.Done? ==> client.log == old(client.log) + [Handed(Message(topic, key, value), archived)]
      ensures r.Raised? ==> client.log == old(client.log) && client.fates == old(client.fates) && errors == old(errors)
      ensures r == if client.takes(old(client.offers)) then Done else Raised(ProduceFailed)
    {
      pending := pending + 1;
      var taken := client.Produce(Message(topic, key, value), archived);
      if !taken {
        pending := pending - 1;
        return Raised(ProduceFailed);
      }
      FateAppended(old(client.fates), InFlight, InFlight);
      FateAppended(old(client.fates), InFlight, Failed);
      Poll();
      r := Done;
    }

    /** Succeeds only when every message handed over so far was acknowledged. */
    method ConfirmDelivery() returns (r: Outcome)
      requires Accounted()
      modifies this`pending, this`errors, client`fates
      ensures Accounted() && old(errors) <= errors
      ensures r == Done || r == Raised(DeliveryNotConfirmed)
      ensures old(client.fates) == [] && old(errors) == [] ==> r == Done
      ensures r == Done ==> errors == [] && forall i :: 0 <= i < |client.fates| ==> client.fates[i] == Acknowledged
    {
      Poll();
      var remaining := client.Undelivered();
      if remaining > 0 || pending != 0 || errors != [] {
        return Raised(DeliveryNotConfirmed);
      }
      forall i | 0 <= i < |client.fates| ensures client.fates[i] == Acknowledged {
        NoneCounted(client.fates, InFlight, i);
        NoneCounted(client.fates, Failed, i);
      }
      r := Done;
    }

    method Produce(topic: string, key: Bytes, value: Bytes) returns (r: Outcome)
      requires Valid()
      modifies this`pending, this`errors, client
      ensures Valid() && Grows()
      ensures r == (if r.Done? then Done else Raised(ProduceFailed))
      ensures client.log == old(client.log) + if r.Done? then [Handed(Message(topic, key, value), false)] else []
    {
      r := HandOver(topic, key, value, false);
      if r.Done? {
        MessageLogged(old(client.log), Handed(Message(topic, key, value), false));
      }
    }

    /** Hands the next wire of the last archived chunk to Kafka. */
    method HandOverNext(topic: string, key: Bytes, value: Bytes) returns (r: Outcome)
      requires archive != null && Accounted() && ArchivedFirst() && archive.confirmed != []
      requires var n := |counts| - 1;
               var last := archive.confirmed[n];
               && counts[n] < |last.wires| && value == last.wires[counts[n]]
               && topic == last.scope.topic && key == KeyOf(archive.codec, last.scope)
      modifies this`pending, this`errors, this`counts, client
      ensures Accounted() && ArchivedFirst()
      ensures old(client.log) <= client.log && old(errors) <= errors
      ensures var n := old(|counts| - 1);
              counts == if r.Done? then old(counts)[n := old(counts[n]) + 1] else old(counts)
      ensures r == if client.takes(old(client.offers)) then Done else Raised(ProduceFailed)
      ensures r.Raised? ==> client.fates == old(client.fates) && errors == old(errors)
    {
      r := HandOver(topic, key, value, true);
      if r.Done? {
        WireLogged(archive.codec, accepted, rawBuffer, archive.confirmed, counts, old(client.log));
        var n := |counts| - 1;
        counts := counts[n := counts[n] + 1];
      }
    }

    /** Hands the wires of the last archived chunk to Kafka, in order, until it refuses one. */
    method HandOverChunk(scope: Scope, wires: seq<Bytes>) returns (r: Outcome)
      requires archive != null && Accounted() && ArchivedFirst() && HandedAllButLast(scope, wires) && wires != []
      modifies this`pending, this`errors, this`counts, this`handoverFailed, client
      ensures Accounted() && ArchivedFirst() && HandedWhole()
      ensures old(client.log) <= client.log && old(errors) <= errors
      ensures r == Done || r == Raised(ProduceFailed)
      ensures handoverFailed == (old(handoverFailed) || r == Raised(ProduceFailed))
      ensures !client.takes(old(client.offers)) ==> r.Raised? && Quiet()
    {
      var n := |counts| - 1;
      var key := KeyOf(archive.codec, scope);
      for i := 0 to |wires|
        invariant Accounted() && ArchivedFirst()
        invariant old(client.log) <= client.log && old(errors) <= errors
        invariant |counts| == n + 1 && counts[n] == i && handoverFailed == old(handoverFailed)
        invariant !handoverFailed <==> FullBefore(archive.confirmed, counts, n)
        invariant if i == 0
                  then client.offers == old(client.offers) && client.fates == old(client.fates)
                       && errors == old(errors)
                  else client.takes(old(client.offers))
      {
        r := HandOverNext(scope.topic, key, wires[i]);
        if r.Raised? {
          handoverFailed := true;
          return;
        }
      }
      r := Done;
    }

    /** The buffer is empty, and of the last archived chunk nothing was handed over yet. */
    ghost predicate JustStored(scope: Scope, wires: seq<Bytes>)
      requires archive != null
      reads this, client, archive
    {
      Accounted() && BufferFits() && rawBuffer == [] && ArchivedFirst() && HandedAllButLast(scope, wires)
    }

    /** Clears the buffer when its chunk has just been stored. */
    method ClearBuffer(ghost chunks: seq<Chunk>)
      requires archive != null && Accounted()
      requires archive.confirmed == chunks + [Chunk(rawScope, rawBuffer)]
      requires InLedger(archive.codec, accepted, rawBuffer, chunks, counts, client.log)
      requires archiveChunks == |chunks| && archiveRecords + |rawBuffer| == |accepted|
      requires !handoverFailed <==> FullBefore(chunks, counts, |counts|)
      modifies this`rawBuffer, this`rawBytes, this`archiveChunks, this`archiveRecords, this`counts
      ensures JustStored(rawScope, old(rawBuffer))
    {
      ChunkStored(archive.codec, accepted, rawScope, rawBuffer, chunks, counts, client.log);
      counts := counts + [0];
      archiveChunks := archiveChunks + 1;
      archiveRecords := archiveRecords + |rawBuffer|;
      rawBuffer, rawBytes := [], 0;
    }

    /** Stores the buffered chunk and clears the buffer once storage is confirmed. */
    method StoreChunk() returns (r: Outcome)
      requires archive != null && Working() && rawBuffer != []
      modifies this`rawBuffer, this`rawBytes, this`archiveChunks, this`archiveRecords, this`counts,
               this`storageFailed, archive
      ensures storageFailed == (old(storageFailed) || r.Raised?)
      ensures old(archive.confirmed) <= archive.confirmed
      ensures r.Raised? ==> Working() && r.error.NotStored? && Expected(r.error, old(storageFailed))
      ensures r.Done? ==> JustStored(rawScope, old(rawBuffer))
      ensures archive.confirms(old(archive.writes)) && Encodable(archive.codec, rawScope) && !old(storageFailed)
              ==> r.Done?
    {
      ghost var chunks := archive.confirmed;
      r := archive.Persist(rawScope, rawBuffer);
      if r.Raised? {
        storageFailed := true;
        return;
      }
      ClearBuffer(chunks);
    }

    /** No fate of a message has become known. */
    twostate predicate Quiet()
      reads this, client
    {
      client.fates == old(client.fates) && errors == old(errors)
    }

    /** Hands the stored chunk to Kafka and waits for delivery. */
    method DeliverChunk(scope: Scope, wires: seq<Bytes>) returns (r: Outcome)
      requires archive != null && JustStored(scope, wires) && wires != []
      modifies this`pending, this`errors, this`counts, this`handoverFailed, client
      ensures Valid()
      ensures old(client.log) <= client.log && old(errors) <= errors
      ensures r == Done || r == Raised(ProduceFailed) || r == Raised(DeliveryNotConfirmed)
      ensures handoverFailed == (old(handoverFailed) || r == Raised(ProduceFailed))
      ensures !client.takes(old(client.offers)) ==> r == Raised(ProduceFailed) && Quiet()
    {
      r := HandOverChunk(scope, wires);
      if r.Done? {
        r := ConfirmDelivery();
      }
    }

    method PublishBuffered() returns (r: Outcome)
      requires archive != null && Working() && rawBuffer != []
      modifies this, client, archive
      ensures Valid() && Grows() && Noted(r) && accepted == old(accepted)
      ensures rawBuffer == [] || (r.Raised? && r.error.NotStored?)
      ensures r.Raised? ==> Expected(r.error, old(storageFailed))
      ensures old(WillRefuse() && !storageFailed) ==> r == Raised(ProduceFailed) && Quiet()
    {
      var wires, scope := rawBuffer, rawScope;
      r := StoreChunk();
      if r.Done? {
        r := DeliverChunk(scope, wires);
      }
    }

    /** Stores the buffered chunk, and only then hands it to Kafka. */
    method PublishArchivedChunk() returns (r: Outcome)
      requires archive != null && Working()
      modifies this, client, archive
      ensures Valid() && Grows() && Noted(r) && accepted == old(accepted)
      ensures rawBuffer == [] || (r.Raised? && r.error.NotStored?)
      ensures r.Raised? ==> Expected(r.error, old(storageFailed))
      ensures old(rawBuffer) == [] ==> r == Done && unchanged(this, client, archive)
      ensures old(WillRefuse() && !storageFailed && rawBuffer != []) ==> r == Raised(ProduceFailed) && Quiet()
    {
      if rawBuffer == [] {
        return Done;
      }
      r := PublishBuffered();
    }

    /** A chunk that is published now would be stored, and its first wire then refused. */
    predicate WillRefuse()
      requires archive != null
      reads this, client, archive
    {
      && archive.confirms(archive.writes) && Encodable(archive.codec, rawScope)
      && !client.takes(client.offers)
    }

    /** Nothing was ever handed over, nor failed to be stored. */
    ghost predicate Quiescent()
      reads this, client
    {
      client.fates == [] && errors == [] && !storageFailed
    }

    /** A message of the scope and size may be buffered. */
    predicate HasRoom(scope: Scope, size: nat)
      reads this
    {
      rawBuffer == [] || (rawScope == scope && rawBytes + size <= MAX_BYTES)
    }

    /** Publishes the buffered chunk if the next message does not belong or fit into it. */
    method MakeRoom(scope: Scope, size: nat) returns (r: Outcome)
      requires archive != null && Valid() && size <= MAX_BYTES
      modifies this, client, archive
      ensures Valid() && Grows() && Noted(r) && accepted == old(accepted)
      ensures r.Done? ==> HasRoom(scope, size)
      ensures r.Raised? ==> Expected(r.error, old(storageFailed))
      ensures old(rawBuffer) == [] ==> r == Done && unchanged(this, client, archive)
    {
      r := Done;
      if rawBuffer != [] && (scope != rawScope || rawBytes + size > MAX_BYTES) {
        r := PublishArchivedChunk();
      }
    }

    method Buffer(scope: Scope, value: Bytes)
      requires archive != null && Valid() && InScope(archive.codec, scope, value)
      requires |value| + 1 <= MAX_BYTES && HasRoom(scope, |value| + 1)
      modifies this`rawScope, this`rawBuffer, this`rawBytes, this`accepted
      ensures Working() && accepted == old(accepted) + [value]
      ensures rawBuffer == old(rawBuffer) + [value] && rawScope == scope
    {
      WireBuffered(archive.codec, scope, rawBuffer, value);
      WireAccepted(archive.codec, accepted, rawBuffer, archive.confirmed, counts, client.log, value);
      rawScope := scope;
      rawBuffer := rawBuffer + [value];
      rawBytes := rawBytes + |value| + 1;
      accepted := accepted + [value];
    }

    /** Publishes the buffered chunk if it has reached the record bound. */
    method PublishIfFull() returns (r: Outcome)
      requires archive != null && Working()
      modifies this, client, archive
      ensures Valid() && Grows() && Noted(r) && accepted == old(accepted)
      ensures r.Raised? ==> Expected(r.error, old(storageFailed))
      ensures |old(rawBuffer)| < MAX_RECORDS ==> r == Done && unchanged(this, client, archive)
    {
      r := Done;
      if |rawBuffer| >= MAX_RECORDS {
        r := PublishArchivedChunk();
      }
    }

    /** Buffers a message that belongs to the scope. */
    method Accept(scope: Scope, value: Bytes) returns (r: Outcome)
      requires archive != null && Valid() && InScope(archive.codec, scope, value) && |value| + 1 <= MAX_BYTES
      modifies this, client, archive
      ensures Valid() && Grows() && Noted(r)
      ensures r.Done? ==> accepted == old(accepted) + [value]
      ensures r.Raised? ==> accepted == old(accepted) || accepted == old(accepted) + [value]
      ensures r.Raised? ==> Expected(r.error, old(storageFailed))
      ensures old(rawBuffer) == []
              ==> r == Done && rawBuffer == [value] && rawScope == scope && unchanged(client, archive)
    {
      r := MakeRoom(scope, |value| + 1);
      if r.Done? {
        Buffer(scope, value);
        r := PublishIfFull();
      }
    }

    /** Buffers a message for the archive, publishing the chunk it completes or does not fit into. */
    method PublishRaw(topic: string, key: Bytes, value: Bytes) returns (r: Outcome)
      requires Valid()
      modifies this, client, archive
      ensures Valid() && Grows()
      ensures archive == null
              ==> client.log == old(client.log) + if r.Done? then [Handed(Message(topic, key, value), false)] else []
      ensures archive != null ==>
                var found := RawScope(archive.codec, topic, key, value);
                && (r == Raised(Rejected(IncompleteMessage)) <==> found.None?)
                && (r == Raised(Rejected(RecordTooLarge)) <==> found.Some? && |value| + 1 > MAX_BYTES)
                && (r == Raised(Rejected(IncompleteMessage)) || r == Raised(Rejected(RecordTooLarge))
                    ==> unchanged(this, client, archive))
                && (r.Done? ==> accepted == old(accepted) + [value])
                && (r.Raised? ==> accepted == old(accepted) || accepted == old(accepted) + [value])
                && Noted(r)
                && (r.Done? && old(rawBuffer) == [] ==>
                      rawBuffer == [value] && rawScope == found.value && unchanged(client, archive))
      ensures archive != null && old(rawBuffer) == [] && r.Raised?
              ==> r == Raised(Rejected(IncompleteMessage)) || r == Raised(Rejected(RecordTooLarge))
      ensures r.Raised? ==> r.error.Rejected? || Expected(r.error, old(storageFailed))
    {
      if archive == null {
        r := Produce(topic, key, value);
        return;
      }
      var found := RawScope(archive.codec, topic, key, value);
      if found.None? {
        return Raised(Rejected(IncompleteMessage));
      }
      RawScopeIsInScope(archive.codec, topic, key, value);
      if |value| + 1 > MAX_BYTES {
        return Raised(Rejected(RecordTooLarge));
      }
      r := Accept(found.value, value);
    }

    /** Publishes what is buffered; success means everything handed over so far was acknowledged. What was
        handed over is all that was accepted if and only if no call raised for a refused hand-over. */
    method Flush() returns (r: Outcome)
      requires Valid()
      modifies this, client, archive
      ensures Valid() && Grows() && accepted == old(accepted)
      ensures archive != null ==> Noted(r)
      ensures r.Done? ==> && rawBuffer == [] && errors == []
                          && (forall i :: 0 <= i < |client.fates| ==> client.fates[i] == Acknowledged)
      ensures r.Done? && archive != null ==>
                && accepted == Flatten(archive.confirmed)
                && (Values(Archived(client.log)) == accepted <==> !handoverFailed)
      ensures old(errors) != [] ==> r.Raised?
      ensures r.Raised? ==> Expected(r.error, old(storageFailed))
      ensures old(rawBuffer == [] && client.fates == [] && errors == []) ==> r == Done
      ensures archive != null && old(WillRefuse() && !storageFailed && rawBuffer != []) ==>
                r == Raised(ProduceFailed) && Quiet()
      ensures archive != null ==> rawBuffer == [] || (r.Raised? && r.error.NotStored?)
    {
      if archive != null {
        r := PublishArchivedChunk();
        if r.Raised? {
          return;
        }
        AllHandedIffFull(archive.codec, archive.confirmed, counts);
      }
      r := ConfirmDelivery();
    }
  }

  // ---- A lossy flush ----------------------------------------------------------------------------------

  /** A producer that holds one message, with a store that confirms and a Kafka client that refuses. */
  method HoldOne(codec: Codec, topic: string, key: Bytes, value: Bytes) returns (producer: ConfirmedProducer)
    requires var scope := RawScope(codec, topic, key, value); scope.Some? && Encodable(codec, scope.value)
    requires |value| + 1 <= MAX_BYTES
    ensures fresh(producer) && fresh(producer.client) && producer.archive != null && fresh(producer.archive)
    ensures producer.Valid() && producer.Quiescent() && producer.WillRefuse()
    ensures producer.accepted == producer.rawBuffer == [value]
  {
    var archive := new RawArchive(codec, n => true);
    producer := new ConfirmedProducer(archive, n => false);
    var _ := producer.PublishRaw(topic, key, value);
  }

  /** A flush may succeed though an accepted wire never reached Kafka: the message is archived, Kafka refuses
      it, the first flush says so, and the second one has nothing left to confirm. */
  method LoseWire(codec: Codec, topic: string, key: Bytes, value: Bytes)
    returns (producer: ConfirmedProducer, first: Outcome, second: Outcome)
    requires var scope := RawScope(codec, topic, key, value); scope.Some? && Encodable(codec, scope.value)
    requires |value| + 1 <= MAX_BYTES
    ensures producer.Valid() && producer.archive != null && first == Raised(ProduceFailed) && second == Done
    ensures producer.accepted == [value] && Flatten(producer.archive.confirmed) == [value]
    ensures Values(Archived(producer.client.log)) != [value]
  {
    producer := HoldOne(codec, topic, key, value);
    first := producer.Flush();
    second := producer.Flush();
  }
}
