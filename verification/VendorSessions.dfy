/**
 The vendor HID commands for backup and restore: a session that outlives single messages,
 payloads cut into wires, and the loop that keeps or resets the session after each message.
 What a restore does to the store, and what a snapshot of it contains, are parameters here.
 */
module VendorSessions {
  import opened Cbor
  import opened Wrappers

  const COMMAND_RESTORE: byte := 0x71
  const COMMAND_BACKUP: byte := 0x72
  const COMMAND_RESET: byte := 0x74
  const MAX_DATA: nat := 7588

  const ERROR_VENDOR_HANDLING: nat := 0x35
  const VENDOR_SESSION_ERROR: nat := 0x36
  const ERROR_RESTORE: nat := 41
  const ERROR_BACKUP: nat := 42
  const ERROR_NOT_ALLOWED: nat := 44
  const ERROR_UNKNOWN_COMMAND: nat := 0x33
  const NO_MORE_CHUNKS: nat := 88

  datatype PayloadType = CodesPayload | PasswordsPayload

  datatype Wire = Wire(index: uint64, size: uint64, moreData: bool, data: seq<byte>)

  /** The serialized snapshot; or a record that does not parse; or a panic on a record without algorithm. */
  datatype Snapshot = Bytes(bytes: seq<byte>) | Unreadable | AlgorithmPanic

  /** What a restore does: it stores, refuses, or panics on what the bytes hold. */
  datatype Restoration<St> = Accepted(store: St) | Refused | RestorePanics

  /** Wires as bytes, and the two operations on the store. */
  datatype Device<!St> = Device(
    writeWire: Wire -> seq<byte>,
    readWire: seq<byte> -> Conversion<Wire>,
    restore: (St, seq<byte>) -> Restoration<St>,
    snapshot: (St, PayloadType) -> Snapshot)

  function RequestedType(payload: seq<byte>): Option<PayloadType> {
    if payload == [] then None
    else if payload[0] == 1 then Some(CodesPayload)
    else if payload[0] == 2 then Some(PasswordsPayload)
    else None
  }

  // ----- wires as CBOR

  function WireValue(w: Wire): Value {
    Record([Unsigned(w.index), Unsigned(w.size), Boolean(w.moreData), ByteString(w.data)])
  }

  /** The fields in the order they are looked at: the data comes before the flag that says whether more follows. */
  function WireOf(index: Option<Value>, size: Option<Value>, more: Option<Value>, data: Option<Value>)
    : Conversion<Wire>
  {
    match Need(index, ExtractUnsigned)
    case Panics => Panics
    case Rejected => Rejected
    case Converted(i) =>
      match Need(size, ExtractUnsigned)
      case Panics => Panics
      case Rejected => Rejected
      case Converted(n) =>
        match Need(data, ExtractBytes)
        case Panics => Panics
        case Rejected => Rejected
        case Converted(bytes) =>
          match Need(more, ExtractBool)
          case Panics => Panics
          case Rejected => Rejected
          case Converted(m) => Converted(Wire(i, n, m, bytes))
  }

  /** `Wire::try_from`. */
  function WireFrom(v: Value): Conversion<Wire> {
    if !v.Map? then Rejected
    else
      var f := Fields(v, 4);
      WireOf(f[0], f[1], f[2], f[3])
  }

  /** A payload as a wire; the errors of reading and of converting are answered alike. */
  function ReadPayload(codec: Codec, payload: seq<byte>): Conversion<Wire> {
    match codec.read(payload)
    case None => Rejected
    case Some(v) => WireFrom(v)
  }

  /** A device that speaks CBOR. */
  function DeviceOf<St>(
      codec: Codec, restore: (St, seq<byte>) -> Restoration<St>, snapshot: (St, PayloadType) -> Snapshot): Device<St>
  {
    Device((w: Wire) => codec.write(WireValue(w)), (payload: seq<byte>) => ReadPayload(codec, payload), restore,
           snapshot)
  }

  predicate IsUnsigned(field: Option<Value>) { field.Some? && field.value.Unsigned? }

  /** A map panics as a wire exactly when a field is missing while every field looked at before it has its type. */
  lemma WirePanicsIff(v: Value)
    ensures WireFrom(v) == Panics <==>
            v.Map? &&
            var f := Fields(v, 4);
            || f[0].None?
            || (IsUnsigned(f[0]) && f[1].None?)
            || (IsUnsigned(f[0]) && IsUnsigned(f[1]) && f[3].None?)
            || (IsUnsigned(f[0]) && IsUnsigned(f[1]) && f[3].Some? && f[3].value.ByteString? && f[2].None?)
  {
  }

  /** A value converts to a wire exactly when its fields are that wire's. */
  lemma WireFromIff(v: Value, w: Wire)
    ensures WireFrom(v) == Converted(w) <==>
            && v.Map?
            && Fields(v, 4) == [Some(Unsigned(w.index)), Some(Unsigned(w.size)),
                                Some(Simple(if w.moreData then TrueValue else FalseValue)), Some(ByteString(w.data))]
  {
  }

  lemma WireValueConverts(w: Wire)
    ensures WireFrom(WireValue(w)) == Converted(w) && Writable(WireValue(w))
  {
    var values := [Unsigned(w.index), Unsigned(w.size), Boolean(w.moreData), ByteString(w.data)];
    RecordIsOrdered(values);
    RecordFields(values, 4, 0);
    RecordFields(values, 4, 1);
    RecordFields(values, 4, 2);
    RecordFields(values, 4, 3);
    WireFieldsConvert(w);
  }

  lemma WireFieldsConvert(w: Wire)
    ensures WireOf(Some(Unsigned(w.index)), Some(Unsigned(w.size)), Some(Boolean(w.moreData)), Some(ByteString(w.data)))
            == Converted(w)
  {
  }

  /** What the session relies on: a wire reads back, and never looks like a backup request. */
  ghost predicate FaithfulWires<St>(device: Device<St>) {
    forall w :: device.readWire(device.writeWire(w)) == Converted(w) && RequestedType(device.writeWire(w)) == None
  }

  /** A faithful codec makes a device with faithful wires. */
  lemma CodecIsFaithful<St>(
      codec: Codec, restore: (St, seq<byte>) -> Restoration<St>, snapshot: (St, PayloadType) -> Snapshot)
    requires Faithful(codec)
    ensures FaithfulWires(DeviceOf(codec, restore, snapshot))
  {
    forall w: Wire
      ensures ReadPayload(codec, codec.write(WireValue(w))) == Converted(w)
      ensures RequestedType(codec.write(WireValue(w))) == None
    {
      WireReads(codec, w);
    }
  }

  lemma WireReads(codec: Codec, w: Wire)
    requires Faithful(codec)
    ensures ReadPayload(codec, codec.write(WireValue(w))) == Converted(w)
    ensures RequestedType(codec.write(WireValue(w))) == None
  {
    var v := WireValue(w);
    WireValueConverts(w);
    assert codec.read(codec.write(v)) == Some(v);
  }

  // ----- cutting a payload into wires

  function WiresFrom(bytes: seq<byte>, index: nat): (ws: seq<Wire>)
    decreases |bytes|
  {
    if bytes == [] then []
    else if |bytes| <= MAX_DATA then [Wire(index % U64_LIMIT, |bytes|, false, bytes)]
    else [Wire(index % U64_LIMIT, MAX_DATA, true, bytes[..MAX_DATA])] + WiresFrom(bytes[MAX_DATA..], index + 1)
  }

  function Joined(ws: seq<Wire>): seq<byte> {
    if ws == [] then [] else ws[0].data + Joined(ws[1..])
  }

  /** A transfer is complete when exactly its last wire announces no more data. */
  predicate CompleteTransfer(ws: seq<Wire>) {
    ws != [] && forall i :: 0 <= i < |ws| ==> (ws[i].moreData <==> i < |ws| - 1)
  }

  /** Wires in sequence, each as long as it says, and full unless it is the last. */
  predicate FilledAndNumbered(ws: seq<Wire>, index: nat) {
    forall i :: 0 <= i < |ws| ==>
      && ws[i].index == (index + i) % U64_LIMIT && ws[i].size == |ws[i].data| <= 7588
      && (ws[i].moreData ==> ws[i].size == 7588)
  }

  /** Cutting loses nothing, numbers the wires, fills all but the last, and marks only the last as final. */
  lemma {:induction false} WiresCarryTheBytes(bytes: seq<byte>, index: nat)
    ensures var ws := WiresFrom(bytes, index);
            && Joined(ws) == bytes
            && (bytes != [] ==> CompleteTransfer(ws))
            && FilledAndNumbered(ws, index)
    decreases |bytes|
  {
    if 0 < |bytes| <= MAX_DATA {
      assert Joined(WiresFrom(bytes, index)[1..]) == [];
    } else if bytes != [] {
      WiresCarryTheBytes(bytes[MAX_DATA..], index + 1);
      OneWireMore(bytes, index, WiresFrom(bytes[MAX_DATA..], index + 1));
    }
  }

  lemma OneWireMore(bytes: seq<byte>, index: nat, rest: seq<Wire>)
    requires |bytes| > MAX_DATA && Joined(rest) == bytes[MAX_DATA..]
    requires CompleteTransfer(rest) && FilledAndNumbered(rest, index + 1)
    ensures var ws := [Wire(index % U64_LIMIT, MAX_DATA, true, bytes[..MAX_DATA])] + rest;
            Joined(ws) == bytes && CompleteTransfer(ws) && FilledAndNumbered(ws, index)
  {
    var ws := [Wire(index % U64_LIMIT, MAX_DATA, true, bytes[..MAX_DATA])] + rest;
    assert ws[1..] == rest;
    assert bytes[..MAX_DATA] + bytes[MAX_DATA..] == bytes;
    forall i | 1 <= i < |ws|
      ensures ws[i] == rest[i - 1] && (index + 1) + (i - 1) == index + i
    {
    }
  }

  function Reversed(ws: seq<Wire>): (r: seq<Wire>)
    ensures |r| == |ws|
    ensures ws != [] ==> r[|r| - 1] == ws[0] && r[..|r| - 1] == Reversed(ws[1..])
  {
    if ws == [] then []
    else
      var r := Reversed(ws[1..]) + [ws[0]];
      assert r[..|r| - 1] == Reversed(ws[1..]);
      r
  }

  // ----- the session

  datatype Session = Session(
    data: seq<byte>, finished: bool, command: byte, channel: nat, index: nat,
    backupKind: Option<PayloadType>, isBackup: bool, chunks: Option<seq<Wire>>)

  const FRESH: Session := Session([], false, 0, 0, 0, None, false, None)

  datatype SessionError = WrongIndex | WrongCommand

  function ReadFromWire(s: Session, w: Wire, command: byte): (Session, Option<SessionError>) {
    var read := s.(data := s.data + w.data, finished := !w.moreData);
    if read.command != 0 && read.command != command then (read, Some(WrongCommand))
    else if read.index != 0 && read.index <= w.index then (read.(command := command), Some(WrongIndex))
    else (read.(command := command), None)
  }

  /** The chunks are kept in reverse, so the next one is the last element. */
  function Drain(s: Session): (Session, Option<Wire>) {
    match s.chunks
    case None => (s, None)
    case Some(ws) =>
      if ws == [] then (s, None)
      else (s.(chunks := Some(ws[..|ws| - 1])), Some(ws[|ws| - 1]))
  }

  /** What the host gets; `Crash` stands for a panic of the handler, after which nothing is answered any more. */
  datatype Reply = ResetDone | Continue | Restored | Chunk(wire: Wire) | Error(code: nat) | Crash

  datatype DataOutcome = Answer(reply: Reply) | Process | Fault(error: SessionError) | DataPanic

  /** One message from the host; `allowed` is the user's consent at that moment. */
  datatype Message = Message(command: byte, channel: nat, payload: seq<byte>, allowed: bool)

  function HandleData<St>(device: Device<St>, s: Session, m: Message): (Session, DataOutcome) {
    if m.command == COMMAND_RESET then (FRESH, Answer(ResetDone))
    else
      var named := s.(command := m.command, channel := m.channel);
      match RequestedType(m.payload)
      case Some(kind) => (named.(isBackup := true, backupKind := Some(kind)), Process)
      case None =>
        match device.readWire(m.payload)
        case Rejected => (named, Answer(Error(ERROR_VENDOR_HANDLING)))
        case Panics => (named, DataPanic)
        case Converted(w) =>
          var (after, error) := ReadFromWire(named, w, m.command);
          if error.Some? then (after, Fault(error.value))
          else (after, if after.finished then Process else Answer(Continue))
  }

  function DrainReply(s: Session): (Session, Reply) {
    var (after, chunk) := Drain(s);
    (after, if chunk.Some? then Chunk(chunk.value) else Error(NO_MORE_CHUNKS))
  }

  function HandleBackup<St>(device: Device<St>, store: St, s: Session): (Session, Reply) {
    if s.isBackup && s.chunks.Some? then DrainReply(s)
    else if s.backupKind.None? then (s, Crash)
    else
      match device.snapshot(store, s.backupKind.value)
      case Unreadable => (s, Error(ERROR_BACKUP))
      case AlgorithmPanic => (s, Crash)
      case Bytes(bytes) => DrainReply(s.(chunks := Some(Reversed(WiresFrom(bytes, 0)))))
  }

  function HandleCommand<St>(device: Device<St>, store: St, s: Session, allowed: bool): (Session, St, Reply) {
    if !allowed then (s, store, Error(ERROR_NOT_ALLOWED))
    else if s.command == COMMAND_RESTORE then
      match device.restore(store, s.data)
      case Accepted(after) => (s, after, Restored)
      case Refused => (s, store, Error(ERROR_RESTORE))
      case RestorePanics => (s, store, Crash)
    else if s.command == COMMAND_BACKUP then
      var (after, reply) := HandleBackup(device, store, s);
      (after, store, reply)
    else (s, store, Error(ERROR_UNKNOWN_COMMAND))
  }

  /** The loop body for a vendor message: answer it, then keep or reset the session; a panic ends it where it is. */
  function HandleMessage<St>(device: Device<St>, store: St, s: Session, m: Message): (Session, St, Reply) {
    var (ready, outcome) := HandleData(device, s, m);
    match outcome
    case Answer(reply) => (ready, store, reply)
    case Fault(_) => (FRESH, store, Error(VENDOR_SESSION_ERROR))
    case DataPanic => (ready, store, Crash)
    case Process =>
      var (after, store', reply) := HandleCommand(device, store, ready, m.allowed);
      (if reply == Crash || (after.isBackup && after.chunks.Some?) then after else FRESH, store', reply)
  }

  // ----- properties of the session

  lemma DataErrorsAreInert<St>(device: Device<St>, s: Session, m: Message)
    requires s.index == 0
    ensures !HandleData(device, s, m).1.Fault? && HandleData(device, s, m).0.index == 0
  {
  }

  lemma BackupKeepsIndex<St>(device: Device<St>, store: St, s: Session)
    ensures HandleBackup(device, store, s).0.index == s.index
  {
  }

  /** The index and command checks never fire: `index` stays 0 and `command` is set before it is checked. */
  lemma SessionErrorsAreInert<St>(device: Device<St>, store: St, s: Session, m: Message)
    requires s.index == 0
    ensures HandleMessage(device, store, s, m).0.index == 0
    ensures HandleMessage(device, store, s, m).2 != Error(VENDOR_SESSION_ERROR)
  {
    DataErrorsAreInert(device, s, m);
    var ready := HandleData(device, s, m).0;
    BackupKeepsIndex(device, store, ready);
  }

  predicate BackupRequest(m: Message) {
    m.command == COMMAND_BACKUP && RequestedType(m.payload).Some? && m.allowed
  }

  /** `HandleMessage` as a step from a session to the next. */
  function Handler<St>(device: Device<St>): (St, Session, Message) -> (Session, St, Reply) {
    (store, s, m) => HandleMessage(device, store, s, m)
  }

  /** The replies to messages, each handled while the store is as given for it. */
  function Replies<St>(
      handle: (St, Session, Message) -> (Session, St, Reply), s: Session, stores: seq<St>, ms: seq<Message>): seq<Reply>
    requires |stores| == |ms|
    decreases |ms|
  {
    if ms == [] then []
    else
      var (after, _, reply) := handle(stores[0], s, ms[0]);
      [reply] + Replies(handle, after, stores[1..], ms[1..])
  }

  function Rest(ws: seq<Wire>): seq<Wire> { if ws == [] then [] else ws[1..] }

  function NextReply(ws: seq<Wire>): Reply { if ws == [] then Error(NO_MORE_CHUNKS) else Chunk(ws[0]) }

  lemma DrainOne(s: Session, ws: seq<Wire>)
    requires s.chunks == Some(Reversed(ws))
    ensures DrainReply(s) == (s.(chunks := Some(Reversed(Rest(ws)))), NextReply(ws))
  {
  }

  lemma BackupStep<St>(device: Device<St>, store: St, s: Session, ws: seq<Wire>, m: Message)
    requires BackupRequest(m) && s.chunks == Some(Reversed(ws))
    ensures var (after, _, reply) := HandleMessage(device, store, s, m);
            after.chunks == Some(Reversed(Rest(ws))) && reply == NextReply(ws)
  {
    DrainOne(HandleData(device, s, m).0, ws);
  }

  /** The session holds the wires `ws`, last one first. */
  function Holding(): (Session, seq<Wire>) -> bool { (s: Session, ws: seq<Wire>) => s.chunks == Some(Reversed(ws)) }

  /** Every backup request to a session that holds some wires answers with the next of them and leaves the rest. */
  ghost predicate Drains<St(!new)>(
      handle: (St, Session, Message) -> (Session, St, Reply), holds: (Session, seq<Wire>) -> bool)
  {
    forall store: St, s: Session, m: Message, ws: seq<Wire> :: BackupRequest(m) && holds(s, ws) ==>
      holds(handle(store, s, m).0, Rest(ws)) && handle(store, s, m).2 == NextReply(ws)
  }

  lemma HandlerDrains<St(!new)>(device: Device<St>)
    ensures Drains(Handler(device), Holding())
  {
    forall store: St, s: Session, m: Message, ws: seq<Wire> | BackupRequest(m) && Holding()(s, ws)
      ensures Holding()(Handler(device)(store, s, m).0, Rest(ws))
      ensures Handler(device)(store, s, m).2 == NextReply(ws)
    {
      BackupStep(device, store, s, ws, m);
    }
  }

  /** Requests after the snapshot drain it in order, whatever the store has become, and then run dry. */
  lemma {:induction false} DrainInOrder<St(!new)>(
      handle: (St, Session, Message) -> (Session, St, Reply), holds: (Session, seq<Wire>) -> bool, s: Session,
      ws: seq<Wire>, stores: seq<St>, ms: seq<Message>, i: nat)
    requires Drains(handle, holds) && holds(s, ws)
    requires |stores| == |ms| && i < |ms| && forall j :: 0 <= j < |ms| ==> BackupRequest(ms[j])
    ensures i < |Replies(handle, s, stores, ms)|
    ensures Replies(handle, s, stores, ms)[i] == if i < |ws| then Chunk(ws[i]) else Error(NO_MORE_CHUNKS)
    decreases |ms|
  {
    var after := handle(stores[0], s, ms[0]).0;
    assert BackupRequest(ms[0]);
    if i > 0 {
      DrainInOrder(handle, holds, after, Rest(ws), stores[1..], ms[1..], i - 1);
    }
  }

  /** The first request of a backup takes the snapshot, whatever else the session holds. */
  lemma FirstBackupStep<St>(device: Device<St>, store: St, s: Session, m: Message, bytes: seq<byte>)
    requires BackupRequest(m) && s.chunks.None?
    requires device.snapshot(store, RequestedType(m.payload).value) == Bytes(bytes)
    ensures var ws := WiresFrom(bytes, 0);
            var (after, _, reply) := HandleMessage(device, store, s, m);
            after.chunks == Some(Reversed(Rest(ws))) && reply == NextReply(ws)
  {
    var ready := HandleData(device, s, m).0;
    SnapshotTaken(device, store, ready, bytes);
    DrainOne(ready.(chunks := Some(Reversed(WiresFrom(bytes, 0)))), WiresFrom(bytes, 0));
  }

  lemma SnapshotTaken<St>(device: Device<St>, store: St, s: Session, bytes: seq<byte>)
    requires s.chunks.None? && s.backupKind.Some? && device.snapshot(store, s.backupKind.value) == Bytes(bytes)
    ensures HandleBackup(device, store, s) == DrainReply(s.(chunks := Some(Reversed(WiresFrom(bytes, 0)))))
  {
  }

  /**
   From any session without chunks, consecutive allowed backup requests return the wires of the
   snapshot taken at the first one: in order, each once, and from then on the no-more-chunks error.
   */
  lemma BackupReturnsSnapshot<St(!new)>(
      device: Device<St>, s: Session, stores: seq<St>, ms: seq<Message>, bytes: seq<byte>, i: nat)
    requires |stores| == |ms| && i < |ms| && forall j :: 0 <= j < |ms| ==> BackupRequest(ms[j])
    requires s.chunks.None? && BackupRequest(ms[0])
    requires device.snapshot(stores[0], RequestedType(ms[0].payload).value) == Bytes(bytes)
    ensures var ws := WiresFrom(bytes, 0);
            var replies := Replies(Handler(device), s, stores, ms);
            i < |replies| && replies[i] == if i < |ws| then Chunk(ws[i]) else Error(NO_MORE_CHUNKS)
  {
    FirstBackupStep(device, stores[0], s, ms[0], bytes);
    HandlerDrains(device);
    AfterFirst(Handler(device), Holding(), s, stores, ms, WiresFrom(bytes, 0), i);
  }

  lemma AfterFirst<St(!new)>(
      handle: (St, Session, Message) -> (Session, St, Reply), holds: (Session, seq<Wire>) -> bool, s: Session,
      stores: seq<St>, ms: seq<Message>, ws: seq<Wire>, i: nat)
    requires Drains(handle, holds)
    requires |stores| == |ms| && i < |ms| && forall j :: 0 <= j < |ms| ==> BackupRequest(ms[j])
    requires holds(handle(stores[0], s, ms[0]).0, Rest(ws)) && handle(stores[0], s, ms[0]).2 == NextReply(ws)
    ensures var replies := Replies(handle, s, stores, ms);
            i < |replies| && replies[i] == if i < |ws| then Chunk(ws[i]) else Error(NO_MORE_CHUNKS)
  {
    if i > 0 {
      DrainInOrder(handle, holds, handle(stores[0], s, ms[0]).0, Rest(ws), stores[1..], ms[1..], i - 1);
    }
  }

  // ----- a backup as the host sees it

  /** An allowed backup request for codes, 1, or for passwords, 2. */
  predicate Asks(m: Message, what: nat) {
    m.command == 0x72 && m.allowed && m.payload != [] && m.payload[0] == what
  }

  predicate AsksBackup(m: Message) { Asks(m, 1) || Asks(m, 2) }

  lemma AsksIff(m: Message)
    ensures AsksBackup(m) <==> BackupRequest(m)
  {
  }

  /** Of the replies to backup requests, the host has collected the wires up to the last one. */
  ghost predicate Collects<St>(device: Device<St>, s: Session, stores: seq<St>, ms: seq<Message>, sent: seq<Wire>) {
    && |stores| == |ms| && (forall j :: 0 <= j < |ms| ==> AsksBackup(ms[j]))
    && 0 < |sent| <= |ms| && |Replies(Handler(device), s, stores, ms)| == |ms|
    && (forall i :: 0 <= i < |sent| ==> Replies(Handler(device), s, stores, ms)[i] == Chunk(sent[i]))
    && !sent[|sent| - 1].moreData
  }

  /** Only a snapshot of what was asked for makes the first request answer with a wire. */
  lemma FirstChunkMeans<St>(device: Device<St>, store: St, s: Session, m: Message)
    requires AsksBackup(m) && s.chunks.None? && HandleMessage(device, store, s, m).2.Chunk?
    ensures device.snapshot(store, if m.payload[0] == 1 then CodesPayload else PasswordsPayload).Bytes?
  {
  }

  /** What the host has collected is the snapshot of what it asked for first, in a complete cut. */
  lemma CollectedIsSnapshot<St(!new)>(
      device: Device<St>, s: Session, stores: seq<St>, ms: seq<Message>, sent: seq<Wire>)
    requires s.chunks.None? && Collects(device, s, stores, ms, sent)
    ensures device.snapshot(stores[0], if ms[0].payload[0] == 1 then CodesPayload else PasswordsPayload)
            == Bytes(Joined(sent))
    ensures CompleteTransfer(sent)
  {
    var replies := Replies(Handler(device), s, stores, ms);
    var kind := if ms[0].payload[0] == 1 then CodesPayload else PasswordsPayload;
    assert AsksBackup(ms[0]) && replies[0] == Chunk(sent[0]);
    FirstChunkMeans(device, stores[0], s, ms[0]);
    var bytes := device.snapshot(stores[0], kind).bytes;
    RequestsAre(ms);
    forall i | 0 <= i < |sent| ensures i < |WiresFrom(bytes, 0)| && sent[i] == WiresFrom(bytes, 0)[i] {
      BackupReturnsSnapshot(device, s, stores, ms, bytes, i);
      assert replies[i] == Chunk(sent[i]);
    }
    WiresCarryTheBytes(bytes, 0);
    assert sent == WiresFrom(bytes, 0);
  }

  lemma RequestsAre(ms: seq<Message>)
    requires forall j :: 0 <= j < |ms| ==> AsksBackup(ms[j])
    ensures forall j :: 0 <= j < |ms| ==>
              BackupRequest(ms[j])
              && RequestedType(ms[j].payload).value == if ms[j].payload[0] == 1 then CodesPayload else PasswordsPayload
  {
    forall j | 0 <= j < |ms|
      ensures BackupRequest(ms[j])
      ensures RequestedType(ms[j].payload).value == if ms[j].payload[0] == 1 then CodesPayload else PasswordsPayload
    {
      AsksIff(ms[j]);
    }
  }

  /** As many requests as the snapshot has wires collect it, whatever the session holds besides. */
  lemma EnoughRequestsCollect<St(!new)>(
      device: Device<St>, s: Session, stores: seq<St>, ms: seq<Message>, bytes: seq<byte>)
    requires s.chunks.None? && |stores| == |ms| && forall j :: 0 <= j < |ms| ==> AsksBackup(ms[j])
    requires bytes != [] && |WiresFrom(bytes, 0)| <= |ms|
    requires |ms| > 0 && AsksBackup(ms[0])
    requires device.snapshot(stores[0], if ms[0].payload[0] == 1 then CodesPayload else PasswordsPayload)
             == Bytes(bytes)
    ensures Collects(device, s, stores, ms, WiresFrom(bytes, 0))
  {
    RequestsAre(ms);
    WiresCarryTheBytes(bytes, 0);
    AllReplied(Handler(device), s, stores, ms);
    forall i | 0 <= i < |WiresFrom(bytes, 0)|
      ensures Replies(Handler(device), s, stores, ms)[i] == Chunk(WiresFrom(bytes, 0)[i])
    {
      BackupReturnsSnapshot(device, s, stores, ms, bytes, i);
    }
  }

  lemma {:induction false} AllReplied<St>(
      handle: (St, Session, Message) -> (Session, St, Reply), s: Session, stores: seq<St>, ms: seq<Message>)
    requires |stores| == |ms|
    ensures |Replies(handle, s, stores, ms)| == |ms|
    decreases |ms|
  {
    if ms != [] {
      AllReplied(handle, handle(stores[0], s, ms[0]).0, stores[1..], ms[1..]);
    }
  }

  /** How each message is answered, up to what a complete command does, and what the session then holds. */
  lemma AnswerIs<St>(device: Device<St>, store: St, s: Session, m: Message)
    requires s.index == 0
    ensures var (after, store', reply) := HandleMessage(device, store, s, m);
            var named := s.(command := m.command, channel := m.channel);
            var asked := m.payload != [] && (m.payload[0] == 1 || m.payload[0] == 2);
            if m.command == 0x74 then
              after == FRESH && store' == store && reply == ResetDone
            else if !asked && device.readWire(m.payload) == Rejected then
              after == named && store' == store && reply == Error(0x35)
            else if !asked && device.readWire(m.payload).Converted? && device.readWire(m.payload).result.moreData then
              && after == named.(data := s.data + device.readWire(m.payload).result.data, finished := false)
              && store' == store && reply == Continue
            else if !asked && device.readWire(m.payload) == Panics then reply == Crash
            else if !m.allowed then store' == store && reply == Error(44)
            else m.command != 0x71 && m.command != 0x72 ==> store' == store && reply == Error(0x33)
  {
  }

  /** What a restore answers, and a backup that has to read the store and cannot. */
  lemma CommandAnswers<St>(device: Device<St>, store: St, s: Session, m: Message)
    requires s.index == 0 && m.allowed
    ensures var (after, store', reply) := HandleMessage(device, store, s, m);
            && (m.command == 0x71 && RequestedType(m.payload).None? && device.readWire(m.payload).Converted?
                && !device.readWire(m.payload).result.moreData ==>
                  match device.restore(store, s.data + device.readWire(m.payload).result.data)
                  case Accepted(next) => store' == next && reply == Restored
                  case Refused => store' == store && reply == Error(41)
                  case RestorePanics => store' == store && reply == Crash)
            && (AsksBackup(m) && s.chunks.None?
                && device.snapshot(store, if m.payload[0] == 1 then CodesPayload else PasswordsPayload)
                   == Unreadable ==>
                  after == FRESH && store' == store && reply == Error(42))
  {
  }

  /** A refused request costs an ongoing backup nothing. */
  lemma RefusalKeepsChunks<St>(device: Device<St>, store: St, s: Session, m: Message)
    requires m.command == COMMAND_BACKUP && RequestedType(m.payload).Some? && !m.allowed
    ensures var (after, store', reply) := HandleMessage(device, store, s, m);
            reply == Error(ERROR_NOT_ALLOWED) && store' == store && after.chunks == s.chunks
  {
  }

  function RestoreMessage<St>(device: Device<St>, w: Wire): Message {
    Message(COMMAND_RESTORE, 0, device.writeWire(w), true)
  }

  /** The session and store after sending wires as restore messages, and the last reply. */
  function SendWires<St>(device: Device<St>, store: St, s: Session, ws: seq<Wire>): (Session, St, Reply)
    requires ws != []
    decreases |ws|
  {
    var (after, store', reply) := HandleMessage(device, store, s, RestoreMessage(device, ws[0]));
    if |ws| == 1 then (after, store', reply) else SendWires(device, store', after, ws[1..])
  }

  /** A backup was begun and never reset; the loop keeps such a session, even when no chunk is left. */
  predicate KeptForBackup(s: Session) { s.isBackup && s.chunks.Some? }

  /** What a restore of `bytes` does to the store, and the reply. */
  function RestoreEffect<St>(device: Device<St>, store: St, bytes: seq<byte>): (St, Reply) {
    match device.restore(store, bytes)
    case Accepted(after) => (after, Restored)
    case Refused => (store, Error(ERROR_RESTORE))
    case RestorePanics => (store, Crash)
  }

  /** The session that has collected the bytes of a complete restore. */
  function Collected(s: Session, bytes: seq<byte>): Session {
    s.(data := bytes, finished := true, command := COMMAND_RESTORE, channel := 0)
  }

  /** The session after a restore whose collected bytes are `bytes`. */
  function SessionAfterRestore(s: Session, bytes: seq<byte>, reply: Reply): Session {
    if reply == Crash || KeptForBackup(s) then Collected(s, bytes) else FRESH
  }

  /** The bytes of a restore are appended to what the session had collected, and all of it is restored. */
  lemma {:induction false} RestoreInAnyCutFrom<St>(device: Device<St>, store: St, s: Session, ws: seq<Wire>)
    requires FaithfulWires(device) && CompleteTransfer(ws) && s.index == 0
    ensures var bytes := s.data + Joined(ws);
            var (after, reply) := RestoreEffect(device, store, bytes);
            SendWires(device, store, s, ws) == (SessionAfterRestore(s, bytes, reply), after, reply)
    decreases |ws|
  {
    var w := ws[0];
    var m := RestoreMessage(device, w);
    assert device.readWire(m.payload) == Converted(w) && RequestedType(m.payload) == None;
    var ready := s.(data := s.data + w.data, finished := !w.moreData, command := COMMAND_RESTORE, channel := 0);
    assert HandleData(device, s, m) == (ready, if w.moreData then Answer(Continue) else Process);
    if |ws| == 1 {
      assert s.data + w.data == s.data + Joined(ws);
    } else {
      assert forall i :: 0 <= i < |ws[1..]| ==> ws[1..][i] == ws[i + 1];
      RestoreInAnyCutFrom(device, store, ready, ws[1..]);
      assert ready.data + Joined(ws[1..]) == s.data + Joined(ws);
    }
  }

  /**
   However its bytes are cut into wires, a restore does to the store what the bytes collected so far
   and its own do together; unless they make it panic, it resets the session exactly if that is not
   kept for a backup.
   */
  lemma RestoreIgnoresTheCut<St>(device: Device<St>, store: St, s: Session, ws: seq<Wire>)
    requires FaithfulWires(device) && CompleteTransfer(ws) && s.index == 0
    ensures var (session, after, reply) := SendWires(device, store, s, ws);
            && (after, reply) == RestoreEffect(device, store, s.data + Joined(ws))
            && (reply != Crash ==> (session == FRESH <==> !KeptForBackup(s)))
            && (KeptForBackup(s) ==>
                  KeptForBackup(session) && session.index == 0 && session.data == s.data + Joined(ws))
  {
    RestoreInAnyCutFrom(device, store, s, ws);
  }

  /** Any answered backup request leaves a session that is kept, with the collected bytes as they were. */
  lemma BackupIsKept<St>(device: Device<St>, store: St, s: Session, m: Message)
    requires BackupRequest(m) && s.index == 0
    requires s.chunks.Some? || device.snapshot(store, RequestedType(m.payload).value).Bytes?
    ensures var (after, _, _) := HandleMessage(device, store, s, m);
            KeptForBackup(after) && after.data == s.data && after.index == 0
  {
    var ready := HandleData(device, s, m).0;
    if s.chunks.None? {
      var bytes := device.snapshot(store, RequestedType(m.payload).value).bytes;
      DrainOne(ready.(chunks := Some(Reversed(WiresFrom(bytes, 0)))), WiresFrom(bytes, 0));
    }
  }

  /** The session after a run of messages, each handled while the store is as given for it. */
  function AfterMessages<St>(device: Device<St>, s: Session, stores: seq<St>, ms: seq<Message>): Session
    requires |stores| == |ms|
    decreases |ms|
  {
    if ms == [] then s else AfterMessages(device, HandleMessage(device, stores[0], s, ms[0]).0, stores[1..], ms[1..])
  }

  /** However many requests a backup takes, and even when it has run dry, its session is kept. */
  lemma {:induction false} BackupRunIsKept<St>(device: Device<St>, s: Session, stores: seq<St>, ms: seq<Message>)
    requires |stores| == |ms| && ms != [] && forall j :: 0 <= j < |ms| ==> BackupRequest(ms[j])
    requires BackupRequest(ms[0]) && s.index == 0
    requires s.chunks.Some? || device.snapshot(stores[0], RequestedType(ms[0].payload).value).Bytes?
    ensures var after := AfterMessages(device, s, stores, ms);
            KeptForBackup(after) && after.data == s.data && after.index == 0
    decreases |ms|
  {
    BackupIsKept(device, stores[0], s, ms[0]);
    if |ms| > 1 {
      assert BackupRequest(ms[1]);
      BackupRunIsKept(device, HandleMessage(device, stores[0], s, ms[0]).0, stores[1..], ms[1..]);
    }
  }

  /**
   So after any backup one restore works, and the next one does not stand alone: the bytes of the
   first are still in the session, and the store is handed both.
   */
  lemma SecondRestoreSeesBoth<St>(
      device: Device<St>, stores: seq<St>, ms: seq<Message>, store: St, first: seq<Wire>, second: seq<Wire>)
    requires FaithfulWires(device) && CompleteTransfer(first) && CompleteTransfer(second)
    requires |stores| == |ms| && ms != [] && forall j :: 0 <= j < |ms| ==> BackupRequest(ms[j])
    requires BackupRequest(ms[0]) && device.snapshot(stores[0], RequestedType(ms[0].payload).value).Bytes?
    ensures var s := AfterMessages(device, FRESH, stores, ms);
            var (s1, store1, reply1) := SendWires(device, store, s, first);
            var (s2, store2, reply2) := SendWires(device, store1, s1, second);
            && s1 != FRESH && (store1, reply1) == RestoreEffect(device, store, Joined(first))
            && (store2, reply2) == RestoreEffect(device, store1, Joined(first) + Joined(second))
  {
    BackupRunIsKept(device, FRESH, stores, ms);
    TwoRestores(device, store, AfterMessages(device, FRESH, stores, ms), first, second);
  }

  lemma TwoRestores<St>(device: Device<St>, store: St, s: Session, first: seq<Wire>, second: seq<Wire>)
    requires FaithfulWires(device) && CompleteTransfer(first) && CompleteTransfer(second)
    requires KeptForBackup(s) && s.index == 0 && s.data == []
    ensures var (s1, store1, reply1) := SendWires(device, store, s, first);
            var (s2, store2, reply2) := SendWires(device, store1, s1, second);
            && s1 != FRESH && (store1, reply1) == RestoreEffect(device, store, Joined(first))
            && (store2, reply2) == RestoreEffect(device, store1, Joined(first) + Joined(second))
  {
    RestoreIgnoresTheCut(device, store, s, first);
    assert s.data + Joined(first) == Joined(first);
    var (s1, store1, reply1) := SendWires(device, store, s, first);
    RestoreIgnoresTheCut(device, store1, s1, second);
  }

  /**
   The handler crashes in exactly these cases: a payload that panics as a wire, whatever the command and
   without consent; and, with consent, a restore that panics on the collected bytes, or a backup that
   must take a snapshot and finds a code without algorithm or no backup ever requested.
   */
  lemma CrashIff<St>(device: Device<St>, store: St, s: Session, m: Message)
    requires s.index == 0
    ensures HandleMessage(device, store, s, m).2 == Crash <==>
            && m.command != COMMAND_RESET
            && match RequestedType(m.payload)
               case Some(kind) =>
                 && m.allowed
                 && if m.command == COMMAND_RESTORE then device.restore(store, s.data) == RestorePanics
                    else m.command == COMMAND_BACKUP && s.chunks.None? && device.snapshot(store, kind) == AlgorithmPanic
               case None =>
                 match device.readWire(m.payload)
                 case Panics => true
                 case Rejected => false
                 case Converted(w) =>
                   && m.allowed && !w.moreData
                   && if m.command == COMMAND_RESTORE then device.restore(store, s.data + w.data) == RestorePanics
                      else m.command == COMMAND_BACKUP && SnapshotCrashes(device, store, s)
  {
    var (ready, outcome) := HandleData(device, s, m);
    if outcome == Process && ready.command == COMMAND_BACKUP && m.allowed {
      BackupCrashIff(device, store, ready);
    }
  }

  /** Taking a snapshot for this session panics: no kind was ever asked for, or a code is without algorithm. */
  predicate SnapshotCrashes<St>(device: Device<St>, store: St, s: Session) {
    && !KeptForBackup(s)
    && (s.backupKind.None? || device.snapshot(store, s.backupKind.value) == AlgorithmPanic)
  }

  lemma BackupCrashIff<St>(device: Device<St>, store: St, s: Session)
    ensures HandleBackup(device, store, s).1 == Crash <==> SnapshotCrashes(device, store, s)
  {
  }

  /** A single final wire sent under the backup command, to a fresh session, is such a crash. */
  lemma CrashHappens<St>(device: Device<St>, store: St, w: Wire)
    requires FaithfulWires(device) && !w.moreData
    ensures HandleMessage(device, store, FRESH, Message(COMMAND_BACKUP, 0, device.writeWire(w), true)).2 == Crash
  {
    CrashIff(device, store, FRESH, Message(COMMAND_BACKUP, 0, device.writeWire(w), true));
  }

  lemma EmptyMapPanics(codec: Codec)
    requires Faithful(codec)
    ensures ReadPayload(codec, [0xA0]) == Panics
  {
    EmptyMapReads(codec);
    NoFields(Keys(4));
    WirePanicsIff(Map([]));
  }

  /** So is an empty CBOR map, in any session, under any command but the reset, and without consent. */
  lemma EmptyMapCrashes<St>(
      codec: Codec, restore: (St, seq<byte>) -> Restoration<St>, snapshot: (St, PayloadType) -> Snapshot,
      store: St, s: Session, command: byte, channel: nat, allowed: bool)
    requires Faithful(codec) && command != COMMAND_RESET
    ensures HandleMessage(DeviceOf(codec, restore, snapshot), store, s, Message(command, channel, [0xA0], allowed)).2
            == Crash
  {
    EmptyMapPanics(codec);
    PanickingPayloadCrashes(DeviceOf(codec, restore, snapshot), store, s, Message(command, channel, [0xA0], allowed));
  }

  lemma PanickingPayloadCrashes<St>(device: Device<St>, store: St, s: Session, m: Message)
    requires m.command != COMMAND_RESET && RequestedType(m.payload) == None && device.readWire(m.payload) == Panics
    ensures HandleMessage(device, store, s, m).2 == Crash
  {
  }

  // ----- the session object and the loop

  class VendorSession {
    var data: seq<byte>
    var finished: bool
    var command: byte
    var channel: nat
    var index: nat
    var backupKind: Option<PayloadType>
    var isBackup: bool
    var chunks: Option<seq<Wire>>

    function State(): Session
      reads this
    {
      Session(data, finished, command, channel, index, backupKind, isBackup, chunks)
    }

    constructor ()
      ensures State() == FRESH
    {
      data, finished, command, channel, index, backupKind, isBackup, chunks := [], false, 0, 0, 0, None, false, None;
    }

    method Reset()
      modifies this
      ensures State() == FRESH
    {
      data, finished, command, channel, index, backupKind, isBackup, chunks := [], false, 0, 0, 0, None, false, None;
    }

    method ReadWire(w: Wire, cmd: byte) returns (error: Option<SessionError>)
      modifies this
      ensures (State(), error) == ReadFromWire(old(State()), w, cmd)
    {
      data := data + w.data;
      finished := !w.moreData;
      if command != 0 && command != cmd {
        return Some(WrongCommand);
      }
      command := cmd;
      if index != 0 && index <= w.index {
        return Some(WrongIndex);
      }
      return None;
    }

    method LoadBackupData(bytes: seq<byte>)
      modifies `chunks
      ensures State() == old(State()).(chunks := Some(Reversed(WiresFrom(bytes, 0))))
    {
      chunks := Some(Reversed(WiresFrom(bytes, 0)));
    }

    method DrainBackup() returns (chunk: Option<Wire>)
      modifies `chunks
      ensures (State(), chunk) == Drain(old(State()))
    {
      if chunks.None? || chunks.value == [] {
        return None;
      }
      var ws := chunks.value;
      chunks := Some(ws[..|ws| - 1]);
      return Some(ws[|ws| - 1]);
    }

    method HandleVendorData<St>(device: Device<St>, m: Message) returns (outcome: DataOutcome)
      modifies this
      ensures (State(), outcome) == HandleData(device, old(State()), m)
    {
      if m.command == COMMAND_RESET {
        Reset();
        return Answer(ResetDone);
      }
      command, channel := m.command, m.channel;
      var kind := RequestedType(m.payload);
      if kind.Some? {
        isBackup, backupKind := true, kind;
        return Process;
      }
      var wire := device.readWire(m.payload);
      if wire == Rejected {
        return Answer(Error(ERROR_VENDOR_HANDLING));
      }
      if wire == Panics {
        return DataPanic;
      }
      var error := ReadWire(wire.result, m.command);
      if error.Some? {
        return Fault(error.value);
      }
      return if finished then Process else Answer(Continue);
    }

    method HandleBackupCommand<St>(device: Device<St>, store: St) returns (reply: Reply)
      modifies this
      ensures (State(), reply) == HandleBackup(device, store, old(State()))
    {
      if !(isBackup && chunks.Some?) {
        if backupKind.None? {
          return Crash;
        }
        match device.snapshot(store, backupKind.value)
        case Unreadable => return Error(ERROR_BACKUP);
        case AlgorithmPanic => return Crash;
        case Bytes(bytes) => LoadBackupData(bytes);
      }
      var chunk := DrainBackup();
      return if chunk.Some? then Chunk(chunk.value) else Error(NO_MORE_CHUNKS);
    }

    method HandleVendorCommand<St>(device: Device<St>, store: St, allowed: bool) returns (store': St, reply: Reply)
      modifies this
      ensures (State(), store', reply) == HandleCommand(device, store, old(State()), allowed)
    {
      store' := store;
      if !allowed {
        reply := Error(ERROR_NOT_ALLOWED);
      } else if command == COMMAND_RESTORE {
        match device.restore(store, data) {
          case Accepted(after) => store', reply := after, Restored;
          case Refused => reply := Error(ERROR_RESTORE);
          case RestorePanics => reply := Crash;
        }
      } else if command == COMMAND_BACKUP {
        reply := HandleBackupCommand(device, store);
      } else {
        reply := Error(ERROR_UNKNOWN_COMMAND);
      }
    }
  }

  /** The FIDO handler thread: it owns the session and replaces it after most commands. */
  class Fido2Handler<St> {
    const device: Device<St>
    var session: VendorSession
    var store: St

    constructor (device: Device<St>, store: St)
      ensures fresh(session) && session.State() == FRESH && this.store == store && this.device == device
    {
      this.device := device;
      this.store := store;
      session := new VendorSession();
    }

    method HandleVendorMessage(m: Message) returns (reply: Reply)
      modifies this, session
      ensures (session.State(), store, reply) == HandleMessage(device, old(store), old(session.State()), m)
      ensures session == old(session) || fresh(session)
    {
      var outcome := session.HandleVendorData(device, m);
      match outcome
      case Answer(r) => reply := r;
      case Fault(_) =>
        session := new VendorSession();
        reply := Error(VENDOR_SESSION_ERROR);
      case DataPanic => reply := Crash;
      case Process =>
        store, reply := session.HandleVendorCommand(device, store, m.allowed);
        if reply != Crash && !(session.isBackup && session.chunks.Some?) {
          session := new VendorSession();
        }
    }
  }
}
