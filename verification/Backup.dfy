/** What a backup contains and what a restore writes, and that the second undoes the first. */
module Backup {
  import C = Cbor
  import opened Wrappers
  import opened RecordCodec
  import opened Storage
  import opened VendorSessions
  import opened Lines

  datatype CodeEntry = CodeEntry(
    stepSeconds: u64, secret: string, digits: u32, algorithm: Algorithm, name: string, hotp: bool)

  datatype PasswordEntry = PasswordEntry(description: string, username: string, password: string, notes: string)

  datatype DataPacket = Passwords(entries: seq<PasswordEntry>) | Codes(codes: seq<CodeEntry>)

  /** The record hash, the localized placeholder for notes, and the byte codec of CBOR values. */
  datatype Env = Env(hash: string -> string, placeholderNotes: string, codec: C.Codec)

  /** The store as the handler sees it: the records, the key lists, and the clock of each later record. */
  datatype Vault = Vault(db: Db, passwords: seq<string>, codes: seq<string>, clock: nat -> u64)

  // ----- packets as CBOR

  function PasswordValue(e: PasswordEntry): C.Value {
    C.Record([C.TextString(e.description), C.TextString(e.username), C.TextString(e.password), C.TextString(e.notes)])
  }

  /** The three algorithms a backup knows. */
  function AlgorithmCode(a: Algorithm): C.uint64 {
    match a
    case HmacSha256 => 2
    case HmacSha512 => 3
    case _ => 1
  }

  /** The step is written as a signed number, and the HOTP flag not at all. */
  function CodeValue(e: CodeEntry): C.Value {
    C.Record([C.Integer(C.AsSigned(e.stepSeconds)), C.TextString(e.secret), C.Integer(C.AsSigned(e.digits)),
              C.Unsigned(AlgorithmCode(e.algorithm)), C.TextString(e.name)])
  }

  function PacketValue(p: DataPacket): C.Value {
    match p
    case Passwords(es) => C.Record([C.Unsigned(1), C.Array(Each(es, PasswordValue))])
    case Codes(cs) => C.Record([C.Unsigned(2), C.Array(Each(cs, CodeValue))])
  }

  function Each<E>(es: seq<E>, value: E -> C.Value): (items: seq<C.Value>)
    ensures |items| == |es| && forall i :: 0 <= i < |es| ==> items[i] == value(es[i])
  {
    seq(|es|, i requires 0 <= i < |es| => value(es[i]))
  }

  function ThenText(field: Option<C.Value>): C.Conversion<string> { C.Need(field, C.ExtractText) }

  /** Four texts, unwrapped and looked at one after another. */
  function PasswordOf(d: Option<C.Value>, u: Option<C.Value>, p: Option<C.Value>, n: Option<C.Value>)
    : C.Conversion<PasswordEntry>
  {
    match ThenText(d)
    case Panics => C.Panics
    case Rejected => C.Rejected
    case Converted(description) =>
      match ThenText(u)
      case Panics => C.Panics
      case Rejected => C.Rejected
      case Converted(username) =>
        match ThenText(p)
        case Panics => C.Panics
        case Rejected => C.Rejected
        case Converted(password) =>
          match ThenText(n)
          case Panics => C.Panics
          case Rejected => C.Rejected
          case Converted(notes) => C.Converted(PasswordEntry(description, username, password, notes))
  }

  /** `PasswordEntry::try_from`. */
  function PasswordFrom(v: C.Value): C.Conversion<PasswordEntry> {
    if !v.Map? then C.Rejected
    else
      var f := C.Fields(v, 4);
      PasswordOf(f[0], f[1], f[2], f[3])
  }

  function ExtractAlgorithm(v: C.Value): Option<Algorithm> {
    if v == C.Unsigned(1) then Some(HmacSha1)
    else if v == C.Unsigned(2) then Some(HmacSha256)
    else if v == C.Unsigned(3) then Some(HmacSha512)
    else None
  }

  /** The digits are cut to 32 bits; a flag that is missing or no truth value counts as false. */
  function CodeOf(
      step: Option<C.Value>, secret: Option<C.Value>, digits: Option<C.Value>, algorithm: Option<C.Value>,
      name: Option<C.Value>, hotp: Option<C.Value>): C.Conversion<CodeEntry>
  {
    match C.Need(step, C.ExtractUnsigned)
    case Panics => C.Panics
    case Rejected => C.Rejected
    case Converted(seconds) =>
      match ThenText(secret)
      case Panics => C.Panics
      case Rejected => C.Rejected
      case Converted(text) =>
        match C.Need(digits, C.ExtractUnsigned)
        case Panics => C.Panics
        case Rejected => C.Rejected
        case Converted(count) =>
          match C.Need(algorithm, ExtractAlgorithm)
          case Panics => C.Panics
          case Rejected => C.Rejected
          case Converted(a) =>
            match ThenText(name)
            case Panics => C.Panics
            case Rejected => C.Rejected
            case Converted(title) =>
              C.Converted(CodeEntry(seconds, text, count % 0x1_0000_0000, a, title,
                                    C.ExtractBool(hotp.UnwrapOr(C.Boolean(false))).UnwrapOr(false)))
  }

  /** `TotpEntry::try_from`. */
  function CodeFrom(v: C.Value): C.Conversion<CodeEntry> {
    if !v.Map? then C.Rejected
    else
      var f := C.Fields(v, 6);
      CodeOf(f[0], f[1], f[2], f[3], f[4], f[5])
  }

  /** The list of entries; one that does not convert is unwrapped all the same. */
  function EntriesOf<E>(v: C.Value, convert: C.Value -> C.Conversion<E>): C.Conversion<seq<E>> {
    if v.Array? then C.AllConverted(v.items, convert) else C.Rejected
  }

  function Packed<E>(entries: C.Conversion<seq<E>>, pack: seq<E> -> DataPacket): C.Conversion<DataPacket> {
    match entries
    case Converted(es) => C.Converted(pack(es))
    case Rejected => C.Rejected
    case Panics => C.Panics
  }

  function PacketOf(kind: Option<C.Value>, entries: Option<C.Value>): C.Conversion<DataPacket> {
    match C.Need(kind, C.ExtractUnsigned)
    case Panics => C.Panics
    case Rejected => C.Rejected
    case Converted(k) =>
      if entries.None? then C.Panics
      else if k == 1 then Packed(EntriesOf(entries.value, PasswordFrom), es => Passwords(es))
      else if k == 2 then Packed(EntriesOf(entries.value, CodeFrom), cs => Codes(cs))
      else C.Panics
  }

  /** `DataPacket::try_from`. */
  function PacketFrom(v: C.Value): C.Conversion<DataPacket> {
    if !v.Map? then C.Rejected
    else
      var f := C.Fields(v, 2);
      PacketOf(f[0], f[1])
  }

  /** The same, with its loops. */
  method ReadPacket(v: C.Value) returns (r: C.Conversion<DataPacket>)
    ensures r == PacketFrom(v)
  {
    if !v.Map? {
      return C.Rejected;
    }
    var kind, rest := C.PeekValue(v.pairs, 1);
    var entries, _ := C.PeekValue(rest, 2);
    TwoFields(v);
    if kind.None? {
      return C.Panics;
    }
    if !kind.value.Unsigned? {
      return C.Rejected;
    }
    if entries.None? {
      return C.Panics;
    }
    match kind.value.unsigned {
      case 1 =>
        if !entries.value.Array? {
          return C.Rejected;
        }
        var es := C.ConvertItems(entries.value.items, PasswordFrom);
        return Packed(es, es => Passwords(es));
      case 2 =>
        if !entries.value.Array? {
          return C.Rejected;
        }
        var cs := C.ConvertItems(entries.value.items, CodeFrom);
        return Packed(cs, cs => Codes(cs));
      case _ =>
        return C.Panics;
    }
  }

  lemma TwoFields(v: C.Value)
    requires v.Map?
    ensures var (kind, rest) := C.Peek(v.pairs, 1);
            C.Fields(v, 2) == [kind, C.Peek(rest, 2).0]
  {
    assert C.Keys(2) == [1, 2] && [1, 2][1..] == [2];
    var (kind, rest) := C.Peek(v.pairs, 1);
    assert C.Destructure(rest, [2]) == [C.Peek(rest, 2).0];
  }

  // ----- what converts, what is rejected, and what panics

  predicate IsText(field: Option<C.Value>) { field.Some? && field.value.TextString? }

  /** An entry of a password packet: a map with four texts. */
  predicate PasswordShape(v: C.Value) {
    v.Map? && var f := C.Fields(v, 4); IsText(f[0]) && IsText(f[1]) && IsText(f[2]) && IsText(f[3])
  }

  predicate CodeShape(v: C.Value) {
    && v.Map?
    && var f := C.Fields(v, 6);
       && IsUnsigned(f[0]) && IsText(f[1]) && IsUnsigned(f[2])
       && f[3].Some? && ExtractAlgorithm(f[3].value).Some? && IsText(f[4])
  }

  lemma ShapesIff(v: C.Value)
    ensures PasswordFrom(v).Converted? <==> PasswordShape(v)
    ensures CodeFrom(v).Converted? <==> CodeShape(v)
  {
  }

  /** A value converts to an entry exactly when its fields are that entry's. */
  lemma PasswordFromIff(v: C.Value, e: PasswordEntry)
    ensures PasswordFrom(v) == C.Converted(e) <==>
            && v.Map?
            && C.Fields(v, 4) == [Some(C.TextString(e.description)), Some(C.TextString(e.username)),
                                  Some(C.TextString(e.password)), Some(C.TextString(e.notes))]
  {
  }

  /** The same for codes: the digits are cut to 32 bits, and only a true sixth field sets the flag. */
  lemma CodeFromIff(v: C.Value, e: CodeEntry)
    ensures CodeFrom(v) == C.Converted(e) <==>
            && v.Map?
            && var f := C.Fields(v, 6);
               && f[0] == Some(C.Unsigned(e.stepSeconds)) && f[1] == Some(C.TextString(e.secret))
               && f[2].Some? && f[2].value.Unsigned? && f[2].value.unsigned % 0x1_0000_0000 == e.digits
               && (match e.algorithm
                   case HmacSha1 => f[3] == Some(C.Unsigned(1))
                   case HmacSha256 => f[3] == Some(C.Unsigned(2))
                   case HmacSha512 => f[3] == Some(C.Unsigned(3))
                   case NoAlgorithm => false)
               && f[4] == Some(C.TextString(e.name))
               && (e.hotp <==> f[5] == Some(C.Simple(C.TrueValue)))
  {
  }

  predicate HasBadEntry(v: C.Value, kind: nat) {
    && v.Array?
    && exists i :: 0 <= i < |v.items| && !(if kind == 1 then PasswordShape(v.items[i]) else CodeShape(v.items[i]))
  }

  /**
   A value panics as a packet exactly when it is a map that has no kind, or a numeric kind with no
   entries, or a kind other than 1 and 2, or a list with an entry that is not of its kind's shape.
   */
  lemma PacketPanicsIff(v: C.Value)
    ensures PacketFrom(v) == C.Panics <==>
            v.Map? &&
            var f := C.Fields(v, 2);
            || f[0].None?
            || (IsUnsigned(f[0]) && f[1].None?)
            || (IsUnsigned(f[0]) && f[1].Some?
                && var k := f[0].value.unsigned; (k != 1 && k != 2) || HasBadEntry(f[1].value, k))
  {
    if v.Map? && C.Fields(v, 2)[1].Some? {
      EntriesPanicIff(C.Fields(v, 2)[1].value);
    }
  }

  lemma EntriesPanicIff(v: C.Value)
    ensures EntriesOf(v, PasswordFrom) == C.Panics <==> HasBadEntry(v, 1)
    ensures EntriesOf(v, CodeFrom) == C.Panics <==> HasBadEntry(v, 2)
  {
    if v.Array? {
      C.AllConvertedIff(v.items, PasswordFrom);
      C.AllConvertedIff(v.items, CodeFrom);
      forall i | 0 <= i < |v.items| {
        ShapesIff(v.items[i]);
      }
    }
  }

  // ----- what is written reads back

  /** Steps are written as signed numbers; from here on they come out negative, and do not convert. */
  const STEP_LIMIT: nat := 0x8000_0000_0000_0000

  predicate StepsFit(codes: seq<CodeEntry>) { forall i :: 0 <= i < |codes| ==> codes[i].stepSeconds < STEP_LIMIT }

  predicate AllHashed(codes: seq<CodeEntry>) { forall i :: 0 <= i < |codes| ==> codes[i].algorithm != NoAlgorithm }

  /** What of the entries is written: everything but the HOTP flag. */
  function Carried(codes: seq<CodeEntry>): seq<CodeEntry> {
    seq(|codes|, i requires 0 <= i < |codes| => codes[i].(hotp := false))
  }

  lemma PasswordConverts(e: PasswordEntry)
    ensures PasswordFrom(PasswordValue(e)) == C.Converted(e) && C.IsRow(PasswordValue(e))
  {
    var values := [C.TextString(e.description), C.TextString(e.username), C.TextString(e.password),
                   C.TextString(e.notes)];
    C.RecordIsOrdered(values);
    C.RecordFields(values, 4, 0);
    C.RecordFields(values, 4, 1);
    C.RecordFields(values, 4, 2);
    C.RecordFields(values, 4, 3);
  }

  /** A code entry converts back, without its flag, exactly when its step fits; otherwise it is rejected. */
  lemma CodeConvertsIff(e: CodeEntry)
    requires e.algorithm != NoAlgorithm
    ensures CodeFrom(CodeValue(e)) == if e.stepSeconds < STEP_LIMIT then C.Converted(e.(hotp := false)) else C.Rejected
    ensures C.IsRow(CodeValue(e))
  {
    var values := [C.Integer(C.AsSigned(e.stepSeconds)), C.TextString(e.secret), C.Integer(C.AsSigned(e.digits)),
                   C.Unsigned(AlgorithmCode(e.algorithm)), C.TextString(e.name)];
    C.RecordIsOrdered(values);
    C.RecordFields(values, 6, 0);
    C.RecordFields(values, 6, 1);
    C.RecordFields(values, 6, 2);
    C.RecordFields(values, 6, 3);
    C.RecordFields(values, 6, 4);
    C.RecordFields(values, 6, 5);
    CodeFieldsConvert(e);
  }

  lemma CodeFieldsConvert(e: CodeEntry)
    requires e.algorithm != NoAlgorithm
    ensures CodeOf(Some(C.Integer(C.AsSigned(e.stepSeconds))), Some(C.TextString(e.secret)),
                   Some(C.Integer(C.AsSigned(e.digits))), Some(C.Unsigned(AlgorithmCode(e.algorithm))),
                   Some(C.TextString(e.name)), None)
            == if e.stepSeconds < STEP_LIMIT then C.Converted(e.(hotp := false)) else C.Rejected
  {
    var digits: nat := e.digits;
    assert digits % 0x1_0000_0000 == digits;
  }

  lemma PacketFields(kind: C.Value, entries: C.Value)
    ensures C.Fields(C.Record([kind, entries]), 2) == [Some(kind), Some(entries)]
  {
    C.RecordFields([kind, entries], 2, 0);
    C.RecordFields([kind, entries], 2, 1);
  }

  lemma PacketIsWritable(kind: C.uint64, items: seq<C.Value>)
    requires forall i :: 0 <= i < |items| ==> C.IsRow(items[i])
    ensures C.Writable(C.Record([C.Unsigned(kind), C.Array(items)]))
  {
    C.RecordIsOrdered([C.Unsigned(kind), C.Array(items)]);
  }

  /** A packet of passwords reads back from its value. */
  lemma PasswordsRoundTrip(es: seq<PasswordEntry>)
    ensures PacketFrom(PacketValue(Passwords(es))) == C.Converted(Passwords(es))
    ensures C.Writable(PacketValue(Passwords(es)))
  {
    var items := Each(es, PasswordValue);
    forall i | 0 <= i < |items| ensures PasswordFrom(items[i]) == C.Converted(es[i]) && C.IsRow(items[i]) {
      PasswordConverts(es[i]);
    }
    C.ConvertsTo(items, PasswordFrom, es);
    PacketFields(C.Unsigned(1), C.Array(items));
    PacketIsWritable(1, items);
  }

  /** A packet of codes reads back, without the flags, exactly when every step fits; otherwise reading it panics. */
  lemma CodesRoundTripIff(cs: seq<CodeEntry>)
    requires AllHashed(cs)
    ensures PacketFrom(PacketValue(Codes(cs))) == if StepsFit(cs) then C.Converted(Codes(Carried(cs))) else C.Panics
    ensures C.Writable(PacketValue(Codes(cs)))
  {
    var items := Each(cs, CodeValue);
    forall i | 0 <= i < |items| ensures C.IsRow(items[i]) {
      CodeConvertsIff(cs[i]);
    }
    CodeItemsConvertIff(cs);
    PacketFields(C.Unsigned(2), C.Array(items));
    PacketIsWritable(2, items);
  }

  lemma CodeItemsConvertIff(cs: seq<CodeEntry>)
    requires AllHashed(cs)
    ensures var r := C.AllConverted(Each(cs, CodeValue), CodeFrom);
            r == if StepsFit(cs) then C.Converted(Carried(cs)) else C.Panics
  {
    var items := Each(cs, CodeValue);
    forall i | 0 <= i < |items|
      ensures cs[i].stepSeconds < STEP_LIMIT ==> CodeFrom(items[i]) == C.Converted(Carried(cs)[i])
      ensures cs[i].stepSeconds >= STEP_LIMIT ==> CodeFrom(items[i]) == C.Rejected
    {
      CodeConvertsIff(cs[i]);
    }
    if StepsFit(cs) {
      C.ConvertsTo(items, CodeFrom, Carried(cs));
    } else {
      var i :| 0 <= i < |cs| && cs[i].stepSeconds >= STEP_LIMIT;
      assert CodeFrom(items[i]) == C.Rejected;
      C.AllConvertedIff(items, CodeFrom);
    }
  }

  // ----- restore

  function LoginFromEntry(e: PasswordEntry): Content {
    Login(PasswordRecord(1, e.description, e.username, e.password, e.notes, 0, 0, 0))
  }

  /** The HOTP flag of the entry is not used. */
  function CodeFromEntry(env: Env, e: CodeEntry): Content {
    Code(TotpRecord(1, e.secret, e.name, e.algorithm, env.placeholderNotes, e.digits, e.stepSeconds, 0, false))
  }

  function BatchSize(p: DataPacket): nat { if p.Passwords? then |p.entries| else |p.codes| }

  function BatchRecord(env: Env, p: DataPacket, i: nat): Content
    requires i < BatchSize(p)
  {
    if p.Passwords? then LoginFromEntry(p.entries[i]) else CodeFromEntry(env, p.codes[i])
  }

  function Batch(env: Env, p: DataPacket): (b: seq<Content>)
    ensures |b| == BatchSize(p)
  {
    seq(BatchSize(p), i requires 0 <= i < BatchSize(p) => BatchRecord(env, p, i))
  }

  function Times(n: nat, clock: nat -> u64): (ts: seq<u64>)
    ensures |ts| == n
  {
    seq<u64>(n, (i: nat) => clock(i))
  }

  /** The bytes as a packet. */
  function PacketIn(env: Env, bytes: seq<C.byte>): C.Conversion<DataPacket> {
    match env.codec.read(bytes)
    case None => C.Rejected
    case Some(v) => PacketFrom(v)
  }

  /** The store after its entries; duplicates are skipped and are not an error. */
  function WithPacket(env: Env, vault: Vault, p: DataPacket): Vault {
    vault.(db := StoreAll(vault.db, Entries(env.hash, Batch(env, p), Times(BatchSize(p), vault.clock)), false))
  }

  /** The whole effect of a restore on the store. */
  function Restore(env: Env, vault: Vault, bytes: seq<C.byte>): Restoration<Vault> {
    match PacketIn(env, bytes)
    case Rejected => Refused
    case Panics => RestorePanics
    case Converted(p) => Accepted(WithPacket(env, vault, p))
  }

  /** The key of some entry of a packet. */
  predicate Brings(env: Env, p: DataPacket, key: DbKey) {
    match p
    case Passwords(es) =>
      exists i :: 0 <= i < |es| && key == DbKey(PasswordKind, env.hash(es[i].description + es[i].username))
    case Codes(cs) => exists i :: 0 <= i < |cs| && key == DbKey(TotpKind, env.hash(cs[i].name))
  }

  /** A restore into any store adds exactly the keys of its packet's entries, and leaves what is stored as it is. */
  lemma RestoreKeepsStored(env: Env, vault: Vault, bytes: seq<C.byte>)
    ensures match Restore(env, vault, bytes)
            case Accepted(after) =>
              && PacketIn(env, bytes).Converted?
              && (forall key :: key in after.db <==> key in vault.db || Brings(env, PacketIn(env, bytes).result, key))
              && (forall key :: key in vault.db ==> after.db[key] == vault.db[key])
            case Refused => PacketIn(env, bytes) == C.Rejected
            case RestorePanics => PacketIn(env, bytes) == C.Panics
  {
    if PacketIn(env, bytes).Converted? {
      var p := PacketIn(env, bytes).result;
      var times := Times(BatchSize(p), vault.clock);
      BatchKeepsStored(vault.db, Entries(env.hash, Batch(env, p), times));
      forall key: DbKey ensures Mentions(Entries(env.hash, Batch(env, p), times), key) <==> Brings(env, p, key) {
        MentionsIff(env, p, times, key);
      }
    }
  }

  lemma MentionsIff(env: Env, p: DataPacket, times: seq<u64>, key: DbKey)
    requires |times| == BatchSize(p)
    ensures Mentions(Entries(env.hash, Batch(env, p), times), key) <==> Brings(env, p, key)
  {
    var entries := Entries(env.hash, Batch(env, p), times);
    forall i | 0 <= i < |entries|
      ensures entries[i].key ==
              if p.Passwords? then DbKey(PasswordKind, env.hash(p.entries[i].description + p.entries[i].username))
              else DbKey(TotpKind, env.hash(p.codes[i].name))
    {
      assert entries[i].key == KeyOf(env.hash, BatchRecord(env, p, i));
    }
  }

  /** Reads a packet, collects its records one by one and stores them as a batch. */
  method HandleRestore(env: Env, manager: Manager, bytes: seq<C.byte>, clock: nat -> u64) returns (r: Restoration<()>)
    requires manager.hash == env.hash
    modifies manager
    ensures match Restore(env, Vault(old(manager.db), [], [], clock), bytes)
            case Accepted(after) => r == Accepted(()) && manager.db == after.db
            case Refused => r == Refused && manager.db == old(manager.db)
            case RestorePanics => r == RestorePanics && manager.db == old(manager.db)
  {
    var value := env.codec.read(bytes);
    if value.None? {
      return Refused;
    }
    var packet := ReadPacket(value.value);
    if packet == C.Rejected {
      return Refused;
    }
    if packet == C.Panics {
      return RestorePanics;
    }
    var p := packet.result;
    var batch: seq<Content> := [];
    while |batch| < BatchSize(p)
      invariant |batch| <= BatchSize(p)
      invariant batch == Batch(env, p)[..|batch|]
    {
      batch := batch + [BatchRecord(env, p, |batch|)];
    }
    assert batch == Batch(env, p);
    var _ := manager.NewRecords(batch, Times(|batch|, clock), false);
    return Accepted(());
  }

  // ----- backup

  function EntryFromRecord(r: PasswordRecord): PasswordEntry {
    PasswordEntry(r.description, r.username, r.password, r.notes)
  }

  /** One unreadable record fails the whole read-out. */
  function AllPasswords(db: Db, names: seq<string>): Option<seq<PasswordEntry>> {
    if names == [] then Some([])
    else
      match ReadStoredPassword(db, names[0])
      case Err(_) => None
      case Ok(r) =>
        match AllPasswords(db, names[1..])
        case None => None
        case Some(rest) => Some([EntryFromRecord(r)] + rest)
  }

  function EntryFromCode(r: TotpRecord): CodeEntry {
    CodeEntry(r.timestep, r.secret, r.digits, r.algorithm, r.name, r.isHotp)
  }

  function AllCodes(db: Db, names: seq<string>): Option<seq<CodeEntry>> {
    if names == [] then Some([])
    else
      match ReadStoredCode(db, names[0])
      case Err(_) => None
      case Ok(r) =>
        match AllCodes(db, names[1..])
        case None => None
        case Some(rest) => Some([EntryFromCode(r)] + rest)
  }

  function TakeSnapshot(env: Env, vault: Vault, kind: PayloadType): Snapshot {
    match kind
    case PasswordsPayload =>
      (match AllPasswords(vault.db, vault.passwords)
       case None => Unreadable
       case Some(es) => Bytes(env.codec.write(PacketValue(Passwords(es)))))
    case CodesPayload =>
      (match AllCodes(vault.db, vault.codes)
       case None => Unreadable
       case Some(cs) =>
         if AllHashed(cs) then Bytes(env.codec.write(PacketValue(Codes(cs)))) else AlgorithmPanic)
  }

  /** The device whose restore and snapshot are those of the vault. */
  function VaultDevice(env: Env): Device<Vault> {
    DeviceOf(env.codec, (v, bytes) => Restore(env, v, bytes), (v, kind) => TakeSnapshot(env, v, kind))
  }

  lemma VaultWires(env: Env)
    requires C.Faithful(env.codec)
    ensures FaithfulWires(VaultDevice(env))
  {
    CodecIsFaithful(env.codec, (v, bytes) => Restore(env, v, bytes), (v, kind) => TakeSnapshot(env, v, kind));
  }

  // ----- backup followed by restore

  /** The names are the keys of one dictionary, each once. */
  ghost predicate Lists(db: Db, kind: Kind, names: seq<string>) {
    && (forall name :: DbKey(kind, name) in db <==> name in names)
    && (forall i, j :: 0 <= i < j < |names| ==> names[i] != names[j])
  }

  ghost predicate KeyedBy(kind: Kind, names: seq<string>, entries: seq<Entry>) {
    |entries| == |names| && forall i :: 0 <= i < |names| ==> entries[i].key == DbKey(kind, names[i])
  }

  /** Entries with distinct keys, stored in an empty store, are what it then holds. */
  lemma StoredInEmpty(kind: Kind, names: seq<string>, entries: seq<Entry>)
    requires KeyedBy(kind, names, entries) && forall i, j :: 0 <= i < j < |names| ==> names[i] != names[j]
    ensures var restored := StoreAll(map[], entries, false);
            && (forall key :: key in restored <==> key.kind == kind && key.name in names)
            && (forall i :: 0 <= i < |names| ==>
                  entries[i].key in restored && restored[entries[i].key] == entries[i].text)
  {
    BatchKeepsStored(map[], entries);
    forall i | 0 <= i < |names|
      ensures var restored := StoreAll(map[], entries, false);
              entries[i].key in restored && restored[entries[i].key] == entries[i].text
    {
      forall j | 0 <= j < i ensures entries[..i][j].key != entries[i].key {
        assert entries[j].key == DbKey(kind, names[j]);
      }
      BatchStoresFirst(map[], entries, i);
    }
    forall key: DbKey ensures Mentions(entries, key) <==> key.kind == kind && key.name in names {
      if key.kind == kind && key.name in names {
        var i :| 0 <= i < |names| && names[i] == key.name;
        assert entries[i].key == key;
      }
    }
  }

  // ----- passwords

  lemma {:induction false} AllPasswordsListed(db: Db, names: seq<string>)
    ensures AllPasswords(db, names).Some? <==> forall name :: name in names ==> ReadStoredPassword(db, name).Ok?
    ensures AllPasswords(db, names).Some? ==>
              && |AllPasswords(db, names).value| == |names|
              && forall i :: 0 <= i < |names| ==>
                   names[i] in names && AllPasswords(db, names).value[i] == EntryFromRecord(Recall(db, names[i]))
  {
    if names != [] {
      AllPasswordsListed(db, names[1..]);
      assert names == [names[0]] + names[1..];
      assert forall name :: name in names <==> name == names[0] || name in names[1..];
      assert forall i :: 1 <= i < |names| ==> names[i] == names[1..][i - 1];
    }
  }

  /** `a` is `b` as a restore makes it: the same texts, and never accessed. */
  ghost predicate SameLogin(a: PasswordRecord, b: PasswordRecord) {
    && a.description == b.description && a.username == b.username && a.password == b.password && a.notes == b.notes
    && a.version == 1 && a.atime == 0 && a.count == 0
  }

  /** A store entry under the name of a stored record, whose text reads back with that record's fields. */
  ghost predicate Reproduces(db: Db, name: string, e: Entry) {
    && ReadStoredPassword(db, name).Ok?
    && e.key == DbKey(PasswordKind, name)
    && PasswordFromText(e.text).Ok?
    && SameLogin(PasswordFromText(e.text).value, Recall(db, name))
  }

  ghost predicate ReproducesAll(db: Db, names: seq<string>, entries: seq<Entry>) {
    |entries| == |names| && forall i :: 0 <= i < |names| ==> Reproduces(db, names[i], entries[i])
  }

  lemma RestoredEntry(hash: string -> string, db: Db, name: string, now: u64)
    requires WellKeyed(hash, db) && Stored(db, name)
    ensures Reproduces(db, name, EntryOf(hash, LoginFromEntry(EntryFromRecord(Recall(db, name))), now))
  {
    var r := Recall(db, name);
    ReadPasswordOnOneLine(BLANK_PASSWORD, db[DbKey(PasswordKind, name)]);
    PasswordRoundTrip(BLANK_PASSWORD, PasswordRecord(1, r.description, r.username, r.password, r.notes, now, 0, 0));
  }

  lemma ListedParse(hash: string -> string, db: Db, names: seq<string>)
    requires WellKeyed(hash, db) && Lists(db, PasswordKind, names)
    ensures AllPasswords(db, names).Some? && |AllPasswords(db, names).value| == |names|
  {
    forall name | name in names ensures ReadStoredPassword(db, name).Ok? {
      assert Stored(db, name);
    }
    AllPasswordsListed(db, names);
  }

  lemma RestoredAt(hash: string -> string, db: Db, names: seq<string>, times: seq<u64>, i: nat)
    requires WellKeyed(hash, db) && Lists(db, PasswordKind, names) && |times| == |names| && i < |names|
    ensures AllPasswords(db, names).Some? && |AllPasswords(db, names).value| == |names|
    ensures Reproduces(db, names[i], EntryOf(hash, LoginFromEntry(AllPasswords(db, names).value[i]), times[i]))
  {
    forall name | name in names ensures ReadStoredPassword(db, name).Ok? {
      assert Stored(db, name);
    }
    AllPasswordsListed(db, names);
    assert names[i] in names && Stored(db, names[i]);
    RestoredEntry(hash, db, names[i], times[i]);
  }

  /** The entries a restore makes of a backup reproduce the stored records, in the order listed. */
  lemma RestoredBatch(env: Env, db: Db, names: seq<string>, times: seq<u64>)
    requires WellKeyed(env.hash, db) && Lists(db, PasswordKind, names) && |times| == |names|
    ensures AllPasswords(db, names).Some? && |AllPasswords(db, names).value| == |names|
    ensures var entries := Entries(env.hash, Batch(env, Passwords(AllPasswords(db, names).value)), times);
            ReproducesAll(db, names, entries)
  {
    ListedParse(env.hash, db, names);
    forall i | 0 <= i < |names|
      ensures var batch := Batch(env, Passwords(AllPasswords(db, names).value));
              Reproduces(db, names[i], Entries(env.hash, batch, times)[i])
    {
      RestoredAt(env.hash, db, names, times, i);
    }
  }

  /** The passwords of `db`, under their own keys and with their own fields, and nothing else. */
  ghost predicate Rebuilt(db: Db, restored: Db) {
    && (forall key :: key in restored <==> key.kind == PasswordKind && Stored(db, key.name))
    && (forall name :: Stored(db, name) ==>
          && ReadStoredPassword(db, name).Ok? && ReadStoredPassword(restored, name).Ok?
          && SameLogin(Recall(restored, name), Recall(db, name)))
  }

  /** Entries that reproduce every listed record, once each, rebuild the passwords in an empty store. */
  lemma RebuiltStore(db: Db, names: seq<string>, entries: seq<Entry>)
    requires Lists(db, PasswordKind, names) && ReproducesAll(db, names, entries)
    ensures Rebuilt(db, StoreAll(map[], entries, false))
  {
    var restored := StoreAll(map[], entries, false);
    assert KeyedBy(PasswordKind, names, entries) by {
      assert forall i :: 0 <= i < |names| ==> Reproduces(db, names[i], entries[i]);
    }
    StoredInEmpty(PasswordKind, names, entries);
    forall name | Stored(db, name)
      ensures ReadStoredPassword(db, name).Ok? && ReadStoredPassword(restored, name).Ok?
      ensures SameLogin(Recall(restored, name), Recall(db, name))
    {
      var i :| 0 <= i < |names| && names[i] == name;
      assert Reproduces(db, names[i], entries[i]);
    }
  }

  lemma SnapshotThenRestore(env: Env, vault: Vault, s: Session, ws: seq<Wire>, empty: Vault)
    requires C.Faithful(env.codec)
    requires WellKeyed(env.hash, vault.db) && Lists(vault.db, PasswordKind, vault.passwords) && empty.db == map[]
    requires s.index == 0 && s.data == [] && CompleteTransfer(ws)
    requires TakeSnapshot(env, vault, PasswordsPayload) == Bytes(Joined(ws))
    ensures var (session, restored, reply) := SendWires(VaultDevice(env), empty, s, ws);
            reply == Restored && Rebuilt(vault.db, restored.db)
  {
    VaultWires(env);
    RestoreOfPasswords(env, vault, empty);
    RestoreIgnoresTheCut(VaultDevice(env), empty, s, ws);
    assert s.data + Joined(ws) == Joined(ws);
  }

  /** The record at `i` as an entry of a packet, field by field under the keys 1 to 4. */
  ghost predicate IsPasswordEntry(item: C.Value, r: PasswordRecord) {
    item == C.Map([(C.Unsigned(1), C.TextString(r.description)), (C.Unsigned(2), C.TextString(r.username)),
                   (C.Unsigned(3), C.TextString(r.password)), (C.Unsigned(4), C.TextString(r.notes))])
  }

  /** A value is the packet of the listed passwords: kind 1, and an entry for each of them in order. */
  ghost predicate IsPasswordPacket(v: C.Value, db: Db, names: seq<string>) {
    && v.Map? && |v.pairs| == 2 && v.pairs[0] == (C.Unsigned(1), C.Unsigned(1))
    && v.pairs[1].0 == C.Unsigned(2) && v.pairs[1].1.Array? && |v.pairs[1].1.items| == |names|
    && forall i :: 0 <= i < |names| ==>
         ReadStoredPassword(db, names[i]).Ok? && IsPasswordEntry(v.pairs[1].1.items[i], Recall(db, names[i]))
  }

  /**
   What the host gets for passwords: whatever is asked for later and however the store changes, the
   wires that answer requests beginning with 2 carry the packet of the passwords listed at the first.
   */
  lemma RequestedPasswords(env: Env, s: Session, vaults: seq<Vault>, ms: seq<Message>, sent: seq<Wire>)
    requires C.Faithful(env.codec) && s.chunks.None?
    requires Collects(VaultDevice(env), s, vaults, ms, sent) && ms[0].payload[0] == 2
    ensures CompleteTransfer(sent) && TakeSnapshot(env, vaults[0], PasswordsPayload) == Bytes(Joined(sent))
    ensures env.codec.read(Joined(sent)).Some?
    ensures IsPasswordPacket(env.codec.read(Joined(sent)).value, vaults[0].db, vaults[0].passwords)
  {
    CollectedIsSnapshot(VaultDevice(env), s, vaults, ms, sent);
    var db, names := vaults[0].db, vaults[0].passwords;
    AllPasswordsListed(db, names);
    var es := AllPasswords(db, names).value;
    PasswordsRoundTrip(es);
    var v := PacketValue(Passwords(es));
    assert env.codec.read(env.codec.write(v)) == Some(v);
    PasswordPacketIs(db, names, es);
  }

  lemma PasswordPacketIs(db: Db, names: seq<string>, es: seq<PasswordEntry>)
    requires AllPasswords(db, names) == Some(es)
    ensures IsPasswordPacket(PacketValue(Passwords(es)), db, names)
  {
    AllPasswordsListed(db, names);
    forall i | 0 <= i < |names| ensures IsPasswordEntry(PasswordValue(es[i]), Recall(db, names[i])) {
      PasswordEntryIs(es[i], Recall(db, names[i]));
    }
    PairsAre([C.Unsigned(1), C.Array(Each(es, PasswordValue))]);
  }

  lemma PasswordEntryIs(e: PasswordEntry, r: PasswordRecord)
    requires e == EntryFromRecord(r)
    ensures IsPasswordEntry(PasswordValue(e), r)
  {
    PairsAre([C.TextString(e.description), C.TextString(e.username), C.TextString(e.password), C.TextString(e.notes)]);
  }

  lemma PairsAre(values: seq<C.Value>)
    requires |values| < 24
    ensures C.Record(values) == C.Map(seq(|values|, i requires 0 <= i < |values| => (C.Unsigned(i + 1), values[i])))
  {
  }

  /**
   From the request to the restored store: whatever wires the host has collected for allowed requests
   beginning with 2, restoring what they carry into an empty store, cut in any way and in any session
   that has collected nothing yet, brings back every password listed at the first request, under its
   own key with its description, username, password and notes, and nothing else.
   */
  lemma BackupThenRestore(
      env: Env, b: Session, vaults: seq<Vault>, ms: seq<Message>, sent: seq<Wire>,
      s: Session, ws: seq<Wire>, empty: Vault)
    requires C.Faithful(env.codec) && b.chunks.None?
    requires Collects(VaultDevice(env), b, vaults, ms, sent) && ms[0].payload[0] == 2
    requires WellKeyed(env.hash, vaults[0].db) && Lists(vaults[0].db, PasswordKind, vaults[0].passwords)
    requires empty.db == map[] && s.index == 0 && s.data == [] && CompleteTransfer(ws) && Joined(ws) == Joined(sent)
    ensures var (session, restored, reply) := SendWires(VaultDevice(env), empty, s, ws);
            reply == Restored && Rebuilt(vaults[0].db, restored.db)
  {
    RequestedPasswords(env, b, vaults, ms, sent);
    SnapshotThenRestore(env, vaults[0], s, ws, empty);
  }

  lemma RestoreOfPasswords(env: Env, vault: Vault, empty: Vault)
    requires C.Faithful(env.codec)
    requires WellKeyed(env.hash, vault.db) && Lists(vault.db, PasswordKind, vault.passwords) && empty.db == map[]
    requires TakeSnapshot(env, vault, PasswordsPayload).Bytes?
    ensures var restored := Restore(env, empty, TakeSnapshot(env, vault, PasswordsPayload).bytes);
            restored.Accepted? && Rebuilt(vault.db, restored.store.db)
  {
    var names := vault.passwords;
    var times := Times(|names|, empty.clock);
    RestoredBatch(env, vault.db, names, times);
    var es := AllPasswords(vault.db, names).value;
    PasswordsRoundTrip(es);
    assert env.codec.read(env.codec.write(PacketValue(Passwords(es)))) == Some(PacketValue(Passwords(es)));
    RebuiltStore(vault.db, names, Entries(env.hash, Batch(env, Passwords(es)), times));
  }

  /** The wires that a backup of such a vault sends are such a cut. */
  lemma BackupWiresRestore(env: Env, vault: Vault)
    requires C.Faithful(env.codec) && WellKeyed(env.hash, vault.db) && Lists(vault.db, PasswordKind, vault.passwords)
    ensures TakeSnapshot(env, vault, PasswordsPayload).Bytes?
    ensures var bytes := TakeSnapshot(env, vault, PasswordsPayload).bytes;
            CompleteTransfer(WiresFrom(bytes, 0)) && Joined(WiresFrom(bytes, 0)) == bytes
  {
    ListedParse(env.hash, vault.db, vault.passwords);
    PasswordsRoundTrip(AllPasswords(vault.db, vault.passwords).value);
    WiresCarryTheBytes(TakeSnapshot(env, vault, PasswordsPayload).bytes, 0);
  }

  /**
   The run that fails: take a backup with any number of requests, restore a packet, and restore again
   in the same session. The first restore stores its packet; the second is refused, whatever it carries.
   */
  lemma SecondRestoreIsRefused(
      env: Env, vaults: seq<Vault>, ms: seq<Message>, vault: Vault, v: C.Value, first: seq<Wire>, second: seq<Wire>)
    requires C.Faithful(env.codec) && C.Writable(v) && PacketFrom(v).Converted?
    requires |vaults| == |ms| && ms != [] && forall j :: 0 <= j < |ms| ==> BackupRequest(ms[j])
    requires BackupRequest(ms[0]) && TakeSnapshot(env, vaults[0], RequestedType(ms[0].payload).value).Bytes?
    requires CompleteTransfer(first) && Joined(first) == env.codec.write(v)
    requires CompleteTransfer(second) && Joined(second) != []
    ensures var device := VaultDevice(env);
            var s := AfterMessages(device, FRESH, vaults, ms);
            var (s1, vault1, reply1) := SendWires(device, vault, s, first);
            var (s2, vault2, reply2) := SendWires(device, vault1, s1, second);
            && reply1 == Restored && vault1 == WithPacket(env, vault, PacketFrom(v).result)
            && reply2 == Error(ERROR_RESTORE) && vault2 == vault1
  {
    VaultWires(env);
    LeftoversRefused(env, vault, v, Joined(second));
    LeftoversRefused(env, WithPacket(env, vault, PacketFrom(v).result), v, Joined(second));
    SecondRestoreSeesBoth(VaultDevice(env), vaults, ms, vault, first, second);
  }

  lemma LeftoversRefused(env: Env, vault: Vault, v: C.Value, more: seq<C.byte>)
    requires C.Faithful(env.codec) && C.Writable(v) && PacketFrom(v).Converted? && more != []
    ensures RestoreEffect(VaultDevice(env), vault, env.codec.write(v))
            == (WithPacket(env, vault, PacketFrom(v).result), Restored)
    ensures RestoreEffect(VaultDevice(env), vault, env.codec.write(v) + more) == (vault, Error(ERROR_RESTORE))
  {
    assert env.codec.read(env.codec.write(v)) == Some(v);
    assert env.codec.read(env.codec.write(v) + more) == None;
  }

  /** A snapshot of the passwords fails exactly when one does not parse, and never panics. */
  lemma PasswordsSnapshotIff(env: Env, vault: Vault)
    ensures var snapshot := TakeSnapshot(env, vault, PasswordsPayload);
            && (snapshot == Unreadable <==>
                  exists name :: name in vault.passwords && ReadStoredPassword(vault.db, name).Err?)
            && snapshot != AlgorithmPanic
  {
    AllPasswordsListed(vault.db, vault.passwords);
  }

  // ----- codes

  lemma {:induction false} AllCodesListed(db: Db, names: seq<string>)
    ensures AllCodes(db, names).Some? <==> forall name :: name in names ==> ReadStoredCode(db, name).Ok?
    ensures AllCodes(db, names).Some? ==>
              && |AllCodes(db, names).value| == |names|
              && forall i :: 0 <= i < |names| ==>
                   names[i] in names && AllCodes(db, names).value[i] == EntryFromCode(RecallCode(db, names[i]))
  {
    if names != [] {
      AllCodesListed(db, names[1..]);
      assert names == [names[0]] + names[1..];
      assert forall name :: name in names <==> name == names[0] || name in names[1..];
      assert forall i :: 1 <= i < |names| ==> names[i] == names[1..][i - 1];
    }
  }

  predicate HasAlgorithmLine(db: Db, name: string)
    requires CodeStored(db, name)
  {
    HasTag(TOTP_TAGS, Split(db[DbKey(TotpKind, name)], '\n'), TAlgorithm)
  }

  /**
   A snapshot of the codes fails when one does not parse, and else panics exactly when one's text has
   no algorithm line.
   */
  lemma CodesSnapshotIff(env: Env, vault: Vault)
    ensures var snapshot := TakeSnapshot(env, vault, CodesPayload);
            && (snapshot == Unreadable <==> exists name :: name in vault.codes && ReadStoredCode(vault.db, name).Err?)
            && (snapshot == AlgorithmPanic <==>
                  && (forall name :: name in vault.codes ==> ReadStoredCode(vault.db, name).Ok?)
                  && exists name :: name in vault.codes && !HasAlgorithmLine(vault.db, name))
  {
    var db, names := vault.db, vault.codes;
    AllCodesListed(db, names);
    if AllCodes(db, names).Some? {
      var cs := AllCodes(db, names).value;
      forall i | 0 <= i < |names| ensures cs[i].algorithm == NoAlgorithm <==> !HasAlgorithmLine(db, names[i]) {
        assert ReadStoredCode(db, names[i]).Ok?;
        NoAlgorithmIff(db[DbKey(TotpKind, names[i])]);
      }
      if name :| name in names && !HasAlgorithmLine(db, name) {
        var i :| 0 <= i < |names| && names[i] == name;
        assert cs[i].algorithm == NoAlgorithm;
      }
    }
  }

  ghost predicate SameCode(a: TotpRecord, b: TotpRecord) {
    && a.name == b.name && a.secret == b.secret && a.digits == b.digits && a.timestep == b.timestep
    && a.algorithm == b.algorithm && a.version == 1
  }

  /**
   A store entry under the name of a stored code, which reads back as that code made time-based, with
   the placeholder for notes.
   */
  ghost predicate ReproducesCode(env: Env, db: Db, name: string, e: Entry) {
    && ReadStoredCode(db, name).Ok?
    && e.key == DbKey(TotpKind, name)
    && TotpFromText(e.text).Ok?
    && var back := TotpFromText(e.text).value;
       SameCode(back, RecallCode(db, name)) && !back.isHotp && back.notes == env.placeholderNotes
  }

  lemma RestoredCode(env: Env, db: Db, name: string, now: u64)
    requires WellKeyedCodes(env.hash, db) && CodeStored(db, name) && OneLine(env.placeholderNotes)
    requires RecallCode(db, name).algorithm != NoAlgorithm
    ensures var entry := EntryFromCode(RecallCode(db, name)).(hotp := false);
            ReproducesCode(env, db, name, EntryOf(env.hash, CodeFromEntry(env, entry), now))
  {
    var r := RecallCode(db, name);
    ReadTotpOnOneLine(BLANK_TOTP, db[DbKey(TotpKind, name)]);
    TotpRoundTrip(BLANK_TOTP,
      TotpRecord(1, r.secret, r.name, r.algorithm, env.placeholderNotes, r.digits, r.timestep, now, false));
  }

  /** The codes of `db`, under their own keys and with their own fields, all of them time-based, and nothing else. */
  ghost predicate CodesRebuilt(env: Env, db: Db, restored: Db) {
    && (forall key :: key in restored <==> key.kind == TotpKind && CodeStored(db, key.name))
    && (forall name :: CodeStored(db, name) ==>
          && ReadStoredCode(db, name).Ok? && ReadStoredCode(restored, name).Ok?
          && SameCode(RecallCode(restored, name), RecallCode(db, name))
          && !RecallCode(restored, name).isHotp && RecallCode(restored, name).notes == env.placeholderNotes)
  }

  lemma CodesRebuiltStore(env: Env, db: Db, names: seq<string>, entries: seq<Entry>)
    requires Lists(db, TotpKind, names) && |entries| == |names|
    requires forall i :: 0 <= i < |names| ==> ReproducesCode(env, db, names[i], entries[i])
    ensures CodesRebuilt(env, db, StoreAll(map[], entries, false))
  {
    var restored := StoreAll(map[], entries, false);
    assert KeyedBy(TotpKind, names, entries) by {
      assert forall i :: 0 <= i < |names| ==> ReproducesCode(env, db, names[i], entries[i]);
    }
    StoredInEmpty(TotpKind, names, entries);
    forall name | CodeStored(db, name)
      ensures ReadStoredCode(db, name).Ok? && ReadStoredCode(restored, name).Ok?
      ensures SameCode(RecallCode(restored, name), RecallCode(db, name))
      ensures !RecallCode(restored, name).isHotp && RecallCode(restored, name).notes == env.placeholderNotes
    {
      var i :| 0 <= i < |names| && names[i] == name;
      assert ReproducesCode(env, db, names[i], entries[i]);
    }
  }

  /** What a restore makes of the codes that were carried reproduces the stored codes, in the order listed. */
  lemma RestoredCodes(env: Env, db: Db, names: seq<string>, times: seq<u64>)
    requires WellKeyedCodes(env.hash, db) && Lists(db, TotpKind, names) && |times| == |names|
    requires OneLine(env.placeholderNotes)
    requires AllCodes(db, names).Some? && AllHashed(AllCodes(db, names).value)
    ensures |AllCodes(db, names).value| == |names|
    ensures var entries := Entries(env.hash, Batch(env, Codes(Carried(AllCodes(db, names).value))), times);
            forall i :: 0 <= i < |names| ==> ReproducesCode(env, db, names[i], entries[i])
  {
    AllCodesListed(db, names);
    forall i | 0 <= i < |names|
      ensures var batch := Batch(env, Codes(Carried(AllCodes(db, names).value)));
              ReproducesCode(env, db, names[i], Entries(env.hash, batch, times)[i])
    {
      CarriedEntryAt(env, AllCodes(db, names).value, times, i);
      RestoredCodeAt(env, db, names, times, i);
    }
  }

  lemma CarriedEntryAt(env: Env, cs: seq<CodeEntry>, times: seq<u64>, i: nat)
    requires |times| == |cs| && i < |cs|
    ensures Entries(env.hash, Batch(env, Codes(Carried(cs))), times)[i]
            == EntryOf(env.hash, CodeFromEntry(env, cs[i].(hotp := false)), times[i])
  {
  }

  lemma RestoredCodeAt(env: Env, db: Db, names: seq<string>, times: seq<u64>, i: nat)
    requires WellKeyedCodes(env.hash, db) && Lists(db, TotpKind, names) && |times| == |names|
    requires OneLine(env.placeholderNotes) && i < |names|
    requires AllCodes(db, names).Some? && AllHashed(AllCodes(db, names).value)
    ensures |AllCodes(db, names).value| == |names|
    ensures var cs := AllCodes(db, names).value;
            ReproducesCode(env, db, names[i], EntryOf(env.hash, CodeFromEntry(env, cs[i].(hotp := false)), times[i]))
  {
    AllCodesListed(db, names);
    assert names[i] in names && CodeStored(db, names[i]);
    assert AllCodes(db, names).value[i].algorithm != NoAlgorithm;
    RestoredCode(env, db, names[i], times[i]);
  }

  /** No stored code has a step that a signed number cannot hold. */
  predicate StoredStepsFit(db: Db, names: seq<string>) {
    forall name :: name in names && ReadStoredCode(db, name).Ok? ==> RecallCode(db, name).timestep < STEP_LIMIT
  }

  lemma StepsFitIff(db: Db, names: seq<string>)
    requires AllCodes(db, names).Some?
    ensures StepsFit(AllCodes(db, names).value) <==> StoredStepsFit(db, names)
  {
    AllCodesListed(db, names);
    var cs := AllCodes(db, names).value;
    if StepsFit(cs) {
      forall name | name in names ensures RecallCode(db, name).timestep < STEP_LIMIT {
        var i :| 0 <= i < |names| && names[i] == name;
        assert cs[i].stepSeconds < STEP_LIMIT;
      }
    }
    if StoredStepsFit(db, names) {
      forall i | 0 <= i < |cs| ensures cs[i].stepSeconds < STEP_LIMIT {
        assert names[i] in names;
      }
    }
  }

  lemma RestoreOfCodes(env: Env, vault: Vault, empty: Vault)
    requires C.Faithful(env.codec) && OneLine(env.placeholderNotes)
    requires WellKeyedCodes(env.hash, vault.db) && Lists(vault.db, TotpKind, vault.codes) && empty.db == map[]
    requires TakeSnapshot(env, vault, CodesPayload).Bytes?
    ensures var restored := Restore(env, empty, TakeSnapshot(env, vault, CodesPayload).bytes);
            if StoredStepsFit(vault.db, vault.codes)
            then restored.Accepted? && CodesRebuilt(env, vault.db, restored.store.db)
            else restored == RestorePanics
  {
    var db, names := vault.db, vault.codes;
    var cs := AllCodes(db, names).value;
    var times := Times(|names|, empty.clock);
    CodesRoundTripIff(cs);
    assert env.codec.read(env.codec.write(PacketValue(Codes(cs)))) == Some(PacketValue(Codes(cs)));
    RestoredCodes(env, db, names, times);
    StepsFitIff(db, names);
    if StepsFit(cs) {
      CodesRebuiltStore(env, db, names, Entries(env.hash, Batch(env, Codes(Carried(cs))), times));
    }
  }

  lemma CodesSnapshotThenRestore(env: Env, vault: Vault, s: Session, ws: seq<Wire>, empty: Vault)
    requires C.Faithful(env.codec) && OneLine(env.placeholderNotes)
    requires WellKeyedCodes(env.hash, vault.db) && Lists(vault.db, TotpKind, vault.codes) && empty.db == map[]
    requires s.index == 0 && s.data == [] && CompleteTransfer(ws)
    requires TakeSnapshot(env, vault, CodesPayload) == Bytes(Joined(ws))
    ensures var (session, restored, reply) := SendWires(VaultDevice(env), empty, s, ws);
            if StoredStepsFit(vault.db, vault.codes)
            then && reply == Restored && CodesRebuilt(env, vault.db, restored.db)
                 && (KindsSurvive(vault.db, restored.db) <==> NoneCounterBased(vault.db))
            else reply == Crash && restored == empty
  {
    VaultWires(env);
    RestoreOfCodes(env, vault, empty);
    RestoreIgnoresTheCut(VaultDevice(env), empty, s, ws);
    assert s.data + Joined(ws) == Joined(ws);
    var (session, restored, reply) := SendWires(VaultDevice(env), empty, s, ws);
    if StoredStepsFit(vault.db, vault.codes) {
      KindsSurviveIff(env, vault.db, restored.db);
    }
  }

  /** The record at `i` as an entry of a packet; the step as a signed number, and no flag. */
  ghost predicate IsCodeEntry(item: C.Value, r: TotpRecord) {
    item == C.Map([(C.Unsigned(1), if r.timestep < STEP_LIMIT then C.Unsigned(r.timestep)
                                   else C.Negative(r.timestep - 0x1_0000_0000_0000_0000)),
                   (C.Unsigned(2), C.TextString(r.secret)), (C.Unsigned(3), C.Unsigned(r.digits)),
                   (C.Unsigned(4), C.Unsigned(if r.algorithm == HmacSha256 then 2
                                              else if r.algorithm == HmacSha512 then 3 else 1)),
                   (C.Unsigned(5), C.TextString(r.name))])
  }

  /** A value is the packet of the listed codes: kind 2, and an entry for each of them in order. */
  ghost predicate IsCodePacket(v: C.Value, db: Db, names: seq<string>) {
    && v.Map? && |v.pairs| == 2 && v.pairs[0] == (C.Unsigned(1), C.Unsigned(2))
    && v.pairs[1].0 == C.Unsigned(2) && v.pairs[1].1.Array? && |v.pairs[1].1.items| == |names|
    && forall i :: 0 <= i < |names| ==>
         && ReadStoredCode(db, names[i]).Ok? && RecallCode(db, names[i]).algorithm != NoAlgorithm
         && IsCodeEntry(v.pairs[1].1.items[i], RecallCode(db, names[i]))
  }

  /** The same for codes, and requests beginning with 1. */
  lemma RequestedCodes(env: Env, s: Session, vaults: seq<Vault>, ms: seq<Message>, sent: seq<Wire>)
    requires C.Faithful(env.codec) && s.chunks.None?
    requires Collects(VaultDevice(env), s, vaults, ms, sent) && ms[0].payload[0] == 1
    ensures CompleteTransfer(sent) && TakeSnapshot(env, vaults[0], CodesPayload) == Bytes(Joined(sent))
    ensures env.codec.read(Joined(sent)).Some?
    ensures IsCodePacket(env.codec.read(Joined(sent)).value, vaults[0].db, vaults[0].codes)
  {
    CollectedIsSnapshot(VaultDevice(env), s, vaults, ms, sent);
    var db, names := vaults[0].db, vaults[0].codes;
    AllCodesListed(db, names);
    var cs := AllCodes(db, names).value;
    CodesRoundTripIff(cs);
    var v := PacketValue(Codes(cs));
    assert env.codec.read(env.codec.write(v)) == Some(v);
    CodePacketIs(db, names, cs);
  }

  lemma CodePacketIs(db: Db, names: seq<string>, cs: seq<CodeEntry>)
    requires AllCodes(db, names) == Some(cs) && AllHashed(cs)
    ensures IsCodePacket(PacketValue(Codes(cs)), db, names)
  {
    AllCodesListed(db, names);
    forall i | 0 <= i < |names|
      ensures RecallCode(db, names[i]).algorithm != NoAlgorithm
      ensures IsCodeEntry(CodeValue(cs[i]), RecallCode(db, names[i]))
    {
      CodeEntryIs(cs[i], RecallCode(db, names[i]));
    }
    PairsAre([C.Unsigned(2), C.Array(Each(cs, CodeValue))]);
  }

  lemma CodeEntryIs(e: CodeEntry, r: TotpRecord)
    requires e == EntryFromCode(r) && e.algorithm != NoAlgorithm
    ensures r.algorithm != NoAlgorithm && IsCodeEntry(CodeValue(e), r)
  {
    PairsAre([C.Integer(C.AsSigned(e.stepSeconds)), C.TextString(e.secret), C.Integer(C.AsSigned(e.digits)),
              C.Unsigned(AlgorithmCode(e.algorithm)), C.TextString(e.name)]);
  }

  /**
   From the request to the restored store: whatever wires the host has collected for allowed requests
   beginning with 1, restoring what they carry into an empty store, in any session that has collected
   nothing yet, succeeds exactly when every listed step fits a signed number. Then it rebuilds every
   code under its own key, time-based, so that each has its own kind exactly if none was
   counter-based. Otherwise the handler panics on the packet it wrote itself, and nothing is stored.
   */
  lemma CodesBackupThenRestore(
      env: Env, b: Session, vaults: seq<Vault>, ms: seq<Message>, sent: seq<Wire>,
      s: Session, ws: seq<Wire>, empty: Vault)
    requires C.Faithful(env.codec) && OneLine(env.placeholderNotes) && b.chunks.None?
    requires Collects(VaultDevice(env), b, vaults, ms, sent) && ms[0].payload[0] == 1
    requires WellKeyedCodes(env.hash, vaults[0].db) && Lists(vaults[0].db, TotpKind, vaults[0].codes)
    requires empty.db == map[] && s.index == 0 && s.data == [] && CompleteTransfer(ws) && Joined(ws) == Joined(sent)
    ensures var (session, restored, reply) := SendWires(VaultDevice(env), empty, s, ws);
            if StoredStepsFit(vaults[0].db, vaults[0].codes)
            then && reply == Restored && CodesRebuilt(env, vaults[0].db, restored.db)
                 && (KindsSurvive(vaults[0].db, restored.db) <==> NoneCounterBased(vaults[0].db))
            else reply == Crash && restored == empty
  {
    RequestedCodes(env, b, vaults, ms, sent);
    CodesSnapshotThenRestore(env, vaults[0], s, ws, empty);
  }

  ghost predicate KindsSurvive(db: Db, restored: Db) {
    forall name :: CodeStored(db, name) ==>
      && ReadStoredCode(db, name).Ok? && ReadStoredCode(restored, name).Ok?
      && RecallCode(restored, name).isHotp == RecallCode(db, name).isHotp
  }

  ghost predicate NoneCounterBased(db: Db) {
    forall name :: CodeStored(db, name) ==> ReadStoredCode(db, name).Ok? && !RecallCode(db, name).isHotp
  }

  lemma KindsSurviveIff(env: Env, db: Db, restored: Db)
    requires CodesRebuilt(env, db, restored)
    ensures KindsSurvive(db, restored) <==> NoneCounterBased(db)
  {
    if KindsSurvive(db, restored) {
      forall name | CodeStored(db, name) ensures !RecallCode(db, name).isHotp {
        assert RecallCode(restored, name).isHotp == RecallCode(db, name).isHotp;
      }
    }
  }

  /** A store that holds the one code `r`, under its own key. */
  function OnlyCode(env: Env, r: TotpRecord, clock: nat -> u64): Vault {
    Vault(map[DbKey(TotpKind, env.hash(r.name)) := TotpToText(r)], [], [env.hash(r.name)], clock)
  }

  lemma OneCodeListed(env: Env, r: TotpRecord, clock: nat -> u64)
    requires TotpFromText(TotpToText(r)) == Ok(r)
    ensures var vault := OnlyCode(env, r, clock);
            && WellKeyedCodes(env.hash, vault.db) && Lists(vault.db, TotpKind, vault.codes)
            && CodeStored(vault.db, env.hash(r.name)) && ReadStoredCode(vault.db, env.hash(r.name)) == Ok(r)
            && (r.timestep < STEP_LIMIT ==> StoredStepsFit(vault.db, vault.codes))
  {
  }

  lemma OneCodeSnapshot(env: Env, r: TotpRecord, clock: nat -> u64)
    requires TotpFromText(TotpToText(r)) == Ok(r) && r.algorithm != NoAlgorithm
    ensures TakeSnapshot(env, OnlyCode(env, r, clock), CodesPayload).Bytes?
  {
    var vault := OnlyCode(env, r, clock);
    OneCodeListed(env, r, clock);
    AllCodesListed(vault.db, vault.codes);
  }

  /** A backup and a restore turn one counter-based code into a time-based one. */
  lemma CounterCodeChanges(env: Env, s: Session, r: TotpRecord, clock: nat -> u64, empty: Vault) returns (ws: seq<Wire>)
    requires C.Faithful(env.codec) && OneLine(env.placeholderNotes)
    requires TotpFromText(TotpToText(r)) == Ok(r) && r.algorithm != NoAlgorithm && r.isHotp && r.timestep < STEP_LIMIT
    requires s.index == 0 && s.data == [] && empty.db == map[]
    ensures CompleteTransfer(ws) && TakeSnapshot(env, OnlyCode(env, r, clock), CodesPayload) == Bytes(Joined(ws))
    ensures var (session, restored, reply) := SendWires(VaultDevice(env), empty, s, ws);
            && reply == Restored && ReadStoredCode(restored.db, env.hash(r.name)).Ok?
            && !RecallCode(restored.db, env.hash(r.name)).isHotp
  {
    var vault := OnlyCode(env, r, clock);
    OneCodeListed(env, r, clock);
    OneCodeSnapshot(env, r, clock);
    ws := WiresFrom(TakeSnapshot(env, vault, CodesPayload).bytes, 0);
    CodesWiresRestore(env, vault);
    CodesSnapshotThenRestore(env, vault, s, ws, empty);
  }

  /** There is such a code. */
  lemma CounterCodeHappens(env: Env, s: Session, clock: nat -> u64, empty: Vault)
    returns (r: TotpRecord, ws: seq<Wire>)
    requires C.Faithful(env.codec) && OneLine(env.placeholderNotes)
    requires s.index == 0 && s.data == [] && empty.db == map[]
    ensures r.isHotp && ReadStoredCode(OnlyCode(env, r, clock).db, env.hash(r.name)) == Ok(r)
    ensures CompleteTransfer(ws) && TakeSnapshot(env, OnlyCode(env, r, clock), CodesPayload) == Bytes(Joined(ws))
    ensures var (session, restored, reply) := SendWires(VaultDevice(env), empty, s, ws);
            && reply == Restored && ReadStoredCode(restored.db, env.hash(r.name)).Ok?
            && !RecallCode(restored.db, env.hash(r.name)).isHotp
  {
    r := TotpRecord(2, "s", "n", HmacSha1, "", 6, 0, 0, true);
    TotpRoundTrip(BLANK_TOTP, r);
    OneCodeListed(env, r, clock);
    ws := CounterCodeChanges(env, s, r, clock, empty);
  }

  /** The wires of a snapshot of the codes are a complete cut of it. */
  lemma CodesWiresRestore(env: Env, vault: Vault)
    requires C.Faithful(env.codec) && TakeSnapshot(env, vault, CodesPayload).Bytes?
    ensures var bytes := TakeSnapshot(env, vault, CodesPayload).bytes;
            CompleteTransfer(WiresFrom(bytes, 0)) && Joined(WiresFrom(bytes, 0)) == bytes
  {
    CodesRoundTripIff(AllCodes(vault.db, vault.codes).value);
    WiresCarryTheBytes(TakeSnapshot(env, vault, CodesPayload).bytes, 0);
  }

  // ----- crashes of the whole handler

  /**
   The vault's handler crashes exactly on: a payload that reads as a map and panics as a wire, under any
   command; with consent, the last payload of a restore whose collected bytes panic as a packet; and,
   with consent, a backup that has to take a snapshot of an unknown kind or of a code without algorithm.
   */
  lemma VaultCrashIff(env: Env, vault: Vault, s: Session, m: Message)
    requires s.index == 0
    ensures HandleMessage(VaultDevice(env), vault, s, m).2 == Crash <==>
            && m.command != COMMAND_RESET
            && match RequestedType(m.payload)
               case Some(kind) =>
                 && m.allowed
                 && if m.command == COMMAND_RESTORE then PacketIn(env, s.data) == C.Panics
                    else && m.command == COMMAND_BACKUP && s.chunks.None?
                         && TakeSnapshot(env, vault, kind) == AlgorithmPanic
               case None =>
                 match ReadPayload(env.codec, m.payload)
                 case Panics => true
                 case Rejected => false
                 case Converted(w) =>
                   && m.allowed && !w.moreData
                   && if m.command == COMMAND_RESTORE then PacketIn(env, s.data + w.data) == C.Panics
                      else m.command == COMMAND_BACKUP && SnapshotCrashes(VaultDevice(env), vault, s)
  {
    CrashIff(VaultDevice(env), vault, s, m);
  }

  /** An empty CBOR map sent as the only wire of an allowed restore is such a crash. */
  lemma RestoreCrashHappens(env: Env, vault: Vault)
    requires C.Faithful(env.codec)
    ensures var w := Wire(0, 1, false, [0xA0]);
            SendWires(VaultDevice(env), vault, FRESH, [w]).2 == Crash
  {
    var w := Wire(0, 1, false, [0xA0]);
    VaultWires(env);
    C.EmptyMapReads(env.codec);
    C.NoFields(C.Keys(2));
    PacketPanicsIff(C.Map([]));
    RestoreIgnoresTheCut(VaultDevice(env), vault, FRESH, [w]);
    assert FRESH.data + Joined([w]) == [0xA0] by {
      assert [w][1..] == [];
    }
  }
}
