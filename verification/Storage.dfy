/**
 The record store: a map from (dictionary, key name) to record text. A record's key name is the
 hex SHA-256 of its identifying fields, here an arbitrary function `hash` on their concatenation.
 */
module Storage {
  import opened Wrappers
  import opened RecordCodec

  datatype Kind = TotpKind | PasswordKind

  datatype DbKey = DbKey(kind: Kind, name: string)

  type Db = map<DbKey, string>

  datatype Content = Code(totp: TotpRecord) | Login(password: PasswordRecord)

  function KindOf(c: Content): Kind { if c.Code? then TotpKind else PasswordKind }

  function SetCtime(c: Content, now: u64): Content {
    match c
    case Code(r) => Code(r.(ctime := now))
    case Login(r) => Login(r.(ctime := now))
  }

  function ToText(c: Content): string {
    match c
    case Code(r) => TotpToText(r)
    case Login(r) => PasswordToText(r)
  }

  /** What is hashed; the creation time is not part of it. */
  function Identity(c: Content): string {
    match c
    case Code(r) => r.name
    case Login(r) => r.description + r.username
  }

  function KeyOf(hash: string -> string, c: Content): DbKey { DbKey(KindOf(c), hash(Identity(c))) }

  /** What a record amounts to in the store: its key and, once its creation time is set, its text. */
  datatype Entry = Entry(key: DbKey, text: string)

  function EntryOf(hash: string -> string, c: Content, now: u64): Entry {
    Entry(KeyOf(hash, c), ToText(SetCtime(c, now)))
  }

  function Entries(hash: string -> string, batch: seq<Content>, times: seq<u64>): (es: seq<Entry>)
    requires |times| == |batch|
    ensures |es| == |batch|
  {
    seq(|batch|, i requires 0 <= i < |batch| => EntryOf(hash, batch[i], times[i]))
  }

  datatype StoreError = KeyExists | NotFound | Malformed

  function StoreOne(db: Db, e: Entry, overwrite: bool): Result<Db, StoreError> {
    if !overwrite && e.key in db then Err(KeyExists) else Ok(db[e.key := e.text])
  }

  /** The store after a batch, record by record; a record whose key exists is skipped unless overwriting. */
  function StoreAll(db: Db, batch: seq<Entry>, overwrite: bool): Db {
    if batch == [] then db
    else
      var n := |batch| - 1;
      var before := StoreAll(db, batch[..n], overwrite);
      match StoreOne(before, batch[n], overwrite)
      case Ok(after) => after
      case Err(_) => before
  }

  /** The positions whose key was already present when their turn came. */
  function Duplicates(db: Db, batch: seq<Entry>): seq<nat> {
    if batch == [] then []
    else
      var n := |batch| - 1;
      if batch[n].key in StoreAll(db, batch[..n], false) then Duplicates(db, batch[..n]) + [n]
      else Duplicates(db, batch[..n])
  }

  lemma BatchStep(db: Db, batch: seq<Entry>, i: nat)
    requires i < |batch|
    ensures var before := StoreAll(db, batch[..i], false);
            && StoreAll(db, batch[..i + 1], false) ==
               (match StoreOne(before, batch[i], false) case Ok(after) => after case Err(_) => before)
            && Duplicates(db, batch[..i + 1]) == Duplicates(db, batch[..i]) + if batch[i].key in before then [i] else []
    ensures StoreAll(db, batch[..i + 1], true) == StoreOne(StoreAll(db, batch[..i], true), batch[i], true).value
  {
    assert batch[..i + 1][..i] == batch[..i];
  }

  predicate Mentions(batch: seq<Entry>, key: DbKey) {
    exists i :: 0 <= i < |batch| && batch[i].key == key
  }

  /** The key of entry `i` is stored, or an earlier entry of the batch has it. */
  predicate SeenBefore(db: Db, batch: seq<Entry>, i: nat)
    requires i < |batch|
  {
    batch[i].key in db || Mentions(batch[..i], batch[i].key)
  }

  lemma MentionsLast(batch: seq<Entry>, key: DbKey)
    requires batch != []
    ensures Mentions(batch, key) <==> Mentions(batch[..|batch| - 1], key) || batch[|batch| - 1].key == key
  {
    var init := batch[..|batch| - 1];
    assert forall i :: 0 <= i < |init| ==> init[i] == batch[i];
  }

  /** A batch adds exactly its keys and leaves every stored value as it was. */
  lemma {:induction false} BatchKeepsStored(db: Db, batch: seq<Entry>)
    ensures var after := StoreAll(db, batch, false);
            && (forall k :: k in after <==> k in db || Mentions(batch, k))
            && (forall k :: k in db ==> after[k] == db[k])
  {
    if batch != [] {
      BatchKeepsStored(db, batch[..|batch| - 1]);
      forall k: DbKey {
        MentionsLast(batch, k);
      }
    }
  }

  /** Each new key is stored with the text of its first occurrence in the batch. */
  lemma {:induction false} BatchStoresFirst(db: Db, batch: seq<Entry>, i: nat)
    requires i < |batch| && !SeenBefore(db, batch, i)
    ensures var after := StoreAll(db, batch, false);
            batch[i].key in after && after[batch[i].key] == batch[i].text
  {
    var n := |batch| - 1;
    BatchKeepsStored(db, batch[..n]);
    if i < n {
      assert batch[..n][..i] == batch[..i];
      BatchStoresFirst(db, batch[..n], i);
    }
  }

  /** A key the batch added is stored with the text of one of its entries. */
  lemma {:induction false} BatchTexts(db: Db, batch: seq<Entry>, key: DbKey) returns (i: nat)
    requires key in StoreAll(db, batch, false) && key !in db
    ensures i < |batch| && batch[i].key == key && StoreAll(db, batch, false)[key] == batch[i].text
  {
    var n := |batch| - 1;
    if key in StoreAll(db, batch[..n], false) {
      i := BatchTexts(db, batch[..n], key);
    } else {
      i := n;
    }
  }

  /** The reported duplicates are, in ascending order, exactly the positions stored or seen before. */
  lemma {:induction false} DuplicatesExact(db: Db, batch: seq<Entry>)
    ensures var d := Duplicates(db, batch);
            && (forall i, j :: 0 <= i < j < |d| ==> d[i] < d[j])
            && (forall i :: i in d <==> 0 <= i < |batch| && SeenBefore(db, batch, i))
  {
    if batch != [] {
      var n := |batch| - 1;
      var init := batch[..n];
      DuplicatesExact(db, init);
      BatchKeepsStored(db, init);
      forall i | 0 <= i < n ensures SeenBefore(db, batch, i) <==> SeenBefore(db, init, i) {
        assert init[..i] == batch[..i];
      }
      var e := Duplicates(db, init);
      forall i | 0 <= i < |e| ensures e[i] < n {
        assert e[i] in e;
      }
    }
  }

  /** A batch all of whose keys are stored changes nothing. */
  lemma {:induction false} KnownBatchIsNoop(db: Db, batch: seq<Entry>)
    requires forall i :: 0 <= i < |batch| ==> batch[i].key in db
    ensures StoreAll(db, batch, false) == db
  {
    if batch != [] {
      KnownBatchIsNoop(db, batch[..|batch| - 1]);
    }
  }

  /** Repeating a batch, with whatever later creation times, changes nothing and reports every position. */
  lemma RepeatedBatchIsNoop(db: Db, batch: seq<Entry>, again: seq<Entry>)
    requires |again| == |batch| && forall i :: 0 <= i < |batch| ==> again[i].key == batch[i].key
    ensures var once := StoreAll(db, batch, false);
            && StoreAll(once, again, false) == once
            && forall i :: i in Duplicates(once, again) <==> 0 <= i < |batch|
  {
    var once := StoreAll(db, batch, false);
    BatchKeepsStored(db, batch);
    assert forall i :: 0 <= i < |batch| ==> Mentions(batch, batch[i].key);
    KnownBatchIsNoop(once, again);
    DuplicatesExact(once, again);
    assert forall i :: 0 <= i < |again| ==> SeenBefore(once, again, i);
  }

  class Manager {
    const hash: string -> string
    var db: Db

    constructor (hash: string -> string)
      ensures this.hash == hash && db == map[]
    {
      this.hash := hash;
      db := map[];
    }

    method NewRecord(c: Content, now: u64, overwrite: bool) returns (r: Result<(), StoreError>)
      modifies `db
      ensures match StoreOne(old(db), EntryOf(hash, c, now), overwrite)
              case Ok(after) => r == Ok(()) && db == after
              case Err(e) => r == Err(e) && db == old(db)
    {
      r := Put(EntryOf(hash, c, now), overwrite);
    }

    method Put(entry: Entry, overwrite: bool) returns (r: Result<(), StoreError>)
      modifies `db
      ensures match StoreOne(old(db), entry, overwrite)
              case Ok(after) => r == Ok(()) && db == after
              case Err(e) => r == Err(e) && db == old(db)
    {
      if !overwrite && entry.key in db {
        return Err(KeyExists);
      }
      db := db[entry.key := entry.text];
      return Ok(());
    }

    /** Duplicates do not stop the batch; the positions are reported at the end. */
    method NewRecords(batch: seq<Content>, times: seq<u64>, overwrite: bool) returns (dupes: seq<nat>)
      requires |times| == |batch|
      modifies `db
      ensures db == StoreAll(old(db), Entries(hash, batch, times), overwrite)
      ensures dupes == if overwrite then [] else Duplicates(old(db), Entries(hash, batch, times))
    {
      ghost var entries := Entries(hash, batch, times);
      dupes := [];
      for i := 0 to |batch|
        invariant db == StoreAll(old(db), entries[..i], overwrite)
        invariant dupes == if overwrite then [] else Duplicates(old(db), entries[..i])
      {
        BatchStep(old(db), entries, i);
        var r := NewRecord(batch[i], times[i], overwrite);
        if r.Err? {
          dupes := dupes + [i];
        }
      }
      assert entries[..|batch|] == entries;
    }

    method GetPassword(name: string) returns (r: Result<PasswordRecord, StoreError>)
      ensures r == ReadStoredPassword(db, name)
    {
      if DbKey(PasswordKind, name) !in db {
        return Err(NotFound);
      }
      var parsed := ParseText(PASSWORD_TAGS, SetPasswordField, BLANK_PASSWORD, db[DbKey(PasswordKind, name)]);
      if parsed.Err? {
        return Err(Malformed);
      }
      return Ok(parsed.value);
    }

    method GetCode(name: string) returns (r: Result<TotpRecord, StoreError>)
      ensures r == ReadStoredCode(db, name)
    {
      if DbKey(TotpKind, name) !in db {
        return Err(NotFound);
      }
      var parsed := ParseText(TOTP_TAGS, SetTotpField, BLANK_TOTP, db[DbKey(TotpKind, name)]);
      if parsed.Err? {
        return Err(Malformed);
      }
      return Ok(parsed.value);
    }

    /** Deletes the record under its old key and stores the new one under its own. */
    method Update(name: string, c: Content, now: u64) returns (r: Result<(), StoreError>)
      modifies `db
      ensures var was := DbKey(KindOf(c), name);
              if was !in old(db) then r == Err(NotFound) && db == old(db)
              else r == Ok(()) && db == StoreOne(old(db) - {was}, EntryOf(hash, c, now), true).value
    {
      var was := DbKey(KindOf(c), name);
      if was !in db {
        return Err(NotFound);
      }
      db := db - {was};
      r := NewRecord(c, now, true);
    }

    method Delete(kind: Kind, name: string) returns (r: Result<(), StoreError>)
      modifies `db
      ensures r == if DbKey(kind, name) in old(db) then Ok(()) else Err(NotFound)
      ensures db == old(db) - {DbKey(kind, name)}
    {
      if DbKey(kind, name) !in db {
        return Err(NotFound);
      }
      db := db - {DbKey(kind, name)};
      return Ok(());
    }
  }

  function ReadStoredPassword(db: Db, name: string): Result<PasswordRecord, StoreError> {
    var key := DbKey(PasswordKind, name);
    if key !in db then Err(NotFound)
    else
      match PasswordFromText(db[key])
      case Ok(r) => Ok(r)
      case Err(_) => Err(Malformed)
  }

  predicate Stored(db: Db, name: string) { DbKey(PasswordKind, name) in db }

  function Recall(db: Db, name: string): PasswordRecord
    requires ReadStoredPassword(db, name).Ok?
  {
    ReadStoredPassword(db, name).value
  }

  /** Every stored password parses and is stored under the hash of its own identity. */
  ghost predicate WellKeyed(hash: string -> string, db: Db) {
    forall name :: Stored(db, name) ==>
      && ReadStoredPassword(db, name).Ok?
      && name == hash(Identity(Login(Recall(db, name))))
  }

  // ----- codes

  predicate CodeStored(db: Db, name: string) { DbKey(TotpKind, name) in db }

  function ReadStoredCode(db: Db, name: string): Result<TotpRecord, StoreError> {
    if DbKey(TotpKind, name) !in db then Err(NotFound)
    else
      match TotpFromText(db[DbKey(TotpKind, name)])
      case Ok(r) => Ok(r)
      case Err(_) => Err(Malformed)
  }

  function RecallCode(db: Db, name: string): TotpRecord
    requires ReadStoredCode(db, name).Ok?
  {
    ReadStoredCode(db, name).value
  }

  /** Every stored code parses and is stored under the hash of its own name. */
  ghost predicate WellKeyedCodes(hash: string -> string, db: Db) {
    forall name :: CodeStored(db, name) ==>
      && ReadStoredCode(db, name).Ok?
      && name == hash(Identity(Code(RecallCode(db, name))))
  }
}
