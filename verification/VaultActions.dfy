/**
 The password actions of the vault. Each keeps the display cache in step with the record store
 without reloading it, and asserts at run time that the entry it touches was there.
 */
module VaultActions {
  import opened Wrappers
  import opened RecordCodec
  import opened ItemCache
  import opened Storage

  /** Lower-casing and the hex hash of a record's identity; nothing is assumed about either. */
  datatype Env = Env(lower: string -> string, hash: string -> string)

  datatype VaultState = VaultState(cache: map<ListKey, ListItem>, db: Db)

  /** Reported: an error was shown. Panicked: a run-time assertion failed. */
  datatype Outcome = Done | Reported | Aborted | Panicked

  function CacheKey(env: Env, name: string, r: PasswordRecord): ListKey {
    KeyFromParts(env.lower, r.description, name)
  }

  function MakeItem(env: Env, name: string, r: PasswordRecord, extra: string): ListItem {
    NewItem(env.lower, r.description, extra, name, r.atime, r.count)
  }

  // ----- what each action does

  function Add(env: Env, s: VaultState, r: PasswordRecord, now: u64, extra: string): VaultState {
    var entry := EntryOf(env.hash, Login(r), now);
    var item := MakeItem(env, entry.key.name, r, extra);
    VaultState(s.cache[item.Key() := item], StoreOne(s.db, entry, true).value)
  }

  function Delete(env: Env, s: VaultState, name: string): (VaultState, Outcome) {
    match ReadStoredPassword(s.db, name)
    case Err(_) => (s, Reported)
    case Ok(r) =>
      var key := CacheKey(env, name, r);
      if key !in s.cache then (s, Panicked)
      else (VaultState(s.cache - {key}, s.db - {DbKey(PasswordKind, name)}), Done)
  }

  datatype Edit = Edit(description: string, username: string, password: string, notes: string)

  /** An edit counts as an access; the counter wraps at 64 bits. */
  function Edited(r: PasswordRecord, e: Edit, now: u64): PasswordRecord {
    r.(description := e.description, username := e.username, password := e.password, notes := e.notes,
       atime := now, count := (r.count + 1) % 0x1_0000_0000_0000_0000)
  }

  /** The edit dialogue; `None` when a dialogue of it fails after the cache entry was removed. */
  function MenuEdit(
      env: Env, s: VaultState, name: string, edit: Option<Edit>, now: u64, extra: string): (VaultState, Outcome)
  {
    match ReadStoredPassword(s.db, name)
    case Err(_) => (s, Reported)
    case Ok(r) =>
      var key := CacheKey(env, name, r);
      if key !in s.cache then (s, Panicked)
      else
        match edit
        case None => (VaultState(s.cache - {key}, s.db), Aborted)
        case Some(e) =>
          var dropped := VaultState(s.cache - {key}, s.db - {DbKey(PasswordKind, name)});
          (Add(env, dropped, Edited(r, e, now), now, extra), Done)
  }

  function UpdateEntry(env: Env, s: VaultState, name: string, extra: string): (VaultState, Outcome) {
    match ReadStoredPassword(s.db, name)
    case Err(_) => (s, Reported)
    case Ok(r) =>
      var item := MakeItem(env, name, r, extra);
      (VaultState(s.cache[item.Key() := item], s.db), if item.Key() in s.cache then Done else Panicked)
  }

  /** The handler runs the edit dialogue and then refreshes the entry that was selected for editing. */
  function HandleEdit(
      env: Env, s: VaultState, name: string, edit: Option<Edit>, now: u64, extra: string): (VaultState, Outcome)
  {
    var (after, outcome) := MenuEdit(env, s, name, edit, now, extra);
    if outcome == Panicked then (after, Panicked) else UpdateEntry(env, after, name, extra)
  }

  /** A row of the password dictionary; `None` when its data did not fit the read-out buffer. */
  datatype Row = Row(name: string, data: Option<string>)

  function ParsedRow(row: Row): Option<PasswordRecord> {
    match row.data
    case None => None
    case Some(text) =>
      match PasswordFromText(text)
      case Ok(r) => Some(r)
      case Err(_) => None
  }

  /** A cached entry is refreshed in place, a missing one is appended. */
  function LoadRecord(env: Env, cache: map<ListKey, ListItem>, name: string, r: PasswordRecord)
    : map<ListKey, ListItem>
  {
    var key := CacheKey(env, name, r);
    if key in cache then
      var prev := cache[key];
      var extra := if prev.atime != r.atime || prev.count != r.count then r.username else prev.extra;
      cache[key := MakeItem(env, name, r, extra)]
    else cache[key := MakeItem(env, name, r, r.username)]
  }

  function LoadRows(env: Env, cache: map<ListKey, ListItem>, rows: seq<Row>): map<ListKey, ListItem> {
    if rows == [] then cache
    else
      var n := |rows| - 1;
      var before := LoadRows(env, cache, rows[..n]);
      match ParsedRow(rows[n])
      case Some(r) => LoadRecord(env, before, rows[n].name, r)
      case None => before
  }

  // ----- agreement of cache and store

  predicate Mirrors(item: ListItem, r: PasswordRecord) {
    item.name == r.description && item.atime == r.atime && item.count == r.count
  }

  ghost predicate CacheCovers(env: Env, s: VaultState)
    requires WellKeyed(env.hash, s.db)
  {
    forall name :: Stored(s.db, name) ==>
      var key := CacheKey(env, name, Recall(s.db, name));
      key in s.cache && Mirrors(s.cache[key], Recall(s.db, name))
  }

  ghost predicate CacheBacked(env: Env, s: VaultState)
    requires WellKeyed(env.hash, s.db)
  {
    forall key :: key in s.cache ==>
      Stored(s.db, key.guid) && key == CacheKey(env, key.guid, Recall(s.db, key.guid))
  }

  /** The cache's keys are exactly those of the stored records, and its entries show their data. */
  ghost predicate Agree(env: Env, s: VaultState) {
    WellKeyed(env.hash, s.db) && CacheCovers(env, s) && CacheBacked(env, s)
  }

  /** Storing under `name` would not displace a record listed under another description. */
  predicate NoAlias(env: Env, db: Db, name: string, description: string) {
    Stored(db, name) ==>
      match ReadStoredPassword(db, name)
      case Ok(r) => env.lower(r.description) == env.lower(description)
      case Err(_) => true
  }

  function NewName(env: Env, r: PasswordRecord): string { env.hash(Identity(Login(r))) }

  // ----- each action keeps agreement

  /** The record just stored reads back as itself; every other record reads as before. */
  lemma ReadAfterStore(env: Env, db: Db, r: PasswordRecord, now: u64, name: string)
    requires r.TextOnOneLine()
    ensures var db' := StoreOne(db, EntryOf(env.hash, Login(r), now), true).value;
            && (Stored(db', name) <==> Stored(db, name) || name == NewName(env, r))
            && ReadStoredPassword(db', name) ==
               if name == NewName(env, r) then Ok(r.(ctime := now)) else ReadStoredPassword(db, name)
  {
    PasswordRoundTrip(BLANK_PASSWORD, r.(ctime := now));
  }

  lemma AddKeepsWellKeyed(env: Env, db: Db, r: PasswordRecord, now: u64)
    requires WellKeyed(env.hash, db) && r.TextOnOneLine()
    ensures WellKeyed(env.hash, StoreOne(db, EntryOf(env.hash, Login(r), now), true).value)
  {
    forall name: string {
      ReadAfterStore(env, db, r, now, name);
    }
  }

  lemma AddCovers(env: Env, s: VaultState, r: PasswordRecord, now: u64, extra: string, name: string)
    requires Agree(env, s) && r.TextOnOneLine()
    requires var s' := Add(env, s, r, now, extra); WellKeyed(env.hash, s'.db) && Stored(s'.db, name)
    ensures var s' := Add(env, s, r, now, extra);
            var key := CacheKey(env, name, Recall(s'.db, name));
            key in s'.cache && Mirrors(s'.cache[key], Recall(s'.db, name))
  {
    ReadAfterStore(env, s.db, r, now, name);
  }

  lemma AddBacked(env: Env, s: VaultState, r: PasswordRecord, now: u64, extra: string, key: ListKey)
    requires Agree(env, s) && r.TextOnOneLine() && NoAlias(env, s.db, NewName(env, r), r.description)
    requires var s' := Add(env, s, r, now, extra); WellKeyed(env.hash, s'.db) && key in s'.cache
    ensures var s' := Add(env, s, r, now, extra);
            Stored(s'.db, key.guid) && key == CacheKey(env, key.guid, Recall(s'.db, key.guid))
  {
    ReadAfterStore(env, s.db, r, now, key.guid);
  }

  lemma AddKeepsAgreement(env: Env, s: VaultState, r: PasswordRecord, now: u64, extra: string)
    requires Agree(env, s) && r.TextOnOneLine() && NoAlias(env, s.db, NewName(env, r), r.description)
    ensures Agree(env, Add(env, s, r, now, extra))
  {
    var s' := Add(env, s, r, now, extra);
    AddKeepsWellKeyed(env, s.db, r, now);
    forall name | Stored(s'.db, name)
      ensures var key := CacheKey(env, name, Recall(s'.db, name));
              key in s'.cache && Mirrors(s'.cache[key], Recall(s'.db, name))
    {
      AddCovers(env, s, r, now, extra, name);
    }
    forall key | key in s'.cache
      ensures Stored(s'.db, key.guid) && key == CacheKey(env, key.guid, Recall(s'.db, key.guid))
    {
      AddBacked(env, s, r, now, extra, key);
    }
  }

  lemma AddUnderAliasDisagrees(env: Env, s: VaultState, r: PasswordRecord, now: u64, extra: string)
    requires Agree(env, s) && r.TextOnOneLine() && !NoAlias(env, s.db, NewName(env, r), r.description)
    ensures !Agree(env, Add(env, s, r, now, extra))
  {
    var s' := Add(env, s, r, now, extra);
    var name := NewName(env, r);
    ReadAfterStore(env, s.db, r, now, name);
    var stale := CacheKey(env, name, Recall(s.db, name));
    assert stale in s.cache && stale in s'.cache;
    assert stale != CacheKey(env, name, Recall(s'.db, name));
  }

  /** Adding keeps agreement exactly when it displaces no record listed under another description. */
  lemma AddKeepsAgreementIff(env: Env, s: VaultState, r: PasswordRecord, now: u64, extra: string)
    requires Agree(env, s) && r.TextOnOneLine()
    ensures Agree(env, Add(env, s, r, now, extra)) <==> NoAlias(env, s.db, NewName(env, r), r.description)
  {
    if NoAlias(env, s.db, NewName(env, r), r.description) {
      AddKeepsAgreement(env, s, r, now, extra);
    } else {
      AddUnderAliasDisagrees(env, s, r, now, extra);
    }
  }

  lemma ReadAfterDelete(db: Db, gone: string, name: string)
    ensures var db' := db - {DbKey(PasswordKind, gone)};
            && (Stored(db', name) <==> Stored(db, name) && name != gone)
            && ReadStoredPassword(db', name) == if name == gone then Err(NotFound) else ReadStoredPassword(db, name)
  {
  }

  /** Taking a stored record out of both keeps agreement. */
  lemma DropKeepsAgreement(env: Env, s: VaultState, name: string)
    requires Agree(env, s) && Stored(s.db, name)
    ensures var key := CacheKey(env, name, Recall(s.db, name));
            && key in s.cache
            && Agree(env, VaultState(s.cache - {key}, s.db - {DbKey(PasswordKind, name)}))
  {
    forall other: string {
      ReadAfterDelete(s.db, name, other);
    }
  }

  /** Deleting never fails its assertion, and keeps agreement. */
  lemma DeleteKeepsAgreement(env: Env, s: VaultState, name: string)
    requires Agree(env, s)
    ensures var (s', outcome) := Delete(env, s, name);
            && Agree(env, s')
            && outcome == (if Stored(s.db, name) then Done else Reported)
            && !Stored(s'.db, name)
            && s'.cache == (if Stored(s.db, name)
                            then s.cache - {ListKey(env.lower(Recall(s.db, name).description), name)} else s.cache)
            && forall other :: other != name ==> ReadStoredPassword(s'.db, other) == ReadStoredPassword(s.db, other)
  {
    if Stored(s.db, name) {
      DropKeepsAgreement(env, s, name);
      forall other: string {
        ReadAfterDelete(s.db, name, other);
      }
    }
  }

  ghost predicate EditOnOneLine(e: Edit) {
    OneLine(e.description) && OneLine(e.username) && OneLine(e.password) && OneLine(e.notes)
  }

  /** A refresh of an agreeing cache neither panics nor disturbs agreement. */
  lemma RefreshKeepsAgreement(env: Env, s: VaultState, name: string, extra: string)
    requires Agree(env, s)
    ensures var (s', outcome) := UpdateEntry(env, s, name, extra);
            Agree(env, s') && outcome != Panicked && s'.db == s.db && s'.cache.Keys == s.cache.Keys
  {
  }

  /**
   A completed edit, whether or not it moves the record to a new key, never fails an assertion,
   and keeps agreement exactly when the new key displaces no record listed under another description.
   */
  lemma EditKeepsAgreementIff(env: Env, s: VaultState, name: string, e: Edit, now: u64, extra: string)
    requires Agree(env, s) && Stored(s.db, name) && EditOnOneLine(e)
    ensures var r := Edited(Recall(s.db, name), e, now);
            var (s', outcome) := HandleEdit(env, s, name, Some(e), now, extra);
            && outcome != Panicked
            && (Agree(env, s') <==>
                  NewName(env, r) == name || NoAlias(env, s.db, NewName(env, r), r.description))
  {
    var r := Edited(Recall(s.db, name), e, now);
    var key := CacheKey(env, name, Recall(s.db, name));
    var dropped := VaultState(s.cache - {key}, s.db - {DbKey(PasswordKind, name)});
    DropKeepsAgreement(env, s, name);
    AddKeepsAgreementIff(env, dropped, r, now, extra);
    ReadAfterDelete(s.db, name, NewName(env, r));
    ReadAfterDelete(s.db, name, name);
    RefreshAfterEdit(env, dropped, r, now, extra, name);
  }

  /** The refresh that follows an edit finds the entry just made, or no record under the old key. */
  lemma RefreshAfterEdit(env: Env, dropped: VaultState, r: PasswordRecord, now: u64, extra: string, name: string)
    requires Agree(env, dropped) && r.TextOnOneLine() && !Stored(dropped.db, name)
    ensures var mid := Add(env, dropped, r, now, extra);
            var (after, outcome) := UpdateEntry(env, mid, name, extra);
            outcome != Panicked && (Agree(env, after) <==> Agree(env, mid))
  {
    var mid := Add(env, dropped, r, now, extra);
    ReadAfterStore(env, dropped.db, r, now, name);
    if NewName(env, r) == name {
      AddKeepsAgreement(env, dropped, r, now, extra);
      RefreshKeepsAgreement(env, mid, name, extra);
    }
  }

  /** After an abandoned edit the handler's own refresh finds the entry gone and fails its assertion. */
  lemma AbandonedEditPanics(env: Env, s: VaultState, name: string, now: u64, extra: string)
    requires Agree(env, s) && Stored(s.db, name)
    ensures var was := Recall(s.db, name);
            var (after, outcome) := HandleEdit(env, s, name, None, now, extra);
            && outcome == Panicked && after.db == s.db
            && after.cache == s.cache[ListKey(env.lower(was.description), name) :=
                                      ListItem(was.description, env.lower(was.description), extra, name, was.atime,
                                               was.count)]
  {
  }

  /** From agreement, an edit fails an assertion exactly when it is abandoned on a stored record. */
  lemma EditPanicsIff(env: Env, s: VaultState, name: string, edit: Option<Edit>, now: u64, extra: string)
    requires Agree(env, s) && (edit.Some? ==> EditOnOneLine(edit.value))
    ensures HandleEdit(env, s, name, edit, now, extra).1 == Panicked <==> edit.None? && Stored(s.db, name)
  {
    if Stored(s.db, name) && edit.Some? {
      EditKeepsAgreementIff(env, s, name, edit.value, now, extra);
    } else if Stored(s.db, name) {
      AbandonedEditPanics(env, s, name, now, extra);
    }
  }

  // ----- what the user finds afterwards

  /** The entry of a password record, with the given wording of its second line. */
  function Shown(env: Env, name: string, r: PasswordRecord, extra: string): ListItem {
    ListItem(r.description, env.lower(r.description), extra, name, r.atime, r.count)
  }

  /** An added password is stored under the hash of its description and username, and listed; nothing else changes. */
  lemma AddReadsBack(env: Env, s: VaultState, r: PasswordRecord, now: u64, extra: string, other: string)
    requires r.TextOnOneLine()
    ensures var after := Add(env, s, r, now, extra);
            var name := env.hash(r.description + r.username);
            && ReadStoredPassword(after.db, name) == Ok(r.(ctime := now))
            && (other != name ==> ReadStoredPassword(after.db, other) == ReadStoredPassword(s.db, other))
            && after.cache == s.cache[ListKey(env.lower(r.description), name) := Shown(env, name, r, extra)]
  {
    ReadAfterStore(env, s.db, r, now, NewName(env, r));
    ReadAfterStore(env, s.db, r, now, other);
  }

  /**
   A completed edit, told from what was typed: the record with those texts, accessed now and once more
   often, is stored under the hash of its description and username, nothing is left under the old name
   if that is another, and other names read as before.
   */
  lemma EditReadsBack(env: Env, s: VaultState, name: string, e: Edit, now: u64, extra: string, other: string)
    requires Agree(env, s) && Stored(s.db, name) && EditOnOneLine(e)
    ensures var was := Recall(s.db, name);
            var (after, outcome) := HandleEdit(env, s, name, Some(e), now, extra);
            var newName := env.hash(e.description + e.username);
            && outcome == (if newName == name then Done else Reported)
            && ReadStoredPassword(after.db, newName) ==
               Ok(PasswordRecord(was.version, e.description, e.username, e.password, e.notes, now, now,
                                 (was.count + 1) % 0x1_0000_0000_0000_0000))
            && (other != newName ==>
                  ReadStoredPassword(after.db, other) ==
                  if other == name then Err(NotFound) else ReadStoredPassword(s.db, other))
  {
    var dropped := VaultState(s.cache - {CacheKey(env, name, Recall(s.db, name))}, s.db - {DbKey(PasswordKind, name)});
    ReadAfterDelete(s.db, name, name);
    ReadAfterDelete(s.db, name, other);
    var r := Edited(Recall(s.db, name), e, now);
    AddReadsBack(env, dropped, r, now, extra, name);
    AddReadsBack(env, dropped, r, now, extra, other);
    EditAdds(env, s, name, e, now, extra);
    RefreshShows(env, Add(env, dropped, r, now, extra), name, extra);
  }

  /** And the list shows it in place of the old entry, the others as before. */
  lemma EditShows(env: Env, s: VaultState, name: string, e: Edit, now: u64, extra: string)
    requires Agree(env, s) && Stored(s.db, name) && EditOnOneLine(e)
    ensures var was := Recall(s.db, name);
            var newName := env.hash(e.description + e.username);
            HandleEdit(env, s, name, Some(e), now, extra).0.cache ==
            (s.cache - {ListKey(env.lower(was.description), name)})
              [ListKey(env.lower(e.description), newName) :=
               ListItem(e.description, env.lower(e.description), extra, newName, now,
                        (was.count + 1) % 0x1_0000_0000_0000_0000)]
  {
    var dropped := VaultState(s.cache - {CacheKey(env, name, Recall(s.db, name))}, s.db - {DbKey(PasswordKind, name)});
    var r := Edited(Recall(s.db, name), e, now);
    ReadAfterDelete(s.db, name, name);
    AddReadsBack(env, dropped, r, now, extra, name);
    EditAdds(env, s, name, e, now, extra);
    RefreshShows(env, Add(env, dropped, r, now, extra), name, extra);
  }

  /** The edit is a removal, an addition and a refresh. */
  lemma EditAdds(env: Env, s: VaultState, name: string, e: Edit, now: u64, extra: string)
    requires Agree(env, s) && Stored(s.db, name)
    ensures var was := Recall(s.db, name);
            var dropped := VaultState(s.cache - {CacheKey(env, name, was)}, s.db - {DbKey(PasswordKind, name)});
            HandleEdit(env, s, name, Some(e), now, extra) ==
            UpdateEntry(env, Add(env, dropped, Edited(was, e, now), now, extra), name, extra)
  {
    assert CacheKey(env, name, Recall(s.db, name)) in s.cache;
  }

  /** A refresh shows the record as it is stored and changes nothing else. */
  lemma RefreshShows(env: Env, s: VaultState, name: string, extra: string)
    ensures var (after, outcome) := UpdateEntry(env, s, name, extra);
            match ReadStoredPassword(s.db, name)
            case Err(_) => after == s && outcome == Reported
            case Ok(r) =>
              var key := ListKey(env.lower(r.description), name);
              && after == VaultState(s.cache[key := Shown(env, name, r, extra)], s.db)
              && (outcome == Done <==> key in s.cache)
  {
  }

  // ----- reloading

  /** The rows are the password dictionary, each record once and complete, in any order. */
  ghost predicate Enumerates(db: Db, rows: seq<Row>) {
    && (forall i :: 0 <= i < |rows| ==>
          Stored(db, rows[i].name) && rows[i].data == Some(db[DbKey(PasswordKind, rows[i].name)]))
    && (forall name :: Stored(db, name) ==> exists i :: 0 <= i < |rows| && rows[i].name == name)
  }

  ghost predicate DistinctNames(rows: seq<Row>) {
    forall i, j :: 0 <= i < j < |rows| ==> rows[i].name != rows[j].name
  }

  predicate LoadsKey(env: Env, row: Row, key: ListKey) {
    ParsedRow(row).Some? && CacheKey(env, row.name, ParsedRow(row).value) == key
  }

  predicate SomeLoadsKey(env: Env, rows: seq<Row>, key: ListKey) {
    exists i :: 0 <= i < |rows| && LoadsKey(env, rows[i], key)
  }

  /** Reloading adds exactly the keys of the rows that parse, and keeps all others. */
  lemma {:induction false} ReloadKeys(env: Env, cache: map<ListKey, ListItem>, rows: seq<Row>, key: ListKey)
    ensures key in LoadRows(env, cache, rows) <==> key in cache || SomeLoadsKey(env, rows, key)
    ensures key in cache && !SomeLoadsKey(env, rows, key) ==> LoadRows(env, cache, rows)[key] == cache[key]
  {
    if rows != [] {
      ReloadKeys(env, cache, rows[..|rows| - 1], key);
      LastRowKeys(env, cache, rows, key);
      LastRowLoadsKey(env, rows, key);
    }
  }

  lemma LastRowLoadsKey(env: Env, rows: seq<Row>, key: ListKey)
    requires rows != []
    ensures SomeLoadsKey(env, rows, key) <==>
            SomeLoadsKey(env, rows[..|rows| - 1], key) || LoadsKey(env, rows[|rows| - 1], key)
  {
    var n := |rows| - 1;
    assert forall i :: 0 <= i < n ==> rows[..n][i] == rows[i];
  }

  lemma LastRowKeys(env: Env, cache: map<ListKey, ListItem>, rows: seq<Row>, key: ListKey)
    requires rows != []
    ensures var before := LoadRows(env, cache, rows[..|rows| - 1]);
            var after := LoadRows(env, cache, rows);
            && (key in after <==> key in before || LoadsKey(env, rows[|rows| - 1], key))
            && (key in before && !LoadsKey(env, rows[|rows| - 1], key) ==> after[key] == before[key])
  {
  }

  /** After reloading distinct rows, each row that parsed is shown with its own name, time and count. */
  lemma {:induction false} ReloadMirrors(env: Env, cache: map<ListKey, ListItem>, rows: seq<Row>, i: nat)
    requires DistinctNames(rows) && i < |rows| && ParsedRow(rows[i]).Some?
    ensures var r := ParsedRow(rows[i]).value;
            var key := CacheKey(env, rows[i].name, r);
            var after := LoadRows(env, cache, rows);
            key in after && Mirrors(after[key], r) && after[key].Key() == key
  {
    var n := |rows| - 1;
    if i < n {
      var key := CacheKey(env, rows[i].name, ParsedRow(rows[i]).value);
      ReloadMirrors(env, cache, rows[..n], i);
      LastRowKeys(env, cache, rows, key);
      assert rows[i].name != rows[n].name;
    } else {
      LastRowMirrors(env, cache, rows);
    }
  }

  lemma LastRowMirrors(env: Env, cache: map<ListKey, ListItem>, rows: seq<Row>)
    requires rows != [] && ParsedRow(rows[|rows| - 1]).Some?
    ensures var row := rows[|rows| - 1];
            var r := ParsedRow(row).value;
            var key := CacheKey(env, row.name, r);
            var after := LoadRows(env, cache, rows);
            key in after && Mirrors(after[key], r) && after[key].Key() == key
  {
  }

  /**
   The second line of a row's entry after reloading: the username, if the record is new to the list or
   was accessed since it was listed, and what it said before if not.
   */
  lemma {:induction false} ReloadWords(
      env: Env, cache: map<ListKey, ListItem>, rows: seq<Row>, i: nat, r: PasswordRecord)
    requires i < |rows| && ParsedRow(rows[i]) == Some(r)
    requires forall j :: 0 <= j < |rows| && j != i ==> rows[j].name != rows[i].name
    ensures var key := ListKey(env.lower(r.description), rows[i].name);
            var seen := key in cache && cache[key].atime == r.atime && cache[key].count == r.count;
            && key in LoadRows(env, cache, rows)
            && LoadRows(env, cache, rows)[key] ==
               Shown(env, rows[i].name, r, if seen then cache[key].extra else r.username)
  {
    var n := |rows| - 1;
    var key := ListKey(env.lower(r.description), rows[i].name);
    if i < n {
      var init := rows[..n];
      assert init[i] == rows[i] && forall j :: 0 <= j < n ==> init[j] == rows[j];
      ReloadWords(env, cache, init, i, r);
      LastRowKeys(env, cache, rows, key);
    } else {
      LastNamedOnce(env, cache, rows, r);
    }
  }

  lemma LastNamedOnce(env: Env, cache: map<ListKey, ListItem>, rows: seq<Row>, r: PasswordRecord)
    requires rows != [] && ParsedRow(rows[|rows| - 1]) == Some(r)
    requires forall j :: 0 <= j < |rows| - 1 ==> rows[j].name != rows[|rows| - 1].name
    ensures var name := rows[|rows| - 1].name;
            var key := ListKey(env.lower(r.description), name);
            var seen := key in cache && cache[key].atime == r.atime && cache[key].count == r.count;
            && key in LoadRows(env, cache, rows)
            && LoadRows(env, cache, rows)[key] == Shown(env, name, r, if seen then cache[key].extra else r.username)
  {
    var key := ListKey(env.lower(r.description), rows[|rows| - 1].name);
    NamedOnce(env, rows, key);
    ReloadKeys(env, cache, rows[..|rows| - 1], key);
    LastRowWords(env, cache, rows, r);
  }

  lemma NamedOnce(env: Env, rows: seq<Row>, key: ListKey)
    requires rows != [] && forall j :: 0 <= j < |rows| - 1 ==> rows[j].name != key.guid
    ensures !SomeLoadsKey(env, rows[..|rows| - 1], key)
  {
    var init := rows[..|rows| - 1];
    assert forall i :: 0 <= i < |init| ==> init[i] == rows[i];
  }

  lemma LastRowWords(env: Env, cache: map<ListKey, ListItem>, rows: seq<Row>, r: PasswordRecord)
    requires rows != [] && ParsedRow(rows[|rows| - 1]) == Some(r)
    ensures var name := rows[|rows| - 1].name;
            var key := ListKey(env.lower(r.description), name);
            var before := LoadRows(env, cache, rows[..|rows| - 1]);
            var seen := key in before && before[key].atime == r.atime && before[key].count == r.count;
            && key in LoadRows(env, cache, rows)
            && LoadRows(env, cache, rows)[key] == Shown(env, name, r, if seen then before[key].extra else r.username)
  {
  }

  lemma EnumeratedRow(db: Db, rows: seq<Row>, i: nat)
    requires Enumerates(db, rows) && i < |rows|
    ensures match ReadStoredPassword(db, rows[i].name)
            case Ok(r) => ParsedRow(rows[i]) == Some(r)
            case Err(_) => ParsedRow(rows[i]) == None
  {
  }

  lemma EnumeratedName(db: Db, rows: seq<Row>, name: string) returns (i: nat)
    requires Enumerates(db, rows) && Stored(db, name)
    ensures i < |rows| && rows[i].name == name
  {
    i :| 0 <= i < |rows| && rows[i].name == name;
  }

  /**
   Reloading the whole dictionary restores agreement, stale or missing entries included, exactly
   when the cache lists nothing that the store no longer has. In particular it does so from a
   cleared cache.
   */
  lemma ReloadAgreesIff(env: Env, s: VaultState, rows: seq<Row>)
    requires WellKeyed(env.hash, s.db) && Enumerates(s.db, rows) && DistinctNames(rows)
    ensures Agree(env, VaultState(LoadRows(env, s.cache, rows), s.db)) <==> CacheBacked(env, s)
  {
    var after := VaultState(LoadRows(env, s.cache, rows), s.db);
    forall name | Stored(s.db, name)
      ensures var key := CacheKey(env, name, Recall(s.db, name));
              key in after.cache && Mirrors(after.cache[key], Recall(s.db, name))
    {
      var i := EnumeratedName(s.db, rows, name);
      EnumeratedRow(s.db, rows, i);
      ReloadMirrors(env, s.cache, rows, i);
    }
    forall key ensures key in after.cache <==>
                       || key in s.cache
                       || (Stored(s.db, key.guid) && key == CacheKey(env, key.guid, Recall(s.db, key.guid)))
    {
      ReloadKeys(env, s.cache, rows, key);
      if i :| 0 <= i < |rows| && LoadsKey(env, rows[i], key) {
        EnumeratedRow(s.db, rows, i);
      }
      if Stored(s.db, key.guid) && key == CacheKey(env, key.guid, Recall(s.db, key.guid)) {
        var i := EnumeratedName(s.db, rows, key.guid);
        EnumeratedRow(s.db, rows, i);
        assert LoadsKey(env, rows[i], key);
      }
    }
  }

  // ----- a restore from the host

  /** The host's restore stores its records from another thread, duplicates skipped, and leaves the list alone. */
  function RestoreBatch(env: Env, s: VaultState, batch: seq<Content>, times: seq<u64>): VaultState
    requires |times| == |batch|
  {
    VaultState(s.cache, StoreAll(s.db, Entries(env.hash, batch, times), false))
  }

  ghost predicate LoginsOnOneLine(batch: seq<Content>) {
    forall i :: 0 <= i < |batch| && batch[i].Login? ==> batch[i].password.TextOnOneLine()
  }

  /** Every password of the batch is one of a stored identity. */
  ghost predicate AddsNothing(env: Env, db: Db, batch: seq<Content>) {
    forall i :: 0 <= i < |batch| && batch[i].Login? ==> Stored(db, NewName(env, batch[i].password))
  }

  lemma ReadAfterRestore(env: Env, s: VaultState, batch: seq<Content>, times: seq<u64>, name: string)
    requires |times| == |batch| && LoginsOnOneLine(batch) && WellKeyed(env.hash, s.db)
    ensures var db' := RestoreBatch(env, s, batch, times).db;
            && (Stored(s.db, name) ==> ReadStoredPassword(db', name) == ReadStoredPassword(s.db, name))
            && (Stored(db', name) && !Stored(s.db, name) ==>
                  && ReadStoredPassword(db', name).Ok?
                  && name == NewName(env, Recall(db', name))
                  && exists i :: 0 <= i < |batch| && batch[i].Login? && NewName(env, batch[i].password) == name)
  {
    var es := Entries(env.hash, batch, times);
    BatchKeepsStored(s.db, es);
    var db' := RestoreBatch(env, s, batch, times).db;
    if Stored(db', name) && !Stored(s.db, name) {
      var i := BatchTexts(s.db, es, DbKey(PasswordKind, name));
      PasswordRoundTrip(BLANK_PASSWORD, batch[i].password.(ctime := times[i]));
    }
  }

  lemma RestoreKeepsWellKeyed(env: Env, s: VaultState, batch: seq<Content>, times: seq<u64>)
    requires |times| == |batch| && LoginsOnOneLine(batch) && WellKeyed(env.hash, s.db)
    ensures WellKeyed(env.hash, RestoreBatch(env, s, batch, times).db)
  {
    forall name: string {
      ReadAfterRestore(env, s, batch, times, name);
    }
  }

  /**
   After a restore the list still shows nothing that is not stored; it agrees with the store exactly
   when the restore added no password, and a reload makes it agree in any case.
   */
  lemma RestoreAgreesIff(env: Env, s: VaultState, batch: seq<Content>, times: seq<u64>, rows: seq<Row>)
    requires Agree(env, s) && |times| == |batch| && LoginsOnOneLine(batch)
    ensures var after := RestoreBatch(env, s, batch, times);
            && WellKeyed(env.hash, after.db) && CacheBacked(env, after)
            && (Agree(env, after) <==> AddsNothing(env, s.db, batch))
            && (Enumerates(after.db, rows) && DistinctNames(rows) ==>
                  Agree(env, VaultState(LoadRows(env, after.cache, rows), after.db)))
  {
    var after := RestoreBatch(env, s, batch, times);
    RestoreKeepsWellKeyed(env, s, batch, times);
    forall key | key in after.cache
      ensures Stored(after.db, key.guid) && key == CacheKey(env, key.guid, Recall(after.db, key.guid))
    {
      ReadAfterRestore(env, s, batch, times, key.guid);
    }
    if AddsNothing(env, s.db, batch) {
      forall name | Stored(after.db, name) ensures Stored(s.db, name) && Recall(after.db, name) == Recall(s.db, name) {
        ReadAfterRestore(env, s, batch, times, name);
      }
    } else {
      RestoredIsUnlisted(env, s, batch, times);
    }
    if Enumerates(after.db, rows) && DistinctNames(rows) {
      ReloadAgreesIff(env, after, rows);
    }
  }

  lemma RestoredIsUnlisted(env: Env, s: VaultState, batch: seq<Content>, times: seq<u64>)
    requires Agree(env, s) && |times| == |batch| && LoginsOnOneLine(batch) && !AddsNothing(env, s.db, batch)
    ensures !Agree(env, RestoreBatch(env, s, batch, times))
  {
    var es := Entries(env.hash, batch, times);
    var after := RestoreBatch(env, s, batch, times);
    var i :| 0 <= i < |batch| && batch[i].Login? && !Stored(s.db, NewName(env, batch[i].password));
    var name := NewName(env, batch[i].password);
    BatchKeepsStored(s.db, es);
    assert es[i].key == DbKey(PasswordKind, name) && Mentions(es, es[i].key);
    assert Stored(after.db, name);
    assert forall key :: key in s.cache ==> key.guid != name;
  }

  // ----- runs

  datatype Action =
    | AddPassword(record: PasswordRecord, now: u64, extra: string)
    | DeletePassword(name: string)
    | EditPassword(name: string, edit: Option<Edit>, now: u64, extra: string)
    | RefreshEntry(name: string, extra: string)
    | Reload(rows: seq<Row>)

  function Step(env: Env, s: VaultState, a: Action): (VaultState, Outcome) {
    match a
    case AddPassword(r, now, extra) => (Add(env, s, r, now, extra), Done)
    case DeletePassword(name) => Delete(env, s, name)
    case EditPassword(name, edit, now, extra) => HandleEdit(env, s, name, edit, now, extra)
    case RefreshEntry(name, extra) => UpdateEntry(env, s, name, extra)
    case Reload(rows) => (VaultState(LoadRows(env, s.cache, rows), s.db), Done)
  }

  /** The dialogues reject newlines, the edit is completed, and no record is displaced. */
  ghost predicate Allowed(env: Env, s: VaultState, a: Action) {
    match a
    case AddPassword(r, _, _) => r.TextOnOneLine() && NoAlias(env, s.db, NewName(env, r), r.description)
    case DeletePassword(_) => true
    case EditPassword(name, edit, now, _) =>
      ReadStoredPassword(s.db, name).Ok? ==>
        && edit.Some? && EditOnOneLine(edit.value)
        && var r := Edited(Recall(s.db, name), edit.value, now);
           NewName(env, r) == name || NoAlias(env, s.db, NewName(env, r), r.description)
    case RefreshEntry(_, _) => true
    case Reload(rows) => Enumerates(s.db, rows) && DistinctNames(rows)
  }

  ghost predicate AllowedRun(env: Env, s: VaultState, actions: seq<Action>)
    decreases |actions|
  {
    actions == [] || (Allowed(env, s, actions[0]) && AllowedRun(env, Step(env, s, actions[0]).0, actions[1..]))
  }

  function Run(env: Env, s: VaultState, actions: seq<Action>): VaultState
    decreases |actions|
  {
    if actions == [] then s else Run(env, Step(env, s, actions[0]).0, actions[1..])
  }

  ghost predicate NoPanic(env: Env, s: VaultState, actions: seq<Action>)
    decreases |actions|
  {
    actions == [] || (Step(env, s, actions[0]).1 != Panicked && NoPanic(env, Step(env, s, actions[0]).0, actions[1..]))
  }

  lemma StepKeepsAgreement(env: Env, s: VaultState, a: Action)
    requires Agree(env, s) && Allowed(env, s, a)
    ensures Agree(env, Step(env, s, a).0) && Step(env, s, a).1 != Panicked
  {
    match a
    case AddPassword(r, now, extra) => AddKeepsAgreementIff(env, s, r, now, extra);
    case DeletePassword(name) => DeleteKeepsAgreement(env, s, name);
    case EditPassword(name, edit, now, extra) =>
      if Stored(s.db, name) {
        EditKeepsAgreementIff(env, s, name, edit.value, now, extra);
      }
    case RefreshEntry(name, extra) => RefreshKeepsAgreement(env, s, name, extra);
    case Reload(rows) => ReloadAgreesIff(env, s, rows);
  }

  /** Over any allowed run from agreement, cache and store agree at the end and no assertion fires. */
  lemma {:induction false} RunKeepsAgreement(env: Env, s: VaultState, actions: seq<Action>)
    requires Agree(env, s) && AllowedRun(env, s, actions)
    ensures Agree(env, Run(env, s, actions)) && NoPanic(env, s, actions)
    decreases |actions|
  {
    if actions != [] {
      StepKeepsAgreement(env, s, actions[0]);
      RunKeepsAgreement(env, Step(env, s, actions[0]).0, actions[1..]);
    }
  }

  /** No two identities in play share a hash without sharing their description. */
  ghost predicate CollisionFree(env: Env, identities: set<(string, string)>) {
    forall p, q :: p in identities && q in identities && env.hash(p.0 + p.1) == env.hash(q.0 + q.1) ==> p.0 == q.0
  }

  /** Among collision-free identities, storing never displaces another description. */
  lemma CollisionFreeMeansNoAlias(env: Env, db: Db, identities: set<(string, string)>, r: PasswordRecord)
    requires WellKeyed(env.hash, db) && CollisionFree(env, identities)
    requires (r.description, r.username) in identities
    requires forall name :: Stored(db, name) ==>
               (Recall(db, name).description, Recall(db, name).username) in identities
    ensures NoAlias(env, db, NewName(env, r), r.description)
  {
    var name := NewName(env, r);
    if Stored(db, name) {
      var other := Recall(db, name);
      var p, q := (r.description, r.username), (other.description, other.username);
      assert env.hash(p.0 + p.1) == env.hash(q.0 + q.1);
    }
  }

  /** Every stored password's description and username are among `identities`. */
  ghost predicate KnownIdentities(env: Env, db: Db, identities: set<(string, string)>)
    requires WellKeyed(env.hash, db)
  {
    forall name :: Stored(db, name) ==> (Recall(db, name).description, Recall(db, name).username) in identities
  }

  /** An action as its user makes it: one-line texts, known identities, completed edits, whole reloads. */
  ghost predicate Careful(s: VaultState, a: Action, identities: set<(string, string)>) {
    match a
    case AddPassword(r, _, _) => r.TextOnOneLine() && (r.description, r.username) in identities
    case DeletePassword(_) => true
    case EditPassword(name, edit, _, _) =>
      Stored(s.db, name) ==>
        edit.Some? && EditOnOneLine(edit.value) && (edit.value.description, edit.value.username) in identities
    case RefreshEntry(_, _) => true
    case Reload(rows) => Enumerates(s.db, rows) && DistinctNames(rows)
  }

  ghost predicate CarefulRun(env: Env, s: VaultState, actions: seq<Action>, identities: set<(string, string)>)
    decreases |actions|
  {
    actions == [] ||
    (Careful(s, actions[0], identities) && CarefulRun(env, Step(env, s, actions[0]).0, actions[1..], identities))
  }

  lemma AddKeepsKnown(env: Env, db: Db, r: PasswordRecord, now: u64, identities: set<(string, string)>)
    requires WellKeyed(env.hash, db) && KnownIdentities(env, db, identities)
    requires r.TextOnOneLine() && (r.description, r.username) in identities
    ensures var db' := StoreOne(db, EntryOf(env.hash, Login(r), now), true).value;
            WellKeyed(env.hash, db') && KnownIdentities(env, db', identities)
  {
    AddKeepsWellKeyed(env, db, r, now);
    forall name: string {
      ReadAfterStore(env, db, r, now, name);
    }
  }

  lemma DropKeepsKnown(env: Env, db: Db, gone: string, identities: set<(string, string)>)
    requires WellKeyed(env.hash, db) && KnownIdentities(env, db, identities)
    ensures var db' := db - {DbKey(PasswordKind, gone)};
            WellKeyed(env.hash, db') && KnownIdentities(env, db', identities)
  {
    forall name: string {
      ReadAfterDelete(db, gone, name);
    }
  }

  /** A careful action among collision-free identities displaces nothing, and brings no other identity in. */
  lemma CarefulIsAllowed(env: Env, s: VaultState, a: Action, identities: set<(string, string)>)
    requires CollisionFree(env, identities) && Agree(env, s) && KnownIdentities(env, s.db, identities)
    requires Careful(s, a, identities)
    ensures Allowed(env, s, a)
    ensures WellKeyed(env.hash, Step(env, s, a).0.db) && KnownIdentities(env, Step(env, s, a).0.db, identities)
  {
    match a
    case AddPassword(r, now, extra) =>
      CollisionFreeMeansNoAlias(env, s.db, identities, r);
      AddKeepsKnown(env, s.db, r, now, identities);
    case DeletePassword(name) => DropKeepsKnown(env, s.db, name, identities);
    case EditPassword(name, edit, now, extra) =>
      if Stored(s.db, name) {
        EditKeepsKnown(env, s, name, edit.value, now, extra, identities);
      }
    case RefreshEntry(name, extra) =>
    case Reload(rows) =>
  }

  lemma EditKeepsKnown(
      env: Env, s: VaultState, name: string, e: Edit, now: u64, extra: string, identities: set<(string, string)>)
    requires CollisionFree(env, identities) && Agree(env, s) && KnownIdentities(env, s.db, identities)
    requires Stored(s.db, name) && EditOnOneLine(e) && (e.description, e.username) in identities
    ensures var r := Edited(Recall(s.db, name), e, now);
            NoAlias(env, s.db, NewName(env, r), r.description)
    ensures var s' := HandleEdit(env, s, name, Some(e), now, extra).0;
            WellKeyed(env.hash, s'.db) && KnownIdentities(env, s'.db, identities)
  {
    var r := Edited(Recall(s.db, name), e, now);
    CollisionFreeMeansNoAlias(env, s.db, identities, r);
    DropKeepsKnown(env, s.db, name, identities);
    AddKeepsKnown(env, s.db - {DbKey(PasswordKind, name)}, r, now, identities);
    EditedStore(env, s, name, e, now, extra);
  }

  /** What a completed edit leaves in the store: the edited record in place of the old one, under its own key. */
  lemma EditedStore(env: Env, s: VaultState, name: string, e: Edit, now: u64, extra: string)
    requires Agree(env, s) && Stored(s.db, name)
    ensures HandleEdit(env, s, name, Some(e), now, extra).0.db ==
            var entry := EntryOf(env.hash, Login(Edited(Recall(s.db, name), e, now)), now);
            StoreOne(s.db - {DbKey(PasswordKind, name)}, entry, true).value
  {
    assert CacheKey(env, name, Recall(s.db, name)) in s.cache;
  }

  /**
   From agreement, over any run of adds, deletes, completed edits, refreshes and reloads whose
   identities do not collide: cache and store agree at the end, and no assertion fires on the way.
   */
  lemma {:induction false} CarefulRunKeepsAgreement(
      env: Env, s: VaultState, actions: seq<Action>, identities: set<(string, string)>)
    requires CollisionFree(env, identities) && Agree(env, s) && KnownIdentities(env, s.db, identities)
    requires CarefulRun(env, s, actions, identities)
    ensures Agree(env, Run(env, s, actions)) && NoPanic(env, s, actions)
    decreases |actions|
  {
    if actions != [] {
      CarefulIsAllowed(env, s, actions[0], identities);
      StepKeepsAgreement(env, s, actions[0]);
      CarefulRunKeepsAgreement(env, Step(env, s, actions[0]).0, actions[1..], identities);
    }
  }

  const EMPTY: VaultState := VaultState(map[], map[])

  lemma EmptyAgrees(env: Env, identities: set<(string, string)>)
    ensures Agree(env, EMPTY) && KnownIdentities(env, EMPTY.db, identities)
  {
  }

  /** In particular so from the empty vault, where nothing has to be assumed of the state. */
  lemma VaultKeepsAgreement(env: Env, actions: seq<Action>, identities: set<(string, string)>)
    requires CollisionFree(env, identities) && CarefulRun(env, EMPTY, actions, identities)
    ensures Agree(env, Run(env, EMPTY, actions)) && NoPanic(env, EMPTY, actions)
  {
    EmptyAgrees(env, identities);
    CarefulRunKeepsAgreement(env, EMPTY, actions, identities);
  }

  /**
   Two records whose description and username run together, as "ab" + "c" and "a" + "bc" do, share a
   key. Adding both loses agreement whenever their descriptions differ in lower case.
   */
  lemma RunTogetherIdentitiesDisagree(
      env: Env, s: VaultState, a: PasswordRecord, b: PasswordRecord, now: u64, extra: string)
    requires Agree(env, s) && a.TextOnOneLine() && b.TextOnOneLine()
    requires !Stored(s.db, NewName(env, a))
    requires a.description + a.username == b.description + b.username
    requires env.lower(a.description) != env.lower(b.description)
    ensures var s1 := Add(env, s, a, now, extra);
            Agree(env, s1) && !Agree(env, Add(env, s1, b, now, extra))
  {
    AddKeepsAgreementIff(env, s, a, now, extra);
    ReadAfterStore(env, s.db, a, now, NewName(env, a));
    AddKeepsAgreementIff(env, Add(env, s, a, now, extra), b, now, extra);
  }

  // ----- the manager object

  class ActionManager {
    const storage: Manager
    const view: FilteredListView

    ghost predicate Valid()
      reads this, storage, view
    {
      view.Valid() && view.Unique()
    }

    ghost function TheEnv(): Env { Env(view.lower, storage.hash) }

    ghost function State(): VaultState
      requires Valid()
      reads this, storage, view
    {
      VaultState(view.Contents(), storage.db)
    }

    constructor (lower: string -> string, hash: string -> string)
      ensures Valid() && fresh(storage) && fresh(view) && TheEnv() == Env(lower, hash)
      ensures State() == VaultState(map[], map[])
    {
      storage := new Manager(hash);
      view := new FilteredListView(lower);
    }

    method MenuAddnew(record: PasswordRecord, now: u64, extra: string)
      requires Valid()
      modifies storage, view
      ensures Valid() && State() == Add(TheEnv(), old(State()), record, now, extra)
    {
      var _ := storage.NewRecord(Login(record), now, true);
      var name := storage.hash(Identity(Login(record)));
      var item := NewItem(view.lower, record.description, extra, name, record.atime, record.count);
      var _ := view.InsertUnique(item);
    }

    method MenuDelete(name: string) returns (outcome: Outcome)
      requires Valid()
      modifies storage, view
      ensures Valid() && (State(), outcome) == Delete(TheEnv(), old(State()), name)
    {
      var found := storage.GetPassword(name);
      if found.Err? {
        return Reported;
      }
      var removed := view.Remove(KeyFromParts(view.lower, found.value.description, name));
      if removed.None? {
        assert view.Contents() == old(view.Contents());
        return Panicked;
      }
      var _ := storage.Delete(PasswordKind, name);
      return Done;
    }

    method UpdateDbEntry(name: string, extra: string) returns (outcome: Outcome)
      requires Valid()
      modifies view
      ensures Valid() && (State(), outcome) == UpdateEntry(TheEnv(), old(State()), name, extra)
    {
      var found := storage.GetPassword(name);
      if found.Err? {
        return Reported;
      }
      var r := found.value;
      var replaced := view.InsertUnique(NewItem(view.lower, r.description, extra, name, r.atime, r.count));
      return if replaced.Some? then Done else Panicked;
    }

    method EditDialogue(name: string, edit: Option<Edit>, now: u64, extra: string) returns (outcome: Outcome)
      requires Valid()
      modifies storage, view
      ensures Valid() && (State(), outcome) == MenuEdit(TheEnv(), old(State()), name, edit, now, extra)
    {
      var found := storage.GetPassword(name);
      if found.Err? {
        return Reported;
      }
      var removed := view.Remove(KeyFromParts(view.lower, found.value.description, name));
      if removed.None? {
        assert view.Contents() == old(view.Contents());
        return Panicked;
      }
      if edit.None? {
        return Aborted;
      }
      var r := Edited(found.value, edit.value, now);
      var _ := storage.Update(name, Login(r), now);
      var newName := storage.hash(Identity(Login(r)));
      var _ := view.InsertUnique(NewItem(view.lower, r.description, extra, newName, r.atime, r.count));
      return Done;
    }

    method EditStage2(name: string, edit: Option<Edit>, now: u64, extra: string) returns (outcome: Outcome)
      requires Valid()
      modifies storage, view
      ensures Valid() && (State(), outcome) == HandleEdit(TheEnv(), old(State()), name, edit, now, extra)
    {
      outcome := EditDialogue(name, edit, now, extra);
      if outcome != Panicked {
        outcome := UpdateDbEntry(name, extra);
      }
    }

    method LoadOne(name: string, r: PasswordRecord)
      requires Valid()
      modifies view
      ensures Valid()
      ensures State() == VaultState(LoadRecord(TheEnv(), old(State()).cache, name, r), old(storage.db))
    {
      var at := view.Get(KeyFromParts(view.lower, r.description, name));
      if at.Some? {
        var prev := view.list[at.value];
        var extra := if prev.atime != r.atime || prev.count != r.count then r.username else prev.extra;
        view.Overwrite(at.value, NewItem(view.lower, r.description, extra, name, r.atime, r.count));
      } else {
        view.Push(NewItem(view.lower, r.description, r.username, name, r.atime, r.count));
      }
    }

    method LoadRow(row: Row)
      requires Valid()
      modifies view
      ensures Valid()
      ensures match ParsedRow(row)
              case Some(r) =>
                State() == VaultState(LoadRecord(TheEnv(), old(State()).cache, row.name, r), old(storage.db))
              case None => State() == old(State())
    {
      if row.data.Some? {
        var parsed := ParseText(PASSWORD_TAGS, SetPasswordField, BLANK_PASSWORD, row.data.value);
        if parsed.Ok? {
          LoadOne(row.name, parsed.value);
        }
      }
    }

    /** Loads the rows into the cache: refreshed in place through `Get`, or pushed unsorted. */
    method RetrieveDb(rows: seq<Row>)
      requires Valid()
      modifies view
      ensures Valid() && State() == VaultState(LoadRows(TheEnv(), old(State()).cache, rows), old(storage.db))
      ensures view.FilteredList() == view.list
    {
      ghost var env := TheEnv();
      for n := 0 to |rows|
        invariant Valid()
        invariant view.Contents() == LoadRows(env, old(view.Contents()), rows[..n])
      {
        assert rows[..n + 1][..n] == rows[..n];
        LoadRow(rows[n]);
      }
      assert rows[..|rows|] == rows;
      view.FilterReset();
    }
  }
}
