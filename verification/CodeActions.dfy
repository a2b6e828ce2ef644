/**
 The one-time-code actions of the vault. Their list is thrown away and read anew after a deletion, and
 an edit lists the edited record under the key it had before.
 */
module CodeActions {
  import opened Wrappers
  import opened Decimal
  import opened RecordCodec
  import opened ItemCache
  import opened Storage
  import Totp

  /** Lower- and upper-casing and the hex hash of a record's identity; nothing is assumed about any of them. */
  datatype Env = Env(lower: string -> string, upper: string -> string, hash: string -> string)

  datatype CodeState = CodeState(list: map<ListKey, ListItem>, db: Db)

  datatype Outcome = Done | Reported

  function ItemOf(env: Env, guid: string, r: TotpRecord): ListItem {
    NewItem(env.lower, r.name, Totp.ItemText(r), guid, 0, 0)
  }

  function CodeKey(env: Env, guid: string, r: TotpRecord): ListKey { KeyFromParts(env.lower, r.name, guid) }

  /** The key name a code is stored under. */
  function CodeName(env: Env, r: TotpRecord): string { env.hash(Identity(Code(r))) }

  // ----- what each action does

  function AddCode(env: Env, s: CodeState, r: TotpRecord, now: u64): CodeState {
    var item := ItemOf(env, CodeName(env, r), r);
    CodeState(s.list[item.Key() := item], StoreOne(s.db, EntryOf(env.hash, Code(r), now), true).value)
  }

  /** The texts of the edit dialogue. */
  datatype CodeEdit = CodeEdit(
    name: string, secret: string, notes: string, timestep: string, algorithm: string, digits: string, kind: string)

  /** A number or an algorithm that does not parse is left as it was. */
  function EditedCode(upper: string -> string, r: TotpRecord, e: CodeEdit): TotpRecord {
    r.(name := e.name, secret := e.secret, notes := e.notes, isHotp := upper(e.kind) == "HOTP",
       timestep := Parse(e.timestep, U64_LIMIT).UnwrapOr(r.timestep),
       algorithm := ParseAlgorithm(e.algorithm).UnwrapOr(r.algorithm),
       digits := Parse(e.digits, U32_LIMIT).UnwrapOr(r.digits))
  }

  /** The record moves to the key of its new name; the list entry goes under the old one, next to what was there. */
  function EditCode(env: Env, s: CodeState, guid: string, e: CodeEdit, now: u64): (CodeState, Outcome) {
    match ReadStoredCode(s.db, guid)
    case Err(_) => (s, Reported)
    case Ok(was) =>
      var r := EditedCode(env.upper, was, e);
      var item := ItemOf(env, guid, r);
      var dropped := s.db - {DbKey(TotpKind, guid)};
      (CodeState(s.list[item.Key() := item], StoreOne(dropped, EntryOf(env.hash, Code(r), now), true).value), Done)
  }

  /** A row of the code dictionary; `None` when its data did not fit the read-out buffer. */
  datatype Row = Row(name: string, data: Option<string>)

  function ParsedRow(row: Row): Option<TotpRecord> {
    match row.data
    case None => None
    case Some(text) =>
      match TotpFromText(text)
      case Ok(r) => Some(r)
      case Err(_) => None
  }

  /** The list read anew. */
  function LoadCodes(env: Env, rows: seq<Row>): map<ListKey, ListItem> {
    if rows == [] then map[]
    else
      var n := |rows| - 1;
      var before := LoadCodes(env, rows[..n]);
      match ParsedRow(rows[n])
      case None => before
      case Some(r) => before[CodeKey(env, rows[n].name, r) := ItemOf(env, rows[n].name, r)]
  }

  /** `rows` is what the dictionary holds once the record is gone. */
  function DeleteCode(env: Env, s: CodeState, guid: string, rows: seq<Row>): (CodeState, Outcome) {
    (CodeState(LoadCodes(env, rows), s.db - {DbKey(TotpKind, guid)}), if CodeStored(s.db, guid) then Done else Reported)
  }

  // ----- agreement of list and store

  /** An entry shows a record; no algorithm is shown by the record it was made from, and read back as SHA1. */
  predicate Shows(item: ListItem, r: TotpRecord) {
    && item.name == r.name
    && (item.extra == Totp.ItemText(r)
        || (r.algorithm == HmacSha1 && item.extra == Totp.ItemText(r.(algorithm := NoAlgorithm))))
  }

  ghost predicate Listed(env: Env, s: CodeState, name: string)
    requires ReadStoredCode(s.db, name).Ok?
  {
    var key := CodeKey(env, name, RecallCode(s.db, name));
    key in s.list && Shows(s.list[key], RecallCode(s.db, name))
  }

  ghost predicate Backed(env: Env, s: CodeState, key: ListKey) {
    ReadStoredCode(s.db, key.guid).Ok? && key == CodeKey(env, key.guid, RecallCode(s.db, key.guid))
  }

  /** The list's keys are exactly those of the stored codes, and its entries show them. */
  ghost predicate Agree(env: Env, s: CodeState) {
    && WellKeyedCodes(env.hash, s.db)
    && (forall name :: CodeStored(s.db, name) ==> Listed(env, s, name))
    && (forall key :: key in s.list ==> Backed(env, s, key))
  }

  lemma ReadBack(r: TotpRecord, now: u64)
    requires r.TextOnOneLine()
    ensures TotpFromText(ToText(SetCtime(Code(r), now))) == Ok(r.(ctime := now, algorithm := Normalize(r.algorithm)))
  {
    TotpRoundTrip(BLANK_TOTP, r.(ctime := now));
  }

  lemma ReadAfterStore(env: Env, db: Db, r: TotpRecord, now: u64, name: string)
    requires r.TextOnOneLine()
    ensures var db' := StoreOne(db, EntryOf(env.hash, Code(r), now), true).value;
            && (CodeStored(db', name) <==> CodeStored(db, name) || name == CodeName(env, r))
            && ReadStoredCode(db', name) ==
               if name == CodeName(env, r) then Ok(r.(ctime := now, algorithm := Normalize(r.algorithm)))
               else ReadStoredCode(db, name)
  {
    ReadBack(r, now);
  }

  lemma ReadAfterDelete(db: Db, gone: string, name: string)
    ensures var db' := db - {DbKey(TotpKind, gone)};
            && (CodeStored(db', name) <==> CodeStored(db, name) && name != gone)
            && ReadStoredCode(db', name) == if name == gone then Err(NotFound) else ReadStoredCode(db, name)
  {
  }

  lemma StoreKeepsWellKeyed(env: Env, db: Db, r: TotpRecord, now: u64)
    requires WellKeyedCodes(env.hash, db) && r.TextOnOneLine()
    ensures WellKeyedCodes(env.hash, StoreOne(db, EntryOf(env.hash, Code(r), now), true).value)
  {
    forall name: string {
      ReadAfterStore(env, db, r, now, name);
    }
  }

  lemma DeleteKeepsWellKeyed(env: Env, db: Db, guid: string)
    requires WellKeyedCodes(env.hash, db)
    ensures WellKeyedCodes(env.hash, db - {DbKey(TotpKind, guid)})
  {
    forall name: string {
      ReadAfterDelete(db, guid, name);
    }
  }

  // ----- adding

  /** Storing under `name` would not displace a code listed under another name. */
  predicate NoAlias(env: Env, db: Db, r: TotpRecord) {
    ReadStoredCode(db, CodeName(env, r)).Ok? ==>
      env.lower(RecallCode(db, CodeName(env, r)).name) == env.lower(r.name)
  }

  /** The entry made of a record shows the record that reads back. */
  lemma ShownAsMade(env: Env, guid: string, r: TotpRecord, now: u64)
    ensures Shows(ItemOf(env, guid, r), r.(ctime := now, algorithm := Normalize(r.algorithm)))
  {
    if r.algorithm == NoAlgorithm {
      assert r.(ctime := now, algorithm := HmacSha1).(algorithm := NoAlgorithm) == r.(ctime := now);
    }
  }

  lemma AddCovers(env: Env, s: CodeState, r: TotpRecord, now: u64, name: string)
    requires Agree(env, s) && r.TextOnOneLine() && CodeStored(AddCode(env, s, r, now).db, name)
    ensures ReadStoredCode(AddCode(env, s, r, now).db, name).Ok? && Listed(env, AddCode(env, s, r, now), name)
  {
    ReadAfterStore(env, s.db, r, now, name);
    if name == CodeName(env, r) {
      ShownAsMade(env, name, r, now);
    } else {
      assert Listed(env, s, name);
    }
  }

  lemma AddBacked(env: Env, s: CodeState, r: TotpRecord, now: u64, key: ListKey)
    requires Agree(env, s) && r.TextOnOneLine() && NoAlias(env, s.db, r) && key in AddCode(env, s, r, now).list
    ensures Backed(env, AddCode(env, s, r, now), key)
  {
    ReadAfterStore(env, s.db, r, now, key.guid);
    assert key in s.list ==> Backed(env, s, key);
  }

  lemma AddUnderAliasDisagrees(env: Env, s: CodeState, r: TotpRecord, now: u64)
    requires Agree(env, s) && r.TextOnOneLine() && !NoAlias(env, s.db, r)
    ensures !Agree(env, AddCode(env, s, r, now))
  {
    var name := CodeName(env, r);
    var stale := CodeKey(env, name, RecallCode(s.db, name));
    ReadAfterStore(env, s.db, r, now, name);
    assert Listed(env, s, name);
    assert stale in AddCode(env, s, r, now).list && !Backed(env, AddCode(env, s, r, now), stale);
  }

  /** Adding keeps agreement exactly when it displaces no code listed under another name. */
  lemma AddAgreesIff(env: Env, s: CodeState, r: TotpRecord, now: u64)
    requires Agree(env, s) && r.TextOnOneLine()
    ensures Agree(env, AddCode(env, s, r, now)) <==> NoAlias(env, s.db, r)
  {
    var s' := AddCode(env, s, r, now);
    if NoAlias(env, s.db, r) {
      StoreKeepsWellKeyed(env, s.db, r, now);
      forall name | CodeStored(s'.db, name) ensures Listed(env, s', name) {
        AddCovers(env, s, r, now, name);
      }
      forall key | key in s'.list ensures Backed(env, s', key) {
        AddBacked(env, s, r, now, key);
      }
    } else {
      AddUnderAliasDisagrees(env, s, r, now);
    }
  }

  // ----- editing

  ghost predicate EditOnOneLine(e: CodeEdit) { OneLine(e.name) && OneLine(e.secret) && OneLine(e.notes) }

  /** What an edit leaves in the store: the edited record under the key of its name, and none under the old key. */
  lemma ReadAfterEdit(env: Env, s: CodeState, guid: string, e: CodeEdit, now: u64, name: string)
    requires ReadStoredCode(s.db, guid).Ok? && EditOnOneLine(e)
    ensures var r := EditedCode(env.upper, RecallCode(s.db, guid), e);
            var db' := EditCode(env, s, guid, e, now).0.db;
            && (CodeStored(db', name) <==> name == CodeName(env, r) || (CodeStored(s.db, name) && name != guid))
            && ReadStoredCode(db', name) ==
               if name == CodeName(env, r) then Ok(r.(ctime := now, algorithm := Normalize(r.algorithm)))
               else if name == guid then Err(NotFound) else ReadStoredCode(s.db, name)
  {
    var r := EditedCode(env.upper, RecallCode(s.db, guid), e);
    ReadAfterDelete(s.db, guid, name);
    ReadAfterStore(env, s.db - {DbKey(TotpKind, guid)}, r, now, name);
  }

  lemma EditKeepsWellKeyed(env: Env, s: CodeState, guid: string, e: CodeEdit, now: u64)
    requires WellKeyedCodes(env.hash, s.db) && EditOnOneLine(e)
    ensures WellKeyedCodes(env.hash, EditCode(env, s, guid, e, now).0.db)
  {
    if CodeStored(s.db, guid) {
      forall name: string {
        ReadAfterEdit(env, s, guid, e, now, name);
      }
    }
  }

  /** The edited record keeps its key and the name it is sorted under. */
  predicate KeepsPlace(env: Env, guid: string, was: TotpRecord, e: CodeEdit) {
    CodeName(env, EditedCode(env.upper, was, e)) == guid && env.lower(e.name) == env.lower(was.name)
  }

  /** An edit keeps agreement exactly when the edited record keeps its key and its name in lower case. */
  lemma EditAgreesIff(env: Env, s: CodeState, guid: string, e: CodeEdit, now: u64)
    requires Agree(env, s) && CodeStored(s.db, guid) && EditOnOneLine(e)
    ensures Agree(env, EditCode(env, s, guid, e, now).0) <==> KeepsPlace(env, guid, RecallCode(s.db, guid), e)
  {
    var was := RecallCode(s.db, guid);
    var s' := EditCode(env, s, guid, e, now).0;
    ReadAfterEdit(env, s, guid, e, now, guid);
    assert Listed(env, s, guid);
    if KeepsPlace(env, guid, was, e) {
      EditInPlace(env, s, guid, e, now);
    } else {
      var before := CodeKey(env, guid, was);
      assert before in s'.list && !Backed(env, s', before);
    }
  }

  lemma EditCovers(env: Env, s: CodeState, guid: string, e: CodeEdit, now: u64, name: string)
    requires Agree(env, s) && CodeStored(s.db, guid) && EditOnOneLine(e)
    requires KeepsPlace(env, guid, RecallCode(s.db, guid), e)
    requires CodeStored(EditCode(env, s, guid, e, now).0.db, name)
    ensures var s' := EditCode(env, s, guid, e, now).0;
            ReadStoredCode(s'.db, name).Ok? && Listed(env, s', name)
  {
    var s' := EditCode(env, s, guid, e, now).0;
    var r := EditedCode(env.upper, RecallCode(s.db, guid), e);
    ReadAfterEdit(env, s, guid, e, now, name);
    if name == guid {
      ShownAsMade(env, guid, r, now);
      assert s'.list == s.list[CodeKey(env, guid, r) := ItemOf(env, guid, r)];
    } else {
      assert Listed(env, s, name);
      OtherStaysListed(env, s, s', name, ItemOf(env, guid, r));
    }
  }

  lemma OtherStaysListed(env: Env, s: CodeState, s': CodeState, name: string, item: ListItem)
    requires s'.list == s.list[item.Key() := item] && item.guid != name
    requires ReadStoredCode(s.db, name).Ok? && ReadStoredCode(s'.db, name) == ReadStoredCode(s.db, name)
    requires Listed(env, s, name)
    ensures Listed(env, s', name)
  {
  }

  lemma EditBacked(env: Env, s: CodeState, guid: string, e: CodeEdit, now: u64, key: ListKey)
    requires Agree(env, s) && CodeStored(s.db, guid) && EditOnOneLine(e)
    requires KeepsPlace(env, guid, RecallCode(s.db, guid), e)
    requires key in EditCode(env, s, guid, e, now).0.list
    ensures Backed(env, EditCode(env, s, guid, e, now).0, key)
  {
    ReadAfterEdit(env, s, guid, e, now, key.guid);
    assert key in s.list ==> Backed(env, s, key);
  }

  lemma EditInPlace(env: Env, s: CodeState, guid: string, e: CodeEdit, now: u64)
    requires Agree(env, s) && CodeStored(s.db, guid) && EditOnOneLine(e)
    requires KeepsPlace(env, guid, RecallCode(s.db, guid), e)
    ensures Agree(env, EditCode(env, s, guid, e, now).0)
  {
    var s' := EditCode(env, s, guid, e, now).0;
    EditKeepsWellKeyed(env, s, guid, e, now);
    forall name | CodeStored(s'.db, name) ensures Listed(env, s', name) {
      EditCovers(env, s, guid, e, now, name);
    }
    forall key | key in s'.list ensures Backed(env, s', key) {
      EditBacked(env, s, guid, e, now, key);
    }
  }

  /**
   An edit that moves the record leaves its old and its new entry under the old key, which opens no record
   any more, and lists the record under its new key only if something was stored there already.
   */
  lemma RenameStrands(env: Env, s: CodeState, guid: string, e: CodeEdit, now: u64, again: CodeEdit, later: u64)
    requires Agree(env, s) && CodeStored(s.db, guid) && EditOnOneLine(e)
    requires CodeName(env, EditedCode(env.upper, RecallCode(s.db, guid), e)) != guid
    ensures var r := EditedCode(env.upper, RecallCode(s.db, guid), e);
            var s' := EditCode(env, s, guid, e, now).0;
            && CodeKey(env, guid, RecallCode(s.db, guid)) in s'.list && CodeKey(env, guid, r) in s'.list
            && EditCode(env, s', guid, again, later) == (s', Reported)
            && CodeStored(s'.db, CodeName(env, r))
            && (CodeKey(env, CodeName(env, r), r) in s'.list ==> CodeStored(s.db, CodeName(env, r)))
  {
    var r := EditedCode(env.upper, RecallCode(s.db, guid), e);
    ReadAfterEdit(env, s, guid, e, now, guid);
    ReadAfterEdit(env, s, guid, e, now, CodeName(env, r));
    assert Listed(env, s, guid);
    var key := CodeKey(env, CodeName(env, r), r);
    assert key in s.list ==> Backed(env, s, key);
  }

  // ----- what the user finds afterwards

  /** An added code is stored under the hash of its name, and listed there; nothing else changes. */
  lemma AddReadsBack(env: Env, s: CodeState, r: TotpRecord, now: u64, other: string)
    requires r.TextOnOneLine()
    ensures var after := AddCode(env, s, r, now);
            var name := env.hash(r.name);
            && ReadStoredCode(after.db, name) == Ok(r.(ctime := now, algorithm := Normalize(r.algorithm)))
            && (other != name ==> ReadStoredCode(after.db, other) == ReadStoredCode(s.db, other))
            && after.list == s.list[ListKey(env.lower(r.name), name) :=
                                    ListItem(r.name, env.lower(r.name), Totp.ItemText(r), name, 0, 0)]
  {
    ReadAfterStore(env, s.db, r, now, CodeName(env, r));
    ReadAfterStore(env, s.db, r, now, other);
  }

  /**
   An edited code, told from what was typed: it is stored under the hash of its name with the texts as
   they are, and with a step, digits or algorithm that did not parse as they were; nothing is left under
   the old name if that is another; and an entry is added under the old one.
   */
  lemma EditReadsBack(env: Env, s: CodeState, guid: string, e: CodeEdit, now: u64, other: string)
    requires ReadStoredCode(s.db, guid).Ok? && EditOnOneLine(e)
    ensures var was := RecallCode(s.db, guid);
            var (after, outcome) := EditCode(env, s, guid, e, now);
            var name := env.hash(e.name);
            var algorithm := ParseAlgorithm(e.algorithm).UnwrapOr(was.algorithm);
            var typed := TotpRecord(
              was.version, e.secret, e.name, algorithm, e.notes, Parse(e.digits, U32_LIMIT).UnwrapOr(was.digits),
              Parse(e.timestep, U64_LIMIT).UnwrapOr(was.timestep), was.ctime, env.upper(e.kind) == "HOTP");
            && outcome == Done
            && ReadStoredCode(after.db, name) == Ok(typed.(ctime := now, algorithm := Normalize(algorithm)))
            && (other != name ==>
                  ReadStoredCode(after.db, other) ==
                  if other == guid then Err(NotFound) else ReadStoredCode(s.db, other))
            && after.list == s.list[ListKey(env.lower(e.name), guid) :=
                                    ListItem(e.name, env.lower(e.name), Totp.ItemText(typed), guid, 0, 0)]
  {
    ReadAfterEdit(env, s, guid, e, now, env.hash(e.name));
    ReadAfterEdit(env, s, guid, e, now, other);
  }

  /** Deleting removes the code under that name and no other, and is reported when there is none. */
  lemma DeleteReadsBack(env: Env, s: CodeState, guid: string, rows: seq<Row>, other: string)
    ensures var (after, outcome) := DeleteCode(env, s, guid, rows);
            && ReadStoredCode(after.db, guid) == Err(NotFound)
            && (other != guid ==> ReadStoredCode(after.db, other) == ReadStoredCode(s.db, other))
            && (outcome == Done <==> CodeStored(s.db, guid))
  {
    ReadAfterDelete(s.db, guid, other);
  }

  // ----- reading anew

  /** The rows are the code dictionary, each record once and complete, in any order. */
  ghost predicate Enumerates(db: Db, rows: seq<Row>) {
    && (forall i :: 0 <= i < |rows| ==>
          CodeStored(db, rows[i].name) && rows[i].data == Some(db[DbKey(TotpKind, rows[i].name)]))
    && (forall name :: CodeStored(db, name) ==> exists i :: 0 <= i < |rows| && rows[i].name == name)
    && (forall i, j :: 0 <= i < j < |rows| ==> rows[i].name != rows[j].name)
  }

  ghost predicate LoadedFrom(env: Env, row: Row, key: ListKey, item: ListItem) {
    ParsedRow(row).Some? && key == CodeKey(env, row.name, ParsedRow(row).value)
    && item == ItemOf(env, row.name, ParsedRow(row).value)
  }

  lemma {:induction false} LoadedKeys(env: Env, rows: seq<Row>, key: ListKey)
    requires key in LoadCodes(env, rows)
    ensures exists i :: 0 <= i < |rows| && LoadedFrom(env, rows[i], key, LoadCodes(env, rows)[key])
  {
    if rows != [] {
      var n := |rows| - 1;
      if !LoadedFrom(env, rows[n], key, LoadCodes(env, rows)[key]) {
        LoadedKeys(env, rows[..n], key);
        var i :| 0 <= i < n && LoadedFrom(env, rows[..n][i], key, LoadCodes(env, rows[..n])[key]);
        assert rows[i] == rows[..n][i];
      }
    }
  }

  /** A row that parsed is in the list, unless a later row has its name. */
  lemma {:induction false} LoadedRow(env: Env, rows: seq<Row>, i: nat, r: TotpRecord)
    requires i < |rows| && ParsedRow(rows[i]) == Some(r)
    requires forall j :: i < j < |rows| ==> rows[j].name != rows[i].name
    ensures CodeKey(env, rows[i].name, r) in LoadCodes(env, rows)
    ensures LoadCodes(env, rows)[CodeKey(env, rows[i].name, r)] == ItemOf(env, rows[i].name, r)
  {
    var n := |rows| - 1;
    if i == n {
      LastRowLoaded(env, rows, r);
    } else {
      var init := rows[..n];
      assert init[i] == rows[i] && forall j :: i < j < n ==> init[j] == rows[j];
      LoadedRow(env, init, i, r);
      LastRowSpares(env, rows, CodeKey(env, rows[i].name, r));
    }
  }

  lemma LastRowLoaded(env: Env, rows: seq<Row>, r: TotpRecord)
    requires rows != [] && ParsedRow(rows[|rows| - 1]) == Some(r)
    ensures var row := rows[|rows| - 1];
            LoadCodes(env, rows) ==
            LoadCodes(env, rows[..|rows| - 1])[CodeKey(env, row.name, r) := ItemOf(env, row.name, r)]
  {
  }

  lemma LastRowSpares(env: Env, rows: seq<Row>, key: ListKey)
    requires rows != [] && rows[|rows| - 1].name != key.guid && key in LoadCodes(env, rows[..|rows| - 1])
    ensures key in LoadCodes(env, rows) && LoadCodes(env, rows)[key] == LoadCodes(env, rows[..|rows| - 1])[key]
  {
  }

  lemma EnumeratedRow(db: Db, rows: seq<Row>, i: nat)
    requires Enumerates(db, rows) && i < |rows| && ReadStoredCode(db, rows[i].name).Ok?
    ensures ParsedRow(rows[i]) == Some(RecallCode(db, rows[i].name))
  {
  }

  /** Reading the whole dictionary anew restores agreement, whatever the list had become. */
  lemma ReloadAgrees(env: Env, db: Db, rows: seq<Row>)
    requires WellKeyedCodes(env.hash, db) && Enumerates(db, rows)
    ensures Agree(env, CodeState(LoadCodes(env, rows), db))
  {
    var s := CodeState(LoadCodes(env, rows), db);
    forall name | CodeStored(db, name) ensures Listed(env, s, name) {
      var i :| 0 <= i < |rows| && rows[i].name == name;
      EnumeratedRow(db, rows, i);
      LoadedRow(env, rows, i, RecallCode(db, name));
    }
    forall key | key in s.list ensures Backed(env, s, key) {
      LoadedKeys(env, rows, key);
      var i :| 0 <= i < |rows| && LoadedFrom(env, rows[i], key, s.list[key]);
      EnumeratedRow(db, rows, i);
    }
  }

  // ----- runs

  datatype Action =
    | Add(record: TotpRecord, now: u64)
    | Edit(guid: string, edit: CodeEdit, now: u64)
    | Delete(guid: string, rows: seq<Row>)
    | Reload(rows: seq<Row>)

  function Step(env: Env, s: CodeState, a: Action): CodeState {
    match a
    case Add(r, now) => AddCode(env, s, r, now)
    case Edit(guid, e, now) => EditCode(env, s, guid, e, now).0
    case Delete(guid, rows) => DeleteCode(env, s, guid, rows).0
    case Reload(rows) => CodeState(LoadCodes(env, rows), s.db)
  }

  function Run(env: Env, s: CodeState, actions: seq<Action>): CodeState
    decreases |actions|
  {
    if actions == [] then s else Run(env, Step(env, s, actions[0]), actions[1..])
  }

  /** One-line texts, and rows that are the dictionary as it then is. */
  ghost predicate WellFormed(s: CodeState, a: Action) {
    match a
    case Add(r, _) => r.TextOnOneLine()
    case Edit(_, e, _) => EditOnOneLine(e)
    case Delete(guid, rows) => Enumerates(s.db - {DbKey(TotpKind, guid)}, rows)
    case Reload(rows) => Enumerates(s.db, rows)
  }

  ghost predicate WellFormedRun(env: Env, s: CodeState, actions: seq<Action>)
    decreases |actions|
  {
    actions == [] || (WellFormed(s, actions[0]) && WellFormedRun(env, Step(env, s, actions[0]), actions[1..]))
  }

  /** The two actions that set list and store apart: an add over another name, and an edit that moves the entry. */
  predicate Strays(env: Env, s: CodeState, a: Action) {
    match a
    case Add(r, _) => !NoAlias(env, s.db, r)
    case Edit(guid, e, _) =>
      ReadStoredCode(s.db, guid).Ok? && !KeepsPlace(env, guid, RecallCode(s.db, guid), e)
    case _ => false
  }

  lemma StepKeepsWellKeyed(env: Env, s: CodeState, a: Action)
    requires WellKeyedCodes(env.hash, s.db) && WellFormed(s, a)
    ensures WellKeyedCodes(env.hash, Step(env, s, a).db)
  {
    match a
    case Add(r, now) => StoreKeepsWellKeyed(env, s.db, r, now);
    case Edit(guid, e, now) => EditKeepsWellKeyed(env, s, guid, e, now);
    case Delete(guid, _) => DeleteKeepsWellKeyed(env, s.db, guid);
    case Reload(_) =>
  }

  /** From agreement, an action keeps it exactly unless it strays; a deletion and a reload restore it from anywhere. */
  lemma StepAgreesIff(env: Env, s: CodeState, a: Action)
    requires WellKeyedCodes(env.hash, s.db) && WellFormed(s, a)
    ensures Agree(env, s) ==> (Agree(env, Step(env, s, a)) <==> !Strays(env, s, a))
    ensures a.Delete? || a.Reload? ==> Agree(env, Step(env, s, a))
  {
    match a
    case Add(r, now) =>
      if Agree(env, s) {
        AddAgreesIff(env, s, r, now);
      }
    case Edit(guid, e, now) =>
      if Agree(env, s) && CodeStored(s.db, guid) {
        EditAgreesIff(env, s, guid, e, now);
      }
    case Delete(guid, rows) =>
      DeleteKeepsWellKeyed(env, s.db, guid);
      ReloadAgrees(env, s.db - {DbKey(TotpKind, guid)}, rows);
    case Reload(rows) => ReloadAgrees(env, s.db, rows);
  }

  /** Does every action that strays have a deletion or a reload after it? */
  ghost predicate Mended(env: Env, s: CodeState, actions: seq<Action>, agreed: bool)
    decreases |actions|
  {
    if actions == [] then agreed
    else
      var a := actions[0];
      Mended(env, Step(env, s, a), actions[1..], a.Delete? || a.Reload? || (agreed && !Strays(env, s, a)))
  }

  /**
   Over every run from a well-keyed store, list and store agree at the end if no action has strayed
   since they last did; a deletion and a reload make them agree again, whatever came before.
   */
  lemma {:induction false} RunAgrees(env: Env, s: CodeState, actions: seq<Action>, agreed: bool)
    requires WellKeyedCodes(env.hash, s.db) && WellFormedRun(env, s, actions)
    requires agreed ==> Agree(env, s)
    ensures WellKeyedCodes(env.hash, Run(env, s, actions).db)
    ensures Mended(env, s, actions, agreed) ==> Agree(env, Run(env, s, actions))
    decreases |actions|
  {
    if actions != [] {
      var a := actions[0];
      StepKeepsWellKeyed(env, s, a);
      StepAgreesIff(env, s, a);
      var next := a.Delete? || a.Reload? || (agreed && !Strays(env, s, a));
      RunAgrees(env, Step(env, s, a), actions[1..], next);
    }
  }

  // ----- the manager object

  class CodeManager {
    const storage: Manager
    const view: FilteredListView
    const upper: string -> string

    ghost predicate Valid()
      reads this, storage, view
    {
      view.Valid() && view.Unique()
    }

    ghost function TheEnv(): Env { Env(view.lower, upper, storage.hash) }

    ghost function State(): CodeState
      requires Valid()
      reads this, storage, view
    {
      CodeState(view.Contents(), storage.db)
    }

    constructor (lower: string -> string, upper: string -> string, hash: string -> string)
      ensures Valid() && fresh(storage) && fresh(view) && TheEnv() == Env(lower, upper, hash)
      ensures State() == CodeState(map[], map[])
    {
      storage := new Manager(hash);
      view := new FilteredListView(lower);
      this.upper := upper;
    }

    method MenuAddnew(record: TotpRecord, now: u64)
      requires Valid()
      modifies storage, view
      ensures Valid() && State() == AddCode(TheEnv(), old(State()), record, now)
    {
      var _ := storage.NewRecord(Code(record), now, true);
      var name := storage.hash(Identity(Code(record)));
      var _ := view.InsertUnique(NewItem(view.lower, record.name, Totp.ItemText(record), name, 0, 0));
    }

    method MenuEdit(guid: string, e: CodeEdit, now: u64) returns (outcome: Outcome)
      requires Valid()
      modifies storage, view
      ensures Valid() && (State(), outcome) == EditCode(TheEnv(), old(State()), guid, e, now)
    {
      var found := storage.GetCode(guid);
      if found.Err? {
        return Reported;
      }
      var r := EditedCode(upper, found.value, e);
      var _ := storage.Update(guid, Code(r), now);
      var _ := view.InsertUnique(NewItem(view.lower, r.name, Totp.ItemText(r), guid, 0, 0));
      return Done;
    }

    method MenuDelete(guid: string, rows: seq<Row>) returns (outcome: Outcome)
      requires Valid()
      modifies storage, view
      ensures Valid() && (State(), outcome) == DeleteCode(TheEnv(), old(State()), guid, rows)
    {
      var deleted := storage.Delete(TotpKind, guid);
      RetrieveDb(rows);
      return if deleted.Ok? then Done else Reported;
    }

    /** Empties the list and inserts the rows one by one. */
    method RetrieveDb(rows: seq<Row>)
      requires Valid()
      modifies view
      ensures Valid() && State() == CodeState(LoadCodes(TheEnv(), rows), old(storage.db))
      ensures view.FilteredList() == view.list
    {
      view.Clear();
      ghost var env := TheEnv();
      for n := 0 to |rows|
        invariant Valid()
        invariant view.Contents() == LoadCodes(env, rows[..n])
      {
        assert rows[..n + 1][..n] == rows[..n];
        var row := rows[n];
        if row.data.Some? {
          var parsed := TotpFromText(row.data.value);
          if parsed.Ok? {
            var r := parsed.value;
            var _ := view.InsertUnique(NewItem(view.lower, r.name, Totp.ItemText(r), row.name, 0, 0));
          }
        }
      }
      assert rows[..|rows|] == rows;
      view.FilterReset();
    }
  }
}
