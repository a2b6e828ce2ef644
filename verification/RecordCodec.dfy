/**
 The text form of vault records: one `tag:value` line per field, read back by a loop that
 accumulates into a record, ignores unknown tags and skips lines without a colon.
 */
module RecordCodec {
  import opened Wrappers
  import opened Decimal
  import opened Lines

  type u32 = n: nat | n < U32_LIMIT
  type u64 = n: nat | n < U64_LIMIT

  // ----- tagged lines in general

  predicate OneLine(s: string) { '\n' !in s }

  /** The tags of a record kind: how each is written, and which word names which tag. */
  datatype Tags<!T> = Tags(write: T -> string, read: string -> Option<T>)

  /** How a tag's value changes a record, or why it cannot. */
  type Setter<!R, !T, !E> = (R, T, string) -> Result<R, E>

  ghost predicate TagsRead<T(!new)>(tags: Tags<T>) {
    forall t: T :: ':' !in tags.write(t) && OneLine(tags.write(t)) && tags.read(tags.write(t)) == Some(t)
  }

  /** The (tag, value) fields of a record, in printing order. */
  datatype Fields<T> = End | Field(tag: T, value: string, rest: Fields<T>)

  /** Each field is printed on a line of its own. */
  function Encode<T>(tags: Tags<T>, fields: Fields<T>): string {
    match fields
    case End => ""
    case Field(tag, value, rest) => tags.write(tag) + ":" + value + "\n" + Encode(tags, rest)
  }

  function FieldsInOrder<T>(order: seq<T>, value: T -> string): Fields<T> {
    if order == [] then End else Field(order[0], value(order[0]), FieldsInOrder(order[1..], value))
  }

  predicate ValuesOnOneLine<T>(fields: Fields<T>) {
    match fields
    case End => true
    case Field(_, value, rest) => OneLine(value) && ValuesOnOneLine(rest)
  }

  function ApplyFields<R, T, E>(setter: Setter<R, T, E>, r: R, fields: Fields<T>): Result<R, E>
    decreases fields
  {
    match fields
    case End => Ok(r)
    case Field(tag, value, rest) =>
      match setter(r, tag, value)
      case Err(e) => Err(e)
      case Ok(next) => ApplyFields(setter, next, rest)
  }

  /** The tag and value of a line; lines without a colon or with an unknown tag have none. */
  function TagAndValue<T>(tags: Tags<T>, line: string): Option<(T, string)> {
    match SplitOnce(line, ':')
    case None => None
    case Some((word, value)) =>
      match tags.read(word)
      case None => None
      case Some(tag) => Some((tag, value))
  }

  function ReadLines<R, T, E>(tags: Tags<T>, setter: Setter<R, T, E>, r: R, lines: seq<string>): Result<R, E>
    decreases |lines|
  {
    if lines == [] then Ok(r)
    else
      match TagAndValue(tags, lines[0])
      case None => ReadLines(tags, setter, r, lines[1..])
      case Some((tag, value)) =>
        match setter(r, tag, value)
        case Err(e) => Err(e)
        case Ok(next) => ReadLines(tags, setter, next, lines[1..])
  }

  /** What `from_vec` and `try_from` compute, from the record they start with. */
  function Read<R, T, E>(tags: Tags<T>, setter: Setter<R, T, E>, start: R, text: string): Result<R, E> {
    ReadLines(tags, setter, start, Split(text, '\n'))
  }

  /** The loop shared by the readers of both record kinds. */
  method ParseText<R, T, E>(tags: Tags<T>, setter: Setter<R, T, E>, start: R, text: string) returns (r: Result<R, E>)
    ensures r == Read(tags, setter, start, text)
  {
    var lines := Split(text, '\n');
    var record := start;
    for i := 0 to |lines|
      invariant ReadLines(tags, setter, record, lines[i..]) == Read(tags, setter, start, text)
    {
      assert lines[i..][0] == lines[i] && lines[i..][1..] == lines[i + 1..];
      match TagAndValue(tags, lines[i]) {
        case None =>
        case Some((tag, value)) =>
          var next := setter(record, tag, value);
          if next.Err? {
            return Err(next.error);
          }
          record := next.value;
      }
    }
    return Ok(record);
  }

  /** Reading printed fields sets exactly those fields, in order, colons inside values included. */
  lemma {:induction false} ReadEncoded<R, T(!new), E>(
      tags: Tags<T>, setter: Setter<R, T, E>, start: R, fields: Fields<T>)
    requires TagsRead(tags) && ValuesOnOneLine(fields)
    ensures Read(tags, setter, start, Encode(tags, fields)) == ApplyFields(setter, start, fields)
    decreases fields
  {
    match fields
    case End =>
      SplitLast("", '\n');
      assert ReadLines(tags, setter, start, [""][1..]) == Ok(start);
    case Field(tag, value, rest) =>
      var line := tags.write(tag) + [':'] + value;
      assert Encode(tags, fields) == line + ['\n'] + Encode(tags, rest);
      SplitFirst(line, '\n', Encode(tags, rest));
      SplitOnceFirst(tags.write(tag), ':', value);
      assert ([line] + Split(Encode(tags, rest), '\n'))[1..] == Split(Encode(tags, rest), '\n');
      var next := setter(start, tag, value);
      if next.Ok? {
        ReadEncoded(tags, setter, next.value, rest);
      }
  }

  /** If each field in turn leads from one state to the next, reading their text leads from first to last. */
  lemma {:induction false} ApplyInOrder<R, T, E>(
      setter: Setter<R, T, E>, order: seq<T>, value: T -> string, state: nat -> R, i: nat)
    requires forall k :: 0 <= k < |order| ==> setter(state(k), order[k], value(order[k])) == Ok(state(k + 1))
    requires forall k :: 0 <= k < |order| ==> OneLine(value(order[k]))
    requires i <= |order|
    ensures ApplyFields(setter, state(i), FieldsInOrder(order[i..], value)) == Ok(state(|order|))
    ensures ValuesOnOneLine(FieldsInOrder(order[i..], value))
    decreases |order| - i
  {
    if i < |order| {
      ApplyInOrder(setter, order, value, state, i + 1);
      assert order[i..][0] == order[i] && order[i..][1..] == order[i + 1..];
    }
  }

  lemma ReadInOrder<R, T(!new), E>(
      tags: Tags<T>, setter: Setter<R, T, E>, order: seq<T>, value: T -> string, state: nat -> R)
    requires TagsRead(tags)
    requires forall k :: 0 <= k < |order| ==> setter(state(k), order[k], value(order[k])) == Ok(state(k + 1))
    requires forall k :: 0 <= k < |order| ==> OneLine(value(order[k]))
    ensures Read(tags, setter, state(0), Encode(tags, FieldsInOrder(order, value))) == Ok(state(|order|))
  {
    ApplyInOrder(setter, order, value, state, 0);
    assert order[0..] == order;
    ReadEncoded(tags, setter, state(0), FieldsInOrder(order, value));
  }

  /** Whatever every accepted field keeps, a whole read keeps. */
  lemma {:induction false} ReadKeeps<R(!new), T, E>(
      tags: Tags<T>, setter: Setter<R, T, E>, keeps: R -> bool, lines: seq<string>, r: R)
    requires keeps(r)
    requires forall q: R, i | 0 <= i < |lines| && keeps(q) && TagAndValue(tags, lines[i]).Some? ::
               var next := setter(q, TagAndValue(tags, lines[i]).value.0, TagAndValue(tags, lines[i]).value.1);
               next.Ok? ==> keeps(next.value)
    ensures ReadLines(tags, setter, r, lines).Ok? ==> keeps(ReadLines(tags, setter, r, lines).value)
    decreases |lines|
  {
    if lines != [] {
      var rest := lines[1..];
      assert forall i :: 0 <= i < |rest| ==> rest[i] == lines[i + 1];
      match TagAndValue(tags, lines[0])
      case None => ReadKeeps(tags, setter, keeps, rest, r);
      case Some((tag, value)) =>
        var next := setter(r, tag, value);
        if next.Ok? {
          ReadKeeps(tags, setter, keeps, rest, next.value);
        }
    }
  }

  predicate Tagged<T(==)>(tags: Tags<T>, line: string, tag: T) {
    TagAndValue(tags, line).Some? && TagAndValue(tags, line).value.0 == tag
  }

  predicate HasTag<T(==)>(tags: Tags<T>, lines: seq<string>, tag: T) {
    exists i :: 0 <= i < |lines| && Tagged(tags, lines[i], tag)
  }

  lemma HasTagFirst<T>(tags: Tags<T>, lines: seq<string>, tag: T)
    requires lines != []
    ensures HasTag(tags, lines, tag) <==> Tagged(tags, lines[0], tag) || HasTag(tags, lines[1..], tag)
  {
    assert forall i :: 1 <= i < |lines| ==> lines[i] == lines[1..][i - 1];
    assert forall i :: 0 <= i < |lines| - 1 ==> lines[1..][i] == lines[i + 1];
  }

  function Line(word: string, value: string): string { word + [':'] + value }

  /** The text: a line for each field, the tag's word, a colon and the value. */
  lemma {:induction false} EncodeIsLines<T>(tags: Tags<T>, order: seq<T>, value: T -> string, lines: seq<string>)
    requires |lines| == |order|
    requires forall i :: 0 <= i < |order| ==> lines[i] == Line(tags.write(order[i]), value(order[i]))
    ensures Encode(tags, FieldsInOrder(order, value)) == Unlines(lines)
  {
    if order != [] {
      EncodeIsLines(tags, order[1..], value, lines[1..]);
    }
  }

  // ----- what a read amounts to

  /** The fault of the first line that has one. */
  function FirstFault<T, E>(tags: Tags<T>, lines: seq<string>, fault: (T, string) -> Option<E>): Option<E>
    decreases |lines|
  {
    if lines == [] then None
    else
      match TagAndValue(tags, lines[0])
      case None => FirstFault(tags, lines[1..], fault)
      case Some((tag, value)) =>
        if fault(tag, value).Some? then fault(tag, value) else FirstFault(tags, lines[1..], fault)
  }

  /** What the lines with one tag make of a value, one after another. */
  function Folded<T(==), V>(tags: Tags<T>, lines: seq<string>, tag: T, step: (V, string) -> V, start: V): V
    decreases |lines|
  {
    if lines == [] then start
    else
      match TagAndValue(tags, lines[0])
      case None => Folded(tags, lines[1..], tag, step, start)
      case Some((t, value)) => Folded(tags, lines[1..], tag, step, if t == tag then step(start, value) else start)
  }

  /** A text grows by each line; a number, an algorithm or a flag is replaced by each line that parses. */
  function Append(text: string, value: string): string { text + value }

  function Latest8(n: nat, value: string): nat { Parse(value, U8_LIMIT).UnwrapOr(n) }

  function Latest32(n: u32, value: string): u32 { Parse(value, U32_LIMIT).UnwrapOr(n) }

  function Latest64(n: u64, value: string): u64 { Parse(value, U64_LIMIT).UnwrapOr(n) }

  function Unparsed<E>(value: string, limit: nat, e: E): Option<E> {
    if Parse(value, limit).None? then Some(e) else None
  }

  /** A setter that fails exactly on a fault makes reading fail exactly with the first fault. */
  lemma {:induction false} ReadFaults<R(!new), T(!new), E>(
      tags: Tags<T>, setter: Setter<R, T, E>, fault: (T, string) -> Option<E>, r: R, lines: seq<string>)
    requires forall q: R, tag: T, value ::
               match setter(q, tag, value)
               case Ok(_) => fault(tag, value) == None
               case Err(e) => fault(tag, value) == Some(e)
    ensures match ReadLines(tags, setter, r, lines)
            case Ok(_) => FirstFault(tags, lines, fault) == None
            case Err(e) => FirstFault(tags, lines, fault) == Some(e)
    decreases |lines|
  {
    if lines != [] {
      match TagAndValue(tags, lines[0])
      case None => ReadFaults(tags, setter, fault, r, lines[1..]);
      case Some((tag, value)) =>
        var next := setter(r, tag, value);
        if next.Ok? {
          ReadFaults(tags, setter, fault, next.value, lines[1..]);
        }
    }
  }

  /** A part of the record that one tag alone steps on is the fold of that tag's lines. */
  lemma {:induction false} ReadFolds<R(!new), T(!new), E, V>(
      tags: Tags<T>, setter: Setter<R, T, E>, part: R -> V, own: T, step: (V, string) -> V, r: R, lines: seq<string>)
    requires forall q: R, tag: T, value :: setter(q, tag, value).Ok? ==>
               part(setter(q, tag, value).value) == if tag == own then step(part(q), value) else part(q)
    requires ReadLines(tags, setter, r, lines).Ok?
    ensures part(ReadLines(tags, setter, r, lines).value) == Folded(tags, lines, own, step, part(r))
    decreases |lines|
  {
    if lines != [] {
      match TagAndValue(tags, lines[0])
      case None => ReadFolds(tags, setter, part, own, step, r, lines[1..]);
      case Some((tag, value)) =>
        ReadFolds(tags, setter, part, own, step, setter(r, tag, value).value, lines[1..]);
    }
  }

  // ----- passwords

  datatype PasswordError = BadVersion | BadCtime | BadAtime | BadCount

  datatype PasswordRecord = PasswordRecord(
    version: u32,
    description: string, username: string, password: string, notes: string,
    ctime: u64, atime: u64, count: u64)
  {
    predicate TextOnOneLine() {
      OneLine(description) && OneLine(username) && OneLine(password) && OneLine(notes)
    }

    predicate NoText() { description == username == password == notes == "" }
  }

  datatype PasswordTag = PVersion | PDescription | PUsername | PPassword | PNotes | PCtime | PAtime | PCount

  function WritePasswordTag(t: PasswordTag): string {
    match t
    case PVersion => "version"
    case PDescription => "description"
    case PUsername => "username"
    case PPassword => "password"
    case PNotes => "notes"
    case PCtime => "ctime"
    case PAtime => "atime"
    case PCount => "count"
  }

  function ReadPasswordTag(word: string): Option<PasswordTag> {
    if word == "version" then Some(PVersion)
    else if word == "description" then Some(PDescription)
    else if word == "username" then Some(PUsername)
    else if word == "password" then Some(PPassword)
    else if word == "notes" then Some(PNotes)
    else if word == "ctime" then Some(PCtime)
    else if word == "atime" then Some(PAtime)
    else if word == "count" then Some(PCount)
    else None
  }

  const PASSWORD_TAGS: Tags<PasswordTag> := Tags(WritePasswordTag, ReadPasswordTag)

  lemma PasswordTagsRead()
    ensures TagsRead(PASSWORD_TAGS)
  {
    forall t: PasswordTag
      ensures ':' !in WritePasswordTag(t) && OneLine(WritePasswordTag(t))
      ensures ReadPasswordTag(WritePasswordTag(t)) == Some(t)
    {
      match t {
        case PVersion =>
        case PDescription =>
        case PUsername =>
        case PPassword =>
        case PNotes =>
        case PCtime =>
        case PAtime =>
        case PCount =>
      }
    }
  }

  /** `clear`, the state in which `from_vec` starts. */
  const BLANK_PASSWORD: PasswordRecord := PasswordRecord(0, "", "", "", "", 0, 0, 0)

  /** The state in which `try_from` starts. */
  const DEFAULT_PASSWORD: PasswordRecord := BLANK_PASSWORD.(version := 1)

  /** The fields in printing order. */
  const PASSWORD_ORDER: seq<PasswordTag> :=
    [PVersion, PDescription, PUsername, PPassword, PNotes, PCtime, PAtime, PCount]

  function PasswordValue(r: PasswordRecord, tag: PasswordTag): string {
    match tag
    case PVersion => Print(r.version)
    case PDescription => r.description
    case PUsername => r.username
    case PPassword => r.password
    case PNotes => r.notes
    case PCtime => Print(r.ctime)
    case PAtime => Print(r.atime)
    case PCount => Print(r.count)
  }

  function PasswordToText(r: PasswordRecord): string {
    Encode(PASSWORD_TAGS, FieldsInOrder(PASSWORD_ORDER, tag => PasswordValue(r, tag)))
  }

  /** The lines of the text. */
  function PasswordLines(r: PasswordRecord): seq<string> {
    [
      Line("version", Print(r.version)), Line("description", r.description), Line("username", r.username),
      Line("password", r.password), Line("notes", r.notes), Line("ctime", Print(r.ctime)),
      Line("atime", Print(r.atime)), Line("count", Print(r.count))
    ]
  }

  /** The text, line by line. */
  lemma PasswordText(r: PasswordRecord)
    ensures PasswordToText(r) == Unlines(PasswordLines(r))
  {
    var order, value, lines := PASSWORD_ORDER, tag => PasswordValue(r, tag), PasswordLines(r);
    forall i | 0 <= i < |order| ensures lines[i] == Line(PASSWORD_TAGS.write(order[i]), value(order[i])) {
      PasswordRanks(i);
      match order[i] {
        case PVersion =>
        case PDescription =>
        case PUsername =>
        case PPassword =>
        case PNotes =>
        case PCtime =>
        case PAtime =>
        case PCount =>
      }
    }
    EncodeIsLines(PASSWORD_TAGS, order, value, lines);
  }

  function SetPasswordField(r: PasswordRecord, tag: PasswordTag, value: string): Result<PasswordRecord, PasswordError> {
    match tag
    case PVersion => (match Parse(value, U32_LIMIT) case Some(n) => Ok(r.(version := n)) case None => Err(BadVersion))
    case PDescription => Ok(r.(description := r.description + value))
    case PUsername => Ok(r.(username := r.username + value))
    case PPassword => Ok(r.(password := r.password + value))
    case PNotes => Ok(r.(notes := r.notes + value))
    case PCtime => (match Parse(value, U64_LIMIT) case Some(n) => Ok(r.(ctime := n)) case None => Err(BadCtime))
    case PAtime => (match Parse(value, U64_LIMIT) case Some(n) => Ok(r.(atime := n)) case None => Err(BadAtime))
    case PCount => (match Parse(value, U64_LIMIT) case Some(n) => Ok(r.(count := n)) case None => Err(BadCount))
  }

  function ReadPassword(start: PasswordRecord, text: string): Result<PasswordRecord, PasswordError> {
    Read(PASSWORD_TAGS, SetPasswordField, start, text)
  }

  function PasswordFromText(text: string): Result<PasswordRecord, PasswordError> {
    ReadPassword(BLANK_PASSWORD, text)
  }

  lemma PrintedNumber(n: nat, limit: nat)
    requires n < limit
    ensures OneLine(Print(n)) && Parse(Print(n), limit) == Some(n)
  {
    assert forall i :: 0 <= i < |Print(n)| ==> IsDigit(Print(n)[i]);
    ParsePrint(n, limit);
  }

  function PasswordRank(tag: PasswordTag): nat {
    match tag
    case PVersion => 0
    case PDescription => 1
    case PUsername => 2
    case PPassword => 3
    case PNotes => 4
    case PCtime => 5
    case PAtime => 6
    case PCount => 7
  }

  /** `start` with the first `k` fields as they read back from the text of `r`. */
  function PasswordFilled(start: PasswordRecord, r: PasswordRecord, k: nat): PasswordRecord {
    PasswordRecord(
      if k > 0 then r.version else start.version,
      if k > 1 then r.description else start.description,
      if k > 2 then r.username else start.username,
      if k > 3 then r.password else start.password,
      if k > 4 then r.notes else start.notes,
      if k > 5 then r.ctime else start.ctime,
      if k > 6 then r.atime else start.atime,
      if k > 7 then r.count else start.count)
  }

  lemma PasswordFieldFills(start: PasswordRecord, r: PasswordRecord, tag: PasswordTag)
    requires start.NoText() && r.TextOnOneLine()
    ensures OneLine(PasswordValue(r, tag))
    ensures var k := PasswordRank(tag);
            SetPasswordField(PasswordFilled(start, r, k), tag, PasswordValue(r, tag))
            == Ok(PasswordFilled(start, r, k + 1))
  {
    match tag
    case PVersion => PrintedNumber(r.version, U32_LIMIT);
    case PDescription => assert start.description + r.description == r.description;
    case PUsername => assert start.username + r.username == r.username;
    case PPassword => assert start.password + r.password == r.password;
    case PNotes => assert start.notes + r.notes == r.notes;
    case PCtime => PrintedNumber(r.ctime, U64_LIMIT);
    case PAtime => PrintedNumber(r.atime, U64_LIMIT);
    case PCount => PrintedNumber(r.count, U64_LIMIT);
  }

  lemma PasswordRanks(k: nat)
    requires k < |PASSWORD_ORDER|
    ensures PasswordRank(PASSWORD_ORDER[k]) == k
  {
  }

  /** Printing and reading give the record back, from whatever text-free record the reader starts. */
  lemma PasswordRoundTrip(start: PasswordRecord, r: PasswordRecord)
    requires start.NoText() && r.TextOnOneLine()
    ensures ReadPassword(start, PasswordToText(r)) == Ok(r)
  {
    var order, value := PASSWORD_ORDER, tag => PasswordValue(r, tag);
    var state := (k: nat) => PasswordFilled(start, r, k);
    forall k | 0 <= k < |order|
      ensures SetPasswordField(state(k), order[k], value(order[k])) == Ok(state(k + 1)) && OneLine(value(order[k]))
    {
      PasswordRanks(k);
      PasswordFieldFills(start, r, order[k]);
    }
    PasswordTagsRead();
    ReadInOrder(PASSWORD_TAGS, SetPasswordField, order, value, state);
    assert state(0) == start && state(|order|) == r;
  }

  /** Whatever text is read, the text fields of the record contain no newline. */
  lemma ReadPasswordOnOneLine(start: PasswordRecord, text: string)
    requires start.TextOnOneLine()
    ensures ReadPassword(start, text).Ok? ==> ReadPassword(start, text).value.TextOnOneLine()
  {
    ReadKeeps(PASSWORD_TAGS, SetPasswordField, (r: PasswordRecord) => r.TextOnOneLine(), Split(text, '\n'), start);
  }

  /** With either reader, the round trip holds exactly for records whose text fields stay on one line. */
  lemma PasswordRoundTripIff(r: PasswordRecord)
    ensures PasswordFromText(PasswordToText(r)) == Ok(r) <==> r.TextOnOneLine()
    ensures ReadPassword(DEFAULT_PASSWORD, PasswordToText(r)) == Ok(r) <==> r.TextOnOneLine()
  {
    if r.TextOnOneLine() {
      PasswordRoundTrip(BLANK_PASSWORD, r);
      PasswordRoundTrip(DEFAULT_PASSWORD, r);
    }
    ReadPasswordOnOneLine(BLANK_PASSWORD, PasswordToText(r));
    ReadPasswordOnOneLine(DEFAULT_PASSWORD, PasswordToText(r));
  }

  /** Any text that parses is stable from then on: re-encoding what was read loses nothing. */
  lemma PasswordReadIsStable(text: string)
    requires PasswordFromText(text).Ok?
    ensures PasswordFromText(PasswordToText(PasswordFromText(text).value)) == PasswordFromText(text)
  {
    ReadPasswordOnOneLine(BLANK_PASSWORD, text);
    PasswordRoundTrip(BLANK_PASSWORD, PasswordFromText(text).value);
  }

  lemma SetPasswordFieldVersion(r: PasswordRecord, v: u32, tag: PasswordTag, value: string)
    ensures var a, b := SetPasswordField(r, tag, value), SetPasswordField(r.(version := v), tag, value);
            if tag == PVersion then a == b
            else (a.Err? <==> b.Err?) && (a.Err? ==> a == b)
                 && (a.Ok? ==> a.value.version == r.version && b.value == a.value.(version := v))
  {
  }

  lemma {:induction false} PasswordLinesAgree(r: PasswordRecord, v: u32, lines: seq<string>)
    ensures var a, b := ReadLines(PASSWORD_TAGS, SetPasswordField, r, lines),
                        ReadLines(PASSWORD_TAGS, SetPasswordField, r.(version := v), lines);
            && (a.Err? <==> b.Err?)
            && (a.Err? ==> a == b)
            && (a.Ok? && HasTag(PASSWORD_TAGS, lines, PVersion) ==> a == b)
            && (a.Ok? && !HasTag(PASSWORD_TAGS, lines, PVersion) ==>
                  a.value.version == r.version && b.value == a.value.(version := v))
    decreases |lines|
  {
    if lines != [] {
      HasTagFirst(PASSWORD_TAGS, lines, PVersion);
      match TagAndValue(PASSWORD_TAGS, lines[0])
      case None => PasswordLinesAgree(r, v, lines[1..]);
      case Some((tag, value)) =>
        SetPasswordFieldVersion(r, v, tag, value);
        var a := SetPasswordField(r, tag, value);
        if a.Ok? {
          PasswordLinesAgree(a.value, if tag == PVersion then a.value.version else v, lines[1..]);
          assert a.value == a.value.(version := a.value.version);
        }
    }
  }

  /** What is wrong with a line: a number that does not parse. */
  function PasswordFault(tag: PasswordTag, value: string): Option<PasswordError> {
    match tag
    case PVersion => Unparsed(value, U32_LIMIT, BadVersion)
    case PCtime => Unparsed(value, U64_LIMIT, BadCtime)
    case PAtime => Unparsed(value, U64_LIMIT, BadAtime)
    case PCount => Unparsed(value, U64_LIMIT, BadCount)
    case _ => None
  }

  lemma PasswordTexts(start: PasswordRecord, lines: seq<string>)
    requires ReadLines(PASSWORD_TAGS, SetPasswordField, start, lines).Ok?
    ensures var r := ReadLines(PASSWORD_TAGS, SetPasswordField, start, lines).value;
            && r.description == Folded(PASSWORD_TAGS, lines, PDescription, Append, start.description)
            && r.username == Folded(PASSWORD_TAGS, lines, PUsername, Append, start.username)
            && r.password == Folded(PASSWORD_TAGS, lines, PPassword, Append, start.password)
            && r.notes == Folded(PASSWORD_TAGS, lines, PNotes, Append, start.notes)
  {
    ReadFolds(PASSWORD_TAGS, SetPasswordField,
              (r: PasswordRecord) => r.description, PDescription, Append, start, lines);
    ReadFolds(PASSWORD_TAGS, SetPasswordField, (r: PasswordRecord) => r.username, PUsername, Append, start, lines);
    ReadFolds(PASSWORD_TAGS, SetPasswordField, (r: PasswordRecord) => r.password, PPassword, Append, start, lines);
    ReadFolds(PASSWORD_TAGS, SetPasswordField, (r: PasswordRecord) => r.notes, PNotes, Append, start, lines);
  }

  lemma PasswordNumbers(start: PasswordRecord, lines: seq<string>)
    requires ReadLines(PASSWORD_TAGS, SetPasswordField, start, lines).Ok?
    ensures var r := ReadLines(PASSWORD_TAGS, SetPasswordField, start, lines).value;
            && r.version == Folded(PASSWORD_TAGS, lines, PVersion, Latest32, start.version)
            && r.count == Folded(PASSWORD_TAGS, lines, PCount, Latest64, start.count)
  {
    ReadFolds(PASSWORD_TAGS, SetPasswordField, (r: PasswordRecord) => r.version, PVersion, Latest32, start, lines);
    ReadFolds(PASSWORD_TAGS, SetPasswordField, (r: PasswordRecord) => r.count, PCount, Latest64, start, lines);
  }

  lemma PasswordTimes(start: PasswordRecord, lines: seq<string>)
    requires ReadLines(PASSWORD_TAGS, SetPasswordField, start, lines).Ok?
    ensures var r := ReadLines(PASSWORD_TAGS, SetPasswordField, start, lines).value;
            && r.ctime == Folded(PASSWORD_TAGS, lines, PCtime, Latest64, start.ctime)
            && r.atime == Folded(PASSWORD_TAGS, lines, PAtime, Latest64, start.atime)
  {
    ReadFolds(PASSWORD_TAGS, SetPasswordField, (r: PasswordRecord) => r.ctime, PCtime, Latest64, start, lines);
    ReadFolds(PASSWORD_TAGS, SetPasswordField, (r: PasswordRecord) => r.atime, PAtime, Latest64, start, lines);
  }

  /**
   What any text reads as: the first fault, if a line has one; else the texts add up over the lines
   with their tag, and each number is that of the last line with its tag.
   */
  lemma PasswordMeans(start: PasswordRecord, text: string)
    ensures var lines := Split(text, '\n');
            match FirstFault(PASSWORD_TAGS, lines, PasswordFault)
            case Some(e) => ReadPassword(start, text) == Err(e)
            case None =>
              && ReadPassword(start, text).Ok?
              && var r := ReadPassword(start, text).value;
                 && r.version == Folded(PASSWORD_TAGS, lines, PVersion, Latest32, start.version)
                 && r.description == Folded(PASSWORD_TAGS, lines, PDescription, Append, start.description)
                 && r.username == Folded(PASSWORD_TAGS, lines, PUsername, Append, start.username)
                 && r.password == Folded(PASSWORD_TAGS, lines, PPassword, Append, start.password)
                 && r.notes == Folded(PASSWORD_TAGS, lines, PNotes, Append, start.notes)
                 && r.ctime == Folded(PASSWORD_TAGS, lines, PCtime, Latest64, start.ctime)
                 && r.atime == Folded(PASSWORD_TAGS, lines, PAtime, Latest64, start.atime)
                 && r.count == Folded(PASSWORD_TAGS, lines, PCount, Latest64, start.count)
  {
    var lines := Split(text, '\n');
    ReadFaults(PASSWORD_TAGS, SetPasswordField, PasswordFault, start, lines);
    if ReadPassword(start, text).Ok? {
      PasswordTexts(start, lines);
      PasswordNumbers(start, lines);
      PasswordTimes(start, lines);
    }
  }

  /**
   The two readers fail alike and succeed alike; without a version line they differ in the version
   alone, 0 against 1.
   */
  lemma PasswordReadersAgree(text: string)
    ensures var a, b := PasswordFromText(text), ReadPassword(DEFAULT_PASSWORD, text);
            if a.Err? || HasTag(PASSWORD_TAGS, Split(text, '\n'), PVersion) then a == b
            else a.value.version == 0 && b == Ok(a.value.(version := 1))
  {
    PasswordLinesAgree(BLANK_PASSWORD, 1, Split(text, '\n'));
  }

  // ----- one-time codes

  datatype Algorithm = HmacSha1 | HmacSha256 | HmacSha512 | NoAlgorithm

  function PrintAlgorithm(a: Algorithm): string {
    match a
    case HmacSha1 => "SHA1"
    case HmacSha256 => "SHA256"
    case HmacSha512 => "SHA512"
    case NoAlgorithm => "None"
  }

  function ParseAlgorithm(s: string): Option<Algorithm> {
    if s == "SHA1" || s == "None" then Some(HmacSha1)
    else if s == "SHA256" then Some(HmacSha256)
    else if s == "SHA512" then Some(HmacSha512)
    else None
  }

  function Normalize(a: Algorithm): Algorithm { if a == NoAlgorithm then HmacSha1 else a }

  lemma AlgorithmRoundTrip(a: Algorithm)
    ensures ParseAlgorithm(PrintAlgorithm(a)) == Some(Normalize(a))
    ensures OneLine(PrintAlgorithm(a)) && ':' !in PrintAlgorithm(a)
  {
    match a
    case HmacSha1 => assert |PrintAlgorithm(a)| == 4;
    case HmacSha256 => assert |PrintAlgorithm(a)| == 6;
    case HmacSha512 => assert |PrintAlgorithm(a)| == 6 && PrintAlgorithm(a)[3] == '5';
    case NoAlgorithm => assert |PrintAlgorithm(a)| == 4;
  }

  datatype TotpError = BadTotpVersion | BadAlgorithm | BadDigitsAmount | BadTotpCtime | BadTimestep | BadHotp

  datatype TotpRecord = TotpRecord(
    version: u32,
    secret: string, name: string, algorithm: Algorithm, notes: string,
    digits: u32, timestep: u64, ctime: u64, isHotp: bool)
  {
    predicate TextOnOneLine() { OneLine(secret) && OneLine(name) && OneLine(notes) }

    predicate NoText() { secret == name == notes == "" }
  }

  datatype TotpTag = TVersion | TSecret | TName | TAlgorithm | TNotes | TDigits | TTimestep | THotp | TCtime

  function WriteTotpTag(t: TotpTag): string {
    match t
    case TVersion => "version"
    case TSecret => "secret"
    case TName => "name"
    case TAlgorithm => "algorithm"
    case TNotes => "notes"
    case TDigits => "digits"
    case TTimestep => "timestep"
    case THotp => "hotp"
    case TCtime => "ctime"
  }

  function ReadTotpTag(word: string): Option<TotpTag> {
    if word == "version" then Some(TVersion)
    else if word == "secret" then Some(TSecret)
    else if word == "name" then Some(TName)
    else if word == "algorithm" then Some(TAlgorithm)
    else if word == "notes" then Some(TNotes)
    else if word == "digits" then Some(TDigits)
    else if word == "timestep" then Some(TTimestep)
    else if word == "hotp" then Some(THotp)
    else if word == "ctime" then Some(TCtime)
    else None
  }

  const TOTP_TAGS: Tags<TotpTag> := Tags(WriteTotpTag, ReadTotpTag)

  lemma TotpTagsRead()
    ensures TagsRead(TOTP_TAGS)
  {
    forall t: TotpTag
      ensures ':' !in WriteTotpTag(t) && OneLine(WriteTotpTag(t)) && ReadTotpTag(WriteTotpTag(t)) == Some(t)
    {
      match t {
        case TVersion =>
        case TSecret =>
        case TName =>
        case TAlgorithm =>
        case TNotes =>
        case TDigits =>
        case TTimestep =>
        case THotp =>
        case TCtime =>
      }
    }
  }

  /** `default`, the state in which `from_vec` starts. */
  const BLANK_TOTP: TotpRecord := TotpRecord(0, "", "", NoAlgorithm, "", 0, 0, 0, false)

  /** The state in which `try_from` starts. */
  const DEFAULT_TOTP: TotpRecord := BLANK_TOTP.(version := 2, algorithm := HmacSha1)

  function PrintFlag(b: bool): string { if b then "1" else "0" }

  /** The fields in printing order. */
  const TOTP_ORDER: seq<TotpTag> :=
    [TVersion, TSecret, TName, TAlgorithm, TNotes, TDigits, TTimestep, THotp, TCtime]

  function TotpValue(r: TotpRecord, tag: TotpTag): string {
    match tag
    case TVersion => Print(r.version)
    case TSecret => r.secret
    case TName => r.name
    case TAlgorithm => PrintAlgorithm(r.algorithm)
    case TNotes => r.notes
    case TDigits => Print(r.digits)
    case TTimestep => Print(r.timestep)
    case THotp => PrintFlag(r.isHotp)
    case TCtime => Print(r.ctime)
  }

  function TotpToText(r: TotpRecord): string {
    Encode(TOTP_TAGS, FieldsInOrder(TOTP_ORDER, tag => TotpValue(r, tag)))
  }

  /** The lines of the text. */
  function TotpLines(r: TotpRecord): seq<string> {
    [
      Line("version", Print(r.version)), Line("secret", r.secret), Line("name", r.name),
      Line("algorithm", PrintAlgorithm(r.algorithm)), Line("notes", r.notes), Line("digits", Print(r.digits)),
      Line("timestep", Print(r.timestep)), Line("hotp", if r.isHotp then "1" else "0"),
      Line("ctime", Print(r.ctime))
    ]
  }

  /** The text, line by line. */
  lemma TotpText(r: TotpRecord)
    ensures TotpToText(r) == Unlines(TotpLines(r))
  {
    var order, value, lines := TOTP_ORDER, tag => TotpValue(r, tag), TotpLines(r);
    forall i | 0 <= i < |order| ensures lines[i] == Line(TOTP_TAGS.write(order[i]), value(order[i])) {
      TotpRanks(i);
      match order[i] {
        case TVersion =>
        case TSecret =>
        case TName =>
        case TAlgorithm =>
        case TNotes =>
        case TDigits =>
        case TTimestep =>
        case THotp =>
        case TCtime =>
      }
    }
    EncodeIsLines(TOTP_TAGS, order, value, lines);
  }

  function SetTotpField(r: TotpRecord, tag: TotpTag, value: string): Result<TotpRecord, TotpError> {
    match tag
    case TVersion =>
      (match Parse(value, U32_LIMIT) case Some(n) => Ok(r.(version := n)) case None => Err(BadTotpVersion))
    case TSecret => Ok(r.(secret := r.secret + value))
    case TName => Ok(r.(name := r.name + value))
    case TAlgorithm =>
      (match ParseAlgorithm(value) case Some(a) => Ok(r.(algorithm := a)) case None => Err(BadAlgorithm))
    case TNotes => Ok(r.(notes := r.notes + value))
    case TDigits =>
      (match Parse(value, U32_LIMIT) case Some(n) => Ok(r.(digits := n)) case None => Err(BadDigitsAmount))
    case TCtime => (match Parse(value, U64_LIMIT) case Some(n) => Ok(r.(ctime := n)) case None => Err(BadTotpCtime))
    case TTimestep =>
      (match Parse(value, U64_LIMIT) case Some(n) => Ok(r.(timestep := n)) case None => Err(BadTimestep))
    case THotp => (match Parse(value, U8_LIMIT) case Some(n) => Ok(r.(isHotp := n != 0)) case None => Err(BadHotp))
  }

  function ReadTotp(start: TotpRecord, text: string): Result<TotpRecord, TotpError> {
    Read(TOTP_TAGS, SetTotpField, start, text)
  }

  function TotpFromText(text: string): Result<TotpRecord, TotpError> {
    ReadTotp(BLANK_TOTP, text)
  }

  function LatestAlgorithm(a: Algorithm, value: string): Algorithm { ParseAlgorithm(value).UnwrapOr(a) }

  /** Any number but zero is a set flag. */
  function LatestFlag(b: bool, value: string): bool { Latest8(if b then 1 else 0, value) != 0 }

  /** What is wrong with a line: a number or an algorithm that does not parse. */
  function TotpFault(tag: TotpTag, value: string): Option<TotpError> {
    match tag
    case TVersion => Unparsed(value, U32_LIMIT, BadTotpVersion)
    case TAlgorithm => if ParseAlgorithm(value).None? then Some(BadAlgorithm) else None
    case TDigits => Unparsed(value, U32_LIMIT, BadDigitsAmount)
    case TTimestep => Unparsed(value, U64_LIMIT, BadTimestep)
    case THotp => Unparsed(value, U8_LIMIT, BadHotp)
    case TCtime => Unparsed(value, U64_LIMIT, BadTotpCtime)
    case _ => None
  }

  lemma TotpTexts(start: TotpRecord, lines: seq<string>)
    requires ReadLines(TOTP_TAGS, SetTotpField, start, lines).Ok?
    ensures var r := ReadLines(TOTP_TAGS, SetTotpField, start, lines).value;
            && r.secret == Folded(TOTP_TAGS, lines, TSecret, Append, start.secret)
            && r.name == Folded(TOTP_TAGS, lines, TName, Append, start.name)
            && r.notes == Folded(TOTP_TAGS, lines, TNotes, Append, start.notes)
  {
    ReadFolds(TOTP_TAGS, SetTotpField, (r: TotpRecord) => r.secret, TSecret, Append, start, lines);
    ReadFolds(TOTP_TAGS, SetTotpField, (r: TotpRecord) => r.name, TName, Append, start, lines);
    ReadFolds(TOTP_TAGS, SetTotpField, (r: TotpRecord) => r.notes, TNotes, Append, start, lines);
  }

  lemma TotpNumbers(start: TotpRecord, lines: seq<string>)
    requires ReadLines(TOTP_TAGS, SetTotpField, start, lines).Ok?
    ensures var r := ReadLines(TOTP_TAGS, SetTotpField, start, lines).value;
            && r.version == Folded(TOTP_TAGS, lines, TVersion, Latest32, start.version)
            && r.digits == Folded(TOTP_TAGS, lines, TDigits, Latest32, start.digits)
  {
    ReadFolds(TOTP_TAGS, SetTotpField, (r: TotpRecord) => r.version, TVersion, Latest32, start, lines);
    ReadFolds(TOTP_TAGS, SetTotpField, (r: TotpRecord) => r.digits, TDigits, Latest32, start, lines);
  }

  lemma TotpTimes(start: TotpRecord, lines: seq<string>)
    requires ReadLines(TOTP_TAGS, SetTotpField, start, lines).Ok?
    ensures var r := ReadLines(TOTP_TAGS, SetTotpField, start, lines).value;
            && r.timestep == Folded(TOTP_TAGS, lines, TTimestep, Latest64, start.timestep)
            && r.ctime == Folded(TOTP_TAGS, lines, TCtime, Latest64, start.ctime)
  {
    ReadFolds(TOTP_TAGS, SetTotpField, (r: TotpRecord) => r.timestep, TTimestep, Latest64, start, lines);
    ReadFolds(TOTP_TAGS, SetTotpField, (r: TotpRecord) => r.ctime, TCtime, Latest64, start, lines);
  }

  lemma TotpRest(start: TotpRecord, lines: seq<string>)
    requires ReadLines(TOTP_TAGS, SetTotpField, start, lines).Ok?
    ensures var r := ReadLines(TOTP_TAGS, SetTotpField, start, lines).value;
            && r.algorithm == Folded(TOTP_TAGS, lines, TAlgorithm, LatestAlgorithm, start.algorithm)
            && r.isHotp == Folded(TOTP_TAGS, lines, THotp, LatestFlag, start.isHotp)
  {
    ReadFolds(TOTP_TAGS, SetTotpField, (r: TotpRecord) => r.algorithm, TAlgorithm, LatestAlgorithm, start, lines);
    ReadFolds(TOTP_TAGS, SetTotpField, (r: TotpRecord) => r.isHotp, THotp, LatestFlag, start, lines);
  }

  /** The same for codes. */
  lemma TotpMeans(start: TotpRecord, text: string)
    ensures var lines := Split(text, '\n');
            match FirstFault(TOTP_TAGS, lines, TotpFault)
            case Some(e) => ReadTotp(start, text) == Err(e)
            case None =>
              && ReadTotp(start, text).Ok?
              && var r := ReadTotp(start, text).value;
                 && r.version == Folded(TOTP_TAGS, lines, TVersion, Latest32, start.version)
                 && r.secret == Folded(TOTP_TAGS, lines, TSecret, Append, start.secret)
                 && r.name == Folded(TOTP_TAGS, lines, TName, Append, start.name)
                 && r.algorithm == Folded(TOTP_TAGS, lines, TAlgorithm, LatestAlgorithm, start.algorithm)
                 && r.notes == Folded(TOTP_TAGS, lines, TNotes, Append, start.notes)
                 && r.digits == Folded(TOTP_TAGS, lines, TDigits, Latest32, start.digits)
                 && r.timestep == Folded(TOTP_TAGS, lines, TTimestep, Latest64, start.timestep)
                 && r.isHotp == Folded(TOTP_TAGS, lines, THotp, LatestFlag, start.isHotp)
                 && r.ctime == Folded(TOTP_TAGS, lines, TCtime, Latest64, start.ctime)
  {
    var lines := Split(text, '\n');
    ReadFaults(TOTP_TAGS, SetTotpField, TotpFault, start, lines);
    if ReadTotp(start, text).Ok? {
      TotpTexts(start, lines);
      TotpNumbers(start, lines);
      TotpTimes(start, lines);
      TotpRest(start, lines);
    }
  }

  lemma PrintedFlag(b: bool)
    ensures OneLine(PrintFlag(b)) && Parse(PrintFlag(b), U8_LIMIT) == Some(if b then 1 else 0)
  {
    var n := if b then 1 else 0;
    assert PrintFlag(b) == Print(n);
    PrintedNumber(n, U8_LIMIT);
  }

  function TotpRank(tag: TotpTag): nat {
    match tag
    case TVersion => 0
    case TSecret => 1
    case TName => 2
    case TAlgorithm => 3
    case TNotes => 4
    case TDigits => 5
    case TTimestep => 6
    case THotp => 7
    case TCtime => 8
  }

  /** `start` with the first `k` fields as they read back from the text of `r`. */
  function TotpFilled(start: TotpRecord, r: TotpRecord, k: nat): TotpRecord {
    TotpRecord(
      if k > 0 then r.version else start.version,
      if k > 1 then r.secret else start.secret,
      if k > 2 then r.name else start.name,
      if k > 3 then Normalize(r.algorithm) else start.algorithm,
      if k > 4 then r.notes else start.notes,
      if k > 5 then r.digits else start.digits,
      if k > 6 then r.timestep else start.timestep,
      if k > 8 then r.ctime else start.ctime,
      if k > 7 then r.isHotp else start.isHotp)
  }

  lemma TotpFieldFills(start: TotpRecord, r: TotpRecord, tag: TotpTag)
    requires start.NoText() && r.TextOnOneLine()
    ensures OneLine(TotpValue(r, tag))
    ensures var k := TotpRank(tag);
            SetTotpField(TotpFilled(start, r, k), tag, TotpValue(r, tag)) == Ok(TotpFilled(start, r, k + 1))
  {
    match tag
    case TVersion => PrintedNumber(r.version, U32_LIMIT);
    case TSecret => assert start.secret + r.secret == r.secret;
    case TName => assert start.name + r.name == r.name;
    case TAlgorithm => AlgorithmRoundTrip(r.algorithm);
    case TNotes => assert start.notes + r.notes == r.notes;
    case TDigits => PrintedNumber(r.digits, U32_LIMIT);
    case TTimestep => PrintedNumber(r.timestep, U64_LIMIT);
    case THotp => PrintedFlag(r.isHotp);
    case TCtime => PrintedNumber(r.ctime, U64_LIMIT);
  }

  lemma TotpRanks(k: nat)
    requires k < |TOTP_ORDER|
    ensures TotpRank(TOTP_ORDER[k]) == k
  {
  }

  /** Printing and reading give the record back, except that no algorithm becomes SHA1. */
  lemma TotpRoundTrip(start: TotpRecord, r: TotpRecord)
    requires start.NoText() && r.TextOnOneLine()
    ensures ReadTotp(start, TotpToText(r)) == Ok(r.(algorithm := Normalize(r.algorithm)))
  {
    var order, value := TOTP_ORDER, tag => TotpValue(r, tag);
    var state := (k: nat) => TotpFilled(start, r, k);
    forall k | 0 <= k < |order|
      ensures SetTotpField(state(k), order[k], value(order[k])) == Ok(state(k + 1)) && OneLine(value(order[k]))
    {
      TotpRanks(k);
      TotpFieldFills(start, r, order[k]);
    }
    TotpTagsRead();
    ReadInOrder(TOTP_TAGS, SetTotpField, order, value, state);
    assert state(0) == start && state(|order|) == r.(algorithm := Normalize(r.algorithm));
  }

  lemma ReadTotpOnOneLine(start: TotpRecord, text: string)
    requires start.TextOnOneLine()
    ensures ReadTotp(start, text).Ok? ==> ReadTotp(start, text).value.TextOnOneLine()
  {
    ReadKeeps(TOTP_TAGS, SetTotpField, (r: TotpRecord) => r.TextOnOneLine(), Split(text, '\n'), start);
  }

  /** With either reader, the round trip is exact precisely for one-line text fields and a real algorithm. */
  lemma TotpRoundTripIff(r: TotpRecord)
    ensures TotpFromText(TotpToText(r)) == Ok(r) <==> r.TextOnOneLine() && r.algorithm != NoAlgorithm
    ensures ReadTotp(DEFAULT_TOTP, TotpToText(r)) == Ok(r) <==> r.TextOnOneLine() && r.algorithm != NoAlgorithm
  {
    if r.TextOnOneLine() {
      TotpRoundTrip(BLANK_TOTP, r);
      TotpRoundTrip(DEFAULT_TOTP, r);
    }
    ReadTotpOnOneLine(BLANK_TOTP, TotpToText(r));
    ReadTotpOnOneLine(DEFAULT_TOTP, TotpToText(r));
  }

  /** Version 1 text has no `hotp` line; a reader that starts time-based then ends time-based. */
  lemma NoHotpLineMeansTotp(start: TotpRecord, text: string)
    requires !HasTag(TOTP_TAGS, Split(text, '\n'), THotp) && !start.isHotp
    ensures ReadTotp(start, text).Ok? ==> !ReadTotp(start, text).value.isHotp
  {
    var lines := Split(text, '\n');
    forall i | 0 <= i < |lines| ensures !Tagged(TOTP_TAGS, lines[i], THotp) {
      assert !HasTag(TOTP_TAGS, lines, THotp);
    }
    ReadKeeps(TOTP_TAGS, SetTotpField, (r: TotpRecord) => !r.isHotp, lines, start);
  }

  lemma SetTotpFieldStarts(r: TotpRecord, v: u32, g: Algorithm, tag: TotpTag, value: string)
    ensures var a, b := SetTotpField(r, tag, value), SetTotpField(r.(version := v, algorithm := g), tag, value);
            if a.Err? then a == b
            else (tag != TVersion ==> a.value.version == r.version)
                 && (tag != TAlgorithm ==> a.value.algorithm == r.algorithm)
                 && b == Ok(a.value.(version := if tag == TVersion then a.value.version else v,
                                  algorithm := if tag == TAlgorithm then a.value.algorithm else g))
  {
  }

  lemma {:induction false} TotpLinesAgree(r: TotpRecord, v: u32, g: Algorithm, lines: seq<string>)
    ensures var a, b := ReadLines(TOTP_TAGS, SetTotpField, r, lines),
                        ReadLines(TOTP_TAGS, SetTotpField, r.(version := v, algorithm := g), lines);
            if a.Err? then a == b
            else (!HasTag(TOTP_TAGS, lines, TVersion) ==> a.value.version == r.version)
                 && (!HasTag(TOTP_TAGS, lines, TAlgorithm) ==> a.value.algorithm == r.algorithm)
                 && b == Ok(a.value.(
                              version := if HasTag(TOTP_TAGS, lines, TVersion) then a.value.version else v,
                              algorithm := if HasTag(TOTP_TAGS, lines, TAlgorithm) then a.value.algorithm else g))
    decreases |lines|
  {
    if lines != [] {
      HasTagFirst(TOTP_TAGS, lines, TVersion);
      HasTagFirst(TOTP_TAGS, lines, TAlgorithm);
      match TagAndValue(TOTP_TAGS, lines[0])
      case None => TotpLinesAgree(r, v, g, lines[1..]);
      case Some((tag, value)) =>
        SetTotpFieldStarts(r, v, g, tag, value);
        var a := SetTotpField(r, tag, value);
        if a.Ok? {
          var next := a.value;
          TotpLinesAgree(next, if tag == TVersion then next.version else v,
                         if tag == TAlgorithm then next.algorithm else g, lines[1..]);
        }
    }
  }

  /**
   The two TOTP readers fail alike and succeed alike; a missing version reads as 0 or 2, a missing
   algorithm as none or SHA1.
   */
  lemma TotpReadersAgree(text: string)
    ensures var a, b := TotpFromText(text), ReadTotp(DEFAULT_TOTP, text);
            var lines := Split(text, '\n');
            if a.Err? then a == b
            else b == Ok(a.value.(
                           version := if HasTag(TOTP_TAGS, lines, TVersion) then a.value.version else 2,
                           algorithm := if HasTag(TOTP_TAGS, lines, TAlgorithm) then a.value.algorithm else HmacSha1))
  {
    TotpLinesAgree(BLANK_TOTP, 2, HmacSha1, Split(text, '\n'));
  }

  /** A record has no algorithm exactly when its text has no algorithm line: even "None" reads as SHA1. */
  lemma NoAlgorithmIff(text: string)
    requires TotpFromText(text).Ok?
    ensures TotpFromText(text).value.algorithm == NoAlgorithm <==> !HasTag(TOTP_TAGS, Split(text, '\n'), TAlgorithm)
  {
    NoAlgorithmFrom(BLANK_TOTP, Split(text, '\n'));
  }

  lemma {:induction false} NoAlgorithmFrom(start: TotpRecord, lines: seq<string>)
    requires ReadLines(TOTP_TAGS, SetTotpField, start, lines).Ok?
    ensures ReadLines(TOTP_TAGS, SetTotpField, start, lines).value.algorithm == NoAlgorithm
            <==> start.algorithm == NoAlgorithm && !HasTag(TOTP_TAGS, lines, TAlgorithm)
    decreases |lines|
  {
    if lines != [] {
      HasTagFirst(TOTP_TAGS, lines, TAlgorithm);
      match TagAndValue(TOTP_TAGS, lines[0])
      case None => NoAlgorithmFrom(start, lines[1..]);
      case Some(field) =>
        SetAlgorithm(start, field.0, field.1);
        NoAlgorithmFrom(SetTotpField(start, field.0, field.1).value, lines[1..]);
    }
  }

  lemma SetAlgorithm(r: TotpRecord, tag: TotpTag, value: string)
    requires SetTotpField(r, tag, value).Ok?
    ensures SetTotpField(r, tag, value).value.algorithm == NoAlgorithm
            <==> r.algorithm == NoAlgorithm && tag != TAlgorithm
  {
  }
}
