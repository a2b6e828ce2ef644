/**
 One-time codes: packing the counter, dynamic truncation (section 5.3 of RFC 4226), the time step
 (section 4.2 of RFC 6238), and the text a record's list item carries to the code generator. HMAC,
 base32 and upper-casing are parameters.
 */
module Totp {
  import opened Wrappers
  import opened Decimal
  import opened Lines
  import RC = RecordCodec

  type byte = n: nat | n < 256
  type u64 = n: nat | n < 0x1_0000_0000_0000_0000

  // ---- unpack_u64 ----

  /** The number whose big-endian bytes these are. */
  function BigEndian(bytes: seq<byte>): nat {
    if bytes == [] then 0 else 0x100 * BigEndian(bytes[..|bytes| - 1]) + bytes[|bytes| - 1]
  }

  function Pow256(k: nat): (p: nat)
    ensures p > 0
  {
    if k == 0 then 1 else 0x100 * Pow256(k - 1)
  }

  lemma {:induction false} BigEndianInjective(a: seq<byte>, b: seq<byte>)
    requires |a| == |b| && BigEndian(a) == BigEndian(b)
    ensures a == b
  {
    if a != [] {
      var n := |a| - 1;
      BigEndianInjective(a[..n], b[..n]);
      assert a == a[..n] + [a[n]] && b == b[..n] + [b[n]];
    }
  }

  /** Putting a byte in front of big-endian bytes. */
  lemma {:induction false} BigEndianPrepend(b: byte, rest: seq<byte>)
    ensures BigEndian([b] + rest) == b * Pow256(|rest|) + BigEndian(rest)
  {
    if rest == [] {
      assert ([b] + rest)[..0] == [];
    } else {
      var n := |rest| - 1;
      BigEndianPrepend(b, rest[..n]);
      assert ([b] + rest)[..n + 1] == [b] + rest[..n];
      assert b * (0x100 * Pow256(n)) == 0x100 * (b * Pow256(n));
    }
  }

  /** Moving the low byte of what is left into the bytes already produced. */
  lemma MoveByte(left: nat, p: nat, done: nat)
    ensures left * p + done == (left / 0x100) * (0x100 * p) + ((left % 0x100) * p + done)
  {
    var high, low := left / 0x100, left % 0x100;
    assert left == 0x100 * high + low;
    assert (0x100 * high + low) * p == high * (0x100 * p) + low * p;
  }

  /** One turn of the loop: the low byte of what is left goes in front of the bytes done. */
  lemma OneByteMore(v: nat, left: nat, i: nat, done: seq<byte>)
    requires |done| == i && v == left * Pow256(i) + BigEndian(done)
    ensures v == (left / 0x100) * Pow256(i + 1) + BigEndian([left % 0x100] + done)
  {
    BigEndianPrepend(left % 0x100, done);
    MoveByte(left, Pow256(i), BigEndian(done));
  }

  lemma NothingLeft(v: u64, left: nat, done: nat)
    requires v == left * Pow256(8) + done
    ensures left == 0 && v == done
  {
    Pow256At8();
  }

  lemma OnlyForm(v: nat, bytes: seq<byte>)
    requires BigEndian(bytes) == v
    ensures forall other: seq<byte> :: |other| == |bytes| && BigEndian(other) == v ==> other == bytes
  {
    forall other: seq<byte> | |other| == |bytes| && BigEndian(other) == v ensures other == bytes {
      BigEndianInjective(other, bytes);
    }
  }

  /** `unpack_u64`: the eight bytes are the number's big-endian form, and no other eight bytes are. */
  method UnpackU64(v: u64) returns (bytes: array<byte>)
    ensures fresh(bytes) && bytes.Length == 8 && BigEndian(bytes[..]) == v
    ensures forall other: seq<byte> :: |other| == 8 && BigEndian(other) == v ==> other == bytes[..]
  {
    bytes := new byte[8](_ => 0);
    var i := 0;
    var left: nat := v;
    while i < 8
      invariant 0 <= i <= 8 && bytes.Length == 8
      invariant v == left * Pow256(i) + BigEndian(bytes[8 - i..])
    {
      ghost var done := bytes[8 - i..];
      bytes[7 - i] := left % 0x100;
      assert bytes[7 - i..] == [bytes[7 - i]] + done;
      OneByteMore(v, left, i, done);
      left := left / 0x100;
      i := i + 1;
    }
    assert bytes[0..] == bytes[..];
    NothingLeft(v, left, BigEndian(bytes[..]));
    OnlyForm(v, bytes[..]);
  }

  lemma Pow256At8()
    ensures Pow256(8) == 0x1_0000_0000_0000_0000
  {
    assert Pow256(4) == 0x1_0000_0000;
  }

  // ---- truncation ----

  const MASK31: nat := 0x8000_0000

  /** `last & 0xf`; an empty digest counts as ending in zero. */
  function Offset(digest: seq<byte>): nat {
    if digest == [] then 0 else digest[|digest| - 1] % 16
  }

  predicate InRange(digest: seq<byte>) { Offset(digest) + 3 < |digest| }

  function Sum4(a: nat, b: nat, c: nat, d: nat): nat { a * 0x100_0000 + b * 0x1_0000 + c * 0x100 + d }

  /** The four shifted bytes, the first without its high bit; they do not overlap, so they are summed. */
  function Binary(digest: seq<byte>): nat
    requires InRange(digest)
  {
    var o := Offset(digest);
    Sum4(digest[o] % 0x80, digest[o + 1], digest[o + 2], digest[o + 3])
  }

  /** Nineteen bytes are what it takes: with fewer, some digest of that length sends the index out of range. */
  lemma DigestLengthIff(n: nat)
    ensures (forall digest: seq<byte> :: |digest| == n ==> InRange(digest)) <==> n >= 19
  {
    if n < 19 {
      var bad: seq<byte> := seq(n, _ => 15);
      assert |bad| == n && !InRange(bad);
    }
  }

  lemma FourBytes(a: byte, b: byte, c: byte, d: byte)
    ensures BigEndian([a, b, c, d]) == Sum4(a, b, c, d)
  {
    assert [a, b, c, d][..3] == [a, b, c];
    assert [a, b, c][..2] == [a, b];
    assert [a, b][..1] == [a];
    assert BigEndian([a]) == a by {
      assert [a][..0] == [];
    }
    assert BigEndian([a, b]) == 0x100 * BigEndian([a]) + b;
    assert BigEndian([a, b, c]) == 0x100 * BigEndian([a, b]) + c;
  }

  lemma SumBelow(a: nat, b: nat, c: nat, d: nat)
    requires a < 0x80 && b < 0x100 && c < 0x100 && d < 0x100
    ensures Sum4(a, b, c, d) < MASK31 && a % 0x80 == a && (a + 0x80) % 0x80 == a
  {
  }

  lemma BelowModulus(n: nat, m: nat)
    requires n < m
    ensures n % m == n
  {
  }

  lemma OneModulusMore(n: nat, m: nat)
    requires n < m
    ensures (m + n) % m == n
  {
    assert (m + n) / m == 1;
  }

  lemma HighBitCut(a: nat, b: nat, c: nat, d: nat)
    requires a < 0x100 && b < 0x100 && c < 0x100 && d < 0x100
    ensures Sum4(a, b, c, d) % MASK31 == Sum4(a % 0x80, b, c, d) < MASK31
  {
    if a < 0x80 {
      SumBelow(a, b, c, d);
      BelowModulus(Sum4(a, b, c, d), MASK31);
    } else {
      SumBelow(a - 0x80, b, c, d);
      assert Sum4(a, b, c, d) == MASK31 + Sum4(a - 0x80, b, c, d);
      OneModulusMore(Sum4(a - 0x80, b, c, d), MASK31);
    }
  }

  /** The standard's dynamic truncation: the four bytes at the offset, big-endian, keeping 31 bits. */
  lemma BinaryIsTruncation(digest: seq<byte>)
    requires InRange(digest)
    ensures Binary(digest) == BigEndian(digest[Offset(digest)..Offset(digest) + 4]) % MASK31
    ensures Binary(digest) < MASK31
  {
    var o := Offset(digest);
    var a, b, c, d := digest[o], digest[o + 1], digest[o + 2], digest[o + 3];
    assert digest[o..o + 4] == [a, b, c, d];
    FourBytes(a, b, c, d);
    HighBitCut(a, b, c, d);
  }

  // ---- generate_totp_code ----

  datatype Entry = Entry(stepSeconds: u64, secret: seq<byte>, digits: byte, algorithm: RC.Algorithm)

  /** Where the code panics: no algorithm, a digest too short for its offset, or a power of ten beyond 64 bits. */
  datatype Fault = CannotHash | IndexOutOfRange | PowerOverflow

  /** Keyed hashing of eight-byte counters. */
  type Hmac = (RC.Algorithm, seq<byte>, u64) -> seq<byte>

  function Counter(time: u64, step: u64): u64 {
    if step == 0 then time else CounterBound(time, step); time / step
  }

  lemma CounterBound(time: nat, step: nat)
    requires step > 0
    ensures time / step <= time
  {
    var q, r := time / step, time % step;
    assert time == q * step + r;
    QuotientAtMost(q, step);
  }

  lemma QuotientAtMost(q: nat, s: nat)
    requires s >= 1
    ensures q * s >= q
  {
  }

  /** `c` whole steps have passed at `time`; a step of zero counts as one second. */
  predicate WholeSteps(time: nat, step: nat, c: nat) {
    var s := if step == 0 then 1 else step;
    c * s <= time < (c + 1) * s
  }

  /** The counter is the number of whole steps, and the only such number. */
  lemma CounterIff(time: u64, step: u64, c: nat)
    ensures Counter(time, step) == c <==> WholeSteps(time, step, c)
  {
    if step > 0 {
      QuotientIff(time, step, c);
    }
  }

  lemma QuotientIff(n: nat, d: nat, q: nat)
    requires d > 0
    ensures n / d == q <==> q * d <= n < (q + 1) * d
  {
    var p, r := n / d, n % d;
    assert n == p * d + r;
    if q < p {
      Multiples(q + 1, p, d);
    } else if p < q {
      Multiples(p + 1, q, d);
    }
  }

  lemma Multiples(a: nat, b: nat, d: nat)
    requires a <= b
    ensures a * d <= b * d
  {
  }

  function GenerateCode(hmac: Hmac, time: u64, e: Entry): Result<string, Fault> {
    if e.algorithm.NoAlgorithm? then Err(CannotHash)
    else
      var digest := hmac(e.algorithm, e.secret, Counter(time, e.stepSeconds));
      if !InRange(digest) then Err(IndexOutOfRange)
      else if Pow10(e.digits) >= U64_LIMIT then Err(PowerOverflow)
      else Ok(PrintPadded(Binary(digest) % Pow10(e.digits), e.digits))
  }

  lemma {:induction false} Pow10Increases(j: nat, k: nat)
    requires j <= k
    ensures Pow10(j) <= Pow10(k)
  {
    if j < k {
      Pow10Increases(j, k - 1);
    }
  }

  /** Nineteen digits are the most 64 bits allow. */
  lemma DigitsIff(k: nat)
    ensures Pow10(k) < U64_LIMIT <==> k <= 19
  {
    Pow10At19();
    if k <= 19 {
      Pow10Increases(k, 19);
    } else {
      Pow10Increases(20, k);
    }
  }

  lemma Pow10At19()
    ensures Pow10(19) < U64_LIMIT <= Pow10(20)
  {
    assert Pow10(5) == 100000;
    assert Pow10(10) == 10000000000;
    assert Pow10(15) == 1000000000000000;
    assert Pow10(19) == 10000000000000000000;
  }

  /**
   The HOTP value of section 5.3 of RFC 4226: the text of `digits` digits that stands for the low 31
   bits of four bytes, big-endian, modulo ten to `digits`. The four bytes stand where the low four bits
   of the last byte say.
   */
  predicate IsHotpCode(code: string, digest: seq<byte>, digits: nat) {
    && digest != []
    && var o: nat := digest[|digest| - 1] % 16;
       && o + 4 <= |digest|
       && |code| == digits && AllDigits(code)
       && Value(code) == BigEndian(digest[o..o + 4]) % 0x8000_0000 % Pow10(digits)
  }

  /** The faults, in the order they are met. */
  lemma CodeFaultsIff(hmac: Hmac, time: u64, e: Entry)
    ensures var code := GenerateCode(hmac, time, e);
            var digest := hmac(e.algorithm, e.secret, Counter(time, e.stepSeconds));
            var outside := digest == [] || digest[|digest| - 1] % 16 + 4 > |digest|;
            && (code == Err(CannotHash) <==> e.algorithm == RC.NoAlgorithm)
            && (code == Err(IndexOutOfRange) <==> e.algorithm != RC.NoAlgorithm && outside)
            && (code == Err(PowerOverflow) <==> e.algorithm != RC.NoAlgorithm && !outside && e.digits >= 20)
  {
    DigitsIff(e.digits);
  }

  lemma ModBound(n: nat, p: nat)
    requires p > 0
    ensures n % p < p
  {
  }

  /** Padding the reduced number gives the only text that qualifies. */
  lemma PaddedIsHotp(digest: seq<byte>, digits: nat, other: string)
    requires InRange(digest) && digits >= 1
    ensures PrintPadded(Binary(digest) % Pow10(digits), digits) == other <==> IsHotpCode(other, digest, digits)
  {
    BinaryIsTruncation(digest);
    var n, p := Binary(digest), Pow10(digits);
    ModBound(n, p);
    PrintPaddedExact(n % p, digits);
    if IsHotpCode(other, digest, digits) {
      ValueInjective(PrintPadded(n % p, digits), other);
    }
  }

  /**
   For 1 to 19 digits and digests of at least 19 bytes there is a code, it is the standard's, and it
   is the only such text.
   */
  lemma CodeIsHotp(hmac: Hmac, time: u64, e: Entry, counter: u64, other: string)
    requires !e.algorithm.NoAlgorithm? && 1 <= e.digits <= 19 && WholeSteps(time, e.stepSeconds, counter)
    requires |hmac(e.algorithm, e.secret, counter)| >= 19
    ensures GenerateCode(hmac, time, e).Ok?
    ensures GenerateCode(hmac, time, e) == Ok(other) <==>
            IsHotpCode(other, hmac(e.algorithm, e.secret, counter), e.digits)
  {
    CounterIff(time, e.stepSeconds, counter);
    var digest := hmac(e.algorithm, e.secret, counter);
    DigestLengthIff(|digest|);
    DigitsIff(e.digits);
    PaddedIsHotp(digest, e.digits, other);
  }

  // ---- the list item ----

  datatype Request = Request(secretText: string, digits: byte, number: u64, algorithm: RC.Algorithm, isHotp: bool)

  datatype ItemError = BadRecord

  /** The `extra` text of a record's list item. */
  function ItemText(r: RC.TotpRecord): string {
    r.secret + [':'] + (Print(r.digits) + [':'] + (Print(r.timestep) + [':'] + (RC.PrintAlgorithm(r.algorithm) + [':']
      + (if r.isHotp then "HOTP" else "TOTP"))))
  }

  /** What `db_str_to_code` takes out of the text. */
  function ParseItem(upper: string -> string, s: string): Result<Request, ItemError> {
    var fields := Split(s, ':');
    if |fields| != 5 then Err(BadRecord)
    else
      var digits := Parse(fields[1], U8_LIMIT).UnwrapOr(6);
      var number := Parse(fields[2], U64_LIMIT).UnwrapOr(30);
      var algorithm := RC.ParseAlgorithm(fields[3]).UnwrapOr(RC.HmacSha1);
      Ok(Request(fields[0], digits, number, algorithm, upper(fields[4]) == "HOTP"))
  }

  lemma {:induction false} SplitCount(a: string, c: char, b: string)
    ensures |Split(a + [c] + b, c)| == |Split(a, c)| + |Split(b, c)|
    decreases |a|
  {
    var i := IndexOf(a, c);
    if i == |a| {
      assert a[..|a|] == a;
      SplitLast(a, c);
      SplitFirst(a, c, b);
    } else {
      var piece, rest := a[..i], a[i + 1..];
      assert a == piece + [c] + rest;
      assert a + [c] + b == piece + [c] + (rest + [c] + b);
      SplitFirst(piece, c, rest);
      SplitFirst(piece, c, rest + [c] + b);
      SplitCount(rest, c, b);
    }
  }

  lemma DigitsHaveNoColon(s: string)
    requires AllDigits(s)
    ensures ':' !in s
  {
  }

  lemma SplitFour(a: string, b: string, c: string, d: string)
    requires ':' !in a && ':' !in b && ':' !in c && ':' !in d
    ensures Split(a + [':'] + (b + [':'] + (c + [':'] + d)), ':') == [a, b, c, d]
  {
    SplitLast(d, ':');
    SplitFirst(c, ':', d);
    var cd := c + [':'] + d;
    SplitFirst(b, ':', cd);
    SplitFirst(a, ':', b + [':'] + cd);
  }

  /** The four fields after the secret. */
  lemma TailFields(r: RC.TotpRecord)
    ensures var kind := if r.isHotp then "HOTP" else "TOTP";
            var rest := Print(r.timestep) + [':'] + (RC.PrintAlgorithm(r.algorithm) + [':'] + kind);
            Split(Print(r.digits) + [':'] + rest, ':')
            == [Print(r.digits), Print(r.timestep), RC.PrintAlgorithm(r.algorithm), kind]
  {
    DigitsHaveNoColon(Print(r.digits));
    DigitsHaveNoColon(Print(r.timestep));
    RC.AlgorithmRoundTrip(r.algorithm);
    SplitFour(Print(r.digits), Print(r.timestep), RC.PrintAlgorithm(r.algorithm), if r.isHotp then "HOTP" else "TOTP");
  }

  /**
   The code generator gets back the record's secret, step or counter, algorithm and kind exactly when
   the secret holds no colon, and then the digit count exactly when it fits in a byte, else 6.
   */
  lemma ItemRoundTripIff(upper: string -> string, r: RC.TotpRecord)
    requires upper("HOTP") == "HOTP" && upper("TOTP") != "HOTP"
    ensures ParseItem(upper, ItemText(r)).Ok? <==> ':' !in r.secret
    ensures ':' !in r.secret ==>
              ParseItem(upper, ItemText(r)) ==
              Ok(Request(r.secret, if r.digits < U8_LIMIT then r.digits else 6, r.timestep, RC.Normalize(r.algorithm),
                         r.isHotp))
  {
    var kind := if r.isHotp then "HOTP" else "TOTP";
    var tail := Print(r.digits) + [':'] + (Print(r.timestep) + [':'] + (RC.PrintAlgorithm(r.algorithm) + [':'] + kind));
    TailFields(r);
    SplitCount(r.secret, ':', tail);
    assert ItemText(r) == r.secret + [':'] + tail;
    if ':' in r.secret {
      ColonSplits(r.secret);
    } else {
      SplitFirst(r.secret, ':', tail);
      SplitLast(r.secret, ':');
      ParsePrint(r.digits, U8_LIMIT);
      ParsePrint(r.timestep, U64_LIMIT);
      RC.AlgorithmRoundTrip(r.algorithm);
    }
  }

  /** What any text of five fields asks for, with what stands in for a field that does not parse. */
  lemma ItemMeans(upper: string -> string, a: string, b: string, c: string, d: string, e: string)
    requires ':' !in a && ':' !in b && ':' !in c && ':' !in d && ':' !in e
    ensures ParseItem(upper, a + [':'] + (b + [':'] + (c + [':'] + (d + [':'] + e)))) ==
            Ok(Request(a, Parse(b, U8_LIMIT).UnwrapOr(6), Parse(c, U64_LIMIT).UnwrapOr(30),
                       if d == "SHA256" then RC.HmacSha256 else if d == "SHA512" then RC.HmacSha512 else RC.HmacSha1,
                       upper(e) == "HOTP"))
  {
    SplitFour(b, c, d, e);
    SplitFirst(a, ':', b + [':'] + (c + [':'] + (d + [':'] + e)));
  }

  lemma ColonSplits(s: string)
    requires ':' in s
    ensures |Split(s, ':')| >= 2
  {
    var i := IndexOf(s, ':');
    assert s[..|s|] == s;
  }

  // ---- the code shown for a record ----

  datatype Env = Env(hmac: Hmac, base32: string -> Option<seq<byte>>, upper: string -> string)

  /** `db_str_to_code`: a counter-based code uses the number as its counter, a time-based one as its step. */
  function ItemCode(env: Env, s: string, now: u64): Result<Result<string, Fault>, ItemError> {
    match ParseItem(env.upper, s)
    case Err(e) => Err(e)
    case Ok(q) =>
      var secret := env.base32(q.secretText).UnwrapOr([]);
      var entry := Entry(if q.isHotp then 1 else q.number, secret, q.digits, q.algorithm);
      Ok(GenerateCode(env.hmac, if q.isHotp then q.number else now, entry))
  }

  /** The moving factor of a record: its counter, or the number of whole steps since the epoch. */
  predicate IsMovingFactor(r: RC.TotpRecord, now: u64, c: u64) {
    if r.isHotp then c == r.timestep else WholeSteps(now, r.timestep, c)
  }

  lemma MovingFactorIsUnique(r: RC.TotpRecord, now: u64) returns (c: u64)
    ensures forall d: u64 :: IsMovingFactor(r, now, d) <==> d == c
  {
    c := if r.isHotp then r.timestep else Counter(now, r.timestep);
    forall d: u64 ensures IsMovingFactor(r, now, d) <==> d == c {
      CounterIff(now, r.timestep, d);
    }
  }

  /**
   End to end, for every record whose secret has no colon and that asks for 1 to 19 digits: the code
   shown at time `now` is the standard's code for the record's key and moving factor.
   */
  lemma ShownCodeIsHotp(env: Env, r: RC.TotpRecord, now: u64, counter: u64)
    requires env.upper("HOTP") == "HOTP" && env.upper("TOTP") != "HOTP"
    requires forall a, k, n :: |env.hmac(a, k, n)| >= 19
    requires ':' !in r.secret && 1 <= r.digits <= 19 && IsMovingFactor(r, now, counter)
    ensures var digest := env.hmac(RC.Normalize(r.algorithm), env.base32(r.secret).UnwrapOr([]), counter);
            var shown := ItemCode(env, ItemText(r), now);
            && shown.Ok? && shown.value.Ok?
            && IsHotpCode(shown.value.value, digest, r.digits)
  {
    ItemRoundTripIff(env.upper, r);
    var secret := env.base32(r.secret).UnwrapOr([]);
    var entry := Entry(if r.isHotp then 1 else r.timestep, secret, r.digits, RC.Normalize(r.algorithm));
    var time := if r.isHotp then r.timestep else now;
    assert WholeSteps(time, entry.stepSeconds, counter);
    var code := GenerateCode(env.hmac, time, entry);
    CodeIsHotp(env.hmac, time, entry, counter, if code.Ok? then code.value else "");
  }
}
