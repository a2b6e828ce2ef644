/**
 Light genes: what a gamete inherits, how it mutates, and how genes travel as bytes and words.
 Every random draw is a parameter.
 */
module Genetics {
  import opened Wrappers
  import GrayCode

  type byte = n: nat | n < 256
  type Shift = n: nat | n < 8

  datatype Haploid = Haploid(
    cdPeriod: byte, cdRate: byte, cdDir: byte, sat: byte,
    hueRateDir: byte, hueBase: byte, hueBound: byte, chaser: byte, nonlin: byte)

  datatype Diploid = Diploid(first: Haploid, second: Haploid)

  datatype BadgeType = Uber | Other | Community | Village | CtfContest | Human | Goon | NoBadge

  datatype MutationRate = NoMutation | Baseline | Elevated | Radioactive | Apocalyptic

  function TypeCode(t: BadgeType): byte {
    match t
    case Uber => 0 case Other => 1 case Community => 2 case Village => 3
    case CtfContest => 4 case Human => 5 case Goon => 6 case NoBadge => 7
  }

  function TypeOf(code: byte): Option<BadgeType> {
    match code
    case 0 => Some(Uber) case 1 => Some(Other) case 2 => Some(Community) case 3 => Some(Village)
    case 4 => Some(CtfContest) case 5 => Some(Human) case 6 => Some(Goon) case 7 => Some(NoBadge)
    case _ => None
  }

  /** The rates' discriminants, by which they are ordered. */
  function Level(rate: MutationRate): byte {
    match rate
    case NoMutation => 0 case Baseline => 64 case Elevated => 100 case Radioactive => 140 case Apocalyptic => 240
  }

  function MaxRate(a: MutationRate, b: MutationRate): (r: MutationRate)
    ensures (r == a || r == b) && Level(r) >= Level(a) && Level(r) >= Level(b)
  {
    if Level(a) > Level(b) then a else b
  }

  function BitChanges(rate: MutationRate): byte {
    match rate
    case NoMutation => 0 case Baseline => 1 case Elevated => 3 case Radioactive => 7 case Apocalyptic => 0x1f
  }

  /** Which parent each linked group of fields comes from; false is the first. */
  datatype Parents = Parents(motion: bool, sat: bool, hue: bool, chaser: bool, nonlin: bool)

  function Pick(d: Diploid, second: bool): Haploid { if second then d.second else d.first }

  function Meiosis(d: Diploid, p: Parents): Haploid {
    Haploid(Pick(d, p.motion).cdPeriod, Pick(d, p.motion).cdRate, Pick(d, p.motion).cdDir,
            Pick(d, p.sat).sat,
            Pick(d, p.hue).hueRateDir, Pick(d, p.hue).hueBase, Pick(d, p.hue).hueBound,
            Pick(d, p.chaser).chaser, Pick(d, p.nonlin).nonlin)
  }

  /** `g` takes each linked group of fields whole from one of the parents. */
  predicate Inherits(d: Diploid, g: Haploid) {
    && ((g.cdPeriod, g.cdRate, g.cdDir) == (d.first.cdPeriod, d.first.cdRate, d.first.cdDir)
        || (g.cdPeriod, g.cdRate, g.cdDir) == (d.second.cdPeriod, d.second.cdRate, d.second.cdDir))
    && (g.sat == d.first.sat || g.sat == d.second.sat)
    && ((g.hueRateDir, g.hueBase, g.hueBound) == (d.first.hueRateDir, d.first.hueBase, d.first.hueBound)
        || (g.hueRateDir, g.hueBase, g.hueBound) == (d.second.hueRateDir, d.second.hueBase, d.second.hueBound))
    && (g.chaser == d.first.chaser || g.chaser == d.second.chaser)
    && (g.nonlin == d.first.nonlin || g.nonlin == d.second.nonlin)
  }

  /**
   The gametes a gene can produce are exactly those that inherit its groups whole; the parents come
   in either order.
   */
  lemma GametesIff(d: Diploid, g: Haploid)
    ensures (exists p :: Meiosis(d, p) == g) <==> Inherits(d, g)
    ensures Inherits(d, g) <==> Inherits(Diploid(d.second, d.first), g)
  {
    var p := Parents(
      (g.cdPeriod, g.cdRate, g.cdDir) != (d.first.cdPeriod, d.first.cdRate, d.first.cdDir), g.sat != d.first.sat,
      (g.hueRateDir, g.hueBase, g.hueBound) != (d.first.hueRateDir, d.first.hueBase, d.first.hueBound),
      g.chaser != d.first.chaser, g.nonlin != d.first.nonlin);
    if Inherits(d, g) {
      assert Meiosis(d, p) == g;
    }
  }

  /** One draw per field: nothing, or the shift of the mutation that was rolled. */
  datatype Rolls = Rolls(
    cdPeriod: Option<Shift>, cdRate: Option<Shift>, cdDir: Option<Shift>, sat: Option<Shift>,
    hueRateDir: Option<Shift>, hueBase: Option<Shift>, hueBound: Option<Shift>,
    chaser: Option<Shift>, nonlin: Option<Shift>)

  /** `mutation_func` on one byte. */
  function MutateByte(gene: byte, bits: byte, shift: Shift): byte {
    GrayCode.MutationWidth(gene, bits, shift, 8);
    GrayCode.Mutation(gene, bits, shift, 8)
  }

  /** A field after its roll; rate `None` never rolls. */
  function Rolled(gene: byte, rate: MutationRate, roll: Option<Shift>): byte {
    if rate.NoMutation? || roll.None? then gene else MutateByte(gene, BitChanges(rate), roll.value)
  }

  function Mutated(h: Haploid, rate: MutationRate, r: Rolls): Haploid {
    Haploid(
      if rate.NoMutation? || r.cdPeriod.None? then h.cdPeriod else Rolled(h.cdPeriod, rate, r.cdPeriod) % 7,
      Rolled(h.cdRate, rate, r.cdRate), Rolled(h.cdDir, rate, r.cdDir), Rolled(h.sat, rate, r.sat),
      Rolled(h.hueRateDir, rate, r.hueRateDir), Rolled(h.hueBase, rate, r.hueBase),
      Rolled(h.hueBound, rate, r.hueBound), Rolled(h.chaser, rate, r.chaser), Rolled(h.nonlin, rate, r.nonlin))
  }

  /** `mutate`: roll for one field after another, updating the gamete as it goes. */
  method Mutate(h: Haploid, rate: MutationRate, r: Rolls) returns (gamete: Haploid)
    ensures gamete == Mutated(h, rate, r)
  {
    gamete := h;
    if rate != NoMutation && r.cdPeriod.Some? {
      var period: nat := Rolled(gamete.cdPeriod, rate, r.cdPeriod);
      gamete := gamete.(cdPeriod := period % 7);
    }
    gamete := gamete.(cdRate := Rolled(gamete.cdRate, rate, r.cdRate));
    gamete := gamete.(cdDir := Rolled(gamete.cdDir, rate, r.cdDir));
    gamete := gamete.(sat := Rolled(gamete.sat, rate, r.sat));
    gamete := gamete.(hueRateDir := Rolled(gamete.hueRateDir, rate, r.hueRateDir));
    gamete := gamete.(hueBase := Rolled(gamete.hueBase, rate, r.hueBase));
    gamete := gamete.(hueBound := Rolled(gamete.hueBound, rate, r.hueBound));
    gamete := gamete.(chaser := Rolled(gamete.chaser, rate, r.chaser));
    gamete := gamete.(nonlin := Rolled(gamete.nonlin, rate, r.nonlin));
  }

  lemma ByteTwice(gene: byte, rate: MutationRate, roll: Option<Shift>)
    ensures Rolled(Rolled(gene, rate, roll), rate, roll) == gene
    ensures Rolled(gene, rate, roll) == gene <==> rate.NoMutation? || roll.None?
  {
    if !rate.NoMutation? && roll.Some? {
      GrayCode.MutationTwice(gene, BitChanges(rate), roll.value, 8);
      GrayCode.MutationChangesIff(gene, BitChanges(rate), roll.value, 8);
    }
  }

  /** The same rolls twice give back every field but the period, which is reduced modulo 7. */
  lemma MutateTwice(h: Haploid, rate: MutationRate, r: Rolls)
    ensures Mutated(Mutated(h, rate, r), rate, r).(cdPeriod := h.cdPeriod) == h
  {
    ByteTwice(h.cdRate, rate, r.cdRate);
    ByteTwice(h.cdDir, rate, r.cdDir);
    ByteTwice(h.sat, rate, r.sat);
    ByteTwice(h.hueRateDir, rate, r.hueRateDir);
    ByteTwice(h.hueBase, rate, r.hueBase);
    ByteTwice(h.hueBound, rate, r.hueBound);
    ByteTwice(h.chaser, rate, r.chaser);
    ByteTwice(h.nonlin, rate, r.nonlin);
  }

  /** How many neighbouring bits of the Gray code a mutation flips. */
  function Flips(rate: MutationRate): nat {
    match rate
    case NoMutation => 0 case Baseline => 1 case Elevated => 2 case Radioactive => 3 case Apocalyptic => 5
  }

  /** In the Gray code, `after` is `before` with so many bits flipped, from the rolled one up to the byte's end. */
  predicate Mutates(before: byte, after: byte, rate: MutationRate, roll: Option<Shift>) {
    if rate.NoMutation? || roll.None? then after == before
    else
      GrayCode.Encode(after) ==
      GrayCode.Xor(GrayCode.Encode(before), ((GrayCode.Pow2(Flips(rate)) - 1) * GrayCode.Pow2(roll.value)) % 256)
  }

  lemma PatternIsRun(rate: MutationRate)
    ensures BitChanges(rate) == GrayCode.Pow2(Flips(rate)) - 1
  {
    assert GrayCode.Pow2(2) == 4 && GrayCode.Pow2(3) == 8 && GrayCode.Pow2(5) == 32;
  }

  lemma RolledMutates(gene: byte, rate: MutationRate, roll: Option<Shift>)
    ensures Mutates(gene, Rolled(gene, rate, roll), rate, roll)
  {
    if !rate.NoMutation? && roll.Some? {
      PatternIsRun(rate);
      assert GrayCode.Pow2(8) == 256;
      var mask := (BitChanges(rate) * GrayCode.Pow2(roll.value)) % GrayCode.Pow2(8);
      GrayCode.GrayInverse(GrayCode.Xor(GrayCode.Encode(gene), mask));
    }
  }

  /** Every field is mutated by its own roll; the period is then taken modulo seven, if it was. */
  lemma MutatedMutates(h: Haploid, rate: MutationRate, r: Rolls) returns (period: byte)
    ensures var m := Mutated(h, rate, r);
            && Mutates(h.cdPeriod, period, rate, r.cdPeriod)
            && m.cdPeriod == (if rate.NoMutation? || r.cdPeriod.None? then h.cdPeriod else period % 7)
            && Mutates(h.cdRate, m.cdRate, rate, r.cdRate) && Mutates(h.cdDir, m.cdDir, rate, r.cdDir)
            && Mutates(h.sat, m.sat, rate, r.sat) && Mutates(h.hueRateDir, m.hueRateDir, rate, r.hueRateDir)
            && Mutates(h.hueBase, m.hueBase, rate, r.hueBase) && Mutates(h.hueBound, m.hueBound, rate, r.hueBound)
            && Mutates(h.chaser, m.chaser, rate, r.chaser) && Mutates(h.nonlin, m.nonlin, rate, r.nonlin)
  {
    period := Rolled(h.cdPeriod, rate, r.cdPeriod);
    RolledMutates(h.cdPeriod, rate, r.cdPeriod);
    RolledMutates(h.cdRate, rate, r.cdRate);
    RolledMutates(h.cdDir, rate, r.cdDir);
    RolledMutates(h.sat, rate, r.sat);
    RolledMutates(h.hueRateDir, rate, r.hueRateDir);
    RolledMutates(h.hueBase, rate, r.hueBase);
    RolledMutates(h.hueBound, rate, r.hueBound);
    RolledMutates(h.chaser, rate, r.chaser);
    RolledMutates(h.nonlin, rate, r.nonlin);
  }

  /** No roll outside the period. */
  predicate NothingRolled(r: Rolls) {
    && r.cdRate.None? && r.cdDir.None? && r.sat.None? && r.hueRateDir.None? && r.hueBase.None?
    && r.hueBound.None? && r.chaser.None? && r.nonlin.None?
  }

  /**
   Outside the period, a mutation that was rolled is never lost: the gamete is unchanged exactly when
   nothing rolled.
   */
  lemma MutationShowsIff(h: Haploid, rate: MutationRate, r: Rolls)
    ensures Mutated(h, rate, r).(cdPeriod := h.cdPeriod) == h <==> rate.NoMutation? || NothingRolled(r)
  {
    ByteTwice(h.cdRate, rate, r.cdRate);
    ByteTwice(h.cdDir, rate, r.cdDir);
    ByteTwice(h.sat, rate, r.sat);
    ByteTwice(h.hueRateDir, rate, r.hueRateDir);
    ByteTwice(h.hueBase, rate, r.hueBase);
    ByteTwice(h.hueBound, rate, r.hueBound);
    ByteTwice(h.chaser, rate, r.chaser);
    ByteTwice(h.nonlin, rate, r.nonlin);
  }

  /** The largest period a founder of each badge type is given. */
  function FounderPeriodMax(t: BadgeType): (max: byte)
    ensures Conforms(Haploid(max, 0, 0, 0, 0, 0, 0, 0, 0))
  {
    match t
    case Goon => 4 case Community => 2 case Village => 4 case Human => 5
    case Other => 6 case CtfContest => 6 case Uber => 3 case NoBadge => 4
  }

  /** The ring has at most seven periods. */
  predicate Conforms(h: Haploid) { h.cdPeriod <= 6 }

  /** What `from_type` may draw for a new badge, as far as the period goes. */
  predicate Founder(t: BadgeType, d: Diploid) {
    d.first.cdPeriod <= FounderPeriodMax(t) && d.second.cdPeriod <= FounderPeriodMax(t)
  }

  predicate BothConform(d: Diploid) { Conforms(d.first) && Conforms(d.second) }

  /** The periods a founder may have. */
  lemma FounderPeriodsIff(t: BadgeType, p: byte)
    ensures (exists d :: Founder(t, d) && d.first.cdPeriod == d.second.cdPeriod == p) <==>
            p <= (match t
                  case Community => 2
                  case Uber => 3
                  case Goon | Village | NoBadge => 4
                  case Human => 5
                  case Other | CtfContest => 6)
  {
    var h := Haploid(p, 0, 0, 0, 0, 0, 0, 0, 0);
    assert Diploid(h, h).first.cdPeriod == p;
    assert p <= FounderPeriodMax(t) ==> Founder(t, Diploid(h, h));
  }

  lemma GametesConform(d: Diploid, p: Parents, rate: MutationRate, r: Rolls)
    requires BothConform(d)
    ensures Conforms(Meiosis(d, p)) && Conforms(Mutated(Meiosis(d, p), rate, r))
  {
  }

  // ---- bytes and words ----

  const SIZE: nat := 9

  function Serialize(h: Haploid): (bytes: seq<byte>)
    ensures |bytes| == SIZE
  {
    [h.cdPeriod, h.cdRate, h.cdDir, h.sat, h.hueRateDir, h.hueBase, h.hueBound, h.chaser, h.nonlin]
  }

  function Deserialize(bytes: seq<byte>): Option<Haploid> {
    if |bytes| != SIZE then None
    else Some(Haploid(bytes[0], bytes[1], bytes[2], bytes[3], bytes[4], bytes[5], bytes[6], bytes[7], bytes[8]))
  }

  lemma HaploidRoundTrip(h: Haploid, bytes: seq<byte>)
    ensures Deserialize(Serialize(h)) == Some(h)
    ensures Deserialize(bytes) == Some(h) <==> bytes == Serialize(h)
  {
    if Deserialize(bytes) == Some(h) {
      assert forall i :: 0 <= i < SIZE ==> bytes[i] == Serialize(h)[i];
    }
  }

  function SerializePair(d: Diploid): seq<byte> { Serialize(d.first) + Serialize(d.second) }

  function DeserializePair(bytes: seq<byte>): Option<Diploid> {
    if |bytes| < 2 * SIZE then None
    else
      var a := Deserialize(bytes[..SIZE]);
      var b := Deserialize(bytes[SIZE..2 * SIZE]);
      if a.Some? && b.Some? then Some(Diploid(a.value, b.value)) else None
  }

  /**
   The stored pair is read back, whatever follows it; the bytes that read as a pair are exactly those
   that begin with it.
   */
  lemma DiploidRoundTrip(d: Diploid, bytes: seq<byte>)
    ensures DeserializePair(bytes) == Some(d) <==> SerializePair(d) <= bytes
  {
    if |bytes| >= 2 * SIZE {
      HaploidRoundTrip(d.first, bytes[..SIZE]);
      HaploidRoundTrip(d.second, bytes[SIZE..2 * SIZE]);
      assert bytes[..2 * SIZE] == bytes[..SIZE] + bytes[SIZE..2 * SIZE];
    }
  }

  const PADDED: nat := 16

  /** What a donor encrypts: the gamete, six zero bytes, and the donor's badge type last. */
  function Padded(h: Haploid, t: BadgeType): (msg: seq<byte>)
    ensures |msg| == PADDED
  {
    Serialize(h) + [0, 0, 0, 0, 0, 0] + [TypeCode(t)]
  }

  /** What the recipient takes out of an opened message; an unknown type counts as none. */
  function OpenPadded(msg: seq<byte>): (Haploid, BadgeType)
    requires |msg| >= PADDED
  {
    (Deserialize(msg[..SIZE]).value, TypeOf(msg[15]).UnwrapOr(NoBadge))
  }

  /** Where everything stands in it. */
  lemma PaddedLayout(h: Haploid, t: BadgeType)
    ensures var m := Padded(h, t);
            && m[0] == h.cdPeriod && m[1] == h.cdRate && m[2] == h.cdDir && m[3] == h.sat && m[4] == h.hueRateDir
            && m[5] == h.hueBase && m[6] == h.hueBound && m[7] == h.chaser && m[8] == h.nonlin
            && (forall i :: 9 <= i < 15 ==> m[i] == 0) && TypeOf(m[15]) == Some(t)
  {
  }

  lemma PaddedRoundTrip(h: Haploid, t: BadgeType)
    ensures OpenPadded(Padded(h, t)) == (h, t)
  {
    assert Padded(h, t)[..SIZE] == Serialize(h);
    HaploidRoundTrip(h, Serialize(h));
  }

  type word = n: nat | n < 0x1_0000_0000

  /** Four bytes, low byte first. */
  function WordOf(b0: byte, b1: byte, b2: byte, b3: byte): word {
    b0 + 0x100 * b1 + 0x1_0000 * b2 + 0x100_0000 * b3
  }

  function ByteOfWord(w: word, i: nat): byte
    requires i < 4
  {
    if i == 0 then w % 0x100
    else if i == 1 then (w / 0x100) % 0x100
    else if i == 2 then (w / 0x1_0000) % 0x100
    else w / 0x100_0000
  }

  lemma SplitLow(n: int, low: int, high: int)
    requires n == low + 0x100 * high && 0 <= low < 0x100
    ensures n % 0x100 == low && n / 0x100 == high
  {
  }

  lemma DivideTwice(n: nat)
    ensures n / 0x1_0000 == (n / 0x100) / 0x100
    ensures n / 0x100_0000 == ((n / 0x100) / 0x100) / 0x100
  {
  }

  lemma BytesOfWordOf(b0: byte, b1: byte, b2: byte, b3: byte)
    ensures var w := WordOf(b0, b1, b2, b3);
            ByteOfWord(w, 0) == b0 && ByteOfWord(w, 1) == b1 && ByteOfWord(w, 2) == b2 && ByteOfWord(w, 3) == b3
  {
    var w: int := WordOf(b0, b1, b2, b3);
    var x0: int, x1: int, x2: int, x3: int := b0, b1, b2, b3;
    var h1, h2 := x1 + 0x100 * x2 + 0x1_0000 * x3, x2 + 0x100 * x3;
    SplitLow(w, x0, h1);
    SplitLow(h1, x1, h2);
    SplitLow(h2, x2, x3);
    DivideTwice(w);
  }

  function PaddedBytes(h: Haploid): (bytes: seq<byte>)
    ensures |bytes| == PADDED
  {
    Serialize(h) + [0, 0, 0, 0, 0, 0, 0]
  }

  function WordAt(bytes: seq<byte>, i: nat): word
    requires 4 * i + 4 <= |bytes|
  {
    WordOf(bytes[4 * i], bytes[4 * i + 1], bytes[4 * i + 2], bytes[4 * i + 3])
  }

  lemma WordAtBytes(bytes: seq<byte>, i: nat)
    requires 4 * i + 4 <= |bytes|
    ensures bytes[..4 * i] + WordBytes(WordAt(bytes, i)) == bytes[..4 * i + 4]
  {
    BytesOfWordOf(bytes[4 * i], bytes[4 * i + 1], bytes[4 * i + 2], bytes[4 * i + 3]);
    assert bytes[..4 * i + 4] ==
           bytes[..4 * i] + [bytes[4 * i], bytes[4 * i + 1], bytes[4 * i + 2], bytes[4 * i + 3]];
  }

  /** `serialize_u32`: the sixteen padded bytes as four words. */
  method SerializeWords(h: Haploid) returns (out: array<word>)
    ensures fresh(out) && out.Length == 4
    ensures FlatBytes(out[..]) == PaddedBytes(h)
  {
    var padded := PaddedBytes(h);
    out := new word[4](_ => 0);
    var i := 0;
    while i < 4
      invariant 0 <= i <= 4
      invariant FlatBytes(out[..i]) == padded[..4 * i]
    {
      out[i] := WordAt(padded, i);
      WordAtBytes(padded, i);
      FlatBytesAppend(out[..i], out[i]);
      assert out[..i + 1] == out[..i] + [out[i]];
      i := i + 1;
    }
    assert out[..4] == out[..];
    assert padded[..16] == padded;
  }

  function FlatBytes(words: seq<word>): (bytes: seq<byte>)
    ensures |bytes| == 4 * |words|
  {
    if words == [] then [] else WordBytes(words[0]) + FlatBytes(words[1..])
  }

  function WordBytes(w: word): seq<byte> {
    [ByteOfWord(w, 0), ByteOfWord(w, 1), ByteOfWord(w, 2), ByteOfWord(w, 3)]
  }

  lemma {:induction false} FlatBytesAppend(words: seq<word>, w: word)
    ensures FlatBytes(words + [w]) == FlatBytes(words) + WordBytes(w)
  {
    if words != [] {
      FlatBytesAppend(words[1..], w);
      assert (words + [w])[1..] == words[1..] + [w];
      assert FlatBytes(words + [w]) == WordBytes(words[0]) + (FlatBytes(words[1..]) + WordBytes(w));
    } else {
      assert [w][1..] == [];
    }
  }

  /** `deserialize_u32`: the first nine bytes of the words, however many words there are. */
  function DeserializeWords(words: seq<word>): Option<Haploid> {
    var bytes := FlatBytes(words);
    Deserialize(if |bytes| <= SIZE then bytes else bytes[..SIZE])
  }

  lemma FirstNine(h: Haploid, bytes: seq<byte>)
    requires |bytes| >= SIZE
    ensures Deserialize(bytes[..SIZE]) == Some(h) <==> Serialize(h) <= bytes
  {
    HaploidRoundTrip(h, bytes[..SIZE]);
  }

  lemma PaddedBegins(h: Haploid, bytes: seq<byte>)
    requires PaddedBytes(h) <= bytes
    ensures Serialize(h) <= bytes
  {
    assert PaddedBytes(h)[..SIZE] == Serialize(h);
  }

  /**
   Words read as a gamete exactly when its nine bytes come first, as in what `SerializeWords` makes;
   three words are needed.
   */
  lemma WordsRoundTripIff(h: Haploid, words: seq<word>)
    ensures DeserializeWords(words) == Some(h) <==> Serialize(h) <= FlatBytes(words)
    ensures PaddedBytes(h) <= FlatBytes(words) ==> DeserializeWords(words) == Some(h)
    ensures DeserializeWords(words).Some? <==> |words| >= 3
  {
    var bytes := FlatBytes(words);
    if |words| >= 3 {
      FirstNine(h, bytes);
      assert bytes[..SIZE] == if |bytes| <= SIZE then bytes else bytes[..SIZE];
      if PaddedBytes(h) <= bytes {
        PaddedBegins(h, bytes);
      }
    }
  }
}
