/**
 Password generation: the character pools of a configuration, the strict draw that must hit every
 pool, and the configuration's text form. Random draws are parameters.
 */
module Generator {
  import opened Wrappers
  import opened Decimal
  import opened Lines
  import opened GrayCode

  const DEFAULT_LENGTH: nat := 18
  const SYMBOL_COUNT: nat := 32

  const LOWERCASE := "abcdefghijklmnopqrstuvwxyz"
  const UPPERCASE := "ABCDEFGHIJKLMNOPQRSTUVWXYZ"
  const NUMBERS := "0123456789"
  const SYMBOLS := "!@#$%^&*()-_+=?,.:;[]{|}/'\"\\<>`~"

  type u32 = n: nat | n < 0x1_0000_0000
  type Flags = s: seq<bool> | |s| == SYMBOL_COUNT witness seq(SYMBOL_COUNT, _ => false)

  datatype Config = Config(length: u32, numbers: bool, upper: bool, lower: bool, useSymbols: bool, symbols: Flags)

  // ---- pools ----

  /** The allowed symbols among the first `n`, in order. */
  function Specials(symbols: Flags, n: nat): (s: string)
    requires n <= SYMBOL_COUNT == |SYMBOLS|
    ensures forall c :: c in s <==> exists i :: 0 <= i < n && symbols[i] && SYMBOLS[i] == c
  {
    if n == 0 then ""
    else Specials(symbols, n - 1) + if symbols[n - 1] then [SYMBOLS[n - 1]] else ""
  }

  lemma SymbolCount()
    ensures |SYMBOLS| == SYMBOL_COUNT
  {
  }

  function Pools(c: Config): seq<string> {
    SymbolCount();
    var specials := Specials(c.symbols, SYMBOL_COUNT);
    (if c.lower then [LOWERCASE] else []) + (if c.upper then [UPPERCASE] else [])
    + (if c.numbers then [NUMBERS] else []) + (if c.useSymbols && specials != "" then [specials] else [])
  }

  method ToPools(c: Config) returns (pools: seq<string>)
    ensures pools == Pools(c)
  {
    pools := [];
    if c.lower { pools := pools + [LOWERCASE]; }
    if c.upper { pools := pools + [UPPERCASE]; }
    if c.numbers { pools := pools + [NUMBERS]; }
    if c.useSymbols {
      SymbolCount();
      var specials := "";
      for i := 0 to SYMBOL_COUNT
        invariant specials == Specials(c.symbols, i)
      {
        if c.symbols[i] { specials := specials + [SYMBOLS[i]]; }
      }
      if |specials| > 0 { pools := pools + [specials]; }
    }
  }

  /** What tells the pools apart. */
  datatype Class = LowerClass | UpperClass | NumberClass | SymbolClass

  function ClassOf(c: char): Class {
    if 'a' <= c <= 'z' then LowerClass
    else if 'A' <= c <= 'Z' then UpperClass
    else if '0' <= c <= '9' then NumberClass
    else SymbolClass
  }

  predicate AllOf(s: string, k: Class) { forall i :: 0 <= i < |s| ==> ClassOf(s[i]) == k }

  lemma LettersAndDigits()
    ensures AllOf(LOWERCASE, LowerClass) && AllOf(UPPERCASE, UpperClass) && AllOf(NUMBERS, NumberClass)
  {
  }

  lemma SymbolsAreSymbols()
    ensures AllOf(SYMBOLS, SymbolClass)
  {
  }

  predicate Nonempty(pools: seq<string>) { forall i :: 0 <= i < |pools| ==> pools[i] != "" }

  predicate Disjoint(pools: seq<string>) {
    forall i, j, c :: 0 <= i < j < |pools| && c in pools[i] ==> c !in pools[j]
  }

  /** Any configuration's pools are non-empty and share no character. */
  lemma PoolsAreDisjoint(c: Config)
    ensures Nonempty(Pools(c)) && Disjoint(Pools(c)) && |Pools(c)| <= 4
  {
    SymbolCount();
    LettersAndDigits();
    SymbolsAreSymbols();
    var pools := Pools(c);
    var kinds := (if c.lower then [LowerClass] else []) + (if c.upper then [UpperClass] else [])
      + (if c.numbers then [NumberClass] else [])
      + (if c.useSymbols && Specials(c.symbols, SYMBOL_COUNT) != "" then [SymbolClass] else []);
    assert |kinds| == |pools|;
    assert forall i, j :: 0 <= i < j < |kinds| ==> kinds[i] != kinds[j];
    forall i | 0 <= i < |pools| ensures AllOf(pools[i], kinds[i]) && pools[i] != "" {
      forall k | 0 <= k < |pools[i]| ensures ClassOf(pools[i][k]) == kinds[i] {
        assert pools[i][k] in pools[i];
      }
    }
  }

  // ---- the bit mask ----

  predicate Bit(mask: nat, i: nat) { if i == 0 then Odd(mask) else Bit(mask / 2, i - 1) }

  /** `mask | (1 << i)`. */
  function SetBit(mask: nat, i: nat): nat {
    if i == 0 then 2 * (mask / 2) + 1 else 2 * SetBit(mask / 2, i - 1) + mask % 2
  }

  lemma {:induction false} BitAfterSet(mask: nat, i: nat, j: nat)
    ensures Bit(SetBit(mask, i), j) <==> i == j || Bit(mask, j)
  {
    var m := SetBit(mask, i);
    if i == 0 {
      assert m / 2 == mask / 2;
    } else {
      assert m / 2 == SetBit(mask / 2, i - 1) && Odd(m) == Odd(mask);
      if j > 0 {
        BitAfterSet(mask / 2, i - 1, j - 1);
      }
    }
  }

  lemma {:induction false} SetBitWidth(mask: nat, i: nat, n: nat)
    requires mask < Pow2(n) && i < n
    ensures SetBit(mask, i) < Pow2(n)
  {
    if i > 0 {
      SetBitWidth(mask / 2, i - 1, n - 1);
    }
  }

  predicate AllBits(mask: nat, n: nat) { forall i :: 0 <= i < n ==> Bit(mask, i) }

  /** The full mask is the only number of its width with every bit set. */
  lemma {:induction false} FullMaskIff(mask: nat, n: nat)
    requires mask < Pow2(n)
    ensures mask == Pow2(n) - 1 <==> AllBits(mask, n)
  {
    if n > 0 {
      FullMaskIff(mask / 2, n - 1);
      assert mask == Pow2(n) - 1 <==> Odd(mask) && mask / 2 == Pow2(n - 1) - 1;
      BitsShift(mask, n);
    }
  }

  lemma BitsShift(mask: nat, n: nat)
    requires n > 0
    ensures AllBits(mask, n) <==> Odd(mask) && AllBits(mask / 2, n - 1)
  {
    if AllBits(mask, n) {
      assert Bit(mask, 0);
      forall i | 0 <= i < n - 1 ensures Bit(mask / 2, i) {
        assert Bit(mask, i + 1);
      }
    }
    if Odd(mask) && AllBits(mask / 2, n - 1) {
      forall i | 0 <= i < n ensures Bit(mask, i) {
        assert i > 0 ==> Bit(mask / 2, i - 1);
      }
    }
  }

  // ---- generate ----

  predicate Hits(s: string, pool: string) { exists k :: 0 <= k < |s| && s[k] in pool }

  /** What a strict password must satisfy. */
  predicate Strict(s: string, pools: seq<string>) {
    s != "" && forall i :: 0 <= i < |pools| ==> Hits(s, pools[i])
  }

  lemma HitsMore(s: string, c: char, pool: string)
    ensures Hits(s + [c], pool) <==> Hits(s, pool) || c in pool
  {
    var t := s + [c];
    if Hits(s, pool) {
      var k :| 0 <= k < |s| && s[k] in pool;
      assert t[k] in pool;
    }
    if c in pool {
      assert t[|s|] in pool;
    }
    if Hits(t, pool) {
      var k :| 0 <= k < |t| && t[k] in pool;
      assert k < |s| ==> s[k] in pool;
    }
  }

  /** Set the bit of every pool that holds `c`. */
  method MarkPools(mask: nat, c: char, pools: seq<string>) returns (marked: nat)
    requires mask < Pow2(|pools|)
    ensures marked < Pow2(|pools|)
    ensures forall j :: 0 <= j < |pools| ==> (Bit(marked, j) <==> Bit(mask, j) || c in pools[j])
  {
    marked := mask;
    for i := 0 to |pools|
      invariant marked < Pow2(|pools|)
      invariant forall j :: 0 <= j < |pools| ==> (Bit(marked, j) <==> Bit(mask, j) || (j < i && c in pools[j]))
    {
      if c in pools[i] {
        SetBitWidth(marked, i, |pools|);
        forall j | 0 <= j < |pools| ensures Bit(SetBit(marked, i), j) <==> i == j || Bit(marked, j) {
          BitAfterSet(marked, i, j);
        }
        marked := SetBit(marked, i);
      }
    }
  }

  lemma {:induction false} NoBits(i: nat)
    ensures !Bit(0, i)
  {
    if i > 0 {
      NoBits(i - 1);
    }
  }

  /** Copy a draw while marking, in a bit mask, the pools it hits; the answer says whether it hit them all. */
  method Check(random: string, pools: seq<string>) returns (password: string, all: bool)
    ensures password == random
    ensures all <==> Strict(random, pools)
  {
    var n := |pools|;
    var mask: nat, target: nat := 0, Pow2(n) - 1;
    all := false;
    password := "";
    forall j | 0 <= j < n ensures !Bit(0, j) {
      NoBits(j);
    }
    var k := 0;
    while k < |random|
      invariant 0 <= k <= |random| && password == random[..k] && mask < Pow2(n)
      invariant all <==> Strict(random[..k], pools)
      invariant !all ==> forall j :: 0 <= j < n ==> (Bit(mask, j) <==> Hits(random[..k], pools[j]))
    {
      var c := random[k];
      password := password + [c];
      assert random[..k + 1] == random[..k] + [c];
      forall j | 0 <= j < n ensures Hits(random[..k + 1], pools[j]) <==> Hits(random[..k], pools[j]) || c in pools[j] {
        HitsMore(random[..k], c, pools[j]);
      }
      if !all {
        mask := MarkPools(mask, c, pools);
        assert forall j :: 0 <= j < n ==> (Bit(mask, j) <==> Hits(random[..k + 1], pools[j]));
        FullMaskIff(mask, n);
        all := mask == target;
        assert all <==> forall j :: 0 <= j < n ==> Hits(random[..k + 1], pools[j]);
      }
      assert all <==> Strict(random[..k + 1], pools);
      k := k + 1;
    }
    assert random[..|random|] == random;
  }

  function FirstStrict(draws: seq<string>, pools: seq<string>): (r: Option<string>)
    ensures r.Some? ==> r.value in draws && Strict(r.value, pools)
    ensures r.None? <==> forall d :: d in draws ==> !Strict(d, pools)
    decreases |draws|
  {
    if draws == [] then None
    else if Strict(draws[0], pools) then Some(draws[0])
    else FirstStrict(draws[1..], pools)
  }

  /**
   `generate`: the first draw, or in strict mode the first that hits every pool; none while the given
   draws do not suffice.
   */
  method Generate(pools: seq<string>, strict: bool, draws: seq<string>) returns (password: Option<string>)
    ensures strict ==> password == FirstStrict(draws, pools)
    ensures !strict ==> password == if draws == [] then None else Some(draws[0])
  {
    if draws == [] { return None; }
    if !strict { return Some(draws[0]); }
    var i := 0;
    while i < |draws|
      invariant 0 <= i <= |draws|
      invariant FirstStrict(draws, pools) == FirstStrict(draws[i..], pools)
    {
      var copy, all := Check(draws[i], pools);
      if all { return Some(copy); }
      i := i + 1;
    }
    return None;
  }

  // ---- what strict generation can return ----

  predicate InPools(c: char, pools: seq<string>) { exists i :: 0 <= i < |pools| && c in pools[i] }

  /** What the random picker may return: `length` characters of the pools. */
  predicate Draw(s: string, pools: seq<string>, length: nat) {
    |s| == length && forall k :: 0 <= k < |s| ==> InPools(s[k], pools)
  }

  /** A strict password has the requested length, only characters of the pools, and one of each pool. */
  lemma StrictPassword(pools: seq<string>, length: nat, draws: seq<string>)
    requires forall d :: d in draws ==> Draw(d, pools, length)
    requires FirstStrict(draws, pools).Some?
    ensures var p := FirstStrict(draws, pools).value;
            && |p| == length && (forall k :: 0 <= k < |p| ==> InPools(p[k], pools))
            && forall i :: 0 <= i < |pools| ==> Hits(p, pools[i])
  {
  }

  ghost function HitSet(s: string, pools: seq<string>): set<nat> {
    set i: nat | i < |pools| && Hits(s, pools[i])
  }

  lemma HitSetStep(s: string, c: char, pools: seq<string>)
    requires Disjoint(pools)
    ensures |HitSet(s + [c], pools)| <= |HitSet(s, pools)| + 1
  {
    forall i | 0 <= i < |pools| ensures Hits(s + [c], pools[i]) <==> Hits(s, pools[i]) || c in pools[i] {
      HitsMore(s, c, pools[i]);
    }
    if InPools(c, pools) {
      var j: nat :| j < |pools| && c in pools[j];
      OnlyPool(c, pools, j);
      assert HitSet(s + [c], pools) == HitSet(s, pools) + {j};
    } else {
      assert HitSet(s + [c], pools) == HitSet(s, pools);
    }
  }

  lemma OnlyPool(c: char, pools: seq<string>, j: nat)
    requires Disjoint(pools) && j < |pools| && c in pools[j]
    ensures forall i :: 0 <= i < |pools| && c in pools[i] ==> i == j
  {
  }

  /** With disjoint pools, each character hits at most one of them. */
  lemma {:induction false} HitSetSize(s: string, pools: seq<string>)
    requires Disjoint(pools)
    ensures |HitSet(s, pools)| <= |s|
  {
    if s == "" {
      assert HitSet(s, pools) == {};
    } else {
      var n := |s| - 1;
      HitSetSize(s[..n], pools);
      assert s == s[..n] + [s[n]];
      HitSetStep(s[..n], s[n], pools);
    }
  }

  ghost function Below(n: nat): (r: set<nat>)
    ensures |r| == n && forall i: nat :: i in r <==> i < n
  {
    if n == 0 then {} else Below(n - 1) + {n - 1}
  }

  lemma StrictNeedsLength(s: string, pools: seq<string>)
    requires Disjoint(pools) && Strict(s, pools)
    ensures |s| >= |pools|
  {
    HitSetSize(s, pools);
    assert HitSet(s, pools) == Below(|pools|);
  }

  /** One character of each pool, then the first pool's first character as often as needed. */
  function Witness(pools: seq<string>, length: nat): string
    requires 0 < |pools| <= length && Nonempty(pools)
  {
    seq(length, (k: nat) requires k < length => if k < |pools| then pools[k][0] else pools[0][0])
  }

  lemma WitnessIsStrict(pools: seq<string>, length: nat)
    requires 0 < |pools| <= length && Nonempty(pools)
    ensures Draw(Witness(pools, length), pools, length) && Strict(Witness(pools, length), pools)
  {
    var s := Witness(pools, length);
    forall k | 0 <= k < |s| ensures InPools(s[k], pools) {
      var i := if k < |pools| then k else 0;
      assert s[k] in pools[i];
    }
    forall i | 0 <= i < |pools| ensures Hits(s, pools[i]) {
      assert s[i] in pools[i];
    }
  }

  /** Of the draws, the first that hits every pool is the password. */
  lemma {:induction false} FirstStrictIsFirst(draws: seq<string>, pools: seq<string>, i: nat)
    requires i < |draws| && Strict(draws[i], pools) && forall j :: 0 <= j < i ==> !Strict(draws[j], pools)
    ensures FirstStrict(draws, pools) == Some(draws[i])
    decreases |draws|
  {
    if i > 0 {
      assert !Strict(draws[0], pools);
      assert forall j :: 0 <= j < i - 1 ==> draws[1..][j] == draws[j + 1];
      FirstStrictIsFirst(draws[1..], pools, i - 1);
    }
  }

  /**
   For non-empty, disjoint pools the retry loop has a draw it can stop at exactly when there is a pool
   and the length is at least the number of pools.
   */
  lemma ExitDrawIff(pools: seq<string>, length: nat)
    requires Nonempty(pools) && Disjoint(pools)
    ensures (exists s :: Draw(s, pools, length) && Strict(s, pools)) <==> 0 < |pools| <= length
  {
    if 0 < |pools| <= length {
      WitnessIsStrict(pools, length);
    }
    forall s | Draw(s, pools, length) && Strict(s, pools) ensures 0 < |pools| <= length {
      StrictNeedsLength(s, pools);
      assert InPools(s[0], pools);
    }
  }

  /**
   For a configuration: strict generation can finish exactly when a class is enabled and the length
   allows one character of each.
   */
  lemma ConfigCanFinishIff(c: Config)
    ensures (exists s :: Draw(s, Pools(c), c.length) && Strict(s, Pools(c))) <==> 0 < |Pools(c)| <= c.length
  {
    PoolsAreDisjoint(c);
    ExitDrawIff(Pools(c), c.length);
  }

  // ---- what a configuration allows ----

  lemma LetterAt(i: nat)
    requires i < 26
    ensures LOWERCASE[i] as nat == 'a' as nat + i && UPPERCASE[i] as nat == 'A' as nat + i
  {
  }

  lemma DigitAt(i: nat)
    requires i < 10
    ensures NUMBERS[i] as nat == '0' as nat + i
  {
  }

  lemma InConsecutive(s: string, first: nat, ch: char)
    requires forall i :: 0 <= i < |s| ==> s[i] as nat == first + i
    ensures ch in s <==> first <= ch as nat < first + |s|
  {
    if first <= ch as nat < first + |s| {
      assert s[ch as nat - first] == ch;
    }
  }

  lemma Alphabets(ch: char)
    ensures ch in LOWERCASE <==> 'a' <= ch <= 'z'
    ensures ch in UPPERCASE <==> 'A' <= ch <= 'Z'
    ensures ch in NUMBERS <==> '0' <= ch <= '9'
  {
    forall i | 0 <= i < 26 {
      LetterAt(i);
    }
    forall i | 0 <= i < 10 {
      DigitAt(i);
    }
    InConsecutive(LOWERCASE, 'a' as nat, ch);
    InConsecutive(UPPERCASE, 'A' as nat, ch);
    InConsecutive(NUMBERS, '0' as nat, ch);
  }

  predicate Flagged(c: Config, ch: char) {
    SymbolCount();
    exists i :: 0 <= i < SYMBOL_COUNT && c.symbols[i] && SYMBOLS[i] == ch
  }

  /** The characters a configuration allows. */
  predicate Allows(c: Config, ch: char) {
    || (c.lower && 'a' <= ch <= 'z') || (c.upper && 'A' <= ch <= 'Z') || (c.numbers && '0' <= ch <= '9')
    || (c.useSymbols && Flagged(c, ch))
  }

  /** One character at least of everything that is enabled. */
  predicate HasEach(c: Config, s: string) {
    && (c.lower ==> exists k :: 0 <= k < |s| && 'a' <= s[k] <= 'z')
    && (c.upper ==> exists k :: 0 <= k < |s| && 'A' <= s[k] <= 'Z')
    && (c.numbers ==> exists k :: 0 <= k < |s| && '0' <= s[k] <= '9')
    && (c.useSymbols && true in c.symbols ==> exists k :: 0 <= k < |s| && Flagged(c, s[k]))
  }

  function EnabledSymbols(c: Config): string {
    SymbolCount();
    Specials(c.symbols, SYMBOL_COUNT)
  }

  lemma SpecialsAreFlagged(c: Config, ch: char)
    ensures ch in EnabledSymbols(c) <==> Flagged(c, ch)
    ensures EnabledSymbols(c) != "" <==> true in c.symbols
  {
    SymbolCount();
    var specials := EnabledSymbols(c);
    if specials != "" {
      assert specials[0] in specials;
    }
    if i :| 0 <= i < SYMBOL_COUNT && c.symbols[i] {
      assert SYMBOLS[i] in specials;
    }
  }

  /** The pools that a configuration makes, told apart by what they hold. */
  lemma PoolsHold(c: Config, ch: char)
    ensures InPools(ch, Pools(c)) <==> Allows(c, ch)
  {
    Alphabets(ch);
    SpecialsAreFlagged(c, ch);
    var pools := Pools(c);
    var a := if c.lower then [LOWERCASE] else [];
    var b := if c.upper then [UPPERCASE] else [];
    var d := if c.numbers then [NUMBERS] else [];
    var specials := EnabledSymbols(c);
    var e := if c.useSymbols && specials != "" then [specials] else [];
    assert pools == a + b + d + e;
    InJoined(ch, a + b + d, e);
    InJoined(ch, a + b, d);
    InJoined(ch, a, b);
    InOne(ch, LOWERCASE, c.lower);
    InOne(ch, UPPERCASE, c.upper);
    InOne(ch, NUMBERS, c.numbers);
    InOne(ch, specials, c.useSymbols && specials != "");
  }

  lemma InJoined(ch: char, a: seq<string>, b: seq<string>)
    ensures InPools(ch, a + b) <==> InPools(ch, a) || InPools(ch, b)
  {
    var all := a + b;
    if i :| 0 <= i < |a| && ch in a[i] {
      assert ch in all[i];
    }
    if i :| 0 <= i < |b| && ch in b[i] {
      assert ch in all[|a| + i];
    }
    if i :| 0 <= i < |all| && ch in all[i] {
      assert if i < |a| then ch in a[i] else ch in b[i - |a|];
    }
  }

  lemma InOne(ch: char, pool: string, enabled: bool)
    ensures InPools(ch, if enabled then [pool] else []) <==> enabled && ch in pool
  {
    if enabled && ch in pool {
      assert ch in [pool][0];
    }
  }

  predicate HitsAll(s: string, pools: seq<string>) { forall i :: 0 <= i < |pools| ==> Hits(s, pools[i]) }

  lemma HitsJoined(s: string, a: seq<string>, b: seq<string>)
    ensures HitsAll(s, a + b) <==> HitsAll(s, a) && HitsAll(s, b)
  {
    var all := a + b;
    assert forall i :: 0 <= i < |a| ==> all[i] == a[i];
    assert forall i :: 0 <= i < |b| ==> all[|a| + i] == b[i];
  }

  lemma HitsOne(s: string, pool: string, enabled: bool)
    ensures HitsAll(s, if enabled then [pool] else []) <==> (enabled ==> Hits(s, pool))
  {
    assert enabled ==> [pool][0] == pool;
  }

  lemma HitsEach(c: Config, s: string)
    ensures HitsAll(s, Pools(c)) <==> HasEach(c, s)
  {
    SymbolCount();
    var a := if c.lower then [LOWERCASE] else [];
    var b := if c.upper then [UPPERCASE] else [];
    var d := if c.numbers then [NUMBERS] else [];
    var specials := EnabledSymbols(c);
    var e := if c.useSymbols && specials != "" then [specials] else [];
    assert Pools(c) == a + b + d + e;
    HitsJoined(s, a + b + d, e);
    HitsJoined(s, a + b, d);
    HitsJoined(s, a, b);
    HitsOne(s, LOWERCASE, c.lower);
    HitsOne(s, UPPERCASE, c.upper);
    HitsOne(s, NUMBERS, c.numbers);
    HitsOne(s, specials, c.useSymbols && specials != "");
    SpecialsAreFlagged(c, '!');
    HitsClasses(c, s);
  }

  lemma HitsClasses(c: Config, s: string)
    ensures Hits(s, LOWERCASE) <==> exists k :: 0 <= k < |s| && 'a' <= s[k] <= 'z'
    ensures Hits(s, UPPERCASE) <==> exists k :: 0 <= k < |s| && 'A' <= s[k] <= 'Z'
    ensures Hits(s, NUMBERS) <==> exists k :: 0 <= k < |s| && '0' <= s[k] <= '9'
    ensures Hits(s, EnabledSymbols(c)) <==> exists k :: 0 <= k < |s| && Flagged(c, s[k])
  {
    forall k | 0 <= k < |s|
      ensures s[k] in LOWERCASE <==> 'a' <= s[k] <= 'z'
      ensures s[k] in UPPERCASE <==> 'A' <= s[k] <= 'Z'
      ensures s[k] in NUMBERS <==> '0' <= s[k] <= '9'
      ensures s[k] in EnabledSymbols(c) <==> Flagged(c, s[k])
    {
      Alphabets(s[k]);
      SpecialsAreFlagged(c, s[k]);
    }
  }

  /**
   The passwords that strict generation may return for a configuration are exactly the non-empty
   strings of its length that hold allowed characters only, and one at least of everything enabled.
   */
  lemma PasswordsIff(c: Config, s: string)
    ensures Draw(s, Pools(c), c.length) && Strict(s, Pools(c)) <==>
            |s| == c.length > 0 && (forall k :: 0 <= k < |s| ==> Allows(c, s[k])) && HasEach(c, s)
  {
    HitsEach(c, s);
    forall k | 0 <= k < |s| ensures InPools(s[k], Pools(c)) <==> Allows(c, s[k]) {
      PoolsHold(c, s[k]);
    }
  }

  // ---- text form ----

  function PrintBool(b: bool): string { if b then "true" else "false" }

  function ParseBool(s: string): Option<bool> {
    if s == "true" then Some(true) else if s == "false" then Some(false) else None
  }

  function PrintFlags(symbols: seq<bool>): (s: string)
    ensures |s| == |symbols| && forall i :: 0 <= i < |s| ==> s[i] == if symbols[i] then '1' else '0'
  {
    if symbols == [] then "" else PrintFlags(symbols[..|symbols| - 1]) + [if symbols[|symbols| - 1] then '1' else '0']
  }

  function FieldLines(c: Config): seq<string> {
    [Print(c.length), PrintBool(c.numbers), PrintBool(c.upper), PrintBool(c.lower), PrintBool(c.useSymbols),
     PrintFlags(c.symbols)]
  }

  function ToText(c: Config): string { Unlines(FieldLines(c)) }

  function FlagsFrom(line: string): Flags {
    seq(SYMBOL_COUNT, (i: nat) => i < |line| && line[i] == '1')
  }

  function LineAt(lines: seq<string>, i: nat): string { if i < |lines| then lines[i] else "" }

  /** A line that is missing or does not parse leaves its field at the default. */
  function FromLines(lines: seq<string>): Config {
    Config(Parse(LineAt(lines, 0), U32_LIMIT).UnwrapOr(DEFAULT_LENGTH),
           ParseBool(LineAt(lines, 1)).UnwrapOr(true), ParseBool(LineAt(lines, 2)).UnwrapOr(true),
           ParseBool(LineAt(lines, 3)).UnwrapOr(true), ParseBool(LineAt(lines, 4)).UnwrapOr(true),
           FlagsFrom(LineAt(lines, 5)))
  }

  /** `deserialize`'s loop over the symbol line: what lies beyond the 32nd character is ignored. */
  method ReadFlags(line: string) returns (symbols: array<bool>)
    ensures fresh(symbols) && symbols[..] == FlagsFrom(line)
  {
    symbols := new bool[SYMBOL_COUNT](_ => false);
    var i := 0;
    while i < |line|
      invariant 0 <= i <= |line| && i <= SYMBOL_COUNT
      invariant forall j :: 0 <= j < SYMBOL_COUNT ==> symbols[j] == (j < i && line[j] == '1')
    {
      if i >= SYMBOL_COUNT { break; }
      symbols[i] := line[i] == '1';
      i := i + 1;
    }
  }

  /** `deserialize`: takes the lines one by one, and what is missing or does not parse at its default. */
  method Deserialize(lines: seq<string>) returns (c: Config)
    ensures c == FromLines(lines)
  {
    var length := Parse(LineAt(lines, 0), U32_LIMIT).UnwrapOr(DEFAULT_LENGTH);
    var numbers := ParseBool(LineAt(lines, 1)).UnwrapOr(true);
    var upper := ParseBool(LineAt(lines, 2)).UnwrapOr(true);
    var lower := ParseBool(LineAt(lines, 3)).UnwrapOr(true);
    var useSymbols := ParseBool(LineAt(lines, 4)).UnwrapOr(true);
    var symbols := ReadFlags(LineAt(lines, 5));
    return Config(length, numbers, upper, lower, useSymbols, symbols[..]);
  }

  /** What any lines stand for: a length, four switches that only `false` turns off, and the symbols marked 1. */
  lemma FileMeans(lines: seq<string>)
    ensures var c := FromLines(lines);
            && c.length == (if |lines| > 0 then Parse(lines[0], U32_LIMIT).UnwrapOr(18) else 18)
            && (c.numbers <==> !(|lines| > 1 && lines[1] == "false"))
            && (c.upper <==> !(|lines| > 2 && lines[2] == "false"))
            && (c.lower <==> !(|lines| > 3 && lines[3] == "false"))
            && (c.useSymbols <==> !(|lines| > 4 && lines[4] == "false"))
            && forall i :: 0 <= i < 32 ==>
                 (c.symbols[i] <==> |lines| > 5 && i < |lines[5]| && lines[5][i] == '1')
  {
    assert Parse("", U32_LIMIT).None? && ParseBool("").None?;
  }

  lemma PlainFields(c: Config)
    ensures '\n' !in Print(c.length) && '\n' !in PrintFlags(c.symbols)
    ensures forall b :: '\n' !in PrintBool(b)
  {
  }

  /** Every configuration is read back from its text. */
  lemma ConfigRoundTrip(c: Config)
    ensures FromLines(Split(ToText(c), '\n')) == c
  {
    PlainFields(c);
    SplitUnlines(FieldLines(c));
    ParsePrint(c.length, U32_LIMIT);
    assert FlagsFrom(PrintFlags(c.symbols)) == c.symbols;
  }
}
