/**
 The gene-mating protocol. A recipient shows a QR code with the protocol header and a fresh nonce;
 a donor scans it and answers with a gamete sealed under that nonce; the recipient scans the answer,
 replaces its gene, and asks the user to keep or revert it. Any number of badges share one key; QR
 codes carry arbitrary bytes. Random draws are parameters.
 */
module Mating {
  import opened Wrappers
  import opened Genetics

  type Nonce = s: seq<byte> | |s| == 12 witness [0, 0, 0, 0, 0, 0, 0, 0, 0, 0, 0, 0]

  const HEADER_SIZE: nat := 16
  const KEY_SIZE: nat := 28
  const SEALED_SIZE: nat := 32

  /** `DC34_HEADER`. */
  function Header(): (h: seq<byte>)
    ensures |h| == HEADER_SIZE
  {
    [0x49, 0xdb, 0x76, 0x71, 0xf3, 0x44, 0x35, 0xed, 0x5f, 0xdd, 0xff, 0xdf, 0xcb, 0xb7, 0x50, 0x8a]
  }

  datatype Mode = Idle | ShowKey | GeneScan | ResponseGene | ConfirmGene | StandAloneTest | OtherMode

  /** The copies of a gene: in use, saved for undo, in storage, and shown by the LED server. */
  datatype Genes = Genes(cache: Option<Diploid>, prior: Option<Diploid>, stored: Option<Diploid>, led: Option<Diploid>)

  datatype Badge = Badge(
    mode: Mode, genes: Genes, nonce: Option<Nonce>, kind: BadgeType,
    rate: MutationRate, finalRate: MutationRate, attached: bool)

  /** Authenticated encryption under the shared key. */
  datatype Cipher = Cipher(seal: (Nonce, seq<byte>) -> seq<byte>, open: (Nonce, seq<byte>) -> Option<seq<byte>>)

  /** What `split_once("://")` finds in a scanned text. */
  datatype Text = TestUrl | StandAloneUrl | OtherFactoryUrl | OtherUrl | NoUrl

  datatype Key = Arrow | Fire | OtherKey

  datatype Draws = Draws(nonces: seq<Nonce>, parents: Parents, rolls: Rolls, spermRolls: Rolls)

  datatype Event =
    | Qr(bytes: Option<seq<byte>>, text: Text, draws: Draws)
    | AbortQr | KeepGene | RevertGene
    | KeyPress(key: Key, nonces: seq<Nonce>)
    | LedRefresh | SetRate(newRate: MutationRate)
    | GoIdle | GoElsewhere

  datatype Reply = Reply(nonce: Nonce, msg: seq<byte>, bytes: seq<byte>)

  /** A handler finishes, panics, or is still drawing nonces when the given draws run out. */
  datatype Outcome = Next(badge: Badge, reply: Option<Reply>) | Panic | Drawing

  predicate Receptive(mode: Mode) { mode.GeneScan? || mode.ResponseGene? || mode.ShowKey? }

  // ---- GlobalConfig ----

  predicate Acceptable(previous: Option<Nonce>, n: Nonce) {
    n != Header()[..12] && previous != Some(n)
  }

  function FirstAcceptable(previous: Option<Nonce>, draws: seq<Nonce>): (r: Option<Nonce>)
    ensures r.Some? ==> Acceptable(previous, r.value) && r.value in draws
    ensures r.None? <==> forall n :: n in draws ==> !Acceptable(previous, n)
    decreases |draws|
  {
    if draws == [] then None
    else if Acceptable(previous, draws[0]) then Some(draws[0])
    else FirstAcceptable(previous, draws[1..])
  }

  /** Of the draws, the first that will do is taken. */
  lemma {:induction false} FirstIsFirst(previous: Option<Nonce>, draws: seq<Nonce>, i: nat)
    requires i < |draws| && Acceptable(previous, draws[i]) && forall j :: 0 <= j < i ==> !Acceptable(previous, draws[j])
    ensures FirstAcceptable(previous, draws) == Some(draws[i])
    decreases |draws|
  {
    if i > 0 {
      assert !Acceptable(previous, draws[0]);
      assert forall j :: 0 <= j < i - 1 ==> draws[1..][j] == draws[j + 1];
      FirstIsFirst(previous, draws[1..], i - 1);
    }
  }

  function Render(g: Genes): Genes { if g.cache.Some? then g.(led := g.cache) else g }

  function Replace(g: Genes, egg: Haploid, sperm: Haploid): Genes {
    g.(prior := g.cache, cache := Some(Diploid(egg, sperm)))
  }

  function Revert(g: Genes): Genes {
    if g.prior.Some? then g.(cache := g.prior, prior := None) else g
  }

  function Keep(g: Genes): Genes { if g.cache.Some? then g.(stored := g.cache) else g }

  /** The gamete a badge with gene `d` gives away. */
  function Gamete(d: Diploid, rate: MutationRate, draws: Draws): Haploid {
    Mutated(Meiosis(d, draws.parents), rate, draws.rolls)
  }

  function InbreedingRate(kind: BadgeType, finalRate: MutationRate): MutationRate {
    MaxRate(if kind.Human? then Elevated else Baseline, finalRate)
  }

  /** The pair a recipient forms with a gamete `h` from a badge of type `t`. */
  function Offspring(
      d: Diploid, kind: BadgeType, finalRate: MutationRate, h: Haploid, t: BadgeType, draws: Draws): Diploid
  {
    if t == kind then
      var rate := InbreedingRate(kind, finalRate);
      Diploid(Gamete(d, MaxRate(rate, finalRate), draws), Mutated(h, rate, draws.spermRolls))
    else
      Diploid(Gamete(d, MaxRate(finalRate, finalRate), draws), h)
  }

  /**
   The donor's gamete enters the pair as it was sent exactly when the badges are of different types
   or nothing rolled for it: among badges of one type the rate is never none. (The period, taken
   modulo 7 when it mutates, is left aside.)
   */
  lemma DonorGameteKeptIff(d: Diploid, kind: BadgeType, finalRate: MutationRate, h: Haploid, t: BadgeType, draws: Draws)
    ensures Offspring(d, kind, finalRate, h, t, draws).second.(cdPeriod := h.cdPeriod) == h
            <==> t != kind || NothingRolled(draws.spermRolls)
  {
    MutationShowsIff(h, InbreedingRate(kind, finalRate), draws.spermRolls);
  }

  /** The recipient's own half is a mutation of some gamete of its gene, at no less than its locked rate. */
  lemma OwnHalfInherits(d: Diploid, kind: BadgeType, finalRate: MutationRate, h: Haploid, t: BadgeType, draws: Draws)
    returns (g: Haploid, rate: MutationRate)
    ensures Inherits(d, g) && Level(rate) >= Level(finalRate)
    ensures t == kind ==> Level(rate) >= if kind.Human? then Level(Elevated) else Level(Baseline)
    ensures rate == if t == kind then AmongOwn(kind, finalRate) else finalRate
    ensures Offspring(d, kind, finalRate, h, t, draws).first == Mutated(g, rate, draws.rolls)
  {
    g := Meiosis(d, draws.parents);
    GametesIff(d, g);
    rate := if t == kind then MaxRate(InbreedingRate(kind, finalRate), finalRate) else finalRate;
  }

  // ---- the handlers ----

  function KeyScanned(c: Cipher, b: Badge, bytes: seq<byte>, draws: Draws): Outcome
    requires |bytes| >= HEADER_SIZE
  {
    if |bytes| < KEY_SIZE then Next(b.(mode := Idle), None)
    else
      var theirs := bytes[HEADER_SIZE..KEY_SIZE];
      var mine := FirstAcceptable(b.nonce, draws.nonces);
      if mine.None? then Drawing
      else if b.genes.cache.None? then Panic
      else
        var msg := Padded(Gamete(b.genes.cache.value, b.finalRate, draws), b.kind);
        Next(b.(nonce := mine, mode := ResponseGene, rate := Baseline), Some(Reply(theirs, msg, c.seal(theirs, msg))))
  }

  function ResponseScanned(c: Cipher, b: Badge, bytes: seq<byte>, draws: Draws): Outcome {
    if |bytes| < SEALED_SIZE || b.nonce.None? then Next(b.(mode := Idle), None)
    else
      var msg := c.open(b.nonce.value, bytes);
      if msg.None? then Next(b.(mode := Idle, rate := Baseline), None)
      else if |msg.value| < PADDED || b.genes.cache.None? then Panic
      else
        var (h, t) := OpenPadded(msg.value);
        var d := Offspring(b.genes.cache.value, b.kind, b.finalRate, h, t, draws);
        Next(b.(mode := ConfirmGene, genes := Render(Replace(b.genes, d.first, d.second)), rate := Baseline), None)
  }

  function TextMode(mode: Mode, text: Text): Mode {
    match text
    case TestUrl => mode
    case StandAloneUrl => StandAloneTest
    case OtherFactoryUrl => mode
    case OtherUrl => if Receptive(mode) then Idle else mode
    case NoUrl => if Receptive(mode) then Idle else mode
  }

  function HandleQr(c: Cipher, b: Badge, bytes: Option<seq<byte>>, text: Text, draws: Draws): Outcome {
    if Receptive(b.mode) && bytes.Some? then
      if |bytes.value| < HEADER_SIZE then Panic
      else if bytes.value[..HEADER_SIZE] == Header() then KeyScanned(c, b, bytes.value, draws)
      else ResponseScanned(c, b, bytes.value, draws)
    else Next(b.(mode := TextMode(b.mode, text), rate := Baseline), None)
  }

  function HandleKey(b: Badge, key: Key, nonces: seq<Nonce>): Outcome {
    match b.mode
    case Idle =>
      if key.Arrow? then
        var mine := FirstAcceptable(b.nonce, nonces);
        if mine.None? then Drawing
        else Next(b.(finalRate := b.rate, nonce := mine, mode := ShowKey), None)
      else if key.Fire? then Next(b.(mode := GeneScan), None)
      else Next(b, None)
    case ShowKey => Next(b.(mode := if key.Fire? then GeneScan else Idle), None)
    case ResponseGene => Next(b.(nonce := None, mode := Idle), None)
    case _ => Next(b, None)
  }

  function Apply(c: Cipher, b: Badge, e: Event): Outcome {
    match e
    case Qr(bytes, text, draws) => HandleQr(c, b, bytes, text, draws)
    case AbortQr => Next(b.(mode := if b.attached then Idle else b.mode, rate := Baseline), None)
    case KeepGene => Next(b.(genes := Keep(b.genes), mode := Idle), None)
    case RevertGene => Next(b.(genes := Render(Revert(b.genes)), mode := Idle), None)
    case KeyPress(key, nonces) => HandleKey(b, key, nonces)
    case LedRefresh => Next(b.(genes := Render(b.genes)), None)
    case SetRate(rate) => Next(b.(rate := rate), None)
    case GoIdle => Next(b.(mode := Idle), None)
    case GoElsewhere => Next(b.(mode := OtherMode), None)
  }

  // ---- one badge ----

  /** Does this event form a new gene here? */
  predicate Mates(c: Cipher, b: Badge, e: Event) {
    && e.Qr? && Receptive(b.mode) && e.bytes.Some? && |e.bytes.value| >= SEALED_SIZE
    && e.bytes.value[..HEADER_SIZE] != Header()
    && b.nonce.Some? && c.open(b.nonce.value, e.bytes.value).Some?
  }

  /** Does this event answer a key shown by another badge? */
  predicate Answers(b: Badge, e: Event) {
    && e.Qr? && Receptive(b.mode) && e.bytes.Some? && |e.bytes.value| >= KEY_SIZE
    && e.bytes.value[..HEADER_SIZE] == Header()
  }

  function NonceInKey(bytes: seq<byte>): Nonce
    requires |bytes| >= KEY_SIZE
  {
    bytes[HEADER_SIZE..KEY_SIZE]
  }

  /** Handling a QR code panics in exactly three cases, all of them checkable beforehand. */
  lemma QrPanicsIff(c: Cipher, b: Badge, e: Event)
    requires e.Qr?
    requires forall n, d :: c.open(n, d).Some? ==> |c.open(n, d).value| + 16 == |d|
    ensures Apply(c, b, e).Panic? <==>
            Receptive(b.mode) && e.bytes.Some? &&
            (|e.bytes.value| < HEADER_SIZE
             || (b.genes.cache.None? && Mates(c, b, e))
             || (b.genes.cache.None? && Answers(b, e) && FirstAcceptable(b.nonce, e.draws.nonces).Some?))
  {
    if e.bytes.Some? && |e.bytes.value| >= SEALED_SIZE && b.nonce.Some? {
      var msg := c.open(b.nonce.value, e.bytes.value);
      assert msg.Some? ==> |msg.value| + 16 == |e.bytes.value|;
    }
  }

  /** Outside mating, keeping, reverting and redrawing the LEDs, no copy of the gene changes. */
  lemma GenesChangeOnlyBy(c: Cipher, b: Badge, e: Event)
    requires Apply(c, b, e).Next?
    requires !Mates(c, b, e) && !e.KeepGene? && !e.RevertGene? && !e.LedRefresh?
    ensures Apply(c, b, e).badge.genes == b.genes
  {
  }

  lemma MatingForms(c: Cipher, b: Badge, e: Event)
    requires Apply(c, b, e).Next? && Mates(c, b, e)
    ensures var msg := c.open(b.nonce.value, e.bytes.value).value;
            && |msg| >= PADDED && b.genes.cache.Some?
            && var (h, t) := OpenPadded(msg);
               var after := Apply(c, b, e).badge;
               var child := Some(Offspring(b.genes.cache.value, b.kind, b.finalRate, h, t, e.draws));
               && after.mode == ConfirmGene
               && after.genes == Genes(child, b.genes.cache, b.genes.stored, child)
  {
  }

  lemma AnswerCarries(c: Cipher, b: Badge, e: Event)
    requires Apply(c, b, e).Next?
    ensures Apply(c, b, e).reply.Some? <==> Answers(b, e)
    ensures Answers(b, e) ==>
              b.genes.cache.Some? &&
              var n := NonceInKey(e.bytes.value);
              var msg := Padded(Gamete(b.genes.cache.value, b.finalRate, e.draws), b.kind);
              Apply(c, b, e).reply == Some(Reply(n, msg, c.seal(n, msg)))
  {
  }

  /**
   A nonce changes in three events: showing a key and answering one replace it by an acceptable
   one, and dismissing an answer drops it. In particular a mating does not use it up.
   */
  lemma NonceLife(c: Cipher, b: Badge, e: Event)
    requires Apply(c, b, e).Next?
    ensures var after := Apply(c, b, e).badge.nonce;
            if Answers(b, e) || (e.KeyPress? && b.mode.Idle? && e.key.Arrow?) then
              after.Some? && Acceptable(b.nonce, after.value)
            else if e.KeyPress? && b.mode.ResponseGene? then after.None?
            else after == b.nonce
  {
  }

  /** Showing a key: an arrow in the idle mode. */
  predicate ShowsKey(b: Badge, e: Event) { b.mode.Idle? && e.KeyPress? && e.key.Arrow? }

  /** A scan that is given up before it is handled: a key or an answer too short, or an answer nobody asked for. */
  predicate CutShort(b: Badge, e: Event) {
    && e.Qr? && Receptive(b.mode) && e.bytes.Some? && |e.bytes.value| >= HEADER_SIZE
    && if e.bytes.value[..HEADER_SIZE] == Header() then |e.bytes.value| < 28
       else |e.bytes.value| < 32 || b.nonce.None?
  }

  /**
   The rate is set from outside and falls back to the baseline when a scan has been handled or has
   ended; it is locked by showing a key, and by nothing else.
   */
  lemma RateLife(c: Cipher, b: Badge, e: Event)
    requires Apply(c, b, e).Next?
    ensures var after := Apply(c, b, e).badge;
            && after.finalRate == (if ShowsKey(b, e) then b.rate else b.finalRate)
            && after.rate == (if e.SetRate? then e.newRate
                              else if e.AbortQr? || (e.Qr? && !CutShort(b, e)) then Baseline else b.rate)
            && after.kind == b.kind && after.attached == b.attached
  {
  }

  /** The mode after each event. */
  lemma ModeLife(c: Cipher, b: Badge, e: Event)
    requires Apply(c, b, e).Next?
    ensures var scanned := Receptive(b.mode) && e.Qr? && e.bytes.Some?;
            Apply(c, b, e).badge.mode ==
            if Mates(c, b, e) then ConfirmGene
            else if Answers(b, e) then ResponseGene
            else if ShowsKey(b, e) then ShowKey
            else if scanned || e.KeepGene? || e.RevertGene? || e.GoIdle? || (e.AbortQr? && b.attached) then Idle
            else if e.Qr? && e.text.StandAloneUrl? then StandAloneTest
            else if e.Qr? && Receptive(b.mode) && (e.text.OtherUrl? || e.text.NoUrl?) then Idle
            else if e.KeyPress? && e.key.Fire? && (b.mode.Idle? || b.mode.ShowKey?) then GeneScan
            else if e.KeyPress? && (b.mode.ShowKey? || b.mode.ResponseGene?) then Idle
            else if e.GoElsewhere? then OtherMode
            else b.mode
  {
  }

  /** A handler goes on drawing exactly when it needs a nonce and none of those drawn will do. */
  lemma DrawingIff(c: Cipher, b: Badge, e: Event)
    ensures Apply(c, b, e).Drawing? <==>
            || (Answers(b, e) && forall n :: n in e.draws.nonces ==> !Acceptable(b.nonce, n))
            || (ShowsKey(b, e) && forall n :: n in e.nonces ==> !Acceptable(b.nonce, n))
  {
  }

  // ---- agreement of the copies ----

  /**
   Outside confirmation the gene in use is the stored one and the one shown. While the user decides,
   the new gene is in use and shown, and storage still has the one that can be restored.
   */
  predicate Agrees(b: Badge) {
    var g := b.genes;
    if b.mode.ConfirmGene? then g.cache.Some? && g.prior.Some? && g.led == g.cache && g.stored == g.prior
    else g.cache == g.stored == g.led
  }

  /** Leaving the confirmation without keeping or reverting. */
  predicate Abandons(b: Badge, e: Event) {
    || (e.AbortQr? && b.attached)
    || (e.Qr? && e.text.StandAloneUrl?)
    || e.GoIdle? || e.GoElsewhere?
  }

  /** The events that leave the copies apart, told from the badge before the event. */
  predicate Strays(b: Badge, e: Event) {
    if b.mode.ConfirmGene? then Abandons(b, e) && b.genes.cache != b.genes.prior
    else e.RevertGene? && b.genes.prior.Some? && b.genes.prior != b.genes.cache
  }

  lemma StepAgreesIff(c: Cipher, b: Badge, e: Event)
    requires Agrees(b) && Apply(c, b, e).Next?
    ensures Agrees(Apply(c, b, e).badge) <==> !Strays(b, e)
  {
    if Mates(c, b, e) {
      MatingForms(c, b, e);
    } else if !e.KeepGene? && !e.RevertGene? && !e.LedRefresh? {
      GenesChangeOnlyBy(c, b, e);
    }
  }

  // ---- runs of many badges ----

  datatype Move = Move(who: nat, event: Event)

  predicate Moves(c: Cipher, w: seq<Badge>, m: Move, after: seq<Badge>) {
    && m.who < |w| && Apply(c, w[m.who], m.event).Next?
    && after == w[m.who := Apply(c, w[m.who], m.event).badge]
  }

  ghost predicate Trace(c: Cipher, ws: seq<seq<Badge>>, ms: seq<Move>) {
    && |ws| == |ms| + 1
    && forall i {:trigger ms[i]} :: 0 <= i < |ms| ==> Moves(c, ws[i], ms[i], ws[i + 1])
  }

  /** Move `j` is some badge sealing `msg` under `n` as `bytes`. */
  predicate SealedAt(
      c: Cipher, ws: seq<seq<Badge>>, ms: seq<Move>, j: nat, n: Nonce, msg: seq<byte>, bytes: seq<byte>)
  {
    && j < |ms| && j < |ws| && ms[j].who < |ws[j]|
    && var o := Apply(c, ws[j][ms[j].who], ms[j].event);
       o.Next? && o.reply == Some(Reply(n, msg, bytes))
  }

  predicate Scans(e: Event, bytes: seq<byte>) { e.Qr? && e.bytes == Some(bytes) }

  /** Ideal encryption: scanned bytes open under a nonce only if a badge sealed them so, earlier in the run. */
  ghost predicate Unforgeable(c: Cipher, ws: seq<seq<Badge>>, ms: seq<Move>) {
    forall i, n, bytes :: 0 <= i < |ms| && Scans(ms[i].event, bytes) && c.open(n, bytes).Some? ==>
      exists j :: 0 <= j < i && SealedAt(c, ws, ms, j, n, c.open(n, bytes).value, bytes)
  }

  lemma {:induction false} SameBadges(c: Cipher, ws: seq<seq<Badge>>, ms: seq<Move>, i: nat)
    requires Trace(c, ws, ms) && i < |ws|
    ensures |ws[i]| == |ws[0]|
  {
    if i > 0 {
      SameBadges(c, ws, ms, i - 1);
      assert Moves(c, ws[i - 1], ms[i - 1], ws[i]);
    }
  }

  ghost predicate Present(ws: seq<seq<Badge>>, r: nat, i: nat) { forall k :: 0 <= k <= i && k < |ws| ==> r < |ws[k]| }

  /** The rate of badge `r` before move `i`: what was set last, unless a scan has put it back since. */
  ghost function RateAt(ws: seq<seq<Badge>>, ms: seq<Move>, r: nat, i: nat): MutationRate
    requires i <= |ms| < |ws| && Present(ws, r, i)
  {
    if i == 0 then ws[0][r].rate
    else
      var b, m := ws[i - 1][r], ms[i - 1];
      if m.who != r then RateAt(ws, ms, r, i - 1)
      else if m.event.SetRate? then m.event.newRate
      else if m.event.AbortQr? || (m.event.Qr? && !CutShort(b, m.event)) then Baseline
      else RateAt(ws, ms, r, i - 1)
  }

  /** The rate that badge `r` had when it last showed a key before move `i`; the one it started with, if it has not. */
  ghost function LockedAt(ws: seq<seq<Badge>>, ms: seq<Move>, r: nat, i: nat): MutationRate
    requires i <= |ms| < |ws| && Present(ws, r, i)
  {
    if i == 0 then ws[0][r].finalRate
    else if ms[i - 1].who == r && ShowsKey(ws[i - 1][r], ms[i - 1].event) then RateAt(ws, ms, r, i - 1)
    else LockedAt(ws, ms, r, i - 1)
  }

  /** Over every run, these are the rates of every badge. */
  lemma {:induction false} RunKnowsRates(c: Cipher, ws: seq<seq<Badge>>, ms: seq<Move>, r: nat, i: nat)
    requires Trace(c, ws, ms) && i <= |ms| && r < |ws[0]|
    ensures Present(ws, r, i)
    ensures ws[i][r].rate == RateAt(ws, ms, r, i) && ws[i][r].finalRate == LockedAt(ws, ms, r, i)
  {
    forall k | 0 <= k <= i ensures r < |ws[k]| {
      SameBadges(c, ws, ms, k);
    }
    if i > 0 {
      RunKnowsRates(c, ws, ms, r, i - 1);
      assert Moves(c, ws[i - 1], ms[i - 1], ws[i]);
      if ms[i - 1].who == r {
        RateLife(c, ws[i - 1][r], ms[i - 1].event);
      }
    }
  }

  /** What a badge with gene `d` gives away: a mutation, at its locked rate, of a gamete of its gene. */
  function Given(d: Diploid, locked: MutationRate, draws: Draws): Haploid {
    Mutated(Meiosis(d, draws.parents), locked, draws.rolls)
  }

  /** The rate among badges of one type: the locked one, but at least elevated for humans and baseline for others. */
  function AmongOwn(kind: BadgeType, locked: MutationRate): MutationRate {
    if kind == Human && (locked == NoMutation || locked == Baseline) then Elevated
    else if locked == NoMutation then Baseline
    else locked
  }

  /**
   Both halves of a new pair, exactly: among badges of different types the donor's gamete as it came
   and a gamete of one's own mutated at the locked rate; among badges of one type both mutated, at the
   rate for that.
   */
  lemma OffspringIs(d: Diploid, kind: BadgeType, locked: MutationRate, h: Haploid, t: BadgeType, draws: Draws)
    ensures var own := Meiosis(d, draws.parents);
            Offspring(d, kind, locked, h, t, draws) ==
            if t == kind
            then Diploid(Mutated(own, AmongOwn(kind, locked), draws.rolls),
                         Mutated(h, AmongOwn(kind, locked), draws.spermRolls))
            else Diploid(Mutated(own, locked, draws.rolls), h)
  {
  }

  /**
   Whenever badge `r` replaces its gene at move `i`, an earlier move `j` is a donor answering a key
   that carried the very nonce `r` now holds, and the new pair is formed from the gamete and the
   badge type the donor drew and held at `j`, each side's gamete mutated at the rate it locked when it
   last showed a key.
   */
  lemma MatingSafety(c: Cipher, ws: seq<seq<Badge>>, ms: seq<Move>, i: nat) returns (j: nat)
    requires Trace(c, ws, ms) && Unforgeable(c, ws, ms) && i < |ms|
    requires Mates(c, ws[i][ms[i].who], ms[i].event)
    ensures j < i && Moves(c, ws[j], ms[j], ws[j + 1])
    ensures var r, donor := ws[i][ms[i].who], ws[j][ms[j].who];
            && Answers(donor, ms[j].event) && Some(NonceInKey(ms[j].event.bytes.value)) == r.nonce
            && donor.genes.cache.Some? && r.genes.cache.Some?
            && Present(ws, ms[i].who, i) && Present(ws, ms[j].who, j)
            && var h := Given(donor.genes.cache.value, LockedAt(ws, ms, ms[j].who, j), ms[j].event.draws);
               var locked := LockedAt(ws, ms, ms[i].who, i);
               var child := Some(Offspring(r.genes.cache.value, r.kind, locked, h, donor.kind, ms[i].event.draws));
               ws[i + 1][ms[i].who].genes == Genes(child, r.genes.cache, r.genes.stored, child)
  {
    var r, e := ws[i][ms[i].who], ms[i].event;
    var n, bytes := r.nonce.value, e.bytes.value;
    assert Moves(c, ws[i], ms[i], ws[i + 1]);
    assert Scans(e, bytes);
    var msg := c.open(n, bytes).value;
    j :| 0 <= j < i && SealedAt(c, ws, ms, j, n, msg, bytes);
    assert Moves(c, ws[j], ms[j], ws[j + 1]);
    var donor := ws[j][ms[j].who];
    AnswerCarries(c, donor, ms[j].event);
    MatingForms(c, r, e);
    PaddedRoundTrip(Gamete(donor.genes.cache.value, donor.finalRate, ms[j].event.draws), donor.kind);
    SameBadges(c, ws, ms, i);
    SameBadges(c, ws, ms, j);
    RunKnowsRates(c, ws, ms, ms[i].who, i);
    RunKnowsRates(c, ws, ms, ms[j].who, j);
  }

  /**
   A code changes a copy of the gene only if some badge sealed it, earlier, under the nonce the
   recipient holds now.
   */
  lemma OtherNoncesAreInert(c: Cipher, ws: seq<seq<Badge>>, ms: seq<Move>, i: nat)
    requires Trace(c, ws, ms) && Unforgeable(c, ws, ms) && i < |ms| && ms[i].event.Qr?
    ensures var r, e := ws[i][ms[i].who], ms[i].event;
            ws[i + 1][ms[i].who].genes != r.genes ==>
              r.nonce.Some? && e.bytes.Some?
              && exists j, msg :: 0 <= j < i && SealedAt(c, ws, ms, j, r.nonce.value, msg, e.bytes.value)
  {
    var r, e := ws[i][ms[i].who], ms[i].event;
    if Mates(c, r, e) {
      assert Scans(e, e.bytes.value);
    } else {
      GenesChangeOnlyBy(c, r, e);
    }
  }

  predicate OptionConforms(d: Option<Diploid>) { d.Some? ==> BothConform(d.value) }

  predicate GenesConform(g: Genes) {
    OptionConforms(g.cache) && OptionConforms(g.prior) && OptionConforms(g.stored) && OptionConforms(g.led)
  }

  predicate AllConform(w: seq<Badge>) { forall k :: 0 <= k < |w| ==> GenesConform(w[k].genes) }

  lemma OffspringConforms(d: Diploid, kind: BadgeType, rate: MutationRate, h: Haploid, t: BadgeType, draws: Draws)
    requires BothConform(d) && Conforms(h)
    ensures BothConform(Offspring(d, kind, rate, h, t, draws))
  {
    var own := Meiosis(d, draws.parents);
    var rate' := if t == kind then MaxRate(InbreedingRate(kind, rate), rate) else rate;
    GametesConform(d, draws.parents, rate', draws.rolls);
  }

  lemma StepConforms(c: Cipher, b: Badge, e: Event)
    requires Apply(c, b, e).Next? && GenesConform(b.genes)
    requires Mates(c, b, e) ==>
               var msg := c.open(b.nonce.value, e.bytes.value).value;
               |msg| >= PADDED && Conforms(OpenPadded(msg).0)
    ensures GenesConform(Apply(c, b, e).badge.genes)
  {
    if Mates(c, b, e) {
      MatingForms(c, b, e);
      var (h, t) := OpenPadded(c.open(b.nonce.value, e.bytes.value).value);
      OffspringConforms(b.genes.cache.value, b.kind, b.finalRate, h, t, e.draws);
    } else if !e.KeepGene? && !e.RevertGene? && !e.LedRefresh? {
      GenesChangeOnlyBy(c, b, e);
    }
  }

  lemma SealedConforms(
      c: Cipher, ws: seq<seq<Badge>>, ms: seq<Move>, j: nat, n: Nonce, msg: seq<byte>, bytes: seq<byte>)
    requires SealedAt(c, ws, ms, j, n, msg, bytes) && AllConform(ws[j])
    ensures |msg| >= PADDED && Conforms(OpenPadded(msg).0)
  {
    var donor := ws[j][ms[j].who];
    AnswerCarries(c, donor, ms[j].event);
    PaddedRoundTrip(Gamete(donor.genes.cache.value, donor.finalRate, ms[j].event.draws), donor.kind);
  }

  /** From conforming founders, every gene of every badge keeps its period at most 6, over every run. */
  lemma {:induction false} RunConforms(c: Cipher, ws: seq<seq<Badge>>, ms: seq<Move>, i: nat)
    requires Trace(c, ws, ms) && Unforgeable(c, ws, ms) && i < |ws|
    requires AllConform(ws[0])
    ensures AllConform(ws[i])
  {
    if i > 0 {
      RunConforms(c, ws, ms, i - 1);
      var r, e := ws[i - 1][ms[i - 1].who], ms[i - 1].event;
      if Mates(c, r, e) {
        var n, bytes := r.nonce.value, e.bytes.value;
        assert Scans(e, bytes);
        var msg := c.open(n, bytes).value;
        var j :| 0 <= j < i - 1 && SealedAt(c, ws, ms, j, n, msg, bytes);
        RunConforms(c, ws, ms, j);
        SealedConforms(c, ws, ms, j, n, msg, bytes);
      }
      StepConforms(c, r, e);
    }
  }

  /** A badge as it leaves the factory, or as it boots with a gene it was given there. */
  predicate IsFounder(b: Badge) {
    && b.genes.prior.None? && b.genes.cache == b.genes.stored == b.genes.led
    && (b.genes.cache.Some? ==> Founder(b.kind, b.genes.cache.value))
  }

  /** The same from badges whose genes were drawn for their types. */
  lemma RunFromFounders(c: Cipher, ws: seq<seq<Badge>>, ms: seq<Move>, i: nat)
    requires Trace(c, ws, ms) && Unforgeable(c, ws, ms) && i < |ws|
    requires forall k :: 0 <= k < |ws[0]| ==> IsFounder(ws[0][k])
    ensures AllConform(ws[i])
  {
    RunConforms(c, ws, ms, i);
  }

  /** Every badge's copies agree throughout a run in which no event strays. */
  lemma {:induction false} RunAgrees(c: Cipher, ws: seq<seq<Badge>>, ms: seq<Move>, i: nat)
    requires Trace(c, ws, ms) && i < |ws|
    requires forall k :: 0 <= k < |ws[0]| ==> Agrees(ws[0][k])
    requires forall j :: 0 <= j < i ==> !Strays(ws[j][ms[j].who], ms[j].event)
    ensures forall k :: 0 <= k < |ws[i]| ==> Agrees(ws[i][k])
  {
    if i > 0 {
      RunAgrees(c, ws, ms, i - 1);
      assert Moves(c, ws[i - 1], ms[i - 1], ws[i]);
      StepAgreesIff(c, ws[i - 1][ms[i - 1].who], ms[i - 1].event);
    }
  }

  /** While badge `r` stays in confirmation after mating at move `i`, its genes stay as the mating left them. */
  lemma {:induction false} ConfirmationHolds(c: Cipher, ws: seq<seq<Badge>>, ms: seq<Move>, i: nat, k: nat)
    requires Trace(c, ws, ms) && i < k < |ws|
    requires Mates(c, ws[i][ms[i].who], ms[i].event)
    requires forall j :: i < j <= k ==> ms[i].who < |ws[j]| && ws[j][ms[i].who].mode == ConfirmGene
    ensures ws[k][ms[i].who].genes == ws[i + 1][ms[i].who].genes
  {
    var r := ms[i].who;
    assert Moves(c, ws[i], ms[i], ws[i + 1]);
    if k > i + 1 {
      ConfirmationHolds(c, ws, ms, i, k - 1);
      MatingForms(c, ws[i][r], ms[i].event);
      assert Moves(c, ws[k - 1], ms[k - 1], ws[k]);
      if ms[k - 1].who == r && !ms[k - 1].event.LedRefresh? {
        GenesChangeOnlyBy(c, ws[k - 1][r], ms[k - 1].event);
      }
    }
  }

  /**
   From a badge whose copies agree: however long the user takes, reverting brings back everywhere the
   gene from before the mating, and keeping stores exactly the gene the LEDs have been showing.
   */
  lemma RevertRestoresKeepPersists(c: Cipher, ws: seq<seq<Badge>>, ms: seq<Move>, i: nat, k: nat)
    requires Trace(c, ws, ms) && i < k < |ms|
    requires Mates(c, ws[i][ms[i].who], ms[i].event) && Agrees(ws[i][ms[i].who])
    requires forall j :: i < j <= k ==> ms[i].who < |ws[j]| && ws[j][ms[i].who].mode == ConfirmGene
    requires ms[k].who == ms[i].who
    ensures ms[k].event.RevertGene? ==>
              ws[k + 1][ms[i].who].genes == ws[i][ms[i].who].genes.(prior := None)
    ensures ms[k].event.KeepGene? ==>
              var g := ws[k + 1][ms[i].who].genes;
              g.stored == g.cache == g.led == ws[i + 1][ms[i].who].genes.led
  {
    ConfirmationHolds(c, ws, ms, i, k);
    assert Moves(c, ws[i], ms[i], ws[i + 1]);
    assert Moves(c, ws[k], ms[k], ws[k + 1]);
    MatingForms(c, ws[i][ms[i].who], ms[i].event);
  }

  /**
   The exchange end to end: `a` holds nonce `n` and `b` scans its key. When `a` scans the answer it
   mates with exactly the gamete `b` drew, unless the sealed bytes happen to begin with the protocol
   header; then, and only then, `a` takes the answer for a key and keeps its gene.
   */
  lemma ExchangeCompletesIff(c: Cipher, a: Badge, b: Badge, n: Nonce, da: Draws, db: Draws)
    requires forall msg :: c.open(n, c.seal(n, msg)) == Some(msg) && |c.seal(n, msg)| == |msg| + 16
    requires Receptive(a.mode) && a.nonce == Some(n) && a.genes.cache.Some?
    requires Receptive(b.mode) && b.genes.cache.Some?
    requires FirstAcceptable(a.nonce, da.nonces).Some? && FirstAcceptable(b.nonce, db.nonces).Some?
    ensures var key := Qr(Some(Header() + n), NoUrl, db);
            && Apply(c, b, key).Next? && Apply(c, b, key).reply.Some?
            && var answer := Apply(c, b, key).reply.value.bytes;
               var after := Apply(c, a, Qr(Some(answer), NoUrl, da));
               && after.Next?
               && (after.badge.mode == ConfirmGene <==> answer[..HEADER_SIZE] != Header())
               && after.badge.genes ==
                    if answer[..HEADER_SIZE] == Header() then a.genes
                    else
                      var h := Gamete(b.genes.cache.value, b.finalRate, db);
                      Render(a.genes.(prior := a.genes.cache,
                             cache := Some(Offspring(a.genes.cache.value, a.kind, a.finalRate, h, b.kind, da))))
  {
    var bytes := Header() + n;
    assert bytes[..HEADER_SIZE] == Header() && bytes[HEADER_SIZE..KEY_SIZE] == n;
    var key := Qr(Some(bytes), NoUrl, db);
    assert Answers(b, key);
    AnswerCarries(c, b, key);
    var h := Gamete(b.genes.cache.value, b.finalRate, db);
    PaddedRoundTrip(h, b.kind);
    var msg := Padded(h, b.kind);
    assert c.open(n, c.seal(n, msg)) == Some(msg);
  }

  // ---- what the nonce does not prevent ----

  /** Bytes open under one nonce at most. */
  ghost predicate BindsNonce(c: Cipher) {
    forall n, n', bytes :: c.open(n, bytes).Some? && c.open(n', bytes).Some? ==> n == n'
  }

  /**
   An answer that mated once mates again, for the same or another badge, exactly while that badge
   holds the same nonce and is receptive.
   */
  lemma RescanMatesIff(c: Cipher, b: Badge, later: Badge, e: Event, again: Event)
    requires BindsNonce(c) && Mates(c, b, e) && again.Qr? && again.bytes == e.bytes
    ensures Mates(c, later, again) <==> Receptive(later.mode) && later.nonce == b.nonce
  {
    if later.nonce.Some? && c.open(later.nonce.value, e.bytes.value).Some? {
      assert later.nonce.value == b.nonce.value;
    }
  }

  /** Does not touch the badge's nonce: neither shows a key, nor answers one, nor dismisses an answer. */
  predicate SparesNonce(b: Badge, e: Event) {
    !Answers(b, e) && !(e.KeyPress? && ((b.mode.Idle? && e.key.Arrow?) || b.mode.ResponseGene?))
  }

  /**
   In any run, as long as `r` does nothing that touches its nonce after mating at move `i`, scanning
   the same answer mates again.
   */
  lemma AnswerMatesAgain(c: Cipher, ws: seq<seq<Badge>>, ms: seq<Move>, i: nat, k: nat)
    requires BindsNonce(c) && Trace(c, ws, ms) && i < k < |ms| && ms[k].who == ms[i].who
    requires Mates(c, ws[i][ms[i].who], ms[i].event)
    requires forall j :: i < j < k && ms[j].who == ms[i].who ==> SparesNonce(ws[j][ms[j].who], ms[j].event)
    requires ms[k].event.Qr? && ms[k].event.bytes == ms[i].event.bytes && Receptive(ws[k][ms[k].who].mode)
    ensures Mates(c, ws[k][ms[k].who], ms[k].event)
  {
    NonceHeld(c, ws, ms, i, k);
    RescanMatesIff(c, ws[i][ms[i].who], ws[k][ms[k].who], ms[i].event, ms[k].event);
  }

  lemma {:induction false} NonceHeld(c: Cipher, ws: seq<seq<Badge>>, ms: seq<Move>, i: nat, k: nat)
    requires Trace(c, ws, ms) && i < k <= |ms| && Mates(c, ws[i][ms[i].who], ms[i].event)
    requires forall j :: i < j < k && ms[j].who == ms[i].who ==> SparesNonce(ws[j][ms[j].who], ms[j].event)
    ensures ms[i].who < |ws[k]| && ws[k][ms[i].who].nonce == ws[i][ms[i].who].nonce
  {
    var m := ms[k - 1];
    assert Moves(c, ws[k - 1], m, ws[k]);
    if k > i + 1 {
      NonceHeld(c, ws, ms, i, k - 1);
    }
    NonceStays(c, ws[k - 1], m, ws[k], ms[i].who);
  }

  lemma NonceStays(c: Cipher, w: seq<Badge>, m: Move, after: seq<Badge>, r: nat)
    requires Moves(c, w, m, after) && r < |w| && (m.who == r ==> SparesNonce(w[r], m.event))
    ensures r < |after| && after[r].nonce == w[r].nonce
  {
    if m.who == r {
      NonceLife(c, w[r], m.event);
    }
  }

  // ---- a run that strays ----

  const ZEROS: seq<byte> := [0, 0, 0, 0]

  /** A stand-in for the cipher that tags what it seals with the nonce and four zeros. */
  function TaggingCipher(): Cipher {
    Cipher((n: Nonce, msg: seq<byte>) => n + ZEROS + msg,
           (n: Nonce, bytes: seq<byte>) =>
             if |bytes| >= 16 && bytes[..12] == n && bytes[12..16] == ZEROS then Some(bytes[16..]) else None)
  }

  lemma TaggingOpens(n: Nonce, msg: seq<byte>)
    ensures var bytes := TaggingCipher().seal(n, msg);
            && TaggingCipher().open(n, bytes) == Some(msg) && |bytes| == |msg| + 16
            && bytes[..HEADER_SIZE] != Header()
            && forall n': Nonce :: TaggingCipher().open(n', bytes).Some? ==> n' == n
  {
    var bytes := n + ZEROS + msg;
    assert bytes[..12] == n && bytes[12..16] == ZEROS && bytes[16..] == msg;
    assert bytes[..16][12] == 0 && Header()[12] == 0xcb;
  }

  lemma KeysDoNotOpen(n: Nonce, shown: Nonce)
    ensures TaggingCipher().open(n, Header() + shown).None?
  {
    var bytes := Header() + shown;
    assert bytes[12..16][0] == 0xcb;
  }

  function Plain(sat: byte): Haploid { Haploid(0, 0, 0, sat, 0, 0, 0, 0, 0) }

  function Scanner(sat: byte, nonce: Option<Nonce>, kind: BadgeType): Badge {
    var gene := Some(Diploid(Plain(sat), Plain(sat)));
    Badge(GeneScan, Genes(gene, None, gene, gene), nonce, kind, Baseline, Baseline, true)
  }

  function QuietDraws(nonce: Nonce): Draws {
    var none := Rolls(None, None, None, None, None, None, None, None, None);
    Draws([nonce], Parents(false, false, false, false, false), none, none)
  }

  function SameBytes(b: byte): Nonce { [b, b, b, b, b, b, b, b, b, b, b, b] }

  lemma FreshOnes()
    ensures FirstAcceptable(None, [SameBytes(1)]) == Some(SameBytes(1))
  {
    assert Header()[..12][0] == 0x49 && SameBytes(1)[0] == 1;
  }

  /** Whenever `a` mates with another gene than its own and its scan for more ends without data, its copies disagree. */
  lemma AbortAfterMating(c: Cipher, a: Badge, b: Badge, key: Event, scan: Event)
    returns (ws: seq<seq<Badge>>, ms: seq<Move>)
    requires Agrees(a) && a.attached && Apply(c, b, key).Next?
    requires Mates(c, a, scan) && Apply(c, a, scan).Next? && Apply(c, a, scan).badge.genes.cache != a.genes.cache
    ensures ms == [Move(1, key), Move(0, scan), Move(0, AbortQr)]
    ensures Trace(c, ws, ms) && ws[0] == [a, b] && forall k :: 0 <= k < 4 ==> |ws[k]| == 2
    ensures Mates(c, ws[1][0], ms[1].event) && Agrees(ws[2][0])
    ensures Strays(ws[2][0], AbortQr) && !Agrees(ws[3][0]) && ws[3][0].genes.cache != ws[3][0].genes.stored
  {
    var answered := Apply(c, b, key).badge;
    var mated := Apply(c, a, scan).badge;
    var left := Apply(c, mated, AbortQr).badge;
    ws := [[a, b], [a, answered], [mated, answered], [left, answered]];
    ms := [Move(1, key), Move(0, scan), Move(0, AbortQr)];
    assert Moves(c, ws[0], ms[0], ws[1]) && Moves(c, ws[1], ms[1], ws[2]) && Moves(c, ws[2], ms[2], ws[3]);
    MatingForms(c, a, scan);
    StepAgreesIff(c, a, scan);
    StepAgreesIff(c, mated, AbortQr);
  }

  lemma AnswerMates(a: Badge, n: Nonce, draws: Draws)
    requires a == Scanner(0, Some(n), Human) && draws == QuietDraws(SameBytes(1))
    ensures var c := TaggingCipher();
            var scan := Qr(Some(c.seal(n, Padded(Plain(1), Goon))), NoUrl, draws);
            && Mates(c, a, scan) && Apply(c, a, scan).Next?
            && Apply(c, a, scan).badge.genes.cache != a.genes.cache
  {
    TaggingOpens(n, Padded(Plain(1), Goon));
    PaddedRoundTrip(Plain(1), Goon);
    DonorGameteKeptIff(a.genes.cache.value, Human, Baseline, Plain(1), Goon, draws);
    MatingForms(TaggingCipher(), a, Qr(Some(TaggingCipher().seal(n, Padded(Plain(1), Goon))), NoUrl, draws));
  }

  /** What the goon's badge seals, and that it opens. */
  lemma SentAnswer(b: Badge, n: Nonce, draws: Draws)
    requires b == Scanner(1, None, Goon) && draws == QuietDraws(SameBytes(1))
    ensures var c := TaggingCipher();
            var key := Qr(Some(Header() + n), NoUrl, draws);
            var msg := Padded(Plain(1), Goon);
            && Apply(c, b, key).Next? && Apply(c, b, key).reply == Some(Reply(n, msg, c.seal(n, msg)))
  {
    var bytes := Header() + n;
    assert bytes[..HEADER_SIZE] == Header() && bytes[HEADER_SIZE..KEY_SIZE] == n;
    FreshOnes();
    AnswerCarries(TaggingCipher(), b, Qr(Some(bytes), NoUrl, draws));
  }

  /**
   Such a run is not forged, for a cipher under which keys do not open and the answer opens under its
   own nonce only.
   */
  lemma StrayRun(c: Cipher, a: Badge, b: Badge, ask: Event, scan: Event, key: seq<byte>, n: Nonce, msg: seq<byte>)
    returns (ws: seq<seq<Badge>>, ms: seq<Move>)
    requires Scans(ask, key) && Apply(c, b, ask).Next?
    requires Apply(c, b, ask).reply == Some(Reply(n, msg, c.seal(n, msg))) && Scans(scan, c.seal(n, msg))
    requires Mates(c, a, scan) && Apply(c, a, scan).Next? && Apply(c, a, scan).badge.genes.cache != a.genes.cache
    requires Agrees(a) && a.attached
    requires forall n' :: c.open(n', key).None?
    requires forall n' :: c.open(n', c.seal(n, msg)).Some? ==> n' == n && c.open(n, c.seal(n, msg)) == Some(msg)
    ensures Trace(c, ws, ms) && Unforgeable(c, ws, ms) && |ms| == 3 && ms[2] == Move(0, AbortQr)
    ensures ws[0] == [a, b] && forall k :: 0 <= k < 4 ==> |ws[k]| == 2
    ensures Mates(c, ws[1][0], ms[1].event) && Agrees(ws[2][0])
    ensures Strays(ws[2][0], AbortQr) && !Agrees(ws[3][0]) && ws[3][0].genes.cache != ws[3][0].genes.stored
  {
    ws, ms := AbortAfterMating(c, a, b, ask, scan);
    FirstSeals(c, ws, ms, b, Reply(n, msg, c.seal(n, msg)));
    OneSealIsUnforged(c, ws, ms, key, n, msg);
  }

  lemma FirstSeals(c: Cipher, ws: seq<seq<Badge>>, ms: seq<Move>, b: Badge, r: Reply)
    requires |ws| > 0 && |ms| > 0 && ms[0].who < |ws[0]| && ws[0][ms[0].who] == b
    requires Apply(c, b, ms[0].event).Next? && Apply(c, b, ms[0].event).reply == Some(r)
    ensures SealedAt(c, ws, ms, 0, r.nonce, r.msg, r.bytes)
  {
  }

  lemma OneSealIsUnforged(c: Cipher, ws: seq<seq<Badge>>, ms: seq<Move>, key: seq<byte>, n: Nonce, msg: seq<byte>)
    requires |ms| == 3 && Scans(ms[0].event, key) && Scans(ms[1].event, c.seal(n, msg)) && !ms[2].event.Qr?
    requires SealedAt(c, ws, ms, 0, n, msg, c.seal(n, msg))
    requires forall n' :: c.open(n', key).None?
    requires forall n' :: c.open(n', c.seal(n, msg)).Some? ==> n' == n && c.open(n, c.seal(n, msg)) == Some(msg)
    ensures Unforgeable(c, ws, ms)
  {
    forall i, n', bytes | 0 <= i < |ms| && Scans(ms[i].event, bytes) && c.open(n', bytes).Some?
      ensures exists j :: 0 <= j < i && SealedAt(c, ws, ms, j, n', c.open(n', bytes).value, bytes)
    {
      if i == 1 {
        assert SealedAt(c, ws, ms, 0, n', c.open(n', bytes).value, bytes);
      }
    }
  }

  /**
   A human's badge scans a goon's answer, and while it asks its user, a scan ends without data: the new
   gene stays in use, and storage still has the old one. Everything before that was as it should be,
   the encryption included.
   */
  lemma StrayHappens() returns (c: Cipher, ws: seq<seq<Badge>>, ms: seq<Move>)
    ensures Trace(c, ws, ms) && Unforgeable(c, ws, ms) && |ms| == 3 && ms[2] == Move(0, AbortQr)
    ensures forall k :: 0 <= k < 4 ==> |ws[k]| == 2
    ensures Agrees(ws[0][0]) && Agrees(ws[0][1]) && Mates(c, ws[1][0], ms[1].event) && Agrees(ws[2][0])
    ensures Strays(ws[2][0], AbortQr) && !Agrees(ws[3][0]) && ws[3][0].genes.cache != ws[3][0].genes.stored
  {
    c := TaggingCipher();
    var n, draws, msg := SameBytes(0), QuietDraws(SameBytes(1)), Padded(Plain(1), Goon);
    var a, b := Scanner(0, Some(n), Human), Scanner(1, None, Goon);
    SentAnswer(b, n, draws);
    AnswerMates(a, n, draws);
    TaggingOpens(n, msg);
    forall n': Nonce {
      KeysDoNotOpen(n', n);
    }
    var key := Header() + n;
    ws, ms := StrayRun(c, a, b, Qr(Some(key), NoUrl, draws), Qr(Some(c.seal(n, msg)), NoUrl, draws), key, n, msg);
  }

  // ---- the badge's own process ----

  /** How a handler ended: it ran to its end, it panicked, or it is still looking for a nonce. */
  datatype Fate = Finished | Panicked | StillDrawing

  /** The shared configuration and the vault's mode, updated by the handlers of the main loop. */
  class BadgeVault {
    const badgeType: BadgeType
    const attached: bool
    var mode: Mode
    var geneCache: Option<Diploid>
    var priorGene: Option<Diploid>
    var storedGene: Option<Diploid>
    var ledGene: Option<Diploid>
    var nonceMine: Option<Nonce>
    var mutationRate: MutationRate
    var finalRate: MutationRate

    ghost function State(): Badge
      reads this
    {
      Badge(mode, Genes(geneCache, priorGene, storedGene, ledGene), nonceMine, badgeType, mutationRate, finalRate,
            attached)
    }

    constructor (kind: BadgeType, onBadge: bool, stored: Option<Diploid>, initialMode: Mode)
      requires !initialMode.ConfirmGene?
      ensures var genes := Genes(stored, None, stored, stored);
              State() == Badge(initialMode, genes, None, kind, Baseline, Baseline, onBadge)
      ensures Agrees(State())
    {
      badgeType, attached, mode := kind, onBadge, initialMode;
      geneCache, priorGene, storedGene, ledGene := stored, None, stored, stored;
      nonceMine, mutationRate, finalRate := None, Baseline, Baseline;
    }

    /** `generate_my_nonce`: draw until a nonce is neither the header's beginning nor the previous one. */
    method GenerateMyNonce(draws: seq<Nonce>) returns (done: bool)
      modifies this`nonceMine
      ensures done <==> FirstAcceptable(old(nonceMine), draws).Some?
      ensures nonceMine == if done then FirstAcceptable(old(nonceMine), draws) else old(nonceMine)
    {
      var i := 0;
      while i < |draws|
        invariant 0 <= i <= |draws|
        invariant nonceMine == old(nonceMine)
        invariant FirstAcceptable(nonceMine, draws) == FirstAcceptable(nonceMine, draws[i..])
      {
        var nonce := draws[i];
        i := i + 1;
        if nonce == Header()[..12] { continue; }
        if nonceMine.Some? {
          if nonceMine.value != nonce {
            nonceMine := Some(nonce);
            return true;
          }
        } else {
          nonceMine := Some(nonce);
          return true;
        }
      }
      return false;
    }

    method GetPaddedGamete(draws: Draws) returns (msg: Option<seq<byte>>)
      ensures msg == if geneCache.None? then None
                     else Some(Padded(Gamete(geneCache.value, finalRate, draws), badgeType))
    {
      if geneCache.None? { return None; }
      var gamete := Mutate(Meiosis(geneCache.value, draws.parents), finalRate, draws.rolls);
      return Some(Padded(gamete, badgeType));
    }

    method GetEgg(rate: Option<MutationRate>, draws: Draws) returns (egg: Option<Haploid>)
      ensures egg == if geneCache.None? then None
                     else Some(Gamete(geneCache.value, MaxRate(rate.UnwrapOr(finalRate), finalRate), draws))
    {
      if geneCache.None? { return None; }
      var larger := MaxRate(rate.UnwrapOr(finalRate), finalRate);
      var gamete := Mutate(Meiosis(geneCache.value, draws.parents), larger, draws.rolls);
      return Some(gamete);
    }

    method ReplaceGene(egg: Haploid, sperm: Haploid)
      modifies this`geneCache, this`priorGene
      ensures State().genes == Replace(old(State()).genes, egg, sperm)
    {
      priorGene := geneCache;
      geneCache := Some(Diploid(egg, sperm));
    }

    method RevertToPrior()
      modifies this`geneCache, this`priorGene
      ensures State().genes == Revert(old(State()).genes)
    {
      if priorGene.Some? {
        geneCache := priorGene;
        priorGene := None;
      }
    }

    method RenderGene()
      modifies this`ledGene
      ensures State().genes == Render(old(State()).genes)
    {
      if geneCache.Some? {
        ledGene := geneCache;
      }
    }

    /** The key shown to a mate: the header and a fresh nonce. */
    method NonceData(draws: seq<Nonce>) returns (key: Option<seq<byte>>)
      modifies this`nonceMine
      ensures key.Some? <==> FirstAcceptable(old(nonceMine), draws).Some?
      ensures key.Some? ==> nonceMine == FirstAcceptable(old(nonceMine), draws)
      ensures key.Some? ==>
                && |key.value| == KEY_SIZE && key.value[..HEADER_SIZE] == Header()
                && Some(NonceInKey(key.value)) == nonceMine
      ensures key.None? ==> nonceMine == old(nonceMine)
    {
      var done := GenerateMyNonce(draws);
      if !done { return None; }
      var bytes := Header() + nonceMine.value;
      assert bytes[HEADER_SIZE..KEY_SIZE] == nonceMine.value;
      return Some(bytes);
    }

    /** `HandleQr`. */
    method HandleScan(c: Cipher, bytes: Option<seq<byte>>, text: Text, draws: Draws)
      returns (fate: Fate, reply: Option<Reply>)
      modifies this
      ensures match HandleQr(c, old(State()), bytes, text, draws)
              case Next(b, r) => fate == Finished && State() == b && reply == r
              case Panic => fate == Panicked
              case Drawing => fate == StillDrawing && State() == old(State())
    {
      reply := None;
      if Receptive(mode) && bytes.Some? {
        var data := bytes.value;
        if |data| < HEADER_SIZE { return Panicked, None; }
        if data[..HEADER_SIZE] == Header() {
          if |data| < KEY_SIZE {
            mode := Idle;
            return Finished, None;
          }
          var theirs := data[HEADER_SIZE..KEY_SIZE];
          var done := GenerateMyNonce(draws.nonces);
          if !done { return StillDrawing, None; }
          var msg := GetPaddedGamete(draws);
          if msg.None? { return Panicked, None; }
          reply := Some(Reply(theirs, msg.value, c.seal(theirs, msg.value)));
          mode := ResponseGene;
        } else {
          if |data| < SEALED_SIZE || nonceMine.None? {
            mode := Idle;
            return Finished, None;
          }
          var unsealed := c.open(nonceMine.value, data);
          if unsealed.None? {
            mode := Idle;
          } else {
            if |unsealed.value| < PADDED { return Panicked, None; }
            var ok := Syngamy(OpenPadded(unsealed.value).0, OpenPadded(unsealed.value).1, draws);
            if !ok { return Panicked, None; }
            mode := ConfirmGene;
          }
        }
      } else {
        mode := TextMode(mode, text);
      }
      mutationRate := Baseline;
      fate := Finished;
    }

    /** Form and show the new pair; fails when the badge has no gene. */
    method Syngamy(gamete: Haploid, incoming: BadgeType, draws: Draws) returns (ok: bool)
      modifies this`geneCache, this`priorGene, this`ledGene
      ensures ok <==> old(geneCache).Some?
      ensures ok ==> var d := Offspring(old(geneCache).value, badgeType, finalRate, gamete, incoming, draws);
                     State().genes == Render(Replace(old(State()).genes, d.first, d.second))
    {
      var sperm := gamete;
      var rate: Option<MutationRate> := None;
      if incoming == badgeType {
        var elevated := InbreedingRate(badgeType, finalRate);
        sperm := Mutate(sperm, elevated, draws.spermRolls);
        rate := Some(elevated);
      }
      var egg := GetEgg(rate, draws);
      if egg.None? { return false; }
      ReplaceGene(egg.value, sperm);
      RenderGene();
      return true;
    }

    /** The handlers without QR data: `AbortQr`, `KeepGene`, `RevertGene`, redrawing the LEDs, and mode changes. */
    method HandleMenu(c: Cipher, e: Event)
      requires e.AbortQr? || e.KeepGene? || e.RevertGene? || e.LedRefresh? || e.GoIdle? || e.GoElsewhere? || e.SetRate?
      modifies this
      ensures Apply(c, old(State()), e) == Next(State(), None)
    {
      match e
      case AbortQr =>
        if attached { mode := Idle; }
        mutationRate := Baseline;
      case KeepGene =>
        if geneCache.Some? { storedGene := geneCache; }
        mode := Idle;
      case RevertGene =>
        RevertToPrior();
        RenderGene();
        mode := Idle;
      case LedRefresh => RenderGene();
      case SetRate(newRate) => mutationRate := newRate;
      case GoIdle => mode := Idle;
      case GoElsewhere => mode := OtherMode;
      case _ =>
    }

    /** `handle_key`, in the modes of the protocol. */
    method HandleProtocolKey(key: Key, nonces: seq<Nonce>) returns (fate: Fate, shown: Option<seq<byte>>)
      modifies this
      ensures match HandleKey(old(State()), key, nonces)
              case Next(b, _) => fate == Finished && State() == b
              case Panic => false
              case Drawing => fate == StillDrawing
      ensures shown.Some? <==> fate == Finished && old(mode).Idle? && key.Arrow?
      ensures shown.Some? ==>
                && |shown.value| == KEY_SIZE && shown.value[..HEADER_SIZE] == Header()
                && Some(NonceInKey(shown.value)) == nonceMine
    {
      fate, shown := Finished, None;
      match mode
      case Idle =>
        if key.Arrow? {
          finalRate := mutationRate;
          shown := NonceData(nonces);
          if shown.None? { return StillDrawing, None; }
          mode := ShowKey;
        } else if key.Fire? {
          mode := GeneScan;
        }
      case ShowKey => mode := if key.Fire? then GeneScan else Idle;
      case ResponseGene =>
        nonceMine := None;
        mode := Idle;
      case _ =>
    }
  }
}
