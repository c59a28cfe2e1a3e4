/** The identifier generator of generator.go: construction with
    validate-and-repair of its configuration, and one `GetNextID` call as a
    pure step over the generator's state.

    The clock is an input: `now` is the reading taken at the start of a call
    and `after` the reading stamped on the issued identifier. The outbound
    address lookup is an input too (`ip`, absent when the lookup fails), and
    the sleep on sequence rollover is returned as a duration instead of being
    performed. */
module IdGenerator {
  import opened GoInts
  import opened Results
  import opened IdLayout

  /** Default layout: 38 bits of interval count, 16 of machine id, 10 of
      sequence number, and a one-millisecond interval (generator.go:18-23). */
  const TIMEBIT: u16 := 38
  const MACHINEBIT: u16 := 16
  const SEQUENCEBIT: u16 := 10
  /** `time.Millisecond`, in nanoseconds. */
  const TIMEUNIT: i64 := 1_000_000

  /** Requested layout, machine identity and interval length in nanoseconds. */
  datatype IDConfig = IDConfig(
    timeBit: u16,
    machineBit: u16,
    sequenceBit: u16,
    machineID: u64,
    generationRate: i64)

  /** Generator state. `timeCounter` counts elapsed intervals,
      `sequenceNum` counts identifiers within them, `lastTimeStamp` is the
      clock reading at the start of the current interval. */
  datatype Generator = Generator(
    sequenceNum: u64,
    machineID: u64,
    timeCounter: u64,
    timeBit: u16,
    machineBit: u16,
    sequenceBit: u16,
    rate: i64,
    lastTimeStamp: i64)

  /** An issued identifier with the clock reading taken right after it was
      composed (used only for ordering downstream). */
  datatype ID = ID(idNum: u64, timestamp: i64)

  datatype GenError =
    | IdentityUnavailable  // the outbound address lookup failed
    | BitsInvalid          // a width of 64 or more, or widths summing past 64
    | ClockMovedBack       // the clock reads earlier than the last interval start
    | Expired              // the interval counter has used up its bits

  /** The configuration used when none is given; its machine id is the
      address-derived one. */
  function DefaultConfig(ip: u16): (c: IDConfig) {
    IDConfig(TIMEBIT, MACHINEBIT, SEQUENCEBIT, ip, TIMEUNIT)
  }

  /** The configuration construction works on: the caller's, or the default. */
  function Requested(config: Option<IDConfig>, ip: u16): (c: IDConfig) {
    if config.None? then DefaultConfig(ip) else config.value
  }

  /** The rejection check as the source evaluates it: the `uint16` sum is
      only reached once every width is below 64, so it never wraps. */
  predicate BitsRejected(c: IDConfig) {
    c.timeBit >= 64 || c.machineBit >= 64 || c.sequenceBit >= 64
    || WrapU16(c.timeBit + c.machineBit + c.sequenceBit) > 64
  }

  /** The layout constraint in plain arithmetic. */
  predicate WidthsOutOfRange(c: IDConfig) {
    c.timeBit >= 64 || c.machineBit >= 64 || c.sequenceBit >= 64
    || c.timeBit + c.machineBit + c.sequenceBit > 64
  }

  /** A template width as construction uses it: 0 stands for the default. */
  function RepairedWidth(w: nat, default: nat): (r: nat) {
    if w == 0 then default else w
  }

  /** Shape of every generator construction returns, kept by every call that
      issues an identifier: repaired widths, a positive interval, a sequence
      number within its field, and an interval count at most one past its
      field. */
  predicate Valid(g: Generator) {
    && 1 <= g.timeBit < 64
    && 1 <= g.sequenceBit < 64
    && g.machineBit < 64
    && g.rate > 0
    && g.sequenceNum < Pow2(g.sequenceBit)
    && g.timeCounter <= Pow2(g.timeBit)
  }

  /** `NewIDGenerator` (generator.go:73-137). The address lookup runs first
      and its failure aborts construction even when a configuration is
      given. The widths are validated raw, then each field is repaired on
      its own. */
  function NewIDGenerator(config: Option<IDConfig>, ip: Option<u16>, now: i64): (r: Result<Generator, GenError>)
    ensures r == Err(IdentityUnavailable) <==> ip.None?
    ensures r == Err(BitsInvalid) <==> ip.Some? && WidthsOutOfRange(Requested(config, ip.value))
    ensures r.Ok? <==> ip.Some? && !WidthsOutOfRange(Requested(config, ip.value))
    ensures r.Ok? ==> Valid(r.value)
    ensures r.Ok? ==> r.value.timeCounter == 0 && r.value.sequenceNum == 0 && r.value.lastTimeStamp == now
  {
    if ip.None? then Err(IdentityUnavailable)
    else
      var default := DefaultConfig(ip.value);
      var c := Requested(config, ip.value);
      if BitsRejected(c) then Err(BitsInvalid)
      else
        var machine :=
          if c.machineBit == 0 then (default.machineBit, c.machineID)
          else if c.machineID >= Shl(1, c.machineBit) then (0, default.machineID)
          else (c.machineBit, c.machineID);
        Ok(Generator(
          sequenceNum := 0,
          machineID := machine.1,
          timeCounter := 0,
          timeBit := if c.timeBit == 0 then default.timeBit else c.timeBit,
          machineBit := machine.0,
          sequenceBit := if c.sequenceBit == 0 then default.sequenceBit else c.sequenceBit,
          rate := if c.generationRate <= 0 then default.generationRate else c.generationRate,
          lastTimeStamp := now))
  }

  /** Each field of a constructed generator is repaired independently: a
      zero width or a non-positive interval takes the default, a zero
      machine width takes the default width but keeps the raw machine id
      unchecked, and an id that overflows a non-zero machine width is
      replaced by the address-derived id while the width stays 0. */
  lemma NewIDGeneratorRepairs(config: Option<IDConfig>, ip: u16, now: i64)
    requires NewIDGenerator(config, Some(ip), now).Ok?
    ensures var g, c := NewIDGenerator(config, Some(ip), now).value, Requested(config, ip);
      && (c.timeBit == 0 ==> g.timeBit == TIMEBIT) && (c.timeBit != 0 ==> g.timeBit == c.timeBit)
      && (c.sequenceBit == 0 ==> g.sequenceBit == SEQUENCEBIT) && (c.sequenceBit != 0 ==> g.sequenceBit == c.sequenceBit)
      && (c.generationRate <= 0 ==> g.rate == TIMEUNIT) && (c.generationRate > 0 ==> g.rate == c.generationRate)
      && (c.machineBit == 0 ==> g.machineBit == MACHINEBIT && g.machineID == c.machineID)
      && (c.machineBit > 0 && c.machineID >= Pow2(c.machineBit) ==> g.machineBit == 0 && g.machineID == ip)
      && (c.machineBit > 0 && c.machineID < Pow2(c.machineBit) ==> g.machineBit == c.machineBit && g.machineID == c.machineID)
  {
    var c := Requested(config, ip);
    if c.machineBit > 0 {
      ShlOne(c.machineBit);
    }
  }

  /** The constructions exercised by generator_test.go:21-63: a full 38/16/10
      configuration is taken as given, all-zero widths become 38/16/10,
      40/16/10 is rejected and 15/5/8 is accepted. */
  lemma NewIDGeneratorExamples(ip: u16, now: i64)
    ensures var c := IDConfig(38, 16, 10, 1, 1_000_000_000);
      NewIDGenerator(Some(c), Some(ip), now) == Ok(Generator(0, 1, 0, 38, 16, 10, 1_000_000_000, now))
    ensures var c := IDConfig(0, 0, 0, 1, 1_000_000_000);
      NewIDGenerator(Some(c), Some(ip), now) == Ok(Generator(0, 1, 0, 38, 16, 10, 1_000_000_000, now))
    ensures NewIDGenerator(Some(IDConfig(40, 16, 10, 1, 1_000_000_000)), Some(ip), now) == Err(BitsInvalid)
    ensures NewIDGenerator(Some(IDConfig(15, 5, 8, 1, 1_000_000_000)), Some(ip), now).Ok?
    ensures NewIDGenerator(None, Some(ip), now) == Ok(Generator(0, ip, 0, 38, 16, 10, TIMEUNIT, now))
  {
    ShlOne(16);
    assert Pow2(16) == 65536 by { Pow2Add(8, 8); }
    ShlOne(5);
  }

  /** The validation looks only at the raw widths, so repair can push the
      widths a generator actually uses past 64 bits: 40/0/24 passes, and the
      zero machine width is then replaced by 16. */
  lemma RepairedWidthsCanExceed64(ip: u16, now: i64)
    ensures var r := NewIDGenerator(Some(IDConfig(40, 0, 24, 7, 1)), Some(ip), now);
      r.Ok? && r.value.timeBit + r.value.machineBit + r.value.sequenceBit == 80
  {
  }

  /** The nanoseconds since the current interval started, with Go's int64
      subtraction. */
  function Elapsed(g: Generator, now: i64): (e: i64) {
    Sub64(now, g.lastTimeStamp)
  }

  /** The sequence field is saturated: `sequenceNum >= (1 << sequenceBit) - 1`
      in uint64 arithmetic. */
  predicate Saturated(g: Generator) {
    g.sequenceNum >= DecU64(Shl(1, g.sequenceBit))
  }

  /** `newID` (generator.go:180-184): the state's fields packed into 64 bits. */
  function NewID(g: Generator): (id: u64) {
    Pack(g.timeCounter, g.machineID, g.sequenceNum, g.machineBit, g.sequenceBit)
  }

  datatype StepResult =
    | ClockRegressed(state: Generator)
    | GeneratorExpired(state: Generator)
    | Issued(state: Generator, id: ID, sleepNs: i64)

  /** The state sequence number and interval count, compared
      lexicographically. */
  predicate PairBefore(g: Generator, h: Generator) {
    g.timeCounter < h.timeCounter || (g.timeCounter == h.timeCounter && g.sequenceNum < h.sequenceNum)
  }

  /** Everything but the counters and the interval start agrees. */
  predicate SameLayout(g: Generator, h: Generator) {
    g.machineID == h.machineID && g.rate == h.rate
    && g.timeBit == h.timeBit && g.machineBit == h.machineBit && g.sequenceBit == h.sequenceBit
  }

  /** One `GetNextID` call (generator.go:140-177). The interval bump happens
      before the clock and expiry checks, so an expired call still returns the
      bumped state. The sequence number is reset only when it saturates, and
      then, if the interval has not yet elapsed, the call sleeps for the rest
      of it and bumps the interval count without moving `lastTimeStamp`.
      `sleepNs` is 0 when the call does not sleep. */
  function Step(g: Generator, now: i64, after: i64): (r: StepResult)
    ensures r.Issued? ==> r.id.idNum == NewID(r.state) && r.id.timestamp == after
    ensures g.rate > 0 && r.ClockRegressed? ==> r.state == g
  {
    var elapsed := Elapsed(g, now);
    var g1 := if elapsed >= g.rate then g.(timeCounter := IncU64(g.timeCounter), lastTimeStamp := now) else g;
    if elapsed < 0 then ClockRegressed(g1)
    else if g1.timeCounter >= Shl(1, g1.timeBit) then GeneratorExpired(g1)
    else
      var (g2, sleepNs) :=
        if !Saturated(g1) then (g1.(sequenceNum := g1.sequenceNum + 1), 0)
        else if elapsed < g1.rate then
          (g1.(sequenceNum := 0, timeCounter := IncU64(g1.timeCounter)), Sub64(Add64(g1.lastTimeStamp, g1.rate), now))
        else (g1.(sequenceNum := 0), 0);
      Issued(g2, ID(NewID(g2), after), sleepNs)
  }

  /** The shifted limits a valid generator compares against are the powers of
      two they stand for. */
  lemma ValidLimits(g: Generator)
    requires Valid(g)
    ensures Shl(1, g.timeBit) == Pow2(g.timeBit) <= I64_HALF
    ensures DecU64(Shl(1, g.sequenceBit)) == Pow2(g.sequenceBit) - 1
    ensures Saturated(g) <==> g.sequenceNum == Pow2(g.sequenceBit) - 1
  {
    ShlOne(g.timeBit);
    ShlOne(g.sequenceBit);
    Pow2Monotone(g.timeBit, 63);
    Pow2Monotone(g.sequenceBit, 63);
    Pow2Of64();
  }

  /** A call that issues an identifier keeps the generator valid and moves
      the pair (interval count, sequence number) strictly forward; a sleep,
      when there is one, lasts longer than 0 and at most one interval. */
  lemma StepAdvances(g: Generator, now: i64, after: i64)
    requires Valid(g)
    ensures var r := Step(g, now, after);
      r.Issued? ==> Valid(r.state) && PairBefore(g, r.state) && SameLayout(g, r.state)
                    && (r.sleepNs != 0 ==> 0 < r.sleepNs <= g.rate)
  {
    ValidLimits(g);
  }

  /** The sequence step (generator.go:147-150, 162-171). A saturated sequence
      number resets to 0 and the interval count rises by exactly one, through
      the interval bump or through the sleep; otherwise the sequence number
      rises by one, also across an interval boundary. The call sleeps exactly
      when the sequence saturates before the interval has elapsed, and after
      that sleep `lastTimeStamp` is left where it was. */
  lemma StepSequence(g: Generator, now: i64, after: i64)
    requires Valid(g)
    requires Step(g, now, after).Issued?
    ensures var r, e := Step(g, now, after), Elapsed(g, now);
      && (g.sequenceNum == Pow2(g.sequenceBit) - 1 ==>
            r.state.sequenceNum == 0 && r.state.timeCounter == g.timeCounter + 1)
      && (g.sequenceNum < Pow2(g.sequenceBit) - 1 ==>
            r.state.sequenceNum == g.sequenceNum + 1
            && r.state.timeCounter == g.timeCounter + (if e >= g.rate then 1 else 0))
      && (r.sleepNs != 0 <==> g.sequenceNum == Pow2(g.sequenceBit) - 1 && e < g.rate)
      && r.state.lastTimeStamp == (if e >= g.rate then now else g.lastTimeStamp)
      && r.state.machineID == g.machineID && r.state.rate == g.rate
      && r.state.timeBit == g.timeBit && r.state.machineBit == g.machineBit && r.state.sequenceBit == g.sequenceBit
  {
    ValidLimits(g);
  }

  /** A clock reading earlier than the start of the current interval makes
      the call fail and leaves the generator as it was, provided the
      difference of the two readings is itself an int64 (generator.go:144-154). */
  lemma StepClockRegression(g: Generator, now: i64, after: i64)
    requires g.rate > 0 && InI64(now - g.lastTimeStamp)
    ensures Step(g, now, after).ClockRegressed? <==> now < g.lastTimeStamp
    ensures Step(g, now, after).ClockRegressed? ==> Step(g, now, after).state == g
  {
  }

  /** A call on a valid generator fails as expired exactly when the clock has
      not gone back and the interval count, after the possible bump, has
      reached 2^timeBit (generator.go:157-159). */
  lemma StepExpiry(g: Generator, now: i64, after: i64)
    requires Valid(g)
    ensures var e := Elapsed(g, now);
      Step(g, now, after).GeneratorExpired? <==>
        e >= 0 && g.timeCounter + (if e >= g.rate then 1 else 0) >= Pow2(g.timeBit)
  {
    ValidLimits(g);
  }

  /** A call that issues an identifier at the interval limit got there
      through the saturated-sequence sleep, so it leaves the sequence number
      at 0 (generator.go:157-171). */
  lemma StepReachesLimitAtZero(g: Generator, now: i64, after: i64)
    requires Valid(g) && Step(g, now, after).Issued?
    requires Step(g, now, after).state.timeCounter == Pow2(g.timeBit)
    ensures Step(g, now, after).state.sequenceNum == 0
  {
    ValidLimits(g);
  }

  /** Once the interval count has reached 2^timeBit, no later call issues an
      identifier and the count does not go down, as long as it has not come
      within one of wrapping around 2^64. */
  lemma ExpiryIsPermanent(g: Generator, now: i64, after: i64)
    requires 1 <= g.timeBit < 64
    requires Pow2(g.timeBit) <= g.timeCounter < MAX_U64
    ensures !Step(g, now, after).Issued?
    ensures g.timeCounter <= Step(g, now, after).state.timeCounter <= g.timeCounter + 1
    ensures Step(g, now, after).state.timeBit == g.timeBit
    ensures SameLayout(g, Step(g, now, after).state)
  {
    ShlOne(g.timeBit);
  }

  /** A call on a valid generator that fails as expired leaves the interval
      count at or past 2^timeBit, at most one above where it was, and the
      layout unchanged (generator.go:147-159). */
  lemma ExpiredCallState(g: Generator, now: i64, after: i64)
    requires Valid(g) && Step(g, now, after).GeneratorExpired?
    ensures Pow2(g.timeBit) <= Step(g, now, after).state.timeCounter <= g.timeCounter + 1
    ensures SameLayout(g, Step(g, now, after).state)
  {
    ValidLimits(g);
    Pow2Monotone(g.timeBit, 63);
    Pow2Of64();
  }
}
