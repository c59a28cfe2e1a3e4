/** Successive `GetNextID` calls on one generator, as a worker makes them
    (id_factory.go:129-138): at most a given number of calls, stopping at the
    first error. The i-th call reads its clock values from `clock(i)`.

    The theorems here are the generator's promises over a whole run: issued
    identifiers rise, except that with widths of exactly 64 bits the last
    one may wrap to its machine's smallest value; they are pairwise
    distinct; each carries its generator's machine id, and so two
    generators with the same layout and different machine ids never issue
    the same value. */
module GeneratorRun {
  import opened GoInts
  import opened Results
  import opened IdLayout
  import opened IdGenerator

  /** The two clock readings of one call: at its start and after composing. */
  datatype Reading = Reading(now: i64, after: i64)

  datatype RunOutcome = RunOutcome(state: Generator, ids: seq<ID>, error: Option<GenError>, calls: nat)

  function StepError(r: StepResult): (e: GenError)
    requires !r.Issued?
  {
    if r.ClockRegressed? then ClockMovedBack else Expired
  }

  /** `GetNextID` (generator.go:140-177) given the readings of one call. */
  function GetNextID(g: Generator, r: Reading): (s: StepResult)
  {
    Step(g, r.now, r.after)
  }

  /** At most `count` calls of `next` starting with reading number `from`;
      the first error ends the run and is reported with the state it left
      behind. A worker's loop (id_factory.go:129-138) is this with `next`
      being `GetNextID`; keeping `next` a parameter lets the factory be
      stated without unfolding the generator's arithmetic. */
  function RunWith(next: (Generator, Reading) -> StepResult, g: Generator, clock: nat -> Reading,
                   from: nat, count: int): (r: RunOutcome)
    decreases count
  {
    if count <= 0 then RunOutcome(g, [], None, 0)
    else
      var s := next(g, clock(from));
      if !s.Issued? then RunOutcome(s.state, [], Some(StepError(s)), 1)
      else
        var rest := RunWith(next, s.state, clock, from + 1, count - 1);
        RunOutcome(rest.state, [s.id] + rest.ids, rest.error, rest.calls + 1)
  }

  /** A run makes at most `count` calls; it makes all of them unless one
      fails, and every call but a failing last one issues an identifier. */
  lemma {:induction false} RunCounts(next: (Generator, Reading) -> StepResult, g: Generator,
                                     clock: nat -> Reading, from: nat, count: int)
    ensures var r := RunWith(next, g, clock, from, count);
      && r.calls <= (if count > 0 then count else 0)
      && (r.error.None? ==> r.calls == (if count > 0 then count else 0) && |r.ids| == r.calls)
      && (r.error.Some? ==> r.calls >= 1 && |r.ids| == r.calls - 1)
    decreases count
  {
    if count > 0 && next(g, clock(from)).Issued? {
      RunCounts(next, next(g, clock(from)).state, clock, from + 1, count - 1);
    }
  }

  /** The generator's own run. */
  function Run(g: Generator, clock: nat -> Reading, from: nat, count: int): (r: RunOutcome)
  {
    RunWith(GetNextID, g, clock, from, count)
  }

  /** The sum of the three field widths. */
  function Width(g: Generator): (w: nat) {
    g.timeBit + g.machineBit + g.sequenceBit
  }

  /** A valid generator whose widths fill at most 64 bits and whose machine id
      fits its width. The default 38/16/10 layout fills exactly 64. */
  predicate Packable(g: Generator) {
    Valid(g) && Width(g) <= 64 && g.machineID < Pow2(g.machineBit)
  }

  /** A packable generator with at least one bit to spare, so that even an
      interval count of 2^timeBit packs without loss. */
  predicate Fits(g: Generator) {
    Packable(g) && Width(g) < 64
  }

  /** The value the generator's machine packs to with interval count and
      sequence number both 0: the least value its machine can carry. */
  function MachineFloor(g: Generator): (r: u64) {
    NewID(g.(timeCounter := 0, sequenceNum := 0))
  }

  /** No two entries carry the same identifier value. */
  predicate DistinctValues(ids: seq<ID>) {
    forall i, j :: 0 <= i < j < |ids| ==> ids[i].idNum != ids[j].idNum
  }

  predicate StrictlyIncreasing(ids: seq<ID>) {
    forall i, j :: 0 <= i < j < |ids| ==> ids[i].idNum < ids[j].idNum
  }

  /** A packable state packs without loss while its interval count is below
      2^timeBit, and always when the widths leave a bit to spare. */
  lemma StateFieldsFit(g: Generator)
    requires Packable(g) && (g.timeCounter < Pow2(g.timeBit) || Width(g) < 64)
    ensures FieldsFit(g.timeCounter, g.machineID, g.sequenceNum, g.machineBit, g.sequenceBit)
  {
    var s := g.machineBit + g.sequenceBit;
    ShiftLeftOne(g.timeBit);
    ShiftLeftAdd(1, g.timeBit, s);
    ShiftLeftOne(g.timeBit + s);
    Pow2Of64();
    if g.timeCounter < Pow2(g.timeBit) {
      ShiftLeftSum(g.timeCounter, 1, s);
      ShiftLeftOne(s);
      ShiftLeftMonotone(g.timeCounter + 1, Pow2(g.timeBit), s);
      Pow2Monotone(g.timeBit + s, 64);
    } else {
      ShiftLeftMonotone(g.timeCounter, Pow2(g.timeBit), s);
      Pow2Monotone(g.timeBit + s, 63);
    }
  }

  /** The floor packs without loss, decodes to the machine id, and lies at or
      below the value of every state that packs without loss. */
  lemma FloorBelow(g: Generator)
    requires Packable(g) && (g.timeCounter < Pow2(g.timeBit) || Width(g) < 64)
    ensures MachineFloor(g) <= NewID(g)
    ensures Unpack(MachineFloor(g), g.machineBit, g.sequenceBit).machineID == g.machineID
  {
    var z := g.(timeCounter := 0, sequenceNum := 0);
    Pow2Monotone(0, g.timeBit);
    StateFieldsFit(g);
    StateFieldsFit(z);
    UnpackPack(0, g.machineID, 0, g.machineBit, g.sequenceBit);
    if g.timeCounter > 0 || g.sequenceNum > 0 {
      PackMonotone(0, 0, g.timeCounter, g.sequenceNum, g.machineID, g.machineBit, g.sequenceBit);
    }
  }

  /** When the widths fill 64 bits, an interval count of 2^timeBit is shifted
      out of the top entirely, so with sequence number 0 the state packs to
      its machine's floor. */
  lemma LimitPacksToFloor(g: Generator)
    requires Packable(g) && Width(g) == 64
    requires g.timeCounter == Pow2(g.timeBit) && g.sequenceNum == 0
    ensures NewID(g) == MachineFloor(g)
  {
    var s := g.machineBit + g.sequenceBit;
    ShiftLeftOne(g.timeBit);
    ShiftLeftAdd(1, g.timeBit, s);
    ShiftLeftOne(64);
    Pow2Of64();
    ShiftLeftZero(s);
    assert Shl(g.timeCounter, s) == 0 && Shl(0, s) == 0;
  }

  /** The one-call guarantee the run theorems rest on. From a valid state, a
      call never issues once the interval count has reached 2^timeBit. An
      issuing call keeps the generator valid with the same layout and moves
      (interval count, sequence number) strictly forward. When it reaches the
      interval limit, it leaves the sequence number at 0, and it issues the
      packed value of the state it leaves. */
  ghost predicate StepsForward(next: (Generator, Reading) -> StepResult) {
    forall g: Generator, r: Reading :: Valid(g) ==>
      && (g.timeCounter == Pow2(g.timeBit) ==> !next(g, r).Issued?)
      && (next(g, r).Issued? ==>
            && Valid(next(g, r).state) && SameLayout(g, next(g, r).state) && PairBefore(g, next(g, r).state)
            && (next(g, r).state.timeCounter == Pow2(g.timeBit) ==> next(g, r).state.sequenceNum == 0)
            && next(g, r).id.idNum == NewID(next(g, r).state))
  }

  /** `GetNextID` has the one-call guarantee. */
  lemma GetNextIDStepsForward()
    ensures StepsForward(GetNextID)
  {
    forall g: Generator, r: Reading | Valid(g)
      ensures var s := GetNextID(g, r);
        && (g.timeCounter == Pow2(g.timeBit) ==> !s.Issued?)
        && (s.Issued? ==>
              && Valid(s.state) && SameLayout(g, s.state) && PairBefore(g, s.state)
              && (s.state.timeCounter == Pow2(g.timeBit) ==> s.state.sequenceNum == 0)
              && s.id.idNum == NewID(s.state))
    {
      StepAdvances(g, r.now, r.after);
      if g.timeCounter == Pow2(g.timeBit) {
        Pow2Monotone(g.timeBit, 63);
        Pow2Of64();
        ExpiryIsPermanent(g, r.now, r.after);
      } else if Step(g, r.now, r.after).Issued? && Step(g, r.now, r.after).state.timeCounter == Pow2(g.timeBit) {
        StepReachesLimitAtZero(g, r.now, r.after);
      }
    }
  }

  /** One issued value seen from the state before the call: the next state is
      packable; it lies above the old value unless the widths fill 64 bits
      and the interval limit is reached, and then it is the machine's floor;
      either way it decodes to the machine id. */
  lemma IssuedValue(g: Generator, h: Generator)
    requires Packable(g) && g.timeCounter < Pow2(g.timeBit)
    requires Valid(h) && SameLayout(g, h) && PairBefore(g, h)
    requires h.timeCounter == Pow2(h.timeBit) ==> h.sequenceNum == 0
    ensures Packable(h)
    ensures h.timeCounter < Pow2(h.timeBit) || Width(h) < 64 ==> NewID(g) < NewID(h)
    ensures !(h.timeCounter < Pow2(h.timeBit) || Width(h) < 64) ==> NewID(h) == MachineFloor(g)
    ensures Unpack(NewID(h), g.machineBit, g.sequenceBit).machineID == g.machineID
  {
    StateFieldsFit(g);
    if h.timeCounter < Pow2(h.timeBit) || Width(h) < 64 {
      StateFieldsFit(h);
      PackMonotone(g.timeCounter, g.sequenceNum, h.timeCounter, h.sequenceNum, g.machineID, g.machineBit, g.sequenceBit);
      UnpackPack(h.timeCounter, h.machineID, h.sequenceNum, h.machineBit, h.sequenceBit);
    } else {
      LimitPacksToFloor(h);
      FloorBelow(g);
    }
  }

  /** A run whose first call issues an identifier continues from the state
      that call left. */
  lemma RunIssuedFirst(next: (Generator, Reading) -> StepResult, g: Generator, clock: nat -> Reading,
                       from: nat, count: int)
    requires count > 0
    requires next(g, clock(from)).Issued?
    ensures var s := next(g, clock(from));
      var rest := RunWith(next, s.state, clock, from + 1, count - 1);
      RunWith(next, g, clock, from, count) == RunOutcome(rest.state, [s.id] + rest.ids, rest.error, rest.calls + 1)
  {
  }

  /** A run whose first call fails ends there, reporting that call's error. */
  lemma RunFailsFirst(next: (Generator, Reading) -> StepResult, g: Generator, clock: nat -> Reading,
                      from: nat, count: int)
    requires count > 0
    requires !next(g, clock(from)).Issued?
    ensures var s := next(g, clock(from));
      RunWith(next, g, clock, from, count) == RunOutcome(s.state, [], Some(StepError(s)), 1)
  {
  }

  /** ids rises above lo, except that when wraps holds the last entry may
      instead be floor: each entry lies above lo and above every earlier
      entry, unless it is a last entry equal to floor. */
  predicate RisesThenFloor(ids: seq<ID>, lo: int, floor: int, wraps: bool) {
    && (forall i :: 0 <= i < |ids| ==>
          lo < ids[i].idNum || (wraps && i == |ids| - 1 && ids[i].idNum == floor))
    && (forall i, j :: 0 <= i < j < |ids| ==>
          ids[i].idNum < ids[j].idNum || (wraps && j == |ids| - 1 && ids[j].idNum == floor))
  }

  /** Putting an identifier above lo in front of a sequence that rises above
      it keeps the shape. */
  lemma ConsRises(x: ID, rest: seq<ID>, lo: int, floor: int, wraps: bool)
    requires lo < x.idNum && RisesThenFloor(rest, x.idNum, floor, wraps)
    ensures RisesThenFloor([x] + rest, lo, floor, wraps)
  {
    var ids := [x] + rest;
    forall i | 0 < i < |ids|
      ensures lo < ids[i].idNum || (wraps && i == |ids| - 1 && ids[i].idNum == floor)
    {
      assert ids[i] == rest[i - 1];
    }
    forall i, j | 0 <= i < j < |ids|
      ensures ids[i].idNum < ids[j].idNum || (wraps && j == |ids| - 1 && ids[j].idNum == floor)
    {
      assert ids[j] == rest[j - 1];
      if i > 0 {
        assert ids[i] == rest[i - 1];
      }
    }
  }

  /** A rising sequence whose possible floor entry lies at or below lo has
      no repeated value. */
  lemma RisesDistinct(ids: seq<ID>, lo: int, floor: int, wraps: bool)
    requires RisesThenFloor(ids, lo, floor, wraps) && floor <= lo
    ensures DistinctValues(ids)
  {
    forall i, j | 0 <= i < j < |ids|
      ensures ids[i].idNum != ids[j].idNum
    {
      assert lo < ids[i].idNum;
    }
  }

  /** The identifiers of a run rise above the value the starting state packs
      to. When the widths fill 64 bits, the last one may instead be the
      machine's floor: the call that reaches an interval count of 2^timeBit
      issues that wrapped value, and no later call issues anything. A run
      that issues anything starts below the interval limit. */
  lemma {:induction false} RunIdsRise(next: (Generator, Reading) -> StepResult, g: Generator,
                                      clock: nat -> Reading, from: nat, count: int)
    requires StepsForward(next) && Packable(g)
    ensures var ids := RunWith(next, g, clock, from, count).ids;
      && RisesThenFloor(ids, NewID(g), MachineFloor(g), Width(g) == 64)
      && (|ids| > 0 ==> g.timeCounter < Pow2(g.timeBit))
    decreases count
  {
    if count > 0 {
      var s := next(g, clock(from));
      if s.Issued? {
        var h := s.state;
        IssuedValue(g, h);
        RunIssuedFirst(next, g, clock, from, count);
        var rest := RunWith(next, h, clock, from + 1, count - 1).ids;
        assert MachineFloor(h) == MachineFloor(g);
        if h.timeCounter < Pow2(h.timeBit) || Width(h) < 64 {
          RunIdsRise(next, h, clock, from + 1, count - 1);
          ConsRises(s.id, rest, NewID(g), MachineFloor(g), Width(g) == 64);
        } else {
          assert rest == [] by {
            if count - 1 > 0 {
              assert !next(h, clock(from + 1)).Issued?;
            }
          }
          assert RunWith(next, g, clock, from, count).ids == [s.id];
        }
      }
    }
  }

  /** Within one run the identifiers strictly increase, when the widths
      leave a bit to spare. */
  lemma RunIdsIncrease(next: (Generator, Reading) -> StepResult, g: Generator,
                       clock: nat -> Reading, from: nat, count: int)
    requires StepsForward(next) && Fits(g)
    ensures StrictlyIncreasing(RunWith(next, g, clock, from, count).ids)
  {
    RunIdsRise(next, g, clock, from, count);
  }

  /** A run of any `next` with the one-call guarantee, from a packable
      state, never issues the same value twice. */
  lemma RunIdsUnique(next: (Generator, Reading) -> StepResult, g: Generator,
                     clock: nat -> Reading, from: nat, count: int)
    requires StepsForward(next) && Packable(g)
    ensures DistinctValues(RunWith(next, g, clock, from, count).ids)
  {
    RunIdsRise(next, g, clock, from, count);
    var ids := RunWith(next, g, clock, from, count).ids;
    if |ids| > 0 {
      FloorBelow(g);
      RisesDistinct(ids, NewID(g), MachineFloor(g), Width(g) == 64);
    }
  }

  /** Identifiers of one generator's run are pairwise distinct, also when the
      widths fill all 64 bits as the default layout does
      (generator_test.go:97-120). */
  lemma RunIdsDistinct(g: Generator, clock: nat -> Reading, from: nat, count: int)
    requires Packable(g)
    ensures var ids := Run(g, clock, from, count).ids;
      forall i, j :: 0 <= i < |ids| && 0 <= j < |ids| && i != j ==> ids[i].idNum != ids[j].idNum
  {
    GetNextIDStepsForward();
    RunIdsUnique(GetNextID, g, clock, from, count);
    var ids := Run(g, clock, from, count).ids;
    forall i, j | 0 <= i < |ids| && 0 <= j < |ids| && i != j
      ensures ids[i].idNum != ids[j].idNum
    {
      if j < i {
        assert ids[j].idNum != ids[i].idNum;
      }
    }
  }

  /** The generator the test builds with no configuration (38/16/10 bits)
      issues pairwise distinct identifiers over any run
      (generator_test.go:97-120). */
  lemma DefaultGeneratorIdsDistinct(ip: u16, now: i64, clock: nat -> Reading, from: nat, count: int)
    ensures NewIDGenerator(None, Some(ip), now).Ok?
    ensures DistinctValues(Run(NewIDGenerator(None, Some(ip), now).value, clock, from, count).ids)
  {
    NewIDGeneratorExamples(ip, now);
    Pow2Of16();
    var g := NewIDGenerator(None, Some(ip), now).value;
    RunIdsDistinct(g, clock, from, count);
  }

  /** Every identifier in ids decodes, under the given widths, to machine id m. */
  predicate AllFromMachine(ids: seq<ID>, machineBit: nat, sequenceBit: nat, m: nat) {
    forall i :: 0 <= i < |ids| ==> Unpack(ids[i].idNum, machineBit, sequenceBit).machineID == m
  }

  /** Every identifier of a run decodes to the generator's machine id. */
  lemma {:induction false} RunIdsCarryMachine(next: (Generator, Reading) -> StepResult, g: Generator,
                                              clock: nat -> Reading, from: nat, count: int)
    requires StepsForward(next) && Packable(g)
    ensures AllFromMachine(RunWith(next, g, clock, from, count).ids, g.machineBit, g.sequenceBit, g.machineID)
    decreases count
  {
    if count > 0 {
      var s := next(g, clock(from));
      if s.Issued? {
        IssuedValue(g, s.state);
        RunIdsCarryMachine(next, s.state, clock, from + 1, count - 1);
        RunIssuedFirst(next, g, clock, from, count);
        var rest := RunWith(next, s.state, clock, from + 1, count - 1).ids;
        var ids := RunWith(next, g, clock, from, count).ids;
        assert ids == [s.id] + rest;
        forall i | 0 <= i < |ids|
          ensures Unpack(ids[i].idNum, g.machineBit, g.sequenceBit).machineID == g.machineID
        {
          if i > 0 {
            assert ids[i] == rest[i - 1];
          }
        }
      }
    }
  }

  /** Two generators with the same field widths and different machine ids
      never issue the same value, whatever their clocks read. */
  lemma DistinctMachinesDisjoint(next: (Generator, Reading) -> StepResult,
                                 g1: Generator, clock1: nat -> Reading, n1: int,
                                 g2: Generator, clock2: nat -> Reading, n2: int)
    requires StepsForward(next) && Packable(g1) && Packable(g2)
    requires g1.machineBit == g2.machineBit && g1.sequenceBit == g2.sequenceBit
    requires g1.machineID != g2.machineID
    ensures var ids1, ids2 := RunWith(next, g1, clock1, 0, n1).ids, RunWith(next, g2, clock2, 0, n2).ids;
      forall i, j :: 0 <= i < |ids1| && 0 <= j < |ids2| ==> ids1[i].idNum != ids2[j].idNum
  {
    RunIdsCarryMachine(next, g1, clock1, 0, n1);
    RunIdsCarryMachine(next, g2, clock2, 0, n2);
  }

  /** The results of successive calls on one generator, each on the state the
      previous one left, errors included. */
  function Calls(g: Generator, rs: seq<Reading>): (r: seq<StepResult>)
    ensures |r| == |rs|
    decreases |rs|
  {
    if rs == [] then []
    else
      var s := Step(g, rs[0].now, rs[0].after);
      [s] + Calls(s.state, rs[1..])
  }

  /** An expired generator stays expired: once the interval count has
      reached 2^timeBit no later call issues an identifier, however the calls
      are timed, as long as the count stays clear of wrapping around 2^64. */
  lemma {:induction false} ExpiredForever(g: Generator, rs: seq<Reading>)
    requires 1 <= g.timeBit < 64
    requires Pow2(g.timeBit) <= g.timeCounter && g.timeCounter + |rs| < MAX_U64
    ensures forall i :: 0 <= i < |rs| ==> !Calls(g, rs)[i].Issued?
    decreases |rs|
  {
    if rs != [] {
      var s := Step(g, rs[0].now, rs[0].after);
      ExpiryIsPermanent(g, rs[0].now, rs[0].after);
      ExpiredForever(s.state, rs[1..]);
      assert Calls(g, rs) == [s] + Calls(s.state, rs[1..]);
    }
  }

  /** The identifiers among the results of successive calls, in call order. */
  function IssuedIds(out: seq<StepResult>): (ids: seq<ID>)
    decreases |out|
  {
    if out == [] then []
    else (if out[0].Issued? then [out[0].id] else []) + IssuedIds(out[1..])
  }

  /** Results none of which issued anything hold no identifiers. */
  lemma {:induction false} NoneIssued(out: seq<StepResult>)
    requires forall i :: 0 <= i < |out| ==> !out[i].Issued?
    ensures IssuedIds(out) == []
    decreases |out|
  {
    if out != [] {
      NoneIssued(out[1..]);
    }
  }

  /** Successive calls on one generator, errors included. Calls go on past
      an error when callers share the generator and each stops only at its
      own first error while the others keep calling (generator_test.go:
      120-128, 161-176); the mutex makes their calls one such sequence.
      The identifiers issued rise as in `RunIdsRise`: a clock regression
      leaves the generator as it was, and after an expiry nothing more is
      issued, as long as the interval count stays clear of wrapping around
      2^64. */
  lemma {:induction false} CallsRise(g: Generator, rs: seq<Reading>)
    requires Packable(g) && Pow2(g.timeBit) + |rs| < MAX_U64
    ensures var ids := IssuedIds(Calls(g, rs));
      && RisesThenFloor(ids, NewID(g), MachineFloor(g), Width(g) == 64)
      && (|ids| > 0 ==> g.timeCounter < Pow2(g.timeBit))
    decreases |rs|
  {
    if rs != [] {
      var s := Step(g, rs[0].now, rs[0].after);
      var rest := rs[1..];
      var out := Calls(g, rs);
      assert out == [s] + Calls(s.state, rest);
      assert out[1..] == Calls(s.state, rest);
      var later := IssuedIds(Calls(s.state, rest));
      if s.ClockRegressed? {
        CallsRise(g, rest);
      } else if s.GeneratorExpired? {
        ExpiredCallState(g, rs[0].now, rs[0].after);
        ExpiredForever(s.state, rest);
        NoneIssued(Calls(s.state, rest));
      } else {
        var h := s.state;
        StepAdvances(g, rs[0].now, rs[0].after);
        if g.timeCounter == Pow2(g.timeBit) {
          Pow2Monotone(g.timeBit, 63);
          Pow2Of64();
          ExpiryIsPermanent(g, rs[0].now, rs[0].after);
        }
        if h.timeCounter == Pow2(g.timeBit) {
          StepReachesLimitAtZero(g, rs[0].now, rs[0].after);
        }
        IssuedValue(g, h);
        assert MachineFloor(h) == MachineFloor(g);
        if h.timeCounter < Pow2(h.timeBit) || Width(h) < 64 {
          CallsRise(h, rest);
          ConsRises(s.id, later, NewID(g), MachineFloor(g), Width(g) == 64);
        } else {
          ExpiredForever(h, rest);
          NoneIssued(Calls(h, rest));
          assert IssuedIds(out) == [s.id];
        }
      }
    }
  }

  /** A generator whose widths sum to at most 64 and whose machine id fits
      its width never issues the same value twice, also when it is called
      again after failed calls, whatever its clock reads, for any number of
      calls that keeps the interval count clear of wrapping around 2^64
      (generator_test.go:97-128, 161-176). */
  lemma CallsIdsDistinct(g: Generator, rs: seq<Reading>)
    requires Packable(g) && Pow2(g.timeBit) + |rs| < MAX_U64
    ensures DistinctValues(IssuedIds(Calls(g, rs)))
  {
    CallsRise(g, rs);
    var ids := IssuedIds(Calls(g, rs));
    if |ids| > 0 {
      FloorBelow(g);
      RisesDistinct(ids, NewID(g), MachineFloor(g), Width(g) == 64);
    }
  }

  /** The generator built with no configuration never issues the same value
      twice over fewer than 2^63 - 2^38 calls, also when calls go on past
      failed ones (generator_test.go:120-128, 161-176). */
  lemma DefaultGeneratorCallsDistinct(ip: u16, now: i64, rs: seq<Reading>)
    requires |rs| < I64_HALF - Pow2(TIMEBIT)
    ensures NewIDGenerator(None, Some(ip), now).Ok?
    ensures DistinctValues(IssuedIds(Calls(NewIDGenerator(None, Some(ip), now).value, rs)))
  {
    NewIDGeneratorExamples(ip, now);
    Pow2Of16();
    Pow2Of64();
    CallsIdsDistinct(NewIDGenerator(None, Some(ip), now).value, rs);
  }
}
