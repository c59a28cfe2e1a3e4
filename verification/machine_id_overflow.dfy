/** The machine id overflow branch of `NewIDGenerator` (generator.go:104-106).

    When a non-zero machine width is too narrow for the configured machine
    id, the source replaces the id by the address-derived one but never
    sets the width, which stays at its zero value. The replacement id is
    then OR-ed into the lowest bits of the interval count, so one generator
    can issue the same identifier twice. The evident intent, as for a zero
    width two lines above, is the default width that the address-derived
    id was made for. */
module MachineIdOverflow {
  import opened GoInts
  import opened Results
  import opened IdLayout
  import opened IdGenerator
  import opened GeneratorRun

  /** The generator the overflow branch builds for the trace below. */
  const overflowed := Generator(0, 2, 0, 38, 0, 1, 10, 0)

  lemma OverflowedLimits()
    ensures Shl(1, 1) == 2 && Shl(1, 38) >= 3
  {
    ShlOne(1);
    ShlOne(38);
    Pow2Monotone(2, 38);
  }

  /** The three calls of the trace, one at a time. */
  lemma OverflowedFirstCall()
    ensures Step(overflowed, 0, 0) == Issued(overflowed.(sequenceNum := 1), ID(5, 0), 0)
  {
    OverflowedLimits();
    assert Shl(2, 1) == 4 && Shl(0, 1) == 0;
    assert Or(Or(0, 4), 1) == 5;
  }

  lemma OverflowedSecondCall()
    ensures Step(overflowed.(sequenceNum := 1), 0, 10) == Issued(overflowed.(timeCounter := 1), ID(6, 10), 10)
  {
    OverflowedLimits();
    assert Shl(2, 1) == 4 && Shl(1, 1) == 2;
    assert Or(Or(2, 4), 0) == 6;
  }

  lemma OverflowedThirdCall()
    ensures Step(overflowed.(timeCounter := 1), 10, 10)
      == Issued(overflowed.(sequenceNum := 1, timeCounter := 2, lastTimeStamp := 10), ID(5, 10), 0)
  {
    OverflowedLimits();
    assert Shl(2, 1) == 4;
    assert Or(Or(4, 4), 1) == 5;
  }

  /** As written: the layout 38/6/1 with machine id 64 and a 10 ns interval,
      built at time 0 on a host whose address-derived id is 2, gets machine
      width 0, and calls starting at times 0, 0 and 10 issue 5, 6 and 5
      again; the second call saturates the one-bit sequence and sleeps the
      10 ns left of the interval, so its second reading is 10. */
  lemma OverflowBranchRepeatsIds()
    ensures NewIDGenerator(Some(IDConfig(38, 6, 1, 64, 10)), Some(2), 0) == Ok(overflowed)
    ensures var out := Calls(overflowed, [Reading(0, 0), Reading(0, 10), Reading(10, 10)]);
      && out[0].Issued? && out[1].Issued? && out[2].Issued?
      && out[0].id.idNum == 5 && out[1].id.idNum == 6 && out[2].id.idNum == 5
  {
    ShlOne(6);
    assert Pow2(6) == 64;
    OverflowedFirstCall();
    OverflowedSecondCall();
    OverflowedThirdCall();
    var rs := [Reading(0, 0), Reading(0, 10), Reading(10, 10)];
    assert rs[1..] == [Reading(0, 10), Reading(10, 10)];
    assert rs[1..][1..] == [Reading(10, 10)];
    assert Calls(overflowed.(timeCounter := 1), [Reading(10, 10)])[0] == Step(overflowed.(timeCounter := 1), 10, 10);
  }

  /** Corrected: the overflow branch also sets the default machine width,
      everything else as in `NewIDGenerator`. */
  function NewIDGeneratorFixed(config: Option<IDConfig>, ip: Option<u16>, now: i64): (r: Result<Generator, GenError>)
    ensures r.Err? <==> NewIDGenerator(config, ip, now).Err?
    ensures r.Err? ==> r == NewIDGenerator(config, ip, now)
    ensures r.Ok? ==> Valid(r.value)
    ensures r.Ok? && Requested(config, ip.value).machineBit != 0 ==> r.value.machineID < Pow2(r.value.machineBit)
  {
    var built := NewIDGenerator(config, ip, now);
    if built.Err? then built
    else
      var c := Requested(config, ip.value);
      ShlOne(c.machineBit);
      if c.machineBit > 0 && c.machineID >= Shl(1, c.machineBit) then
        Pow2Of16();
        Ok(built.value.(machineBit := MACHINEBIT))
      else
        NewIDGeneratorRepairs(config, ip.value, now);
        built
  }

  /** The correction changes nothing unless the overflow branch is taken. */
  lemma FixedAgreesOutsideOverflow(config: Option<IDConfig>, ip: Option<u16>, now: i64)
    requires ip.None? || Requested(config, ip.value).machineBit == 0
      || Requested(config, ip.value).machineID < Pow2(Requested(config, ip.value).machineBit)
    ensures NewIDGeneratorFixed(config, ip, now) == NewIDGenerator(config, ip, now)
  {
    if ip.Some? && Requested(config, ip.value).machineBit < 64 {
      ShlOne(Requested(config, ip.value).machineBit);
    }
  }

  /** With the correction, a generator built from a configuration whose
      machine id overflows, and whose widths, with zeros replaced by the
      defaults, leave room for the default machine width, never issues the
      same identifier twice, whatever its clock reads. */
  lemma FixedOverflowIdsDistinct(config: IDConfig, ip: u16, now: i64, clock: nat -> Reading, count: int)
    requires 1 <= config.machineBit < 64
    requires config.timeBit + config.machineBit + config.sequenceBit <= 64
    requires RepairedWidth(config.timeBit, TIMEBIT) + MACHINEBIT + RepairedWidth(config.sequenceBit, SEQUENCEBIT) <= 64
    requires config.machineID >= Pow2(config.machineBit)
    ensures var r := NewIDGeneratorFixed(Some(config), Some(ip), now);
      && r.Ok? && r.value.machineBit == MACHINEBIT && r.value.machineID == ip
      && var ids := Run(r.value, clock, 0, count).ids;
      forall i, j :: 0 <= i < |ids| && 0 <= j < |ids| && i != j ==> ids[i].idNum != ids[j].idNum
  {
    var r := NewIDGenerator(Some(config), Some(ip), now);
    assert r.Ok?;
    NewIDGeneratorRepairs(Some(config), ip, now);
    var g := NewIDGeneratorFixed(Some(config), Some(ip), now).value;
    Pow2Of16();
    assert Packable(g);
    RunIdsDistinct(g, clock, 0, count);
  }
}
