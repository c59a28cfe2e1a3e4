/** The multi-producer, single-consumer factory of id_factory.go, run on one
    sequential schedule: every worker runs its quota in turn, then the
    consumer drains the shared queue.

    Each worker owns one generator built from the factory's template with
    its own machine id. The outbound address lookup and the construction
    time of worker i are `lookup(i)` and `hireClock(i)`; the clock readings
    of worker k's calls are `clocks(k)`. */
module IdFactory {
  import opened GoInts
  import opened Results
  import opened IdGenerator
  import opened GeneratorRun
  import opened IdQueue
  import opened IdLayout

  /** Worker count, quota per worker, optional explicit worker ids, and the
      generator template (id_factory.go:18-23). */
  datatype FactoryConfig = FactoryConfig(
    numOfWorkers: u64,
    numOfIDsPerWorker: i64,
    workerIDs: seq<u64>,
    idConfig: IDConfig)

  datatype Factory = Factory(idQueue: PriorityQueue, factoryConfig: FactoryConfig)

  datatype FactoryError = WorkerIDsMismatch

  /** A producer: a generator and the number of identifiers it should make. */
  datatype Worker = Worker(generator: Generator, workNum: i64)

  /** `NewIDFactory` (id_factory.go:51-63): a non-empty worker id list must
      have one entry per worker; the queue starts empty. */
  function NewIDFactory(w: FactoryConfig): (r: Result<Factory, FactoryError>)
    ensures r.Err? <==> |w.workerIDs| > 0 && |w.workerIDs| != w.numOfWorkers
    ensures r.Ok? ==> r.value.idQueue == [] && r.value.factoryConfig == w
  {
    if w.numOfWorkers != |w.workerIDs| && |w.workerIDs| > 0 then Err(WorkerIDsMismatch)
    else Ok(Factory([], w))
  }

  /** The generator configuration of worker i (id_factory.go:103-113): the
      template with only the machine id replaced, by the i-th listed id
      when the list reaches that far, else by i. */
  function WorkerConfig(cfg: FactoryConfig, i: u64): (r: IDConfig)
    ensures r == cfg.idConfig.(machineID := r.machineID)
    ensures i < |cfg.workerIDs| ==> r.machineID == cfg.workerIDs[i]
    ensures i >= |cfg.workerIDs| ==> r.machineID == i
  {
    var workerID := if |cfg.workerIDs| > 0 && |cfg.workerIDs| > i then cfg.workerIDs[i] else i;
    cfg.idConfig.(machineID := workerID)
  }

  /** In an accepted configuration every worker takes its id from the list
      when one is given and otherwise uses its index, so the workers' ids
      are pairwise distinct whenever the list has no repeats. */
  lemma AcceptedWorkerIDs(cfg: FactoryConfig, i: u64, j: u64)
    requires NewIDFactory(cfg).Ok?
    requires i < cfg.numOfWorkers && j < cfg.numOfWorkers
    ensures WorkerConfig(cfg, i).machineID == (if |cfg.workerIDs| > 0 then cfg.workerIDs[i] else i)
    ensures i != j && (forall a, b :: 0 <= a < b < |cfg.workerIDs| ==> cfg.workerIDs[a] != cfg.workerIDs[b])
      ==> WorkerConfig(cfg, i).machineID != WorkerConfig(cfg, j).machineID
  {
  }

  /** Constructing worker i's generator. */
  function Hire(cfg: FactoryConfig, lookup: nat -> Option<u16>, hireClock: nat -> i64, i: u64): (r: Result<Generator, GenError>)
  {
    NewIDGenerator(Some(WorkerConfig(cfg, i)), lookup(i), hireClock(i))
  }

  /** `hireWorkers` (id_factory.go:99-125): one worker per configured unit,
      each with the full quota; the first construction failure aborts with
      that error and no workers. */
  method HireWorkers(cfg: FactoryConfig, lookup: nat -> Option<u16>, hireClock: nat -> i64)
    returns (r: Result<seq<Worker>, GenError>)
    ensures r.Ok? <==> forall i: u64 :: i < cfg.numOfWorkers ==> Hire(cfg, lookup, hireClock, i).Ok?
    ensures r.Ok? ==> |r.value| == cfg.numOfWorkers
    ensures r.Ok? ==> forall i: u64 :: i < |r.value| ==>
      r.value[i] == Worker(Hire(cfg, lookup, hireClock, i).value, cfg.numOfIDsPerWorker)
    ensures r.Err? ==>
      exists k: u64 ::
        && k < cfg.numOfWorkers
        && Hire(cfg, lookup, hireClock, k) == Err(r.error)
        && (forall i: u64 :: i < k ==> Hire(cfg, lookup, hireClock, i).Ok?)
  {
    var workers: seq<Worker> := [];
    var i: u64 := 0;
    while i < cfg.numOfWorkers
      invariant i <= cfg.numOfWorkers && |workers| == i
      invariant forall k: u64 :: k < i ==> Hire(cfg, lookup, hireClock, k).Ok?
      invariant forall k: u64 :: k < i ==>
        workers[k] == Worker(Hire(cfg, lookup, hireClock, k).value, cfg.numOfIDsPerWorker)
    {
      var h := Hire(cfg, lookup, hireClock, i);
      if h.Err? {
        return Err(h.error);
      }
      workers := workers + [Worker(h.value, cfg.numOfIDsPerWorker)];
      i := i + 1;
    }
    return Ok(workers);
  }

  /** `doWork` (id_factory.go:127-139) on one schedule: at most `workNum`
      calls of the worker's `next` (its generator's `GetNextID`), stopping at
      the first error, each issued identifier pushed exactly once, in the
      order issued. */
  method DoWork(next: (Generator, Reading) -> StepResult, w: Worker, queue: PriorityQueue, clock: nat -> Reading)
    returns (g: Generator, q: PriorityQueue, err: Option<GenError>)
    ensures var run := RunWith(next, w.generator, clock, 0, w.workNum);
      g == run.state && q == queue + run.ids && err == run.error
  {
    ghost var whole := RunWith(next, w.generator, clock, 0, w.workNum);
    g := w.generator;
    q := queue;
    err := None;
    var i := 0;
    while i < w.workNum
      invariant 0 <= i && (i == 0 || i <= w.workNum)
      invariant q + RunWith(next, g, clock, i, w.workNum - i).ids == queue + whole.ids
      invariant RunWith(next, g, clock, i, w.workNum - i).state == whole.state
      invariant RunWith(next, g, clock, i, w.workNum - i).error == whole.error
      decreases w.workNum - i
    {
      var s := next(g, clock(i));
      if !s.Issued? {
        RunFailsFirst(next, g, clock, i, w.workNum - i);
        g := s.state;
        err := Some(StepError(s));
        return;
      }
      RunIssuedFirst(next, g, clock, i, w.workNum - i);
      q := q + [s.id];  // heap.Push appends before restoring heap order
      g := s.state;
      i := i + 1;
    }
  }

  /** The identifiers workers 0..k-1 push, one worker after another. */
  function Produced(next: (Generator, Reading) -> StepResult, workers: seq<Worker>,
                    clocks: nat -> (nat -> Reading), k: nat): (ids: seq<ID>)
    requires k <= |workers|
  {
    if k == 0 then []
    else
      var w := workers[k - 1];
      Produced(next, workers, clocks, k - 1) + RunWith(next, w.generator, clocks(k - 1), 0, w.workNum).ids
  }

  /** The producer half of `Produce` (id_factory.go:71-76) on one schedule:
      the workers run one after another on the shared queue. */
  method RunWorkers(next: (Generator, Reading) -> StepResult, f: Factory, ws: seq<Worker>,
                    clocks: nat -> (nat -> Reading))
    returns (r: Factory)
    ensures r == f.(idQueue := f.idQueue + Produced(next, ws, clocks, |ws|))
  {
    var q := f.idQueue;
    var k := 0;
    while k < |ws|
      invariant k <= |ws|
      invariant q == f.idQueue + Produced(next, ws, clocks, k)
    {
      var _, q', _ := DoWork(next, ws[k], q, clocks(k));
      q := q';
      k := k + 1;
    }
    r := f.(idQueue := q);
  }

  /** `Produce` (id_factory.go:66-77) on one schedule: hire the workers, then
      run each in turn on the shared queue. A hiring failure leaves the
      factory unchanged. */
  method Produce(next: (Generator, Reading) -> StepResult, f: Factory, lookup: nat -> Option<u16>,
                 hireClock: nat -> i64, clocks: nat -> (nat -> Reading))
    returns (r: Factory, workers: Result<seq<Worker>, GenError>)
    ensures workers.Err? ==> r == f
    ensures workers.Ok? ==>
      r == f.(idQueue := f.idQueue + Produced(next, workers.value, clocks, |workers.value|))
    ensures workers.Ok? <==>
      forall i: u64 :: i < f.factoryConfig.numOfWorkers ==> Hire(f.factoryConfig, lookup, hireClock, i).Ok?
    ensures workers.Ok? ==> |workers.value| == f.factoryConfig.numOfWorkers
    ensures workers.Ok? ==> forall i: u64 :: i < |workers.value| ==>
      workers.value[i] == Worker(Hire(f.factoryConfig, lookup, hireClock, i).value, f.factoryConfig.numOfIDsPerWorker)
  {
    workers := HireWorkers(f.factoryConfig, lookup, hireClock);
    if workers.Err? {
      return f, workers;
    }
    r := RunWorkers(next, f, workers.value, clocks);
  }

  /** The consumer's target: `NumOfWorkers * uint64(NumOfIDsPerWorker)` in
      uint64 arithmetic (id_factory.go:82). */
  function TotalWork(cfg: FactoryConfig): (t: u64)
    ensures cfg.numOfIDsPerWorker >= 0 && cfg.numOfWorkers * cfg.numOfIDsPerWorker < U64_LIMIT
      ==> t == cfg.numOfWorkers * cfg.numOfIDsPerWorker
  {
    WrapU64(cfg.numOfWorkers * U64Of(cfg.numOfIDsPerWorker))
  }

  /** `Consume` (id_factory.go:80-97) after the producers are done: pop a
      minimal entry while the queue is non-empty, counting pops, until the
      count equals the target. When the queue runs dry first, the source
      polls forever; the model stops there and reports `finished == false`. */
  method Consume(f: Factory) returns (delivered: seq<ID>, r: Factory, finished: bool)
    ensures r == f.(idQueue := r.idQueue)
    ensures multiset(delivered) + multiset(r.idQueue) == multiset(f.idQueue)
    ensures DeliveredInOrder(delivered)
    ensures var total, n := TotalWork(f.factoryConfig), |f.idQueue|;
      finished <==> (total == 0 && n == 0) || (1 <= total <= n)
    ensures finished ==> |delivered| == TotalWork(f.factoryConfig)
    ensures !finished ==> r.idQueue == [] && |delivered| == |f.idQueue|
    ensures forall i, y :: 0 <= i < |delivered| && y in r.idQueue ==> !Before(y, delivered[i])
  {
    var total := TotalWork(f.factoryConfig);
    delivered := [];
    var rest := f.idQueue;
    while true
      invariant multiset(delivered) + multiset(rest) == multiset(f.idQueue)
      invariant |delivered| + |rest| == |f.idQueue|
      invariant DeliveredInOrder(delivered)
      invariant forall i, y :: 0 <= i < |delivered| && y in rest ==> !Before(y, delivered[i])
      invariant total == 0 || |delivered| < total
      decreases |rest|
    {
      if |rest| > 0 {
        var x, rest' := ExtractMin(rest);
        forall y | y in rest'
          ensures y in rest
        {
          assert multiset(rest)[y] >= multiset(rest')[y] > 0;
        }
        delivered := delivered + [x];
        rest := rest';
      }
      if |delivered| == total {
        r := f.(idQueue := rest);
        finished := true;
        return;
      }
      if |rest| == 0 {
        r := f.(idQueue := rest);
        finished := false;
        return;
      }
    }
  }

  /** A worker hired from a template whose widths, with zeros replaced by
      the defaults, sum to at most 64 and leave room for the worker's
      machine id gets exactly that repaired layout and id, and its generator
      is packable. */
  lemma HiredPackable(cfg: FactoryConfig, lookup: nat -> Option<u16>, hireClock: nat -> i64, i: u64)
    requires var c := cfg.idConfig;
      && RepairedWidth(c.timeBit, TIMEBIT) + RepairedWidth(c.machineBit, MACHINEBIT)
         + RepairedWidth(c.sequenceBit, SEQUENCEBIT) <= 64
      && WorkerConfig(cfg, i).machineID < Pow2(RepairedWidth(c.machineBit, MACHINEBIT))
    requires Hire(cfg, lookup, hireClock, i).Ok?
    ensures var g, c := Hire(cfg, lookup, hireClock, i).value, cfg.idConfig;
      && Packable(g)
      && g.machineBit == RepairedWidth(c.machineBit, MACHINEBIT)
      && g.sequenceBit == RepairedWidth(c.sequenceBit, SEQUENCEBIT)
      && g.machineID == WorkerConfig(cfg, i).machineID
  {
    NewIDGeneratorRepairs(Some(WorkerConfig(cfg, i)), lookup(i).value, hireClock(i));
  }

  /** The identifiers in ids all decode, under one layout, to the machine id
      of one of workers 0..k-1. */
  ghost predicate FromWorkers(ids: seq<ID>, ws: seq<Worker>, k: nat, mb: nat, sb: nat)
    requires k <= |ws|
  {
    forall i :: 0 <= i < |ids| ==>
      exists j :: 0 <= j < k && Unpack(ids[i].idNum, mb, sb).machineID == ws[j].generator.machineID
  }

  /** Every identifier workers 0..k-1 push decodes to the machine id of one
      of them. */
  lemma {:induction false} ProducedMachines(next: (Generator, Reading) -> StepResult, ws: seq<Worker>,
                                            clocks: nat -> (nat -> Reading), k: nat, mb: nat, sb: nat)
    requires StepsForward(next) && k <= |ws|
    requires forall w :: w in ws ==> Packable(w.generator) && w.generator.machineBit == mb && w.generator.sequenceBit == sb
    ensures FromWorkers(Produced(next, ws, clocks, k), ws, k, mb, sb)
  {
    if k > 0 {
      var w := ws[k - 1];
      assert w in ws;
      ProducedMachines(next, ws, clocks, k - 1, mb, sb);
      RunIdsCarryMachine(next, w.generator, clocks(k - 1), 0, w.workNum);
      var before, run := Produced(next, ws, clocks, k - 1), RunWith(next, w.generator, clocks(k - 1), 0, w.workNum).ids;
      assert AllFromMachine(run, mb, sb, w.generator.machineID);
      var ids := Produced(next, ws, clocks, k);
      assert ids == before + run;
      forall i | 0 <= i < |ids|
        ensures exists j :: 0 <= j < k && Unpack(ids[i].idNum, mb, sb).machineID == ws[j].generator.machineID
      {
        if i < |before| {
          assert ids[i] == before[i];
          var j :| 0 <= j < k - 1 && Unpack(before[i].idNum, mb, sb).machineID == ws[j].generator.machineID;
          assert Unpack(ids[i].idNum, mb, sb).machineID == ws[j].generator.machineID;
        } else {
          assert ids[i] == run[i - |before|];
          assert Unpack(ids[i].idNum, mb, sb).machineID == ws[k - 1].generator.machineID;
        }
      }
    }
  }

  /** Appending a run of distinct identifiers that all decode to machine m
      to identifiers that are distinct and decode elsewhere keeps them
      distinct. */
  lemma AppendRunDistinct(before: seq<ID>, run: seq<ID>, mb: nat, sb: nat, m: nat)
    requires DistinctValues(before) && DistinctValues(run)
    requires forall i :: 0 <= i < |before| ==> Unpack(before[i].idNum, mb, sb).machineID != m
    requires AllFromMachine(run, mb, sb, m)
    ensures DistinctValues(before + run)
  {
    var ids := before + run;
    forall i, j | 0 <= i < j < |ids|
      ensures ids[i].idNum != ids[j].idNum
    {
      if j < |before| {
        assert ids[i] == before[i] && ids[j] == before[j];
      } else if i >= |before| {
        assert ids[i] == run[i - |before|] && ids[j] == run[j - |before|];
      } else {
        assert ids[i] == before[i] && ids[j] == run[j - |before|];
      }
    }
  }

  /** Workers with one layout and pairwise different machine ids never push
      the same identifier value twice: not within one worker's run, and
      not across workers. */
  lemma {:induction false} ProducedDistinct(next: (Generator, Reading) -> StepResult, ws: seq<Worker>,
                                            clocks: nat -> (nat -> Reading), k: nat, mb: nat, sb: nat)
    requires StepsForward(next) && k <= |ws|
    requires forall w :: w in ws ==> Packable(w.generator) && w.generator.machineBit == mb && w.generator.sequenceBit == sb
    requires forall a, b :: 0 <= a < b < |ws| ==> ws[a].generator.machineID != ws[b].generator.machineID
    ensures DistinctValues(Produced(next, ws, clocks, k))
  {
    if k > 0 {
      var w := ws[k - 1];
      assert w in ws;
      var before, run := Produced(next, ws, clocks, k - 1), RunWith(next, w.generator, clocks(k - 1), 0, w.workNum).ids;
      ProducedDistinct(next, ws, clocks, k - 1, mb, sb);
      ProducedMachines(next, ws, clocks, k - 1, mb, sb);
      RunIdsUnique(next, w.generator, clocks(k - 1), 0, w.workNum);
      RunIdsCarryMachine(next, w.generator, clocks(k - 1), 0, w.workNum);
      forall i | 0 <= i < |before|
        ensures Unpack(before[i].idNum, mb, sb).machineID != w.generator.machineID
      {
        var j :| 0 <= j < k - 1 && Unpack(before[i].idNum, mb, sb).machineID == ws[j].generator.machineID;
      }
      AppendRunDistinct(before, run, mb, sb, w.generator.machineID);
    }
  }

  /** The factory's promise for hired workers: when the template's widths,
      with zeros replaced by the defaults, sum to at most 64, and the worker
      ids are pairwise different and fit the machine width, every identifier
      produced is unique. */
  lemma HiredIdsDistinct(next: (Generator, Reading) -> StepResult, cfg: FactoryConfig,
                         lookup: nat -> Option<u16>, hireClock: nat -> i64,
                         ws: seq<Worker>, clocks: nat -> (nat -> Reading))
    requires StepsForward(next)
    requires var c := cfg.idConfig;
      && RepairedWidth(c.timeBit, TIMEBIT) + RepairedWidth(c.machineBit, MACHINEBIT)
         + RepairedWidth(c.sequenceBit, SEQUENCEBIT) <= 64
    requires forall i: u64 :: i < |ws| ==>
      WorkerConfig(cfg, i).machineID < Pow2(RepairedWidth(cfg.idConfig.machineBit, MACHINEBIT))
    requires forall i: u64, j: u64 :: i < j < |ws| ==> WorkerConfig(cfg, i).machineID != WorkerConfig(cfg, j).machineID
    requires |ws| <= cfg.numOfWorkers
    requires forall i: u64 :: i < |ws| ==>
      Hire(cfg, lookup, hireClock, i).Ok? && ws[i] == Worker(Hire(cfg, lookup, hireClock, i).value, cfg.numOfIDsPerWorker)
    ensures DistinctValues(Produced(next, ws, clocks, |ws|))
  {
    var mb, sb := RepairedWidth(cfg.idConfig.machineBit, MACHINEBIT), RepairedWidth(cfg.idConfig.sequenceBit, SEQUENCEBIT);
    forall w | w in ws
      ensures Packable(w.generator) && w.generator.machineBit == mb && w.generator.sequenceBit == sb
    {
      var i :| 0 <= i < |ws| && ws[i] == w;
      HiredPackable(cfg, lookup, hireClock, i);
    }
    forall a, b | 0 <= a < b < |ws|
      ensures ws[a].generator.machineID != ws[b].generator.machineID
    {
      HiredPackable(cfg, lookup, hireClock, a);
      HiredPackable(cfg, lookup, hireClock, b);
    }
    ProducedDistinct(next, ws, clocks, |ws|, mb, sb);
  }

  /** Workers 0..k-1 with a quota of n each push at most k * n identifiers,
      and exactly k * n when none of their runs stops on an error. */
  lemma {:induction false} ProducedCount(next: (Generator, Reading) -> StepResult, ws: seq<Worker>,
                                         clocks: nat -> (nat -> Reading), k: nat, n: nat)
    requires k <= |ws|
    requires forall w :: w in ws ==> w.workNum == n
    ensures |Produced(next, ws, clocks, k)| <= k * n
    ensures |Produced(next, ws, clocks, k)| == k * n <==>
      forall j :: 0 <= j < k ==> RunWith(next, ws[j].generator, clocks(j), 0, n).error.None?
  {
    if k > 0 {
      var w := ws[k - 1];
      assert w in ws;
      ProducedCount(next, ws, clocks, k - 1, n);
      RunCounts(next, w.generator, clocks(k - 1), 0, n);
      assert k * n == (k - 1) * n + n;
    }
  }

  /** With the queue empty before the workers run and a quota product that
      fits 64 bits, the consumer's stopping condition (see `Consume`) holds
      exactly when no worker's run stopped on an error; otherwise the queue
      holds fewer than `TotalWork` identifiers and the consumer waits
      forever (id_factory.go:80-97). */
  lemma ConsumerFinishesIffNoWorkerFails(next: (Generator, Reading) -> StepResult, cfg: FactoryConfig,
                                         ws: seq<Worker>, clocks: nat -> (nat -> Reading))
    requires |ws| == cfg.numOfWorkers && cfg.numOfIDsPerWorker >= 0
    requires cfg.numOfWorkers * cfg.numOfIDsPerWorker < U64_LIMIT
    requires forall w :: w in ws ==> w.workNum == cfg.numOfIDsPerWorker
    ensures var total, n := TotalWork(cfg), |Produced(next, ws, clocks, |ws|)|;
      ((total == 0 && n == 0) || (1 <= total <= n)) <==>
      forall j :: 0 <= j < |ws| ==> RunWith(next, ws[j].generator, clocks(j), 0, cfg.numOfIDsPerWorker).error.None?
  {
    ProducedCount(next, ws, clocks, |ws|, cfg.numOfIDsPerWorker);
  }
}
