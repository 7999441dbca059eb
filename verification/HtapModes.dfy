/**
  Scheduling modes of the HTAP driver and the resources they move
  (apps/benchmarks/htap/queries/olap-sequence.cpp, core/oltp/include/oltp.hpp,
  core/oltp/lib/execution/worker-pool.cpp).
 */
module HtapModes {
  import opened Basics

  datatype Mode = S1_COLOCATED | S2_ISOLATED | S3_IS | S3_NI | ADAPTIVE | CUSTOM

  predicate Concrete(m: Mode) {
    m != ADAPTIVE && m != CUSTOM
  }

  datatype Config = Config(oltpScaleThreshold: nat, collocatedWorkerThreshold: nat, adaptivityRatio: real)

  /** Where scale_down begins in the list of cores, and how far behind a core its hyper-thread sibling is. */
  datatype Topology = Topology(firstCore: nat, htPair: nat)

  /** A worker_id_t is 8 bits wide: thresholds are truncated when they reach the OLTP engine. */
  function WorkerId(n: nat): nat { n % 256 }

  /**
    The static flag that says which way the next migration goes, the static counter of migrations, the
    worker pool's elastic set, and the cores whose workers have been told to terminate.
   */
  datatype Engine = Engine(workersInHome: bool, workerNum: int, elasticSet: seq<nat>, terminated: set<nat>)

  const START := Engine(false, 0, [], {})

  /** One OLTP::migrate_worker call: half as many moves as workers asked for, then the direction flips. */
  function Migrated(e: Engine, numWorkers: nat): Engine {
    e.(workerNum := e.workerNum + (if e.workersInHome then -(WorkerId(numWorkers) / 2) else WorkerId(numWorkers) / 2),
       workersInHome := !e.workersInHome)
  }

  /** The first `k` cores scale_down visits, each followed by its sibling. */
  function Pairs(topo: Topology, k: nat): seq<nat> {
    if k == 0 then []
    else Pairs(topo, k - 1) + [topo.firstCore + k - 1, topo.firstCore + k - 1 + topo.htPair]
  }

  function CoreSet(cores: seq<nat>): set<nat> { set c | c in cores }

  lemma NoPairs(topo: Topology)
    ensures Pairs(topo, 0) == [] && CoreSet([]) == {}
  {
  }

  lemma PairsStep(topo: Topology, k: nat)
    ensures var core, sibling := topo.firstCore + k, topo.firstCore + k + topo.htPair;
            && Pairs(topo, k + 1) == Pairs(topo, k) + [core, sibling]
            && CoreSet(Pairs(topo, k + 1)) == CoreSet(Pairs(topo, k)) + {core, sibling}
  {
  }

  /** The cores scale_down terminates: pairs up to the number asked for, or, when that is odd and never met, to the loop's end. */
  function Victims(topo: Topology, numWorkers: nat): seq<nat> {
    var n := WorkerId(numWorkers);
    Pairs(topo, if n % 2 == 0 then n / 2 else n + 1)
  }

  function ScaledDown(e: Engine, topo: Topology, numWorkers: nat): Engine {
    e.(elasticSet := e.elasticSet + Victims(topo, numWorkers),
       terminated := e.terminated + CoreSet(Victims(topo, numWorkers)))
  }

  /** scale_back forgets the elastic set.  It resumes paused workers only, so terminated ones stay terminated. */
  function ScaledBack(e: Engine): Engine {
    e.(elasticSet := [])
  }

  /** What a migration amounts to: the resources of the old mode are given back, then those of the new one taken. */
  function Moved(e: Engine, curr: Mode, to: Mode, conf: Config, topo: Topology): Engine {
    if curr == to then e
    else
      var left := match curr
                  case S1_COLOCATED => Migrated(e, conf.collocatedWorkerThreshold)
                  case S3_NI => ScaledBack(e)
                  case _ => e;
      match to
      case S1_COLOCATED => Migrated(left, conf.collocatedWorkerThreshold)
      case S3_NI => ScaledDown(left, topo, conf.oltpScaleThreshold)
      case _ => left
  }

  class Oltp {
    const topo: Topology
    /** The static flag of OLTP::migrate_worker. */
    var workersInHome: bool
    /** The static counter of WorkerPool::migrate_worker. */
    var workerNum: int
    /** The worker pool's elastic set. */
    var elasticSet: seq<nat>
    /** Cores whose worker has its terminate flag set. */
    var terminated: set<nat>

    function State(): Engine
      reads this
    {
      Engine(workersInHome, workerNum, elasticSet, terminated)
    }

    constructor (topo: Topology)
      ensures State() == START && this.topo == topo
    {
      this.topo := topo;
      workersInHome, workerNum, elasticSet, terminated := false, 0, [], {};
    }

    method MigrateWorker(numWorkers: nat)
      modifies this
      ensures State() == Migrated(old(State()), numWorkers)
    {
      var i := 0;
      while i < WorkerId(numWorkers) / 2
        invariant 0 <= i <= WorkerId(numWorkers) / 2
        invariant workersInHome == old(workersInHome)
        invariant elasticSet == old(elasticSet) && terminated == old(terminated)
        invariant workerNum == old(workerNum) + (if workersInHome then -i else i)
      {
        if !workersInHome {
          workerNum := workerNum + 1;
        } else {
          workerNum := workerNum - 1;
        }
        i := i + 1;
      }
      workersInHome := !workersInHome;
    }

    method ScaleDown(numWorkers: nat)
      modifies this
      ensures State() == ScaledDown(old(State()), topo, numWorkers)
    {
      hide CoreSet, Pairs;
      var n := WorkerId(numWorkers);
      var ctr, ci := 0, 0;
      NoPairs(topo);
      while ci <= n && ctr != n
        invariant 0 <= ci <= n + 1 && ctr == 2 * ci
        invariant n % 2 == 0 ==> ctr <= n
        invariant workersInHome == old(workersInHome) && workerNum == old(workerNum)
        invariant elasticSet == old(elasticSet) + Pairs(topo, ci)
        invariant terminated == old(terminated) + CoreSet(Pairs(topo, ci))
        decreases n + 1 - ci
      {
        var core, sibling := topo.firstCore + ci, topo.firstCore + ci + topo.htPair;
        PairsStep(topo, ci);
        terminated := terminated + {core, sibling};
        elasticSet := elasticSet + [core, sibling];
        ctr, ci := ctr + 2, ci + 1;
      }
    }

    method ScaleUp(numWorkers: nat)
      modifies this
      ensures State() == ScaledBack(old(State()))
    {
      elasticSet := [];
    }

    /**
      OLAPSequence::migrateState.  Between concrete modes the assertion at its end is never reached,
      the old mode's resources are given back and the new one's taken, and what the engine keeps
      account of follows the mode.
     */
    method MigrateState(curr: Mode, to: Mode, conf: Config) returns (now: Mode)
      requires Concrete(curr) && Concrete(to) && InStep(curr, State(), conf, topo)
      modifies this
      ensures now == to && State() == Moved(old(State()), curr, to, conf, topo)
      ensures InStep(to, State(), conf, topo)
    {
      MovedInStep(State(), curr, to, conf, topo);
      if curr == to {
        return curr;
      }
      if (curr == S2_ISOLATED && to == S3_IS) || (to == S2_ISOLATED && curr == S3_IS) {
        return to;
      }
      if (curr == S2_ISOLATED || curr == S3_IS) && (to == S3_NI || to == S1_COLOCATED) {
        if to == S1_COLOCATED {
          MigrateWorker(conf.collocatedWorkerThreshold);
        } else {
          ScaleDown(conf.oltpScaleThreshold);
        }
      } else if (curr == S3_NI || curr == S1_COLOCATED) && (to == S2_ISOLATED || to == S3_IS) {
        if curr == S1_COLOCATED {
          MigrateWorker(conf.collocatedWorkerThreshold);
        } else {
          ScaleUp(conf.oltpScaleThreshold);
        }
      } else if curr == S3_NI && to == S1_COLOCATED {
        ScaleUp(conf.oltpScaleThreshold);
        MigrateWorker(conf.collocatedWorkerThreshold);
      } else if curr == S1_COLOCATED && to == S3_NI {
        MigrateWorker(conf.collocatedWorkerThreshold);
        ScaleDown(conf.oltpScaleThreshold);
      } else {
        assert false;
      }
      return to;
    }

    /** Any sequence of migrations from the isolated start. */
    method MigrateThrough(targets: seq<Mode>, conf: Config) returns (now: Mode)
      requires State() == START && AllConcrete(targets)
      modifies this
      ensures now == ModeAfter(targets) && State() == After(targets, conf, topo)
      ensures InStep(now, State(), conf, topo)
      ensures terminated != {} <==> S3_NI in targets && conf.oltpScaleThreshold % 256 != 0
    {
      now := S2_ISOLATED;
      var i := 0;
      while i < |targets|
        invariant 0 <= i <= |targets| && now == ModeAfter(targets[..i]) && Concrete(now)
        invariant State() == After(targets[..i], conf, topo) && InStep(now, State(), conf, topo)
      {
        assert targets[..i + 1][..i] == targets[..i];
        now := MigrateState(now, targets[i], conf);
        i := i + 1;
      }
      assert targets[..i] == targets;
      OffExactly(targets, conf, topo);
    }
  }

  /** What the engine keeps account of: the counter is raised exactly in S1_COLOCATED, the elastic set filled exactly in S3_NI. */
  predicate InStep(m: Mode, e: Engine, conf: Config, topo: Topology) {
    && e.workersInHome == (m == S1_COLOCATED)
    && e.workerNum == (if m == S1_COLOCATED then WorkerId(conf.collocatedWorkerThreshold) / 2 else 0)
    && e.elasticSet == (if m == S3_NI then Victims(topo, conf.oltpScaleThreshold) else [])
  }

  lemma MovedInStep(e: Engine, curr: Mode, to: Mode, conf: Config, topo: Topology)
    requires Concrete(curr) && Concrete(to) && InStep(curr, e, conf, topo)
    ensures InStep(to, Moved(e, curr, to, conf, topo), conf, topo)
  {
  }

  /** A migration terminates cores exactly when it goes to S3_NI, and never brings one back. */
  lemma MovedTerminates(e: Engine, curr: Mode, to: Mode, conf: Config, topo: Topology)
    ensures Moved(e, curr, to, conf, topo).terminated
         == e.terminated + if to == S3_NI && curr != to then CoreSet(Victims(topo, conf.oltpScaleThreshold)) else {}
  {
  }

  /** In the colocated mode the counter is half the configured number exactly when that fits a worker id. */
  lemma HalfAwayExactly(e: Engine, conf: Config, topo: Topology)
    requires InStep(S1_COLOCATED, e, conf, topo)
    ensures e.workerNum == conf.collocatedWorkerThreshold / 2 <==> conf.collocatedWorkerThreshold < 256
  {
    var t := conf.collocatedWorkerThreshold;
    assert t == t / 256 * 256 + t % 256;
    if t >= 256 {
      assert t >= 256 + t % 256;
    }
  }

  // ----- how many cores are given up

  lemma {:induction false} PairsSize(topo: Topology, k: nat)
    ensures |Pairs(topo, k)| == 2 * k
  {
    if k > 0 { PairsSize(topo, k - 1); }
  }

  lemma VictimsSize(topo: Topology, numWorkers: nat)
    ensures var n := WorkerId(numWorkers);
            |Victims(topo, numWorkers)| == if n % 2 == 0 then n else 2 * (n + 1)
    ensures |Victims(topo, numWorkers)| == numWorkers <==> numWorkers % 2 == 0 && numWorkers < 256
  {
    hide Pairs;
    var n := WorkerId(numWorkers);
    PairsSize(topo, if n % 2 == 0 then n / 2 else n + 1);
  }

  /** In S3_NI as many cores are in the elastic set as configured exactly for even numbers that fit a worker id. */
  lemma GivenUpExactly(e: Engine, conf: Config, topo: Topology)
    requires InStep(S3_NI, e, conf, topo)
    ensures |e.elasticSet| == conf.oltpScaleThreshold
       <==> conf.oltpScaleThreshold % 2 == 0 && conf.oltpScaleThreshold < 256
  {
    hide Victims;
    VictimsSize(topo, conf.oltpScaleThreshold);
  }

  /** Asked for three cores it gives up eight, and asked for 258 it gives up two. */
  lemma WrongNumbers(topo: Topology)
    ensures |Victims(topo, 3)| == 8 && |Victims(topo, 258)| == 2
  {
    hide Victims;
    VictimsSize(topo, 3);
    VictimsSize(topo, 258);
  }

  /** The cores are two runs of the same length, one at the first core and one at its sibling. */
  lemma {:induction false} PairsMembers(topo: Topology, k: nat, c: nat)
    ensures c in CoreSet(Pairs(topo, k)) <==>
              || topo.firstCore <= c < topo.firstCore + k
              || topo.firstCore + topo.htPair <= c < topo.firstCore + topo.htPair + k
  {
    if k > 0 {
      PairsMembers(topo, k - 1, c);
      PairsStep(topo, k - 1);
    }
  }

  /** The two runs overlap once there are more pairs than siblings are apart. */
  lemma {:induction false} DistinctCores(topo: Topology, k: nat)
    ensures |CoreSet(Pairs(topo, k))| == k + Min(k, topo.htPair)
  {
    hide CoreSet, Pairs;
    NoPairs(topo);
    if k > 0 {
      var before := CoreSet(Pairs(topo, k - 1));
      var core, sibling := topo.firstCore + k - 1, topo.firstCore + k - 1 + topo.htPair;
      DistinctCores(topo, k - 1);
      PairsStep(topo, k - 1);
      PairsMembers(topo, k - 1, core);
      PairsMembers(topo, k - 1, sibling);
      AddTwo(before, core, sibling);
    }
  }

  lemma AddTwo(s: set<nat>, a: nat, b: nat)
    requires b !in s
    ensures |s + {a, b}| == |s| + if a in s || a == b then 1 else 2
  {
    assert s + {a, b} == if a in s || a == b then s + {b} else s + {a} + {b};
  }

  /**
    A run that has been in S3_NI has terminated as many different cores as configured exactly for even
    numbers that fit a worker id and a socket's pairs, or by a coincidence of overrun and overlap.
   */
  lemma TerminatedExactly(targets: seq<Mode>, conf: Config, topo: Topology)
    requires AllConcrete(targets) && S3_NI in targets
    ensures var t := conf.oltpScaleThreshold;
            |After(targets, conf, topo).terminated| == t <==>
              || (t % 2 == 0 && t < 256 && t / 2 <= topo.htPair)
              || (t == 511 && topo.htPair == 255)
  {
    hide After, Pairs, CoreSet;
    TerminatedAfter(targets, conf, topo);
    var n := WorkerId(conf.oltpScaleThreshold);
    DistinctCores(topo, if n % 2 == 0 then n / 2 else n + 1);
  }

  // ----- how many the queries take

  function Flatten(nodes: seq<seq<nat>>): seq<nat>
    decreases nodes
  {
    if nodes == [] then [] else Flatten(nodes[..|nodes| - 1]) + nodes[|nodes| - 1]
  }

  /** Each core followed by its sibling. */
  function WithSiblings(cores: seq<nat>, htPair: nat): seq<nat>
    decreases cores
  {
    if cores == [] then []
    else WithSiblings(cores[..|cores| - 1], htPair) + [cores[|cores| - 1], cores[|cores| - 1] + htPair]
  }

  lemma {:induction false} SiblingsSize(cores: seq<nat>, htPair: nat)
    ensures |WithSiblings(cores, htPair)| == 2 * |cores|
    decreases cores
  {
    if cores != [] { SiblingsSize(cores[..|cores| - 1], htPair); }
  }

  lemma {:induction false} FlattenPrefix(nodes: seq<seq<nat>>, i: nat)
    requires i <= |nodes|
    ensures Flatten(nodes[..i]) <= Flatten(nodes)
    ensures i < |nodes| ==> Flatten(nodes[..i]) + nodes[i] <= Flatten(nodes)
    decreases nodes
  {
    if nodes != [] {
      var init := nodes[..|nodes| - 1];
      if i < |nodes| {
        assert nodes[..i] == init[..i];
        FlattenPrefix(init, i);
      } else {
        assert nodes[..i] == nodes;
      }
    }
  }

  lemma {:induction false} SiblingsConcat(a: seq<nat>, b: seq<nat>, htPair: nat)
    ensures WithSiblings(a + b, htPair) == WithSiblings(a, htPair) + WithSiblings(b, htPair)
    decreases b
  {
    if b == [] {
      assert a + b == a;
    } else {
      var init := b[..|b| - 1];
      SiblingsConcat(a, init, htPair);
      assert (a + b)[..|a + b| - 1] == a + init;
    }
  }

  /** The inner loop: pairs of one node until the threshold is reached. */
  method TakeFromNode(ids: seq<nat>, taken: nat, threshold: nat, htPair: nat) returns (cores: seq<nat>, k: nat)
    requires taken < threshold
    ensures k % 2 == taken % 2 && taken <= k && (k - taken) / 2 <= |ids|
    ensures cores == WithSiblings(ids[..(k - taken) / 2], htPair)
    ensures if k < threshold then (k - taken) / 2 == |ids| else k < threshold + 2
  {
    cores, k := [], taken;
    var j := 0;
    while j < |ids| && k < threshold
      invariant 0 <= j <= |ids| && k == taken + 2 * j && k < threshold + 2
      invariant cores == WithSiblings(ids[..j], htPair)
    {
      assert ids[..j + 1][..j] == ids[..j];
      cores := cores + [ids[j], ids[j] + htPair];
      k, j := k + 2, j + 1;
    }
  }

  /**
    OLAPSequence::getElasticResources, the cores taken from the OLTP nodes: pairs from the front until
    the threshold is reached.  The assertion at its end holds exactly for even thresholds that the nodes
    can meet.
   */
  method ElasticResources(nodes: seq<seq<nat>>, threshold: nat, htPair: nat) returns (cores: seq<nat>, asserted: bool)
    ensures var n := Min(|Flatten(nodes)|, CeilDiv(threshold, 2));
            cores == WithSiblings(Flatten(nodes)[..n], htPair) && |cores| == 2 * n
    ensures asserted <==> |cores| == threshold
    ensures asserted <==> threshold % 2 == 0 && threshold <= 2 * |Flatten(nodes)|
  {
    hide Flatten, WithSiblings;
    ghost var all, n := Flatten(nodes), 0;
    NothingTaken(htPair);
    cores := [];
    var k, i := 0, 0;
    assert nodes[..0] == [] && all[..0] == [];
    while i < |nodes| && k < threshold
      invariant 0 <= i <= |nodes| && k == 2 * n && n <= |all| && k < threshold + 2
      invariant k < threshold ==> n == |Flatten(nodes[..i])|
      invariant cores == WithSiblings(all[..n], htPair)
    {
      FlattenPrefix(nodes, i);
      var more;
      ghost var before, ids := n, nodes[i];
      more, k := TakeFromNode(nodes[i], k, threshold, htPair);
      n := k / 2;
      SiblingsConcat(all[..before], ids[..n - before], htPair);
      assert all[..n] == all[..before] + ids[..n - before];
      cores := cores + more;
      FlattenNext(nodes, i);
      i := i + 1;
    }
    assert nodes[..|nodes|] == nodes;
    SiblingsSize(all[..n], htPair);
    asserted := k == threshold;
  }

  lemma NothingTaken(htPair: nat)
    ensures Flatten([]) == [] && WithSiblings([], htPair) == []
  {
  }

  lemma FlattenNext(nodes: seq<seq<nat>>, i: nat)
    requires i < |nodes|
    ensures Flatten(nodes[..i + 1]) == Flatten(nodes[..i]) + nodes[i]
  {
    assert nodes[..i + 1][..i] == nodes[..i];
  }

  // ----- runs from the isolated start

  predicate AllConcrete(targets: seq<Mode>) {
    forall i :: 0 <= i < |targets| ==> Concrete(targets[i])
  }

  function ModeAfter(targets: seq<Mode>): Mode {
    if targets == [] then S2_ISOLATED else targets[|targets| - 1]
  }

  function After(targets: seq<Mode>, conf: Config, topo: Topology): Engine
    decreases targets
  {
    if targets == [] then START
    else
      var init := targets[..|targets| - 1];
      Moved(After(init, conf, topo), ModeAfter(init), ModeAfter(targets), conf, topo)
  }

  lemma {:induction false} AfterInStep(targets: seq<Mode>, conf: Config, topo: Topology)
    requires AllConcrete(targets)
    ensures InStep(ModeAfter(targets), After(targets, conf, topo), conf, topo)
    decreases targets
  {
    if targets != [] {
      var init := targets[..|targets| - 1];
      AfterInStep(init, conf, topo);
      assert Concrete(ModeAfter(targets));
      MovedInStep(After(init, conf, topo), ModeAfter(init), ModeAfter(targets), conf, topo);
    }
  }

  /** The cores a run has terminated: the same ones on every visit to S3_NI, and none is ever brought back. */
  lemma {:induction false} TerminatedAfter(targets: seq<Mode>, conf: Config, topo: Topology)
    requires AllConcrete(targets)
    ensures After(targets, conf, topo).terminated
         == if S3_NI in targets then CoreSet(Victims(topo, conf.oltpScaleThreshold)) else {}
    decreases targets
  {
    hide Victims, CoreSet;
    if targets != [] {
      var init, last := targets[..|targets| - 1], targets[|targets| - 1];
      TerminatedAfter(init, conf, topo);
      assert targets == init + [last];
      assert ModeAfter(init) == S3_NI ==> S3_NI in init;
    }
  }

  lemma NoVictims(topo: Topology, numWorkers: nat)
    ensures CoreSet(Victims(topo, numWorkers)) == {} <==> numWorkers % 256 == 0
    ensures Victims(topo, numWorkers) == [] <==> numWorkers % 256 == 0
  {
    var n := WorkerId(numWorkers);
    if n > 0 {
      var k := if n % 2 == 0 then n / 2 else n + 1;
      assert topo.firstCore + k - 1 in Victims(topo, numWorkers);
      assert topo.firstCore + k - 1 in CoreSet(Victims(topo, numWorkers));
    }
  }

  /** After any run, cores are off exactly when it has been in S3_NI and the threshold does not truncate to nothing. */
  lemma OffExactly(targets: seq<Mode>, conf: Config, topo: Topology)
    requires AllConcrete(targets)
    ensures After(targets, conf, topo).terminated != {} <==> S3_NI in targets && conf.oltpScaleThreshold % 256 != 0
  {
    hide Victims, CoreSet, After;
    TerminatedAfter(targets, conf, topo);
    NoVictims(topo, conf.oltpScaleThreshold);
  }

  /** Cores are off if and only if the mode calls for it. */
  predicate OffAsModeSays(targets: seq<Mode>, conf: Config, topo: Topology) {
    After(targets, conf, topo).terminated != {} <==> ModeAfter(targets) == S3_NI
  }

  /** Once in S3_NI, always in S3_NI. */
  predicate NeverLeft(targets: seq<Mode>) {
    forall i, j :: 0 <= i < j < |targets| && targets[i] == S3_NI ==> targets[j] == S3_NI
  }

  /**
    Throughout a run cores are off as the mode says exactly when S3_NI is never left, and never entered
    with a threshold that truncates to nothing.
   */
  lemma {:induction false} OffOnlyInMode(targets: seq<Mode>, conf: Config, topo: Topology)
    requires AllConcrete(targets)
    ensures (forall k :: 0 <= k <= |targets| ==> OffAsModeSays(targets[..k], conf, topo))
       <==> NeverLeft(targets) && (S3_NI in targets ==> conf.oltpScaleThreshold % 256 != 0)
  {
    hide After;
    forall k | 0 <= k <= |targets|
      ensures OffAsModeSays(targets[..k], conf, topo) <==>
                ((S3_NI in targets[..k] && conf.oltpScaleThreshold % 256 != 0) <==> ModeAfter(targets[..k]) == S3_NI)
    {
      OffExactly(targets[..k], conf, topo);
    }
    if NeverLeft(targets) && (S3_NI in targets ==> conf.oltpScaleThreshold % 256 != 0) {
      forall k | 0 <= k <= |targets| ensures OffAsModeSays(targets[..k], conf, topo) {
        if S3_NI in targets[..k] {
          var i :| 0 <= i < k && targets[i] == S3_NI;
          assert ModeAfter(targets[..k]) == targets[k - 1] == S3_NI;
        }
      }
    } else if i, j :| 0 <= i < j < |targets| && targets[i] == S3_NI && targets[j] != S3_NI {
      LeftOrNever(targets, conf, topo, i);
      LeftOrNever(targets, conf, topo, j);
      assert targets[..j + 1][i] == S3_NI;
    } else {
      var i :| 0 <= i < |targets| && targets[i] == S3_NI;
      LeftOrNever(targets, conf, topo, i);
    }
  }

  lemma LeftOrNever(targets: seq<Mode>, conf: Config, topo: Topology, k: nat)
    requires AllConcrete(targets) && k < |targets|
    ensures OffAsModeSays(targets[..k + 1], conf, topo) <==>
              ((S3_NI in targets[..k + 1] && conf.oltpScaleThreshold % 256 != 0) <==> targets[k] == S3_NI)
  {
    OffExactly(targets[..k + 1], conf, topo);
  }

  /** The shortest run that breaks it: back in S2_ISOLATED the elastic set is empty and its cores are still off. */
  lemma CoresStayOff(conf: Config, topo: Topology)
    requires conf.oltpScaleThreshold % 256 != 0
    ensures var e := After([S3_NI, S2_ISOLATED], conf, topo);
            && InStep(S2_ISOLATED, e, conf, topo) && e.elasticSet == []
            && topo.firstCore in e.terminated && topo.firstCore + topo.htPair in e.terminated
            && !OffAsModeSays([S3_NI, S2_ISOLATED], conf, topo)
  {
    var run := [S3_NI, S2_ISOLATED];
    AfterInStep(run, conf, topo);
    TerminatedAfter(run, conf, topo);
    assert S3_NI == run[0];
    var n := WorkerId(conf.oltpScaleThreshold);
    FirstPair(topo, if n % 2 == 0 then n / 2 else n + 1);
  }

  lemma {:induction false} FirstPair(topo: Topology, k: nat)
    requires k > 0
    ensures topo.firstCore in Pairs(topo, k) && topo.firstCore + topo.htPair in Pairs(topo, k)
  {
    if k > 1 { FirstPair(topo, k - 1); }
  }

  /**
    A second run assumes the isolated start.  What the engine keeps account of agrees with that unless
    the first ended in S1_COLOCATED or in S3_NI; the engine itself is as at the start only if it was
    never in S3_NI either, thresholds that truncate to nothing aside.
   */
  lemma NextRunInStep(targets: seq<Mode>, conf: Config, topo: Topology)
    requires AllConcrete(targets)
    ensures var e, m := After(targets, conf, topo), ModeAfter(targets);
            && (InStep(S2_ISOLATED, e, conf, topo) <==>
                  m != S1_COLOCATED && (m == S3_NI ==> conf.oltpScaleThreshold % 256 == 0))
            && (e == START <==> m != S1_COLOCATED && (S3_NI in targets ==> conf.oltpScaleThreshold % 256 == 0))
  {
    hide After, Victims, CoreSet;
    AfterInStep(targets, conf, topo);
    TerminatedAfter(targets, conf, topo);
    NoVictims(topo, conf.oltpScaleThreshold);
  }
}
