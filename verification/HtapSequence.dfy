/**
  A run of the HTAP query sequence (OLAPSequence::setupAdaptiveSequence and execute in
  apps/benchmarks/htap/queries/olap-sequence.cpp).  Clock readings and freshness ratios
  are arguments; the run is recorded as a trace of snapshots, ETLs and queries.
 */
module HtapSequence {
  import opened HtapModes
  import opened HtapFreshness
  import opened Basics

  datatype Plugin = Local | Elastic | ElasticNI

  datatype Resources = Colocated | Isolated | ElasticCores

  /** A prepared statement: which query, with which data-access plugin, on which cores. */
  datatype Plan = Plan(query: nat, plugin: Plugin, cores: Resources)

  /** How query `j` is to be compiled for a mode. */
  function PlanFor(j: nat, m: Mode): Plan
    requires Concrete(m)
  {
    match m
    case S1_COLOCATED => Plan(j, ElasticNI, Colocated)
    case S2_ISOLATED => Plan(j, Local, Isolated)
    case S3_IS => Plan(j, Elastic, Isolated)
    case S3_NI => Plan(j, ElasticNI, ElasticCores)
  }

  /** Position of a mode in the enumeration, and of its block of statements. */
  function Ordinal(m: Mode): nat {
    match m
    case S1_COLOCATED => 0
    case S2_ISOLATED => 1
    case S3_IS => 2
    case S3_NI => 3
    case ADAPTIVE => 4
    case CUSTOM => 5
  }

  /** What made an ETL happen: the head of a round, the time since the last one, or the isolated mode of a query. */
  datatype Cause = RoundHead(round: nat) | TimePassed(round: nat, j: nat) | IsolatedMode(round: nat, j: nat)

  datatype Event =
    | Warmup(statement: Plan)
    | Snapshot
    | Etl(cause: Cause)
    | Query(round: nat, j: nat, mode: Mode, plan: Plan)

  /** What the caller, the clock and the database contribute to a run, at each query of each round. */
  datatype Inputs = Inputs(perQuerySnapshot: bool, etlDue: (nat, nat) -> bool, ratios: (nat, nat) -> Ratios)

  /** An ETL has happened since the latest snapshot. */
  predicate EtlSinceSnapshot(trace: seq<Event>)
    decreases trace
  {
    trace != [] &&
    var last := trace[|trace| - 1];
    last.Etl? || (!last.Snapshot? && EtlSinceSnapshot(trace[..|trace| - 1]))
  }

  /**
    Every query ran its own plan for the mode it ran in, in the mode the scheduler chooses for the
    freshness at that moment; and a plan that reads the local copy ran on data that was up to date.
   */
  ghost predicate RightPlanFreshData(trace: seq<Event>, conf: Config, inputs: Inputs) {
    forall k :: 0 <= k < |trace| && trace[k].Query? ==>
      && Concrete(trace[k].mode)
      && trace[k].mode == NextState(conf, inputs.ratios(trace[k].round, trace[k].j))
      && trace[k].plan == PlanFor(trace[k].j, trace[k].mode)
      && (trace[k].mode == S2_ISOLATED || trace[k].plan.plugin == Local ==> EtlSinceSnapshot(trace[..k]))
  }

  /** The queries of a trace, as (round, query) pairs in order. */
  function Queries(trace: seq<Event>): seq<(nat, nat)>
    decreases trace
  {
    if trace == [] then []
    else
      var last := trace[|trace| - 1];
      Queries(trace[..|trace| - 1]) + if last.Query? then [(last.round, last.j)] else []
  }

  /** The snapshots and queries of a trace, in order. */
  datatype Mark = Shot | Ran(round: nat, j: nat)

  function Marks(trace: seq<Event>): seq<Mark>
    decreases trace
  {
    if trace == [] then []
    else
      var last := trace[|trace| - 1];
      Marks(trace[..|trace| - 1])
      + if last.Snapshot? then [Shot] else if last.Query? then [Ran(last.round, last.j)] else []
  }

  /** One snapshot before each query, or one before the first query of each round. */
  function Pattern(perQuery: bool, total: nat, rounds: nat, j: nat): seq<Mark>
    decreases rounds, j
  {
    if j > 0 then
      Pattern(perQuery, total, rounds, j - 1) + (if perQuery || j == 1 then [Shot] else []) + [Ran(rounds, j - 1)]
    else if rounds > 0 then Pattern(perQuery, total, rounds - 1, total)
    else []
  }

  function Shots(marks: seq<Mark>): nat
    decreases marks
  {
    if marks == [] then 0 else Shots(marks[..|marks| - 1]) + if marks[|marks| - 1].Shot? then 1 else 0
  }

  /** All queries of the first `rounds` rounds and the first `j` of the next. */
  function Schedule(rounds: nat, total: nat, j: nat): seq<(nat, nat)>
    decreases rounds, j
  {
    if j > 0 then Schedule(rounds, total, j - 1) + [(rounds, j - 1)]
    else if rounds > 0 then Schedule(rounds - 1, total, total)
    else []
  }

  // ----- the story of a run

  function ModeOf(conf: Config, inputs: Inputs, i: nat, j: nat): (m: Mode)
    ensures Concrete(m)
  {
    NextState(conf, inputs.ratios(i, j))
  }

  /** The mode a round begins in. */
  function ModeBefore(conf: Config, inputs: Inputs, total: nat, i: nat): Mode {
    if i == 0 || total == 0 then S2_ISOLATED else ModeOf(conf, inputs, i - 1, total - 1)
  }

  function HeadEvents(conf: Config, inputs: Inputs, total: nat, i: nat): seq<Event> {
    if inputs.perQuerySnapshot then []
    else
      [Snapshot] + if ModeBefore(conf, inputs, total, i) == S2_ISOLATED || inputs.etlDue(i, 0) then [Etl(RoundHead(i))] else []
  }

  function QueryEvents(conf: Config, inputs: Inputs, i: nat, j: nat): seq<Event> {
    var m := ModeOf(conf, inputs, i, j);
    (if inputs.perQuerySnapshot then [Snapshot] + (if inputs.etlDue(i, j) then [Etl(TimePassed(i, j))] else []) else [])
    + (if m == S2_ISOLATED then [Etl(IsolatedMode(i, j))] else [])
    + [Query(i, j, m, PlanFor(j, m))]
  }

  /** Everything up to query `j` of round `i`, which begins a round at its first query. */
  function Story(conf: Config, inputs: Inputs, total: nat, i: nat, j: nat): seq<Event>
    decreases i, j
  {
    if j > 0 then
      Story(conf, inputs, total, i, j - 1)
      + (if j == 1 then HeadEvents(conf, inputs, total, i) else [])
      + QueryEvents(conf, inputs, i, j - 1)
    else if i > 0 then Story(conf, inputs, total, i - 1, total)
    else [Warmup(PlanFor(0, S1_COLOCATED))]
  }

  lemma NextIsConcrete(conf: Config, r: Ratios)
    ensures Concrete(NextState(conf, r))
  {
  }

  // ----- what the story says

  lemma QueriesSnoc(trace: seq<Event>, e: Event)
    ensures Queries(trace + [e]) == Queries(trace) + (if e.Query? then [(e.round, e.j)] else [])
    ensures Marks(trace + [e])
         == Marks(trace) + if e.Snapshot? then [Shot] else if e.Query? then [Ran(e.round, e.j)] else []
  {
    assert (trace + [e])[..|trace|] == trace;
  }

  lemma {:induction false} QueriesConcat(a: seq<Event>, b: seq<Event>)
    ensures Queries(a + b) == Queries(a) + Queries(b) && Marks(a + b) == Marks(a) + Marks(b)
    decreases b
  {
    if b == [] {
      assert a + b == a;
    } else {
      var init, last := b[..|b| - 1], b[|b| - 1];
      assert a + b == (a + init) + [last];
      QueriesConcat(a, init);
      QueriesSnoc(a + init, last);
    }
  }

  lemma OneEvent(e: Event)
    ensures Queries([e]) == if e.Query? then [(e.round, e.j)] else []
    ensures Marks([e]) == if e.Snapshot? then [Shot] else if e.Query? then [Ran(e.round, e.j)] else []
  {
    QueriesSnoc([], e);
    assert [] + [e] == [e];
  }

  lemma EventMarks(conf: Config, inputs: Inputs, total: nat, i: nat, j: nat)
    ensures Queries(HeadEvents(conf, inputs, total, i)) == []
    ensures Marks(HeadEvents(conf, inputs, total, i)) == if inputs.perQuerySnapshot then [] else [Shot]
    ensures Queries(QueryEvents(conf, inputs, i, j)) == [(i, j)]
    ensures Marks(QueryEvents(conf, inputs, i, j)) == (if inputs.perQuerySnapshot then [Shot] else []) + [Ran(i, j)]
  {
    hide Queries, Marks, ModeOf;
    var m := ModeOf(conf, inputs, i, j);
    var query := Query(i, j, m, PlanFor(j, m));
    OneEvent(Snapshot);
    OneEvent(Etl(RoundHead(i)));
    OneEvent(Etl(TimePassed(i, j)));
    OneEvent(Etl(IsolatedMode(i, j)));
    OneEvent(query);
    NoEvents();
    QueriesConcat([Snapshot], [Etl(RoundHead(i))]);
    QueriesConcat([Snapshot], []);
    QueriesConcat([Snapshot], [Etl(TimePassed(i, j))]);
    var timed := if inputs.etlDue(i, j) then [Etl(TimePassed(i, j))] else [];
    var first := if inputs.perQuerySnapshot then [Snapshot] + timed else [];
    var second := if m == S2_ISOLATED then [Etl(IsolatedMode(i, j))] else [];
    QueriesConcat(first, second);
    QueriesConcat(first + second, [query]);
  }

  lemma NoEvents()
    ensures Queries([]) == [] && Marks([]) == []
  {
  }

  /** Every query once per round and in order, with the snapshots where they belong. */
  lemma {:induction false} StoryMarks(conf: Config, inputs: Inputs, total: nat, i: nat, j: nat)
    ensures Queries(Story(conf, inputs, total, i, j)) == Schedule(i, total, j)
    ensures Marks(Story(conf, inputs, total, i, j)) == Pattern(inputs.perQuerySnapshot, total, i, j)
    decreases i, j
  {
    hide Queries, Marks, HeadEvents, QueryEvents;
    NoEvents();
    if j > 0 {
      var before := Story(conf, inputs, total, i, j - 1);
      var head := if j == 1 then HeadEvents(conf, inputs, total, i) else [];
      StoryMarks(conf, inputs, total, i, j - 1);
      EventMarks(conf, inputs, total, i, j - 1);
      QueriesConcat(before, head);
      QueriesConcat(before + head, QueryEvents(conf, inputs, i, j - 1));
      MarksAssoc(Pattern(inputs.perQuerySnapshot, total, i, j - 1), inputs.perQuerySnapshot, j == 1, Ran(i, j - 1));
    } else if i > 0 {
      StoryMarks(conf, inputs, total, i - 1, total);
    } else {
      OneEvent(Warmup(PlanFor(0, S1_COLOCATED)));
    }
  }

  lemma MarksAssoc(a: seq<Mark>, perQuery: bool, first: bool, q: Mark)
    ensures a + (if first then (if perQuery then [] else [Shot]) else []) + ((if perQuery then [Shot] else []) + [q])
         == a + (if perQuery || first then [Shot] else []) + [q]
  {
  }

  /** So there is one snapshot per round, or one per query. */
  lemma {:induction false} PatternShots(perQuery: bool, total: nat, rounds: nat, j: nat)
    requires total > 0
    ensures Shots(Pattern(perQuery, total, rounds, j))
         == if perQuery then rounds * total + j else if j == 0 then rounds else rounds + 1
    decreases rounds, j
  {
    hide Shots;
    NoShots();
    if j > 0 {
      PatternShots(perQuery, total, rounds, j - 1);
      ShotsAdd(Pattern(perQuery, total, rounds, j - 1), perQuery || j == 1, Ran(rounds, j - 1));
    } else if rounds > 0 {
      PatternShots(perQuery, total, rounds - 1, total);
      MulStep(total, rounds);
    }
  }

  lemma NoShots()
    ensures Shots([]) == 0
  {
  }

  lemma ShotsAdd(marks: seq<Mark>, shot: bool, q: Mark)
    requires q.Ran?
    ensures Shots(marks + (if shot then [Shot] else []) + [q]) == Shots(marks) + if shot then 1 else 0
  {
    var m := marks + (if shot then [Shot] else []);
    assert (m + [q])[..|m|] == m;
    if shot { assert m[..|marks|] == marks; } else { assert m == marks; }
  }

  /** Whether the cause of an ETL lies in the part of a run up to query `j` of round `i`. */
  predicate Reached(c: Cause, total: nat, i: nat, j: nat) {
    match c
    case RoundHead(a) => a < i || (a == i && j > 0)
    case TimePassed(a, b) => (a < i && b < total) || (a == i && b < j)
    case IsolatedMode(a, b) => (a < i && b < total) || (a == i && b < j)
  }

  /** When each possible ETL is due. */
  predicate Due(c: Cause, conf: Config, inputs: Inputs, total: nat) {
    match c
    case RoundHead(a) =>
      !inputs.perQuerySnapshot && (ModeBefore(conf, inputs, total, a) == S2_ISOLATED || inputs.etlDue(a, 0))
    case TimePassed(a, b) => inputs.perQuerySnapshot && inputs.etlDue(a, b)
    case IsolatedMode(a, b) => NextState(conf, inputs.ratios(a, b)) == S2_ISOLATED
  }

  /** Exactly the ETLs that are due happen. */
  lemma {:induction false} StoryEtls(conf: Config, inputs: Inputs, total: nat, i: nat, j: nat, c: Cause)
    requires total > 0 && j <= total
    ensures Etl(c) in Story(conf, inputs, total, i, j) <==> Reached(c, total, i, j) && Due(c, conf, inputs, total)
    decreases i, j
  {
    hide NextState, HeadEvents, QueryEvents, Due;
    if j > 0 {
      StoryEtls(conf, inputs, total, i, j - 1, c);
      HeadEtls(conf, inputs, total, i, c);
      QueryEtls(conf, inputs, total, i, j - 1, c);
      var head := if j == 1 then HeadEvents(conf, inputs, total, i) else [];
      InThree(Story(conf, inputs, total, i, j - 1), head, QueryEvents(conf, inputs, i, j - 1), Etl(c));
    } else if i > 0 {
      StoryEtls(conf, inputs, total, i - 1, total, c);
    }
  }

  lemma HeadEtls(conf: Config, inputs: Inputs, total: nat, i: nat, c: Cause)
    ensures Etl(c) in HeadEvents(conf, inputs, total, i) <==> c == RoundHead(i) && Due(c, conf, inputs, total)
  {
    hide NextState;
  }

  lemma InThree(a: seq<Event>, b: seq<Event>, c: seq<Event>, e: Event)
    ensures e in a + b + c <==> e in a || e in b || e in c
  {
  }

  lemma QueryEtls(conf: Config, inputs: Inputs, total: nat, i: nat, j: nat, c: Cause)
    ensures Etl(c) in QueryEvents(conf, inputs, i, j) <==>
              (c == TimePassed(i, j) || c == IsolatedMode(i, j)) && Due(c, conf, inputs, total)
  {
    hide NextState;
  }

  /** An ETL made for a query's mode comes right before that query, and any other right after a snapshot. */
  ghost predicate EtlsPlaced(trace: seq<Event>) {
    forall k :: 0 <= k < |trace| && trace[k].Etl? ==> EtlPlaced(trace, k)
  }

  predicate EtlPlaced(trace: seq<Event>, k: nat)
    requires k < |trace| && trace[k].Etl?
  {
    match trace[k].cause
    case IsolatedMode(i, j) =>
      k + 1 < |trace| && trace[k + 1].Query? && trace[k + 1].round == i && trace[k + 1].j == j
    case _ => k > 0 && trace[k - 1].Snapshot?
  }

  lemma PlacedConcat(a: seq<Event>, b: seq<Event>)
    requires EtlsPlaced(a) && EtlsPlaced(b)
    ensures EtlsPlaced(a + b)
  {
    var t := a + b;
    forall k | 0 <= k < |t| && t[k].Etl? ensures EtlPlaced(t, k) {
      if k < |a| {
        assert EtlPlaced(a, k);
      } else {
        assert EtlPlaced(b, k - |a|);
      }
    }
  }

  lemma EventsPlaced(conf: Config, inputs: Inputs, total: nat, i: nat, j: nat)
    ensures EtlsPlaced(HeadEvents(conf, inputs, total, i)) && EtlsPlaced(QueryEvents(conf, inputs, i, j))
  {
    hide ModeOf, ModeBefore;
  }

  lemma {:induction false} StoryPlaced(conf: Config, inputs: Inputs, total: nat, i: nat, j: nat)
    ensures EtlsPlaced(Story(conf, inputs, total, i, j))
    decreases i, j
  {
    hide HeadEvents, QueryEvents;
    if j > 0 {
      var before := Story(conf, inputs, total, i, j - 1);
      var head := if j == 1 then HeadEvents(conf, inputs, total, i) else [];
      StoryPlaced(conf, inputs, total, i, j - 1);
      EventsPlaced(conf, inputs, total, i, j - 1);
      PlacedConcat(before, head);
      PlacedConcat(before + head, QueryEvents(conf, inputs, i, j - 1));
    } else if i > 0 {
      StoryPlaced(conf, inputs, total, i - 1, total);
    }
  }

  /** Anything but a query leaves the property alone; a query must satisfy it. */
  lemma TraceSnoc(trace: seq<Event>, e: Event, conf: Config, inputs: Inputs)
    requires RightPlanFreshData(trace, conf, inputs)
    requires e.Query? ==>
               && e.mode == ModeOf(conf, inputs, e.round, e.j) && e.plan == PlanFor(e.j, e.mode)
               && (e.mode == S2_ISOLATED ==> EtlSinceSnapshot(trace))
    ensures RightPlanFreshData(trace + [e], conf, inputs)
  {
    hide NextState;
    var t := trace + [e];
    forall k | 0 <= k < |t| && t[k].Query?
      ensures Concrete(t[k].mode) && t[k].mode == NextState(conf, inputs.ratios(t[k].round, t[k].j))
      ensures t[k].plan == PlanFor(t[k].j, t[k].mode)
      ensures t[k].mode == S2_ISOLATED || t[k].plan.plugin == Local ==> EtlSinceSnapshot(t[..k])
    {
      if k < |trace| {
        assert t[k] == trace[k] && t[..k] == trace[..k];
      } else {
        assert t[..k] == trace;
      }
    }
  }

  lemma AfterEtl(trace: seq<Event>, c: Cause)
    ensures EtlSinceSnapshot(trace + [Etl(c)])
  {
  }

  lemma HeadFresh(trace: seq<Event>, conf: Config, inputs: Inputs, total: nat, i: nat)
    requires RightPlanFreshData(trace, conf, inputs)
    ensures RightPlanFreshData(trace + HeadEvents(conf, inputs, total, i), conf, inputs)
  {
    hide RightPlanFreshData, ModeBefore;
    var head := HeadEvents(conf, inputs, total, i);
    if inputs.perQuerySnapshot {
      assert trace + head == trace;
    } else {
      TraceSnoc(trace, Snapshot, conf, inputs);
      TraceSnoc(trace + [Snapshot], Etl(RoundHead(i)), conf, inputs);
      assert trace + [Snapshot] + [Etl(RoundHead(i))] == trace + ([Snapshot] + [Etl(RoundHead(i))]);
      assert trace + [Snapshot] == trace + ([Snapshot] + []);
    }
  }

  lemma QueryFresh(trace: seq<Event>, conf: Config, inputs: Inputs, i: nat, j: nat)
    requires RightPlanFreshData(trace, conf, inputs)
    ensures RightPlanFreshData(trace + QueryEvents(conf, inputs, i, j), conf, inputs)
  {
    hide RightPlanFreshData, EtlSinceSnapshot, ModeOf;
    var m := ModeOf(conf, inputs, i, j);
    var t := trace;
    if inputs.perQuerySnapshot {
      TraceSnoc(t, Snapshot, conf, inputs);
      t := t + [Snapshot];
      if inputs.etlDue(i, j) {
        TraceSnoc(t, Etl(TimePassed(i, j)), conf, inputs);
        t := t + [Etl(TimePassed(i, j))];
      }
    }
    if m == S2_ISOLATED {
      TraceSnoc(t, Etl(IsolatedMode(i, j)), conf, inputs);
      AfterEtl(t, IsolatedMode(i, j));
      t := t + [Etl(IsolatedMode(i, j))];
    }
    TraceSnoc(t, Query(i, j, m, PlanFor(j, m)), conf, inputs);
    assert t + [Query(i, j, m, PlanFor(j, m))] == trace + QueryEvents(conf, inputs, i, j);
  }

  /** Every query of the story runs the right plan in the right mode, and on fresh data where it must. */
  lemma {:induction false} StoryFresh(conf: Config, inputs: Inputs, total: nat, i: nat, j: nat)
    ensures RightPlanFreshData(Story(conf, inputs, total, i, j), conf, inputs)
    decreases i, j
  {
    hide RightPlanFreshData, HeadEvents, QueryEvents;
    if j > 0 {
      var before := Story(conf, inputs, total, i, j - 1);
      StoryFresh(conf, inputs, total, i, j - 1);
      var head := if j == 1 then HeadEvents(conf, inputs, total, i) else [];
      if j == 1 {
        HeadFresh(before, conf, inputs, total, i);
      } else {
        assert before + head == before;
      }
      QueryFresh(before + head, conf, inputs, i, j - 1);
    } else if i > 0 {
      StoryFresh(conf, inputs, total, i - 1, total);
    } else {
      OnlyWarmup(conf, inputs);
    }
  }

  lemma OnlyWarmup(conf: Config, inputs: Inputs)
    ensures RightPlanFreshData([Warmup(PlanFor(0, S1_COLOCATED))], conf, inputs)
  {
  }

  /** Plans fit the engine: workers share their cores exactly when they are away, and cores are lent exactly when given up. */
  lemma PlanFitsEngine(j: nat, m: Mode, e: Engine, conf: Config, topo: Topology)
    requires Concrete(m) && InStep(m, e, conf, topo)
    ensures PlanFor(j, m).cores == Colocated <==> e.workersInHome
    ensures conf.oltpScaleThreshold % 256 != 0 ==> (PlanFor(j, m).cores == ElasticCores <==> e.elasticSet != [])
    ensures PlanFor(j, m).plugin == ElasticNI <==> PlanFor(j, m).cores != Isolated
    ensures PlanFor(j, m).query == j
  {
    hide Victims;
    NoVictims(topo, conf.oltpScaleThreshold);
  }

  /** Some query of the trace ran in S3_NI. */
  predicate WentElastic(trace: seq<Event>) {
    exists k :: 0 <= k < |trace| && trace[k].Query? && trace[k].mode == S3_NI
  }

  lemma {:induction false} WentConcat(a: seq<Event>, b: seq<Event>)
    ensures WentElastic(a + b) <==> WentElastic(a) || WentElastic(b)
  {
    var t := a + b;
    if WentElastic(a) {
      var k :| 0 <= k < |a| && a[k].Query? && a[k].mode == S3_NI;
      assert t[k] == a[k];
    }
    if WentElastic(b) {
      var k :| 0 <= k < |b| && b[k].Query? && b[k].mode == S3_NI;
      assert t[|a| + k] == b[k];
    }
    if WentElastic(t) {
      var k :| 0 <= k < |t| && t[k].Query? && t[k].mode == S3_NI;
      assert if k < |a| then a[k] == t[k] else b[k - |a|] == t[k];
    }
  }

  lemma EventsElastic(conf: Config, inputs: Inputs, total: nat, i: nat, j: nat)
    ensures !WentElastic(HeadEvents(conf, inputs, total, i))
    ensures WentElastic(QueryEvents(conf, inputs, i, j)) <==> ModeOf(conf, inputs, i, j) == S3_NI
  {
    hide ModeOf, ModeBefore;
    var events := QueryEvents(conf, inputs, i, j);
    assert events[|events| - 1].mode == ModeOf(conf, inputs, i, j);
  }

  class OlapSequence {
    const conf: Config
    var stmts: seq<Plan>
    var totalQueries: nat

    /** The cores that going to S3_NI terminates, if it happens. */
    function TurnedOff(happens: bool, topo: Topology): set<nat> {
      if happens then CoreSet(Victims(topo, conf.oltpScaleThreshold)) else {}
    }

    /** The statements are four blocks, one per mode, in the order of the enumeration. */
    ghost predicate Prepared()
      reads this
    {
      && |stmts| == 4 * totalQueries
      && forall m, j :: Concrete(m) && 0 <= j < totalQueries ==>
           stmts[j + totalQueries * Ordinal(m)] == PlanFor(j, m)
    }

    /** setupAdaptiveSequence, for any number of benchmark queries. */
    constructor (conf: Config, queries: nat)
      ensures Prepared() && totalQueries == queries && this.conf == conf
    {
      this.conf := conf;
      stmts, totalQueries := [], 0;
      new;
      var q := 0;
      while q < queries
        invariant 0 <= q <= queries && totalQueries == q && |stmts| == q
        invariant forall j :: 0 <= j < q ==> stmts[j] == PlanFor(j, S1_COLOCATED)
      {
        stmts := stmts + [Plan(q, ElasticNI, Colocated)];
        totalQueries := totalQueries + 1;
        q := q + 1;
      }
      Prepare(queries, S2_ISOLATED, Local, Isolated);
      Prepare(queries, S3_IS, Elastic, Isolated);
      Prepare(queries, S3_NI, ElasticNI, ElasticCores);
    }

    /** Appends the block of one mode. */
    method Prepare(queries: nat, ghost m: Mode, plugin: Plugin, cores: Resources)
      requires Concrete(m) && |stmts| == queries * Ordinal(m) && forall j :: PlanFor(j, m) == Plan(j, plugin, cores)
      modifies this`stmts
      ensures |stmts| == old(|stmts|) + queries
      ensures forall i :: 0 <= i < old(|stmts|) ==> stmts[i] == old(stmts[i])
      ensures forall j :: 0 <= j < queries ==> stmts[j + queries * Ordinal(m)] == PlanFor(j, m)
    {
      ghost var n := |stmts|;
      var q := 0;
      while q < queries
        invariant 0 <= q <= queries && |stmts| == n + q
        invariant forall i :: 0 <= i < n ==> stmts[i] == old(stmts[i])
        invariant forall j :: 0 <= j < q ==> stmts[j + n] == PlanFor(j, m)
      {
        assert PlanFor(q, m) == Plan(q, plugin, cores);
        stmts := stmts + [Plan(q, plugin, cores)];
        q := q + 1;
      }
    }

    /**
      What holds between two queries of a run that began with the cores `before` terminated: mode and
      account agree, and cores were terminated exactly if the run has been in S3_NI.
     */
    ghost predicate Going(m: Mode, e: Engine, topo: Topology, trace: seq<Event>, before: set<nat>) {
      && Concrete(m) && InStep(m, e, conf, topo)
      && (m == S3_NI ==> WentElastic(trace))
      && e.terminated == before + TurnedOff(WentElastic(trace), topo)
    }

    /** One query of an adaptive run: snapshot, migration, ETL where the mode needs it, and the statement of that mode. */
    method RunQuery(engine: Oltp, current: Mode, i: nat, j: nat, inputs: Inputs, trace: seq<Event>, ghost before: set<nat>)
      returns (now: Mode, out: seq<Event>)
      requires Prepared() && j < totalQueries && Going(current, engine.State(), engine.topo, trace, before)
      modifies engine
      ensures Going(now, engine.State(), engine.topo, out, before)
      ensures now == NextState(conf, inputs.ratios(i, j))
      ensures out == trace + QueryEvents(conf, inputs, i, j)
    {
      hide NextState, Victims, CoreSet, WentElastic, Moved, InStep, EtlSinceSnapshot;
      var events: seq<Event> := [];
      if inputs.perQuerySnapshot {
        events := events + [Snapshot];
        if inputs.etlDue(i, j) {
          events := events + [Etl(TimePassed(i, j))];
        }
      }
      var next := NextState(conf, inputs.ratios(i, j));
      NextIsConcrete(conf, inputs.ratios(i, j));
      MovedTerminates(engine.State(), current, next, conf, engine.topo);
      now := engine.MigrateState(current, next, conf);
      if now == S2_ISOLATED {
        events := events + [Etl(IsolatedMode(i, j))];
      }
      assert j + totalQueries * Ordinal(now) < |stmts|;
      events := events + [Query(i, j, now, stmts[j + totalQueries * Ordinal(now)])];
      assert events == QueryEvents(conf, inputs, i, j);
      EventsElastic(conf, inputs, totalQueries, i, j);
      WentConcat(trace, events);
      out := trace + events;
    }

    /** One round of the sequence: a snapshot unless each query takes its own, then every query. */
    method RunRound(engine: Oltp, current: Mode, i: nat, inputs: Inputs, trace: seq<Event>, ghost before: set<nat>)
      returns (last: Mode, out: seq<Event>)
      requires Prepared() && totalQueries > 0 && Going(current, engine.State(), engine.topo, trace, before)
      requires current == ModeBefore(conf, inputs, totalQueries, i) && trace == Story(conf, inputs, totalQueries, i, 0)
      modifies engine
      ensures Going(last, engine.State(), engine.topo, out, before)
      ensures last == ModeBefore(conf, inputs, totalQueries, i + 1)
      ensures out == Story(conf, inputs, totalQueries, i, totalQueries)
    {
      hide Going, QueryEvents, NextState;
      last, out := current, trace;
      if !inputs.perQuerySnapshot {
        out := out + [Snapshot];
        if last == S2_ISOLATED || inputs.etlDue(i, 0) {
          out := out + [Etl(RoundHead(i))];
        }
      }
      ghost var head := HeadEvents(conf, inputs, totalQueries, i);
      assert out == trace + head;
      HeadGoing(last, engine.State(), engine.topo, trace, before, inputs, i);
      var j := 0;
      while j < totalQueries
        invariant 0 <= j <= totalQueries && Going(last, engine.State(), engine.topo, out, before)
        invariant j > 0 ==> last == ModeOf(conf, inputs, i, j - 1)
        invariant out == Story(conf, inputs, totalQueries, i, j) + if j == 0 then head else []
      {
        last, out := RunQuery(engine, last, i, j, inputs, out, before);
        StoryStep(conf, inputs, totalQueries, i, j);
        j := j + 1;
      }
      assert out == Story(conf, inputs, totalQueries, i, totalQueries);
    }

    lemma HeadGoing(m: Mode, e: Engine, topo: Topology, trace: seq<Event>, before: set<nat>, inputs: Inputs, i: nat)
      requires Going(m, e, topo, trace, before)
      ensures Going(m, e, topo, trace + HeadEvents(conf, inputs, totalQueries, i), before)
    {
      hide WentElastic, InStep, TurnedOff, HeadEvents;
      EventsElastic(conf, inputs, totalQueries, i, 0);
      WentConcat(trace, HeadEvents(conf, inputs, totalQueries, i));
    }

    /**
      An adaptive run of `repeat` rounds is the story of its inputs.  So every query runs exactly once per
      round and in order, after a snapshot of its own or of its round; in the mode the scheduler chooses for
      it, with its plan for that mode, and on fresh data where the plan reads the local copy.  What the
      engine keeps account of ends in step with the last mode, and the run has terminated cores exactly if
      some query of it ran in S3_NI.  Before all that the first statement is warmed up: it is the first
      query's plan for S1_COLOCATED, whatever the mode, and runs before any snapshot or ETL.
     */
    method Execute(engine: Oltp, repeat: nat, inputs: Inputs) returns (last: Mode, trace: seq<Event>)
      requires Prepared() && totalQueries > 0 && InStep(S2_ISOLATED, engine.State(), conf, engine.topo)
      modifies engine
      ensures trace == Story(conf, inputs, totalQueries, repeat, 0)
      ensures Concrete(last) && InStep(last, engine.State(), conf, engine.topo)
      ensures last == ModeBefore(conf, inputs, totalQueries, repeat)
      ensures RightPlanFreshData(trace, conf, inputs) && EtlsPlaced(trace)
      ensures forall c :: Etl(c) in trace <==> Reached(c, totalQueries, repeat, 0) && Due(c, conf, inputs, totalQueries)
      ensures Queries(trace) == Schedule(repeat, totalQueries, 0)
      ensures Marks(trace) == Pattern(inputs.perQuerySnapshot, totalQueries, repeat, 0)
      ensures Shots(Marks(trace)) == if inputs.perQuerySnapshot then repeat * totalQueries else repeat
      ensures engine.terminated == old(engine.terminated) + TurnedOff(WentElastic(trace), engine.topo)
      ensures trace != [] && trace[0] == Warmup(PlanFor(0, S1_COLOCATED))
    {
      hide RightPlanFreshData, Queries, Marks, Shots, WentElastic, InStep, Victims, CoreSet, NextState;
      hide EtlsPlaced, Reached, Due;
      last := S2_ISOLATED;
      assert stmts[0 + totalQueries * Ordinal(S1_COLOCATED)] == PlanFor(0, S1_COLOCATED);
      trace := [Warmup(stmts[0])];
      NoQueryYet(stmts[0]);
      ghost var before := engine.terminated;
      var i := 0;
      while i < repeat
        invariant 0 <= i <= repeat && Going(last, engine.State(), engine.topo, trace, before)
        invariant last == ModeBefore(conf, inputs, totalQueries, i)
        invariant trace == Story(conf, inputs, totalQueries, i, 0)
      {
        last, trace := RunRound(engine, last, i, inputs, trace, before);
        i := i + 1;
      }
      StoryFresh(conf, inputs, totalQueries, repeat, 0);
      StoryMarks(conf, inputs, totalQueries, repeat, 0);
      PatternShots(inputs.perQuerySnapshot, totalQueries, repeat, 0);
      StoryStart(conf, inputs, totalQueries, repeat, 0);
      StoryPlaced(conf, inputs, totalQueries, repeat, 0);
      forall c ensures Etl(c) in trace <==> Reached(c, totalQueries, repeat, 0) && Due(c, conf, inputs, totalQueries) {
        StoryEtls(conf, inputs, totalQueries, repeat, 0, c);
      }
    }
  }

  lemma NoQueryYet(p: Plan)
    ensures !WentElastic([Warmup(p)])
  {
  }

  lemma StoryStep(conf: Config, inputs: Inputs, total: nat, i: nat, j: nat)
    ensures Story(conf, inputs, total, i, j + 1)
         == (Story(conf, inputs, total, i, j) + if j == 0 then HeadEvents(conf, inputs, total, i) else [])
            + QueryEvents(conf, inputs, i, j)
  {
    hide HeadEvents, QueryEvents;
  }

  lemma {:induction false} StoryStart(conf: Config, inputs: Inputs, total: nat, i: nat, j: nat)
    ensures var story := Story(conf, inputs, total, i, j);
            story != [] && story[0] == Warmup(PlanFor(0, S1_COLOCATED))
    decreases i, j
  {
    hide HeadEvents, QueryEvents;
    if j > 0 {
      StoryStart(conf, inputs, total, i, j - 1);
    } else if i > 0 {
      StoryStart(conf, inputs, total, i - 1, total);
    }
  }
}
