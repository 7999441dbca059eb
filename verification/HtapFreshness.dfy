/**
  Data freshness and the adaptive decision (core/oltp/include/oltp.hpp,
  OLAPSequence::getFreshnessRatios and getNextState).
 */
module HtapFreshness {
  import opened HtapModes
  import opened Basics

  /** Record counts of a table in the OLTP and OLAP snapshots, per partition. */
  datatype Table = Table(name: string, oltp: seq<nat>, olap: seq<nat>)

  /** Both snapshots have the same partitions, and the OLAP one is never ahead. */
  predicate Behind(t: Table) {
    |t.oltp| == |t.olap| && forall i :: 0 <= i < |t.oltp| ==> t.olap[i] <= t.oltp[i]
  }

  lemma {:induction false} SumOrder(a: seq<nat>, b: seq<nat>)
    requires |a| == |b| && forall i :: 0 <= i < |a| ==> a[i] <= b[i]
    ensures Sum(a) <= Sum(b)
    decreases a
  {
    if a != [] { SumOrder(a[..|a| - 1], b[..|b| - 1]); }
  }

  /** OLTP::_getFreshnessRelation. */
  method FreshnessOfTable(t: Table) returns (olap: nat, oltp: nat)
    requires |t.oltp| == |t.olap|
    ensures olap == Sum(t.olap) && oltp == Sum(t.oltp)
  {
    olap, oltp := 0, 0;
    var i := 0;
    while i < |t.oltp|
      invariant 0 <= i <= |t.oltp| && olap == Sum(t.olap[..i]) && oltp == Sum(t.oltp[..i])
    {
      SumSnoc(t.oltp, i);
      SumSnoc(t.olap, i);
      oltp := oltp + t.oltp[i];
      olap := olap + t.olap[i];
      i := i + 1;
    }
    assert t.oltp[..i] == t.oltp && t.olap[..i] == t.olap;
  }

  // ----- sums over tables

  /** Records of the tables selected by `names`, in the newer or the older snapshot. */
  function Selected(db: seq<Table>, names: set<string>, newer: bool): nat
    decreases db
  {
    if db == [] then 0
    else
      var t := db[|db| - 1];
      Selected(db[..|db| - 1], names, newer)
      + (if t.name in names then Sum(if newer then t.oltp else t.olap) else 0)
  }

  function Names(db: seq<Table>): set<string> {
    set t | t in db :: t.name
  }

  predicate Distinct(db: seq<Table>) {
    forall i, j :: 0 <= i < j < |db| ==> db[i].name != db[j].name
  }

  ghost predicate Database(db: seq<Table>) {
    Distinct(db) && forall t :: t in db ==> Behind(t)
  }

  /** Both snapshots of every table have the same partitions. */
  ghost predicate Partitioned(db: seq<Table>) {
    forall t :: t in db ==> |t.oltp| == |t.olap|
  }

  /** The table of a name. */
  function Lookup(db: seq<Table>, name: string): Table
    requires name in Names(db)
    decreases db
  {
    if db[|db| - 1].name == name then db[|db| - 1]
    else
      assert name in Names(db[..|db| - 1]) by {
        var t :| t in db && t.name == name;
        assert db == db[..|db| - 1] + [db[|db| - 1]];
      }
      Lookup(db[..|db| - 1], name)
  }

  /** OLTP::getFreshness: totals over the whole database. */
  method Freshness(db: seq<Table>) returns (olap: nat, oltp: nat)
    requires Partitioned(db)
    ensures olap == Selected(db, Names(db), false) && oltp == Selected(db, Names(db), true)
  {
    olap, oltp := 0, 0;
    var i := 0;
    while i < |db|
      invariant 0 <= i <= |db|
      invariant olap == Selected(db[..i], Names(db), false) && oltp == Selected(db[..i], Names(db), true)
    {
      assert db[i] in db;
      var a, b := FreshnessOfTable(db[i]);
      assert db[..i + 1][..i] == db[..i];
      olap, oltp := olap + a, oltp + b;
      i := i + 1;
    }
    assert db[..i] == db;
  }

  function NameSet(names: seq<string>): set<string> { set n | n in names }

  predicate DistinctNames(names: seq<string>) {
    forall i, j :: 0 <= i < j < |names| ==> names[i] != names[j]
  }

  /** Records of the tables in a list of names, as often as they are listed. */
  function Listed(db: seq<Table>, names: seq<string>, newer: bool): nat
    requires NameSet(names) <= Names(db)
    decreases names
  {
    if names == [] then 0
    else
      assert NameSet(names[..|names| - 1]) <= NameSet(names);
      assert names[|names| - 1] in NameSet(names);
      var t := Lookup(db, names[|names| - 1]);
      Listed(db, names[..|names| - 1], newer) + Sum(if newer then t.oltp else t.olap)
  }

  /** OLTP::getFreshnessRelation: totals over the tables a query lists. */
  method FreshnessOfQuery(db: seq<Table>, names: seq<string>) returns (olap: nat, oltp: nat)
    requires Partitioned(db) && NameSet(names) <= Names(db)
    ensures olap == Listed(db, names, false) && oltp == Listed(db, names, true)
  {
    olap, oltp := 0, 0;
    var i := 0;
    while i < |names|
      invariant 0 <= i <= |names| && NameSet(names[..i]) <= Names(db)
      invariant olap == Listed(db, names[..i], false) && oltp == Listed(db, names[..i], true)
    {
      assert names[i] in NameSet(names);
      LookupLaws(db, names[i]);
      var a, b := FreshnessOfTable(Lookup(db, names[i]));
      assert names[..i + 1][..i] == names[..i];
      assert NameSet(names[..i + 1]) <= NameSet(names);
      olap, oltp := olap + a, oltp + b;
      i := i + 1;
    }
    assert names[..i] == names;
  }

  /** Listing distinct tables selects each of them once. */
  lemma {:induction false} ListedOnce(db: seq<Table>, names: seq<string>, newer: bool)
    requires Distinct(db) && DistinctNames(names) && NameSet(names) <= Names(db)
    ensures Listed(db, names, newer) == Selected(db, NameSet(names), newer)
    decreases names
  {
    if names == [] {
      assert NameSet(names) == {};
      SelectNone(db, newer);
    } else {
      var init, last := names[..|names| - 1], names[|names| - 1];
      assert NameSet(names) == NameSet(init) + {last};
      assert last !in NameSet(init);
      ListedOnce(db, init, newer);
      SelectAdd(db, NameSet(init), last, newer);
    }
  }

  lemma {:induction false} LookupLaws(db: seq<Table>, name: string)
    requires name in Names(db)
    ensures Lookup(db, name) in db && Lookup(db, name).name == name
    decreases db
  {
    if db[|db| - 1].name != name {
      assert name in Names(db[..|db| - 1]) by {
        var t :| t in db && t.name == name;
        assert db == db[..|db| - 1] + [db[|db| - 1]];
      }
      LookupLaws(db[..|db| - 1], name);
    }
  }

  lemma {:induction false} SelectNone(db: seq<Table>, newer: bool)
    ensures Selected(db, {}, newer) == 0
    decreases db
  {
    if db != [] { SelectNone(db[..|db| - 1], newer); }
  }

  lemma {:induction false} SelectFrame(db: seq<Table>, names: set<string>, name: string, newer: bool)
    requires name !in Names(db)
    ensures Selected(db, names + {name}, newer) == Selected(db, names, newer)
    decreases db
  {
    if db != [] {
      assert db[|db| - 1] in db;
      SelectFrame(db[..|db| - 1], names, name, newer);
    }
  }

  /** Naming one more table adds that table's records, once. */
  lemma {:induction false} SelectAdd(db: seq<Table>, names: set<string>, name: string, newer: bool)
    requires Distinct(db) && name in Names(db) && name !in names
    ensures Selected(db, names + {name}, newer)
         == Selected(db, names, newer) + Sum(if newer then Lookup(db, name).oltp else Lookup(db, name).olap)
    decreases db
  {
    var init, last := db[..|db| - 1], db[|db| - 1];
    assert db == init + [last];
    if last.name == name {
      forall t | t in init ensures t.name != name {
        var i :| 0 <= i < |init| && init[i] == t;
        assert db[i].name != db[|db| - 1].name;
      }
      SelectFrame(init, names, name, newer);
    } else {
      SelectAdd(init, names, name, newer);
    }
  }

  /** Fresh records of a selection: those the OLAP snapshot does not have yet. */
  lemma {:induction false} SelectedLaws(db: seq<Table>, names: set<string>)
    requires Database(db)
    ensures Selected(db, names, false) <= Selected(db, names, true)
    ensures Selected(db, names, true) - Selected(db, names, false)
         <= Selected(db, Names(db), true) - Selected(db, Names(db), false)
    decreases db
  {
    SelectedOrder(db, names, Names(db));
  }

  lemma {:induction false} SelectedOrder(db: seq<Table>, names: set<string>, all: set<string>)
    requires forall t :: t in db ==> Behind(t) && t.name in all
    ensures Selected(db, names, false) <= Selected(db, names, true)
    ensures Selected(db, names, true) - Selected(db, names, false) <= Selected(db, all, true) - Selected(db, all, false)
    decreases db
  {
    if db != [] {
      var last := db[|db| - 1];
      assert last in db && Behind(last);
      SumOrder(last.olap, last.oltp);
      SelectedOrder(db[..|db| - 1], names, all);
    }
  }

  // ----- the decision

  datatype Ratios = Ratios(rfq: real, rft: real)

  /** getFreshnessRatios, over the reals: fresh records per record of the query, and per fresh record of the database. */
  function RatiosOf(queryFresh: nat, queryTotal: nat, totalFresh: nat): Ratios
    requires queryTotal > 0
  {
    Ratios(queryFresh as real / queryTotal as real,
           if totalFresh == 0 then 0.0 else queryFresh as real / totalFresh as real)
  }

  function NextState(conf: Config, r: Ratios): Mode {
    if r.rfq < conf.adaptivityRatio * r.rft then
      if conf.oltpScaleThreshold > 0 then S3_NI
      else if conf.collocatedWorkerThreshold > 0 then S1_COLOCATED
      else S3_IS
    else S2_ISOLATED
  }

  lemma DivOrder(a: real, b: real, c: real)
    requires b > 0.0
    ensures a / b < c <==> a < c * b
    ensures a / b <= c <==> a <= c * b
  {
    var q := a / b;
    assert q * b == a;
    if q < c { assert (c - q) * b > 0.0; }
    if q > c { assert (q - c) * b > 0.0; }
  }

  lemma Crossing(x: real, qt: real, tf: real, ratio: real)
    requires x > 0.0 && qt > 0.0 && tf > 0.0
    ensures x / qt < ratio * (x / tf) <==> tf < ratio * qt
  {
    var p := x / tf;
    assert p * tf == x && p > 0.0;
    DivOrder(x, qt, ratio * p);
    assert ratio * p * qt == ratio * qt * p;
    if tf < ratio * qt { assert (ratio * qt - tf) * p > 0.0; }
    if tf > ratio * qt { assert (tf - ratio * qt) * p > 0.0; }
  }

  /**
    For distinct tables of the database with records to read: both ratios are in [0, 1], and the
    scheduler leaves the isolated mode exactly when the query reads fresh records and the whole
    database has fewer fresh records than the ratio times what the query reads.  Where it goes then
    is for the thresholds to say: to elastic cores if there are any to give, else to colocation if
    workers may move, else to remote access.
   */
  lemma {:induction false} FreshnessRule(db: seq<Table>, names: seq<string>, conf: Config)
    requires Database(db) && DistinctNames(names) && NameSet(names) <= Names(db)
    requires Listed(db, names, true) > 0
    ensures var queryTotal := Listed(db, names, true);
            var queryFresh := queryTotal - Listed(db, names, false);
            var totalFresh := Selected(db, Names(db), true) - Selected(db, Names(db), false);
            && 0 <= queryFresh <= totalFresh
            && var r := RatiosOf(queryFresh, queryTotal, totalFresh);
            && 0.0 <= r.rfq <= 1.0 && 0.0 <= r.rft <= 1.0
            && var leaves := queryFresh > 0 && totalFresh as real < conf.adaptivityRatio * queryTotal as real;
            && (NextState(conf, r) == S2_ISOLATED <==> !leaves)
            && (NextState(conf, r) == S3_NI <==> leaves && conf.oltpScaleThreshold > 0)
            && (NextState(conf, r) == S1_COLOCATED <==>
                  leaves && conf.oltpScaleThreshold == 0 && conf.collocatedWorkerThreshold > 0)
            && (NextState(conf, r) == S3_IS <==>
                  leaves && conf.oltpScaleThreshold == 0 && conf.collocatedWorkerThreshold == 0)
  {
    hide Selected, Listed, RatiosOf, NextState;
    ListedOnce(db, names, true);
    ListedOnce(db, names, false);
    SelectedLaws(db, NameSet(names));
    Decision(Listed(db, names, true) - Listed(db, names, false), Listed(db, names, true),
             Selected(db, Names(db), true) - Selected(db, Names(db), false), conf);
  }

  lemma Decision(queryFresh: nat, queryTotal: nat, totalFresh: nat, conf: Config)
    requires queryFresh <= queryTotal && queryFresh <= totalFresh && queryTotal > 0
    ensures var r := RatiosOf(queryFresh, queryTotal, totalFresh);
            && 0.0 <= r.rfq <= 1.0 && 0.0 <= r.rft <= 1.0
            && var leaves := queryFresh > 0 && totalFresh as real < conf.adaptivityRatio * queryTotal as real;
            && (NextState(conf, r) == S2_ISOLATED <==> !leaves)
            && (NextState(conf, r) == S3_NI <==> leaves && conf.oltpScaleThreshold > 0)
            && (NextState(conf, r) == S1_COLOCATED <==>
                  leaves && conf.oltpScaleThreshold == 0 && conf.collocatedWorkerThreshold > 0)
            && (NextState(conf, r) == S3_IS <==>
                  leaves && conf.oltpScaleThreshold == 0 && conf.collocatedWorkerThreshold == 0)
  {
    RatioBounds(queryFresh, queryTotal);
    if totalFresh > 0 {
      RatioBounds(queryFresh, totalFresh);
      if queryFresh > 0 {
        Crossing(queryFresh as real, queryTotal as real, totalFresh as real, conf.adaptivityRatio);
      }
    }
  }

  lemma RatioBounds(a: nat, b: nat)
    requires a <= b && b > 0
    ensures 0.0 <= a as real / b as real <= 1.0
    ensures a == 0 ==> a as real / b as real == 0.0
  {
    DivOrder(a as real, b as real, 1.0);
    DivOrder(a as real, b as real, 0.0);
  }
}
