/** Data retention sweeps (data_retention.go). */
module Retention {
  import opened Options
  import opened Filtering

  /** A row of any swept table; tables are sequences in id order. */
  datatype Row = Row(id: int, stamp: int, data: string)

  datatype Policy = Policy(table: string, retentionDays: int, archiveFirst: bool, legalHold: bool)

  /** A completed export file. */
  datatype Archive = Archive(table: string, cutoff: int, lines: seq<Row>)

  datatype Store = Store(tables: map<string, seq<Row>>, archives: seq<Archive>, holds: set<string>)

  const BATCH_SIZE := 500

  predicate UniqueIds(rows: seq<Row>) { forall i, j :: 0 <= i < j < |rows| ==> rows[i].id != rows[j].id }

  function Expired(rows: seq<Row>, cutoff: int): seq<Row> { Filter(rows, (r: Row) => r.stamp < cutoff) }

  function Kept(rows: seq<Row>, cutoff: int): seq<Row> { Filter(rows, (r: Row) => !(r.stamp < cutoff)) }

  function Without(rows: seq<Row>, gone: set<int>): seq<Row> { Filter(rows, (r: Row) => r.id !in gone) }

  function Ids(rows: seq<Row>): set<int> { set r | r in rows :: r.id }

  /** A row is expired if its stamp lies before the cutoff, and kept otherwise; both lists are in table
      order. */
  lemma ExpiredMeans(rows: seq<Row>, cutoff: int, r: Row) returns (expired: seq<nat>, kept: seq<nat>)
    ensures r in Expired(rows, cutoff) <==> r in rows && r.stamp < cutoff
    ensures r in Kept(rows, cutoff) <==> r in rows && r.stamp >= cutoff
    ensures KeptAt(rows, (q: Row) => q.stamp < cutoff, Expired(rows, cutoff), expired)
    ensures KeptAt(rows, (q: Row) => !(q.stamp < cutoff), Kept(rows, cutoff), kept)
  {
    FilterMembers(rows, (q: Row) => q.stamp < cutoff);
    FilterMembers(rows, (q: Row) => !(q.stamp < cutoff));
    expired := FilterPlaces(rows, (q: Row) => q.stamp < cutoff);
    kept := FilterPlaces(rows, (q: Row) => !(q.stamp < cutoff));
  }

  lemma IdsOfExpired(rows: seq<Row>, cutoff: int)
    ensures forall r :: r in Expired(rows, cutoff) <==> r in rows && r.stamp < cutoff
  {
    FilterMembers(rows, (r: Row) => r.stamp < cutoff);
  }

  lemma WithoutMembers(rows: seq<Row>, gone: set<int>)
    ensures forall r :: r in Without(rows, gone) <==> r in rows && r.id !in gone
  {
    FilterMembers(rows, (r: Row) => r.id !in gone);
  }

  lemma {:induction false} IdsSize(rows: seq<Row>)
    requires UniqueIds(rows)
    ensures |Ids(rows)| == |rows|
  {
    if rows != [] {
      var front, last := rows[..|rows| - 1], rows[|rows| - 1];
      IdsSize(front);
      assert rows == front + [last];
      assert Ids(rows) == Ids(front) + {last.id};
    }
  }

  lemma {:induction false} FilterKeepsUnique(rows: seq<Row>, keep: Row -> bool)
    requires UniqueIds(rows)
    ensures UniqueIds(Filter(rows, keep))
  {
    if rows != [] {
      var front, last := rows[..|rows| - 1], rows[|rows| - 1];
      FilterKeepsUnique(front, keep);
      FilterMembers(front, keep);
      var kept := Filter(front, keep);
      forall i | 0 <= i < |kept|
        ensures kept[i].id != last.id
      {
        assert kept[i] in kept;
        var k :| 0 <= k < |front| && front[k] == kept[i];
        assert rows[k] == front[k];
      }
    }
  }

  lemma WithoutTwice(rows: seq<Row>, gone: set<int>, more: set<int>)
    ensures Without(Without(rows, gone), more) == Without(rows, gone + more)
  {
    var first, second, both := (r: Row) => r.id !in gone, (r: Row) => r.id !in more, (r: Row) => r.id !in gone + more;
    FilterAfter(rows, first, both);
    FilterMembers(rows, first);
    FilterAgree(Filter(rows, first), second, both);
  }

  lemma WithoutNothing(rows: seq<Row>)
    ensures Without(rows, {}) == rows
  {
    var gone: set<int> := {};
    FilterAll(rows, (r: Row) => r.id !in gone);
  }

  /** Once no expired row is left, exactly the expired rows are gone. */
  lemma AllExpiredGone(rows: seq<Row>, gone: set<int>, cutoff: int)
    requires UniqueIds(rows) && gone <= Ids(Expired(rows, cutoff)) && Expired(Without(rows, gone), cutoff) == []
    ensures gone == Ids(Expired(rows, cutoff)) && Without(rows, gone) == Kept(rows, cutoff)
    ensures |gone| == |Expired(rows, cutoff)|
  {
    hide UniqueIds;
    var rest := Without(rows, gone);
    IdsOfExpired(rows, cutoff);
    IdsOfExpired(rest, cutoff);
    WithoutMembers(rows, gone);
    forall id | id in Ids(Expired(rows, cutoff))
      ensures id in gone
    {
      var r :| r in Expired(rows, cutoff) && r.id == id;
      assert r in rest ==> r in Expired(rest, cutoff);
    }
    forall r | r in rows
      ensures r.id !in gone <==> !(r.stamp < cutoff)
    {
      if r.id in gone {
        var q :| q in Expired(rows, cutoff) && q.id == r.id;
        SameId(rows, q, r);
      }
    }
    FilterAgree(rows, (r: Row) => r.id !in gone, (r: Row) => !(r.stamp < cutoff));
    FilterKeepsUnique(rows, (r: Row) => r.stamp < cutoff);
    IdsSize(Expired(rows, cutoff));
  }

  lemma SameId(rows: seq<Row>, q: Row, r: Row)
    requires UniqueIds(rows) && q in rows && r in rows && q.id == r.id
    ensures q == r
  {
    var i :| 0 <= i < |rows| && rows[i] == q;
    var j :| 0 <= j < |rows| && rows[j] == r;
  }

  /** One batch more. */
  lemma BatchStep(rows: seq<Row>, gone: set<int>, batch: set<int>, cutoff: int)
    requires UniqueIds(rows) && gone <= Ids(Expired(rows, cutoff)) && batch <= Ids(Expired(Without(rows, gone), cutoff))
    ensures batch !! gone && gone + batch <= Ids(Expired(rows, cutoff))
    ensures Without(Without(rows, gone), batch) == Without(rows, gone + batch)
    ensures |gone + batch| == |gone| + |batch|
    ensures |Ids(Expired(Without(rows, gone + batch), cutoff))| == |Ids(Expired(Without(rows, gone), cutoff))| - |batch|
  {
    hide UniqueIds, Without, Expired;
    var rest, less := Without(rows, gone), Without(rows, gone + batch);
    WithoutTwice(rows, gone, batch);
    IdsOfExpired(rows, cutoff);
    IdsOfExpired(rest, cutoff);
    IdsOfExpired(less, cutoff);
    WithoutMembers(rows, gone);
    WithoutMembers(rows, gone + batch);
    forall id | id in batch
      ensures id !in gone && id in Ids(Expired(rows, cutoff))
    {
      var r :| r in Expired(rest, cutoff) && r.id == id;
      assert r in Expired(rows, cutoff);
    }
    var left, now := Ids(Expired(rest, cutoff)), Ids(Expired(less, cutoff));
    forall id
      ensures id in now <==> id in left && id !in batch
    {
      if id in left && id !in batch {
        var r :| r in Expired(rest, cutoff) && r.id == id;
        assert r in Expired(less, cutoff);
      }
      if id in now {
        var r :| r in Expired(less, cutoff) && r.id == id;
        assert r in Expired(rest, cutoff);
      }
    }
    assert now == left - batch;
  }

  // ---------------------------------------------------------------------------------------
  // One policy.
  // ---------------------------------------------------------------------------------------

  /** What can go wrong while one policy is applied; `exportFailsAt` and `purgeFailsAt` say at which
      line and at which batch. */
  datatype Faults = Faults(count: bool, holdQuery: bool, exportFailsAt: Option<nat>, purgeFailsAt: Option<nat>)

  /** Nothing fails but perhaps the reading of the holds. */
  predicate Clean(f: Faults) { !f.count && f.exportFailsAt.None? && f.purgeFailsAt.None? }

  predicate Held(s: Store, p: Policy, holdQueryFails: bool) { p.legalHold || (!holdQueryFails && p.table in s.holds) }

  /** What applying a policy may do to the store. */
  ghost predicate Effect(s: Store, t: Store, p: Policy, cutoff: int, dryRun: bool, holdQueryFails: bool, gone: set<int>)
    requires p.table in s.tables
  {
    var rows := s.tables[p.table];
    && t.holds == s.holds
    && t.tables == s.tables[p.table := Without(rows, gone)]
    && gone <= Ids(Expired(rows, cutoff))
    && (t.archives == s.archives || t.archives == s.archives + [Archive(p.table, cutoff, Expired(rows, cutoff))])
    && (t.archives != s.archives ==> !dryRun && (p.archiveFirst || Held(s, p, holdQueryFails)))
    && (gone != {} ==> !dryRun && !Held(s, p, holdQueryFails))
    && (gone != {} && p.archiveFirst ==> t.archives == s.archives + [Archive(p.table, cutoff, Expired(rows, cutoff))])
  }

  class RetentionWorker {
    var tables: map<string, seq<Row>>
    var archives: seq<Archive>
    var holds: set<string>

    ghost function Value(): Store
      reads this
    {
      Store(tables, archives, holds)
    }

    /** Ids are primary keys. */
    ghost predicate Valid()
      reads this
    {
      KeysUnique(Value())
    }

    constructor (s: Store)
      requires KeysUnique(s)
      ensures Valid() && Value() == s
    {
      tables, archives, holds := s.tables, s.archives, s.holds;
    }

    method LegalHoldActive(p: Policy, queryFails: bool) returns (held: bool)
      ensures held <==> Held(Value(), p, queryFails)
    {
      if p.legalHold {
        return true;
      }
      if queryFails {
        return false;
      }
      return p.table in holds;
    }

    /** Writes every expired row, in id order, to a new file; the file counts as an archive only when
        it is complete. */
    method ArchiveExpiredRows(p: Policy, cutoff: int, failsAt: Option<nat>) returns (exported: nat, ok: bool)
      requires p.table in tables
      modifies this`archives
      ensures ok ==> exported == |Expired(tables[p.table], cutoff)|
      ensures archives == if ok then old(archives) + [Archive(p.table, cutoff, Expired(tables[p.table], cutoff))] else old(archives)
      ensures failsAt.None? ==> ok
    {
      var rows := tables[p.table];
      var file: seq<Row> := [];
      exported := 0;
      for i := 0 to |rows|
        invariant file == Expired(rows[..i], cutoff) && exported == |file|
      {
        assert rows[..i + 1][..i] == rows[..i];
        if rows[i].stamp < cutoff {
          if failsAt == Some(exported) {
            return exported, false;
          }
          file := file + [rows[i]];
          exported := exported + 1;
        }
      }
      assert rows[..|rows|] == rows;
      if failsAt == Some(exported) {
        return exported, false;
      }
      archives := archives + [Archive(p.table, cutoff, file)];
      ok := true;
    }

    /** Some 500 expired ids, or all of them if there are fewer. */
    method SelectBatch(rows: seq<Row>, cutoff: int) returns (batch: set<int>)
      requires UniqueIds(rows)
      ensures batch <= Ids(Expired(rows, cutoff))
      ensures |batch| == if |Expired(rows, cutoff)| < BATCH_SIZE then |Expired(rows, cutoff)| else BATCH_SIZE
    {
      var expired := Expired(rows, cutoff);
      FilterKeepsUnique(rows, (r: Row) => r.stamp < cutoff);
      var n := if |expired| < BATCH_SIZE then |expired| else BATCH_SIZE;
      IdsSize(expired[..n]);
      assert forall r :: r in expired[..n] ==> r in expired;
      batch := Ids(expired[..n]);
    }

    /** The batched purge: it ends, and unless a batch fails exactly the expired rows are gone. */
    method PurgeExpiredRows(p: Policy, cutoff: int, failsAt: Option<nat>) returns (total: nat, ok: bool, ghost gone: set<int>)
      requires Valid() && p.table in tables
      modifies this`tables
      ensures Valid()
      ensures tables == old(tables)[p.table := Without(old(tables)[p.table], gone)]
      ensures gone <= Ids(Expired(old(tables)[p.table], cutoff)) && total == |gone|
      ensures ok ==> tables[p.table] == Kept(old(tables)[p.table], cutoff) && total == |Expired(old(tables)[p.table], cutoff)|
      ensures failsAt.None? ==> ok
    {
      hide Without, Expired, Kept, UniqueIds;
      ghost var rows := tables[p.table];
      var batches := 0;
      total, ok, gone := 0, false, {};
      WithoutNothing(rows);
      while true
        invariant Valid() && p.table in tables && p.table in old(tables)
        invariant tables == old(tables)[p.table := Without(rows, gone)]
        invariant gone <= Ids(Expired(rows, cutoff)) && total == |gone|
        decreases |Ids(Expired(tables[p.table], cutoff))|
      {
        if failsAt == Some(batches) {
          return;
        }
        batches := batches + 1;
        var batch := SelectBatch(tables[p.table], cutoff);
        BatchStep(rows, gone, batch, cutoff);
        ghost var before := tables[p.table];
        FilteredIsUnique(tables[p.table], batch);
        ExpiredCount(before, cutoff);
        gone := gone + batch;
        tables := tables[p.table := Without(tables[p.table], batch)];
        total := total + |batch|;
        ExpiredCount(tables[p.table], cutoff);
        if |batch| < BATCH_SIZE {
          AllExpiredGone(rows, gone, cutoff);
          ok := true;
          return;
        }
      }
    }

    /** One turn of the loop of RunDataRetention. */
    method ApplyPolicy(p: Policy, cutoff: int, dryRun: bool, faults: Faults) returns (ghost gone: set<int>)
      requires Valid()
      modifies this`tables, this`archives
      ensures Valid()
      ensures p.table !in old(tables) ==> Value() == old(Value())
      ensures p.table in old(tables) ==> Effect(old(Value()), Value(), p, cutoff, dryRun, faults.holdQuery, gone)
      ensures p.table in old(tables) && Clean(faults) && !dryRun ==>
        tables[p.table] == if Held(old(Value()), p, faults.holdQuery) then old(tables)[p.table] else Kept(old(tables)[p.table], cutoff)
      ensures p.table in old(tables) && !faults.count && faults.exportFailsAt.None? && !dryRun && Expired(old(tables)[p.table], cutoff) != []
              && (p.archiveFirst || p.legalHold || (!faults.holdQuery && p.table in holds)) ==>
        archives == old(archives) + [Archive(p.table, cutoff, Expired(old(tables)[p.table], cutoff))]
    {
      hide Without, Kept, UniqueIds;
      gone := {};
      if p.table !in tables {
        return;
      }
      ghost var rows := tables[p.table];
      WithoutNothing(rows);
      assert tables[p.table := rows] == tables;
      if faults.count {
        return;
      }
      var count := |Expired(tables[p.table], cutoff)|;
      if count == 0 {
        NothingExpired(tables[p.table], cutoff);
        return;
      }
      var held := LegalHoldActive(p, faults.holdQuery);
      if dryRun {
        return;
      }
      if p.archiveFirst || held {
        var exported, ok := ArchiveExpiredRows(p, cutoff, faults.exportFailsAt);
        if !ok {
          return;
        }
      }
      if held {
        return;
      }
      var deleted, purged, removed := PurgeExpiredRows(p, cutoff, faults.purgeFailsAt);
      gone := removed;
    }

    /** A sweep over all policies is a history of the store, one action per policy.  A failing policy
        never stops the others: in a real run a table ends up without exactly the rows that are due under
        its policies, whatever fails for other tables. */
    method RunDataRetention(policies: seq<Policy>, today: int, dryRun: bool, faults: seq<Faults>)
      returns (ghost trace: seq<Store>, ghost actions: seq<Action>)
      requires Valid() && |faults| == |policies|
      modifies this`tables, this`archives
      ensures Valid() && IsHistory(trace, actions)
      ensures trace[0] == old(Value()) && trace[|actions|] == Value()
      ensures |actions| == |policies| && forall i :: 0 <= i < |actions| ==>
        actions[i].Apply? && actions[i].p == policies[i] && actions[i].cutoff == today - policies[i].retentionDays
        && actions[i].dryRun == dryRun && actions[i].holdQueryFails == faults[i].holdQuery
      ensures tables.Keys == old(tables).Keys
      ensures forall table :: table in tables && !dryRun && CleanFor(policies, faults, table, |policies|) ==>
        tables[table] == Surviving(old(Value()), policies, faults, today, table, |policies|)
    {
      hide Effect, KeysUnique, Held, Surviving, Kept, CleanFor, IsHistory;
      ghost var start := Value();
      trace, actions := [start], [];
      HistoryStart(start);
      forall table | table in tables
        ensures Surviving(start, policies, faults, today, table, 0) == tables[table]
      {
        NothingDueYet(start, policies, faults, today, table);
      }
      for i := 0 to |policies|
        invariant Valid() && IsHistory(trace, actions) && holds == start.holds
        invariant |trace| == i + 1 && trace[0] == start && |actions| == i && trace[i] == Value()
        invariant forall k :: 0 <= k < i ==>
          actions[k].Apply? && actions[k].p == policies[k] && actions[k].cutoff == today - policies[k].retentionDays
          && actions[k].dryRun == dryRun && actions[k].holdQueryFails == faults[k].holdQuery
        invariant tables.Keys == start.tables.Keys
        invariant forall table :: table in tables && !dryRun && CleanFor(policies, faults, table, i) ==>
          tables[table] == Surviving(start, policies, faults, today, table, i)
      {
        var cutoff := today - policies[i].retentionDays;
        ghost var before := Value();
        var gone := ApplyPolicy(policies[i], cutoff, dryRun, faults[i]);
        ghost var action := Apply(policies[i], cutoff, dryRun, faults[i].holdQuery, gone);
        StepFrame(before, action, Value());
        LongerHistory(trace, actions, action, Value());
        forall table | table in tables && !dryRun && CleanFor(policies, faults, table, i + 1)
          ensures tables[table] == Surviving(start, policies, faults, today, table, i + 1)
        {
          SurvivingStep(start, before, policies, faults, today, table, i);
        }
        trace, actions := trace + [Value()], actions + [action];
      }
    }
  }

  /** Row `r` is due under one of the first `n` policies: it is for the table, sees no hold, and the row
      is older than its cutoff. */
  predicate Due(s: Store, policies: seq<Policy>, faults: seq<Faults>, today: int, table: string, r: Row, n: nat)
    requires n <= |policies| == |faults|
  {
    n > 0
    && (Due(s, policies, faults, today, table, r, n - 1)
        || (policies[n - 1].table == table && !Held(s, policies[n - 1], faults[n - 1].holdQuery)
            && r.stamp < today - policies[n - 1].retentionDays))
  }

  lemma {:induction false} DueMeans(s: Store, policies: seq<Policy>, faults: seq<Faults>, today: int, table: string, r: Row, n: nat)
    requires n <= |policies| == |faults|
    ensures Due(s, policies, faults, today, table, r, n) <==>
      exists k :: 0 <= k < n && policies[k].table == table && !policies[k].legalHold && (faults[k].holdQuery || table !in s.holds)
        && r.stamp < today - policies[k].retentionDays
  {
    if n > 0 {
      DueMeans(s, policies, faults, today, table, r, n - 1);
    }
  }

  function Surviving(s: Store, policies: seq<Policy>, faults: seq<Faults>, today: int, table: string, n: nat): seq<Row>
    requires n <= |policies| == |faults| && table in s.tables
  {
    Filter(s.tables[table], (r: Row) => !Due(s, policies, faults, today, table, r, n))
  }

  ghost predicate CleanFor(policies: seq<Policy>, faults: seq<Faults>, table: string, n: nat)
    requires n <= |policies| == |faults|
  {
    forall k :: 0 <= k < n && policies[k].table == table ==> Clean(faults[k])
  }

  lemma NothingDueYet(s: Store, policies: seq<Policy>, faults: seq<Faults>, today: int, table: string)
    requires |policies| == |faults| && table in s.tables
    ensures Surviving(s, policies, faults, today, table, 0) == s.tables[table]
  {
    FilterAll(s.tables[table], (r: Row) => !Due(s, policies, faults, today, table, r, 0));
  }

  /** One policy more. */
  lemma SurvivingStep(start: Store, s: Store, policies: seq<Policy>, faults: seq<Faults>, today: int, table: string, i: nat)
    requires i < |policies| == |faults| && table in start.tables && s.holds == start.holds
    requires CleanFor(policies, faults, table, i + 1)
    ensures CleanFor(policies, faults, table, i) && (policies[i].table == table ==> Clean(faults[i]))
    ensures Held(s, policies[i], faults[i].holdQuery) == Held(start, policies[i], faults[i].holdQuery)
    ensures
      var before := Surviving(start, policies, faults, today, table, i);
      Surviving(start, policies, faults, today, table, i + 1)
      == if policies[i].table == table && !Held(start, policies[i], faults[i].holdQuery)
         then Kept(before, today - policies[i].retentionDays) else before
  {
    var rows, cutoff := start.tables[table], today - policies[i].retentionDays;
    var coarse := (r: Row) => !Due(start, policies, faults, today, table, r, i);
    var fine := (r: Row) => !Due(start, policies, faults, today, table, r, i + 1);
    if policies[i].table == table && !Held(start, policies[i], faults[i].holdQuery) {
      FilterAfter(rows, coarse, fine);
      FilterMembers(rows, coarse);
      FilterAgree(Filter(rows, coarse), (r: Row) => !(r.stamp < cutoff), fine);
    } else {
      FilterAgree(rows, coarse, fine);
    }
  }

  /** What a policy leaves alone. */
  lemma StepFrame(s: Store, a: Action, t: Store)
    requires a.Apply? && Step(s, a, t)
    ensures t.holds == s.holds && t.tables.Keys == s.tables.Keys
    ensures forall table :: table in s.tables && table != a.p.table ==> t.tables[table] == s.tables[table]
  {
  }

  lemma HistoryStart(s: Store)
    requires KeysUnique(s)
    ensures IsHistory([s], [])
  {
  }

  lemma LongerHistory(trace: seq<Store>, actions: seq<Action>, a: Action, t: Store)
    requires IsHistory(trace, actions) && Step(trace[|actions|], a, t)
    ensures IsHistory(trace + [t], actions + [a])
  {
    hide Step, KeysUnique;
    var longer, more := trace + [t], actions + [a];
    forall i | 0 <= i < |more|
      ensures Step(longer[i], more[i], longer[i + 1])
    {
      if i < |actions| {
        assert Step(trace[i], actions[i], trace[i + 1]);
      }
    }
  }

  lemma FilteredIsUnique(rows: seq<Row>, gone: set<int>)
    requires UniqueIds(rows)
    ensures UniqueIds(Without(rows, gone))
  {
    FilterKeepsUnique(rows, (r: Row) => r.id !in gone);
  }

  lemma ExpiredCount(rows: seq<Row>, cutoff: int)
    requires UniqueIds(rows)
    ensures |Ids(Expired(rows, cutoff))| == |Expired(rows, cutoff)|
  {
    FilterKeepsUnique(rows, (r: Row) => r.stamp < cutoff);
    IdsSize(Expired(rows, cutoff));
  }

  lemma NothingExpired(rows: seq<Row>, cutoff: int)
    requires Expired(rows, cutoff) == []
    ensures Kept(rows, cutoff) == rows
  {
    IdsOfExpired(rows, cutoff);
    forall r | r in rows
      ensures !(r.stamp < cutoff)
    {
      assert r.stamp < cutoff ==> r in Expired(rows, cutoff);
    }
    FilterAll(rows, (r: Row) => !(r.stamp < cutoff));
  }

  /** A dynamic hold on a table fails open: it protects expired rows exactly when the holds can be read. */
  lemma HoldFailsOpen(s: Store, p: Policy, cutoff: int, holdQueryFails: bool)
    requires p.table in s.tables && p.table in s.holds && !p.legalHold && Expired(s.tables[p.table], cutoff) != []
    ensures
      var rows := s.tables[p.table];
      (if Held(s, p, holdQueryFails) then rows else Kept(rows, cutoff)) == rows <==> !holdQueryFails
  {
    var rows := s.tables[p.table];
    IdsOfExpired(rows, cutoff);
    FilterMembers(rows, (r: Row) => !(r.stamp < cutoff));
    var r := Expired(rows, cutoff)[0];
    assert r in Expired(rows, cutoff);
    assert r in rows && r !in Kept(rows, cutoff);
  }

  // ---------------------------------------------------------------------------------------
  // Any sequence of sweeps.
  // ---------------------------------------------------------------------------------------

  /** Between two policies anyone may insert rows, and place or release holds. */
  datatype Action =
    | Apply(p: Policy, cutoff: int, dryRun: bool, holdQueryFails: bool, gone: set<int>)
    | Insert(table: string, row: Row)
    | SetHolds(holds: set<string>)

  ghost predicate Step(s: Store, a: Action, t: Store) {
    match a
    case Apply(p, cutoff, dryRun, holdQueryFails, gone) =>
      if p.table in s.tables then Effect(s, t, p, cutoff, dryRun, holdQueryFails, gone) else t == s
    case Insert(table, row) =>
      t == if table in s.tables && row.id !in Ids(s.tables[table]) then s.(tables := s.tables[table := s.tables[table] + [row]])
           else s
    case SetHolds(holds) => t == s.(holds := holds)
  }

  /** `trace` is a history of the store under the actions. */
  ghost predicate IsHistory(trace: seq<Store>, actions: seq<Action>) {
    && |trace| == |actions| + 1 && KeysUnique(trace[0])
    && forall i :: 0 <= i < |actions| ==> Step(trace[i], actions[i], trace[i + 1])
  }

  ghost predicate KeysUnique(s: Store) { forall name :: name in s.tables ==> UniqueIds(s.tables[name]) }

  ghost predicate InArchive(s: Store, table: string, row: Row) {
    exists k :: 0 <= k < |s.archives| && s.archives[k].table == table && row in s.archives[k].lines && row.stamp < s.archives[k].cutoff
  }

  ghost predicate Present(s: Store, table: string, row: Row) { table in s.tables && row in s.tables[table] }

  /** The action may delete this row: a real run of a policy for its table, the row is older than the
      cutoff, and no hold is seen. */
  predicate MayDelete(s: Store, a: Action, table: string, row: Row) {
    a.Apply? && a.p.table == table && !a.dryRun && row.stamp < a.cutoff && !Held(s, a.p, a.holdQueryFails)
  }

  lemma StepKeepsKeys(s: Store, a: Action, t: Store)
    requires KeysUnique(s) && Step(s, a, t)
    ensures KeysUnique(t)
  {
    hide Without;
    if a.Apply? && a.p.table in s.tables {
      FilteredIsUnique(s.tables[a.p.table], a.gone);
    }
  }

  /** A row leaves its table only by an action that may delete it, and out of an archive-first table only
      together with its export. */
  lemma PresentStep(s: Store, a: Action, t: Store, table: string, row: Row)
    requires KeysUnique(s) && Step(s, a, t) && Present(s, table, row)
    ensures Present(t, table, row) || (MayDelete(s, a, table, row) && (a.p.archiveFirst ==> InArchive(t, table, row)))
  {
    hide Without, Expired, UniqueIds;
    if a.Apply? && a.p.table == table {
      var rows := s.tables[table];
      WithoutMembers(rows, a.gone);
      IdsOfExpired(rows, a.cutoff);
      if row.id in a.gone {
        var q :| q in Expired(rows, a.cutoff) && q.id == row.id;
        SameId(rows, q, row);
        if a.p.archiveFirst {
          assert t.archives[|s.archives|].lines == Expired(rows, a.cutoff);
        }
      }
    }
  }

  lemma ArchivesKept(s: Store, a: Action, t: Store, table: string, row: Row)
    requires Step(s, a, t) && InArchive(s, table, row)
    ensures InArchive(t, table, row)
  {
    hide Without, Expired;
    var k :| 0 <= k < |s.archives| && s.archives[k].table == table && row in s.archives[k].lines && row.stamp < s.archives[k].cutoff;
    assert t.archives[k] == s.archives[k];
  }

  /** Over any sequence of sweeps, with rows inserted and holds changed in between: a row that is gone was
      deleted by one action that was allowed to, and if every policy of its table archives first it is in
      an archive. */
  lemma {:induction false} LostRowsWereDue(trace: seq<Store>, actions: seq<Action>, table: string, row: Row) returns (i: int)
    requires IsHistory(trace, actions) && Present(trace[0], table, row)
    ensures KeysUnique(trace[|actions|])
    ensures i == -1 ==> Present(trace[|actions|], table, row)
    ensures i != -1 ==> 0 <= i < |actions| && actions[i] in actions && MayDelete(trace[i], actions[i], table, row)
    ensures i != -1 ==>
      ((forall a :: a in actions && a.Apply? && a.p.table == table ==> a.p.archiveFirst) ==> InArchive(trace[|actions|], table, row))
  {
    hide Step, KeysUnique, MayDelete, InArchive, Present;
    if actions == [] {
      i := -1;
    } else {
      var n := |actions| - 1;
      ShorterHistory(trace, actions);
      i := LostRowsWereDue(trace[..n + 1], actions[..n], table, row);
      StepKeepsKeys(trace[n], actions[n], trace[n + 1]);
      assert forall a :: a in actions[..n] ==> a in actions;
      if i == -1 {
        PresentStep(trace[n], actions[n], trace[n + 1], table, row);
        if Present(trace[n + 1], table, row) {
        } else {
          i := n;
          DeletesAreApplies(trace[n], actions[n], table, row);
        }
      } else if InArchive(trace[n], table, row) {
        ArchivesKept(trace[n], actions[n], trace[n + 1], table, row);
      }
    }
  }

  lemma DeletesAreApplies(s: Store, a: Action, table: string, row: Row)
    requires MayDelete(s, a, table, row)
    ensures a.Apply? && a.p.table == table
  {
  }

  lemma ShorterHistory(trace: seq<Store>, actions: seq<Action>)
    requires IsHistory(trace, actions) && actions != []
    ensures IsHistory(trace[..|actions|], actions[..|actions| - 1])
    ensures Step(trace[|actions| - 1], actions[|actions| - 1], trace[|actions|])
  {
    hide Step, KeysUnique;
    var shorter, fewer := trace[..|actions|], actions[..|actions| - 1];
    forall i | 0 <= i < |fewer|
      ensures Step(shorter[i], fewer[i], shorter[i + 1])
    {
      assert Step(trace[i], actions[i], trace[i + 1]);
    }
  }

  /** A table whose every policy carries the static hold never loses a row. */
  lemma HeldTablesLoseNothing(trace: seq<Store>, actions: seq<Action>, table: string, row: Row)
    requires IsHistory(trace, actions) && Present(trace[0], table, row)
    requires forall a :: a in actions && a.Apply? && a.p.table == table ==> a.p.legalHold
    ensures Present(trace[|actions|], table, row)
  {
    hide Present, IsHistory, KeysUnique;
    assert |trace| == |actions| + 1 by { HistoryLength(trace, actions); }
    var i := LostRowsWereDue(trace, actions, table, row);
  }

  /** A dynamic hold that stays in place protects the table as long as every reading of it succeeds. */
  lemma ReadableHoldsProtect(trace: seq<Store>, actions: seq<Action>, table: string, row: Row)
    requires IsHistory(trace, actions) && Present(trace[0], table, row)
    requires forall i :: 0 <= i < |actions| ==> table in trace[i].holds
    requires forall a :: a in actions && a.Apply? && a.p.table == table ==> !a.holdQueryFails
    ensures Present(trace[|actions|], table, row)
  {
    hide Present, IsHistory, KeysUnique;
    assert |trace| == |actions| + 1 by { HistoryLength(trace, actions); }
    var i := LostRowsWereDue(trace, actions, table, row);
  }

  lemma HistoryLength(trace: seq<Store>, actions: seq<Action>)
    requires IsHistory(trace, actions)
    ensures |trace| == |actions| + 1
  {
  }
}
