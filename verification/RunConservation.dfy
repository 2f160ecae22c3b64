// The accounting loop from its inputs to its totals: what is assumed is said of
// the core's snapshots alone, what is concluded of the stored counters and the
// daily rollup (internal/services/stats/worker.go, clash_user.go).
module RunConservation {
  import opened Accounting
  import opened ClashUser
  import opened ClientRepo
  import opened Collections
  import opened Conservation
  import opened ConservationLimits
  import opened Domain
  import opened Tag
  import opened Text
  import opened Worker

  // ---- lists of one table credit the same rows -------------------------------

  lemma {:induction false} RowForNamed(list: seq<Client>, name: string)
    ensures RowFor(list, name).Some? ==> exists c :: c in list && c.name == name && c.id == RowFor(list, name).value
  {
    if |list| > 0 {
      assert list[|list| - 1] in list;
      RowForNamed(list[..|list| - 1], name);
      assert forall c :: c in list[..|list| - 1] ==> c in list;
    }
  }

  // A row credited in one list of the table is not below the one credited in another.
  lemma {:induction false} CreditedAtMost(list1: seq<Client>, list2: seq<Client>, rows: Rows, name: string)
    requires ListsNames(list1, rows) && ListsNames(list2, rows) && RowFor(list1, name).Some?
    ensures RowFor(list2, name).Some? && RowFor(list2, name).value <= RowFor(list1, name).value
  {
    RowForNamed(list1, name);
    var c :| c in list1 && c.name == name && c.id == RowFor(list1, name).value;
    assert RowNamed(rows, c);
    assert HasRow(list2, c.id);
    var x :| x in list2 && x.id == c.id;
    assert RowNamed(rows, x);
    RowForIsLowest(list2, x);
  }

  lemma {:induction false} SameCredit(list1: seq<Client>, list2: seq<Client>, rows: Rows, name: string)
    requires ListsNames(list1, rows) && ListsNames(list2, rows)
    ensures RowFor(list1, name) == RowFor(list2, name)
  {
    if RowFor(list1, name).Some? {
      CreditedAtMost(list1, list2, rows, name);
    }
    if RowFor(list2, name).Some? {
      CreditedAtMost(list2, list1, rows, name);
    }
  }

  // ---- connections that keep their first hop ------------------------------------

  function Path(c: Conn): Option<string> {
    if |c.chains| == 0 then None else Some(c.chains[0])
  }

  function LastSnapshot(fetches: seq<Option<seq<Conn>>>): Option<seq<Conn>> {
    if |fetches| == 0 then None
    else if fetches[|fetches| - 1].Some? then fetches[|fetches| - 1]
    else LastSnapshot(fetches[..|fetches| - 1])
  }

  // From one snapshot to the next, a connection id keeps its first hop unless its
  // counter went backwards, that is, unless the id was given to a new connection.
  ghost predicate SamePaths(before: seq<Conn>, after: seq<Conn>, d: Direction) {
    forall a, b :: a in before && b in after && a.id == b.id && a.bytes.Get(d) <= b.bytes.Get(d) ==> Path(a) == Path(b)
  }

  ghost predicate KeepsPaths(fetches: seq<Option<seq<Conn>>>, d: Direction) {
    forall n :: 0 <= n < |fetches| && fetches[n].Some? && LastSnapshot(fetches[..n]).Some? ==>
                  SamePaths(LastSnapshot(fetches[..n]).value, fetches[n].value, d)
  }

  function FetchesOf(ticks: seq<Tick>): (fetches: seq<Option<seq<Conn>>>)
    ensures |fetches| == |ticks| && forall i :: 0 <= i < |ticks| ==> fetches[i] == ticks[i].fetched
  {
    seq(|ticks|, i requires 0 <= i < |ticks| => ticks[i].fetched)
  }

  // The row a first hop leads to.
  function PathRow(names: map<int, string>, list: seq<Client>, path: Option<string>): Option<int> {
    match path
    case None => None
    case Some(tag) =>
      match ParseClientOutboundTag(tag)
      case None => None
      case Some(id) => if id !in names || names[id] == "" then None else RowFor(list, names[id])
  }

  // The polls were made over one table's names.
  ghost predicate OneTable(run: seq<Poll>, fetches: seq<Option<seq<Conn>>>, rows: Rows) {
    && |run| == |fetches|
    && forall i :: 0 <= i < |run| ==>
                     run[i].fetched == fetches[i] && run[i].dir.names == NamesOf(rows) && ListsNames(run[i].list, rows)
  }

  ghost predicate SampledFrom(s: Sample, conns: seq<Conn>, k: string, names: map<int, string>, list: seq<Client>) {
    exists c :: c in conns && c.id == k && s == Sample(PathRow(names, list, Path(c)), c.bytes)
  }

  lemma {:induction false} SampleFrom(p: Poll, k: string, rows: Rows, list: seq<Client>)
    requires p.fetched.Some? && p.dir.names == NamesOf(rows) && ListsNames(p.list, rows) && ListsNames(list, rows)
    ensures var s := SampleOf(p.dir, p.list, p.fetched.value, k);
            s.Some? ==> SampledFrom(s.value, p.fetched.value, k, NamesOf(rows), list)
  {
    hide ParseClientOutboundTag, ListsNames;
    var latest := Latest(p.dir, p.fetched.value, k);
    if latest.Some? {
      var c := latest.value;
      SameCredit(p.list, list, rows, p.dir.names[Owner(p.dir, c).value]);
      assert CreditedRow(p.dir, p.list, c) == PathRow(NamesOf(rows), list, Path(c));
    }
  }

  // The history's last sample was taken in the last snapshot.
  ghost predicate EndsIn(h: History, fetches: seq<Option<seq<Conn>>>, k: string, names: map<int, string>, list: seq<Client>) {
    && (|h| > 0 ==> LastSnapshot(fetches).Some?)
    && (|h| > 0 && h[|h| - 1].Some? ==> SampledFrom(h[|h| - 1].value, LastSnapshot(fetches).value, k, names, list))
  }

  lemma {:induction false} SteadyStep(h: History, x: Option<Sample>, fetches: seq<Option<seq<Conn>>>, k: string, names: map<int, string>,
                                      list: seq<Client>, d: Direction)
    requires |fetches| > 0 && fetches[|fetches| - 1].Some? && KeepsPaths(fetches, d)
    requires Steady(h, d) && EndsIn(h, fetches[..|fetches| - 1], k, names, list)
    requires x.Some? ==> SampledFrom(x.value, fetches[|fetches| - 1].value, k, names, list)
    ensures Steady(h + [x], d) && EndsIn(h + [x], fetches, k, names, list)
  {
    hide SampledFrom, Steady, SamePaths;
    var n := |fetches| - 1;
    if |h| > 0 && h[|h| - 1].Some? && x.Some? {
      assert SamePaths(LastSnapshot(fetches[..n]).value, fetches[n].value, d);
      RowKept(h[|h| - 1].value, LastSnapshot(fetches[..n]).value, x.value, fetches[n].value, k, names, list, d);
    }
    SteadyExtends(h, x, d);
  }

  lemma {:induction false} HistoryStep(run: seq<Poll>, k: string)
    requires |run| > 0
    ensures var front, p := run[..|run| - 1], run[|run| - 1];
            HistoryOf(run, k) ==
            if p.fetched.None? then HistoryOf(front, k) else HistoryOf(front, k) + [SampleOf(p.dir, p.list, p.fetched.value, k)]
  {
  }

  lemma {:induction false} HistorySteady(run: seq<Poll>, fetches: seq<Option<seq<Conn>>>, rows: Rows, list: seq<Client>, k: string, d: Direction)
    requires OneTable(run, fetches, rows) && ListsNames(list, rows) && KeepsPaths(fetches, d)
    ensures Steady(HistoryOf(run, k), d) && EndsIn(HistoryOf(run, k), fetches, k, NamesOf(rows), list)
  {
    if |run| > 0 {
      hide *;
      var n := |run| - 1;
      FrontOfTable(run, fetches, rows);
      FrontKeepsPaths(fetches, d);
      HistorySteady(run[..n], fetches[..n], rows, list, k, d);
      HistoryStep(run, k);
      if run[n].fetched.Some? {
        SampleFrom(run[n], k, rows, list);
        SteadyStep(HistoryOf(run[..n], k), SampleOf(run[n].dir, run[n].list, run[n].fetched.value, k), fetches, k, NamesOf(rows), list, d);
      } else {
        FailedFetch(HistoryOf(run[..n], k), fetches, k, NamesOf(rows), list);
      }
    } else {
      assert HistoryOf(run, k) == [];
    }
  }

  lemma {:induction false} FailedFetch(h: History, fetches: seq<Option<seq<Conn>>>, k: string, names: map<int, string>, list: seq<Client>)
    requires |fetches| > 0 && fetches[|fetches| - 1].None? && EndsIn(h, fetches[..|fetches| - 1], k, names, list)
    ensures EndsIn(h, fetches, k, names, list)
  {
    hide SampledFrom;
  }

  lemma {:induction false} FrontOfTable(run: seq<Poll>, fetches: seq<Option<seq<Conn>>>, rows: Rows)
    requires OneTable(run, fetches, rows) && |run| > 0
    ensures |fetches| == |run| && OneTable(run[..|run| - 1], fetches[..|run| - 1], rows)
    ensures var p := run[|run| - 1]; p.fetched == fetches[|run| - 1] && p.dir.names == NamesOf(rows) && ListsNames(p.list, rows)
  {
    hide ListsNames;
  }

  lemma {:induction false} RowKept(s: Sample, before: seq<Conn>, x: Sample, after: seq<Conn>, k: string, names: map<int, string>,
                                   list: seq<Client>, d: Direction)
    requires SampledFrom(s, before, k, names, list) && SampledFrom(x, after, k, names, list) && SamePaths(before, after, d)
    ensures s.bytes.Get(d) <= x.bytes.Get(d) ==> s.row == x.row
  {
    hide PathRow;
  }

  lemma {:induction false} FrontKeepsPaths(fetches: seq<Option<seq<Conn>>>, d: Direction)
    requires KeepsPaths(fetches, d) && |fetches| > 0
    ensures KeepsPaths(fetches[..|fetches| - 1], d)
  {
    var front := fetches[..|fetches| - 1];
    forall n | 0 <= n < |front| && front[n].Some? && LastSnapshot(front[..n]).Some?
      ensures SamePaths(LastSnapshot(front[..n]).value, front[n].value, d)
    {
      assert front[..n] == fetches[..n] && front[n] == fetches[n];
    }
  }

  lemma {:induction false} SteadyExtends(h: History, x: Option<Sample>, d: Direction)
    requires Steady(h, d)
    requires |h| > 0 && h[|h| - 1].Some? && x.Some? && h[|h| - 1].value.bytes.Get(d) <= x.value.bytes.Get(d) ==>
               h[|h| - 1].value.row == x.value.row
    ensures Steady(h + [x], d)
  {
    var g := h + [x];
    forall i | 0 < i < |g| && g[i - 1].Some? && !LifeEndsAt(g, i - 1, d)
      ensures g[i].value.row == g[i - 1].value.row
    {
      if i < |h| {
        assert !LifeEndsAt(h, i - 1, d);
      }
    }
  }

  // ---- conservation from the loop's own inputs ------------------------------------

  ghost predicate CoversTicks(ks: seq<string>, ticks: seq<Tick>) {
    && Distinct(ks)
    && forall i :: 0 <= i < |ticks| && ticks[i].fetched.Some? ==>
                     && DistinctIds(ticks[i].fetched.value)
                     && forall c :: c in ticks[i].fetched.value ==> c.id in ks
  }

  lemma {:induction false} RecordedRun(run: seq<Poll>, ticks: seq<Tick>, rows: Rows, ks: seq<string>)
    requires Records(run, ticks, rows) && CoversTicks(ks, ticks)
    ensures OneTable(run, FetchesOf(ticks), rows) && Covers(ks, run)
  {
    hide ListsNames;
  }

  lemma {:induction false} RunSteady(run: seq<Poll>, ticks: seq<Tick>, rows: Rows, ks: seq<string>, k: string, d: Direction)
    requires Records(run, ticks, rows) && CoversTicks(ks, ticks) && KeepsPaths(FetchesOf(ticks), d)
    ensures Steady(HistoryOf(run, k), d)
  {
    RecordedRun(run, ticks, rows, ks);
    if |run| > 0 {
      HistorySteady(run, FetchesOf(ticks), rows, run[0].list, k, d);
    }
  }

  // The loop conserves traffic: over any sequence of ticks, with any failures,
  // whose connections keep their first hop, a row's counters grew by exactly the
  // peaks of its connections' counter lifetimes, less the bytes of the ticks
  // whose write failed.
  lemma {:induction false} LoopConserves(rows0: Rows, rows1: Rows, run: seq<Poll>, ticks: seq<Tick>, ks: seq<string>, id: int, d: Direction)
    requires Records(run, ticks, rows0) && Accounted(rows0, rows1, run) && id in rows0
    requires CoversTicks(ks, ticks) && KeepsPaths(FetchesOf(ticks), d)
    ensures rows1[id].Used(d) + Gained(run, false, id, d) == rows0[id].Used(d) + Sum(ks, CarriedFor(run, id, d))
    ensures (forall t :: t in ticks ==> t.fetched.None? || (t.listOk && t.addOk)) ==> Gained(run, false, id, d) == 0
  {
    RecordedRun(run, ticks, rows0, ks);
    forall k | k in ks
      ensures Steady(HistoryOf(run, k), d)
    {
      RunSteady(run, ticks, rows0, ks, k, d);
    }
    hide HistoryOf, Steady, OneTable;
    SteadyTrafficConserved(run, ks, id, d);
    if forall t :: t in ticks ==> t.fetched.None? || (t.listOk && t.addOk) {
      forall p | p in run
        ensures p.stored || p.fetched.None?
      {
        var i :| 0 <= i < |run| && run[i] == p;
        assert ticks[i] in ticks;
      }
      NothingLost(run, id, d);
    }
  }

  // RunTicks with that conclusion.
  method RunLoop(w: Worker, ticks: seq<Tick>, ghost rs: seq<int>, ghost ks: seq<string>) returns (ghost run: seq<Poll>)
    requires w.repo.Valid() && w.source.prevConn == map[]
    requires Distinct(rs) && (forall r :: r in w.repo.rows ==> r in rs) && CoversTicks(ks, ticks)
    modifies w, w.source, w.repo, w.rollup
    ensures w.repo.Valid() && Records(run, ticks, old(w.repo.rows)) && w.repo.rows.Keys == old(w.repo.rows).Keys
    ensures forall id, d :: id in old(w.repo.rows) && KeepsPaths(FetchesOf(ticks), d) ==>
                              w.repo.rows[id].Used(d) + Gained(run, false, id, d) ==
                              old(w.repo.rows)[id].Used(d) + Sum(ks, CarriedFor(run, id, d))
    ensures DaysBooked(old(w.rollup.days), w.rollup.days, run, ticks, rs)
  {
    hide Records, DaysBooked, CoversTicks, KeepsPaths;
    ghost var rows0 := w.repo.rows;
    run := RunTicks(w, ticks, rs);
    ghost var rows1 := w.repo.rows;
    RowsStay(rows0, rows1, run);
    forall id, d | id in rows0 && KeepsPaths(FetchesOf(ticks), d)
      ensures rows1[id].Used(d) + Gained(run, false, id, d) == rows0[id].Used(d) + Sum(ks, CarriedFor(run, id, d))
    {
      LoopConserves(rows0, rows1, run, ticks, ks, id, d);
    }
  }

  // ---- the rollup and the counters -------------------------------------------------

  function BookedOn(run: seq<Poll>, ticks: seq<Tick>, rs: seq<int>, d: Direction): string -> nat
    requires |run| == |ticks|
  {
    day => Booked(run, ticks, day, rs, d)
  }

  function GainedBy(run: seq<Poll>, d: Direction): int -> nat {
    r => Gained(run, true, r, d)
  }

  function OnDay(day: string, amount: nat): string -> nat {
    (x: string) => if x == day then amount else 0
  }

  // What a run books on all its days together is what it stores in all rows
  // together, when every tick that stored its counters also wrote the rollup.
  lemma {:induction false} BookedIsGained(run: seq<Poll>, ticks: seq<Tick>, ds: seq<string>, rs: seq<int>, d: Direction)
    requires |run| == |ticks| && Distinct(ds)
    requires forall i :: 0 <= i < |run| ==> ticks[i].day in ds && (run[i].stored ==> ticks[i].dailyOk)
    ensures Sum(ds, BookedOn(run, ticks, rs, d)) == Sum(rs, GainedBy(run, d))
  {
    if |run| == 0 {
      SumZero(ds, BookedOn(run, ticks, rs, d));
      SumZero(rs, GainedBy(run, d));
    } else {
      hide PollGain;
      var n := |run| - 1;
      var gains := PollGains(PrevAfter(run[..n]), run[n], d);
      BookedIsGained(run[..n], ticks[..n], ds, rs, d);
      if run[n].stored {
        var amount := Sum(rs, gains);
        SumSplit(ds, BookedOn(run[..n], ticks[..n], rs, d), OnDay(ticks[n].day, amount), BookedOn(run, ticks, rs, d));
        SumSingle(ds, OnDay(ticks[n].day, amount), ticks[n].day);
        SumSplit(rs, GainedBy(run[..n], d), gains, GainedBy(run, d));
      } else {
        SumEqual(ds, BookedOn(run[..n], ticks[..n], rs, d), BookedOn(run, ticks, rs, d));
        SumEqual(rs, GainedBy(run[..n], d), GainedBy(run, d));
      }
    }
  }

  function DayGrowth(days0: map<string, Bytes>, days1: map<string, Bytes>, d: Direction): string -> int {
    day => Day(days1, day).Get(d) - Day(days0, day).Get(d)
  }

  function RowGrowth(rows0: Rows, rows1: Rows, d: Direction): int -> int {
    r => if r in rows0 && r in rows1 then rows1[r].Used(d) - rows0[r].Used(d) else 0
  }

  function IntSum<T>(xs: seq<T>, f: T -> int): int {
    if |xs| == 0 then 0 else IntSum(xs[..|xs| - 1], f) + f(xs[|xs| - 1])
  }

  lemma {:induction false} IntSumIsSum<T>(xs: seq<T>, f: T -> int, g: T -> nat)
    requires forall x :: x in xs ==> f(x) == g(x)
    ensures IntSum(xs, f) == Sum(xs, g)
  {
    if |xs| > 0 {
      IntSumIsSum(xs[..|xs| - 1], f, g);
    }
  }

  lemma {:induction false} DaysGrow(days0: map<string, Bytes>, days1: map<string, Bytes>, run: seq<Poll>, ticks: seq<Tick>,
                                    ds: seq<string>, rs: seq<int>, d: Direction)
    requires |run| == |ticks| && DaysBooked(days0, days1, run, ticks, rs)
    ensures IntSum(ds, DayGrowth(days0, days1, d)) == Sum(ds, BookedOn(run, ticks, rs, d))
  {
    hide Day, Booked;
    IntSumIsSum(ds, DayGrowth(days0, days1, d), BookedOn(run, ticks, rs, d));
  }

  lemma {:induction false} RowsGrow(rows0: Rows, rows1: Rows, run: seq<Poll>, rs: seq<int>, d: Direction)
    requires Accounted(rows0, rows1, run) && forall r :: r in rs ==> r in rows0
    ensures IntSum(rs, RowGrowth(rows0, rows1, d)) == Sum(rs, GainedBy(run, d))
  {
    hide Gained;
    IntSumIsSum(rs, RowGrowth(rows0, rows1, d), GainedBy(run, d));
  }

  // The rollup's growth over all days equals the counters' growth over all rows.
  lemma {:induction false} RollupGrowsAsCounters(rows0: Rows, rows1: Rows, days0: map<string, Bytes>, days1: map<string, Bytes>,
                                                 run: seq<Poll>, ticks: seq<Tick>, ds: seq<string>, rs: seq<int>, d: Direction)
    requires Records(run, ticks, rows0) && Accounted(rows0, rows1, run) && DaysBooked(days0, days1, run, ticks, rs)
    requires Distinct(ds) && (forall t :: t in ticks ==> t.day in ds) && forall r :: r in rs ==> r in rows0
    requires forall t :: t in ticks && t.listOk && t.addOk ==> t.dailyOk
    ensures IntSum(ds, DayGrowth(days0, days1, d)) == IntSum(rs, RowGrowth(rows0, rows1, d))
  {
    assert |run| == |ticks| && forall i :: 0 <= i < |run| ==> ticks[i] in ticks && run[i].stored == (ticks[i].listOk && ticks[i].addOk);
    hide Records, Accounted, DaysBooked, DayGrowth, RowGrowth, BookedOn, GainedBy, Distinct;
    BookedIsGained(run, ticks, ds, rs, d);
    DaysGrow(days0, days1, run, ticks, ds, rs, d);
    RowsGrow(rows0, rows1, run, rs, d);
  }
}
