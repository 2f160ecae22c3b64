// The accounting loop over whole runs: the counters the worker stores are the
// bytes of the polls it could write, and the rollup grows by the same total.
module Accounting {
  import opened ClashUser
  import opened ClientRepo
  import opened Collections
  import opened Conservation
  import ConservationLimits
  import opened Domain
  import opened Text
  import opened Worker

  // ---- one tick --------------------------------------------------------------

  function NamedTerm(list: seq<Client>, r: int, d: Direction): UserTraffic -> nat {
    (u: UserTraffic) => if RowFor(list, u.name) == Some(r) then u.bytes.Get(d) else 0
  }

  lemma {:induction false} BatchIsNamed(list: seq<Client>, deltas: seq<UserTraffic>, r: int, d: Direction)
    ensures Sum(BatchOf(list, deltas), DeltaTerm(r, d)) == Sum(deltas, NamedTerm(list, r, d))
  {
    if |deltas| > 0 {
      hide RowFor;
      var front, last := deltas[..|deltas| - 1], deltas[|deltas| - 1];
      BatchIsNamed(list, front, r, d);
      match RowFor(list, last.name) {
        case None =>
        case Some(row) =>
          if last.bytes != Bytes(0, 0) {
            assert BatchOf(list, deltas) == BatchOf(list, front) + [TrafficDelta(row, last.bytes)];
            SumAppend(BatchOf(list, front), TrafficDelta(row, last.bytes), DeltaTerm(r, d));
          }
      }
    }
  }

  function ChargeOfId(prev: map<string, Bytes>, dir: Directory, list: seq<Client>, conns: seq<Conn>, r: int, d: Direction): int -> nat {
    id => if id in dir.names && RowFor(list, dir.names[id]) == Some(r) then Charge(prev, dir, conns, id).Get(d) else 0
  }

  lemma {:induction false} NamedIsCharges(deltas: seq<UserTraffic>, ids: seq<int>, prev: map<string, Bytes>, dir: Directory,
                                          list: seq<Client>, conns: seq<Conn>, r: int, d: Direction)
    requires |deltas| == |ids|
    requires forall k :: 0 <= k < |ids| ==>
               ids[k] in dir.names && deltas[k] == UserTraffic(dir.names[ids[k]], Charge(prev, dir, conns, ids[k]))
    ensures Sum(deltas, NamedTerm(list, r, d)) == Sum(ids, ChargeOfId(prev, dir, list, conns, r, d))
  {
    if |ids| > 0 {
      hide Charge;
      NamedIsCharges(deltas[..|ids| - 1], ids[..|ids| - 1], prev, dir, list, conns, r, d);
    }
  }

  // Connection c's part of the charge to client id, if that client's name leads to row r.
  function ChargeTable(prev: map<string, Bytes>, dir: Directory, list: seq<Client>, r: int, d: Direction): (int, Conn) -> nat {
    (id: int, c: Conn) =>
      if Owner(dir, c) == Some(id) && RowFor(list, dir.names[id]) == Some(r) then Growth(prev, c, d) else 0
  }

  lemma {:induction false} ChargeIsRowSum(prev: map<string, Bytes>, dir: Directory, list: seq<Client>, conns: seq<Conn>,
                                          id: int, r: int, d: Direction)
    ensures RowSum(conns, ChargeTable(prev, dir, list, r, d))(id) == ChargeOfId(prev, dir, list, conns, r, d)(id)
  {
    var row := RowTerm(ChargeTable(prev, dir, list, r, d), id);
    if id in dir.names && RowFor(list, dir.names[id]) == Some(r) {
      SumEqual(conns, row, ChargeTerm(prev, dir, id, d));
    } else {
      SumZero(conns, row);
    }
  }

  // What one tick writes for a row is the poll's gain for it.
  lemma {:induction false} BatchIsGain(deltas: seq<UserTraffic>, ids: seq<int>, prev: map<string, Bytes>, dir: Directory,
                                       list: seq<Client>, conns: seq<Conn>, r: int, d: Direction)
    requires Reports(deltas, ids, prev, dir, conns)
    ensures Sum(BatchOf(list, deltas), DeltaTerm(r, d)) == Gain(prev, dir, list, conns, r, d)
  {
    var g := ChargeTable(prev, dir, list, r, d);
    BatchIsNamed(list, deltas, r, d);
    NamedIsCharges(deltas, ids, prev, dir, list, conns, r, d);
    forall id | id in ids
      ensures ChargeOfId(prev, dir, list, conns, r, d)(id) == RowSum(conns, g)(id)
    {
      ChargeIsRowSum(prev, dir, list, conns, id, r, d);
    }
    SumEqual(ids, ChargeOfId(prev, dir, list, conns, r, d), RowSum(conns, g));
    SumExchange(ids, conns, g);
    forall c | c in conns
      ensures ColumnSum(ids, g)(c) == GainTerm(prev, dir, list, r, d)(c)
    {
      GainOfConn(ids, prev, dir, list, conns, c, r, d);
    }
    SumEqual(conns, ColumnSum(ids, g), GainTerm(prev, dir, list, r, d));
  }

  lemma {:induction false} GainOfConn(ids: seq<int>, prev: map<string, Bytes>, dir: Directory, list: seq<Client>, conns: seq<Conn>,
                                      c: Conn, r: int, d: Direction)
    requires Distinct(ids) && c in conns
    requires forall id :: id in ids <==> Charge(prev, dir, conns, id) != Bytes(0, 0)
    ensures ColumnSum(ids, ChargeTable(prev, dir, list, r, d))(c) == GainTerm(prev, dir, list, r, d)(c)
  {
    var column := ColumnTerm(ChargeTable(prev, dir, list, r, d), c);
    match Owner(dir, c) {
      case None => SumZero(ids, column);
      case Some(id) =>
        if id in ids {
          SumSingle(ids, column, id);
        } else {
          SumZero(ids, column);
          TermAtMostSum(conns, ChargeTerm(prev, dir, id, d), c);
          assert Charge(prev, dir, conns, id) == Bytes(0, 0);
        }
    }
  }

  // c' is c with its counters, for identification and accounting.
  predicate SameAccount(c: Client, c': Client) {
    c'.id == c.id && c'.name == c.name && c'.nodeId == c.nodeId && c'.usedUp == c.usedUp && c'.usedDown == c.usedDown
  }

  lemma {:induction false} MarkKeepsAccount(c: Client, batch: seq<TrafficDelta>, t: Tick)
    ensures SameAccount(c, MarkedRow(c, batch, t))
  {
  }

  lemma {:induction false} BeatKeepsAccount(c: Client, list: seq<Client>, batch: seq<TrafficDelta>, seen: map<string, Time>, failed: set<int>)
    ensures SameAccount(c, BeatenRow(c, list, batch, seen, failed))
  {
  }

  lemma {:induction false} EnforceKeepsAccount(c: Client, now: Time, failed: set<int>)
    ensures SameAccount(c, EnforcedRow(c, now, failed))
  {
  }

  lemma {:induction false} CreditCounts(c: Client, batch: seq<TrafficDelta>, now: Time, d: Direction)
    ensures var c' := CreditedRowAfter(c, batch, now);
            && c'.Used(d) == c.Used(d) + Sum(batch, DeltaTerm(c.id, d))
            && c'.id == c.id && c'.name == c.name && c'.nodeId == c.nodeId
  {
  }

  // The counters of a row after a tick; its identity stays.
  lemma {:induction false} TickCounts(c: Client, list: seq<Client>, batch: seq<TrafficDelta>, seen: map<string, Time>, t: Tick, d: Direction)
    ensures var c' := RowAfterTick(c, list, batch, seen, t);
            && c'.Used(d) == c.Used(d) + (if t.addOk then Sum(batch, DeltaTerm(c.id, d)) else 0)
            && c'.id == c.id && c'.name == c.name && c'.nodeId == c.nodeId
  {
    hide Sum, MarkedRow, CreditedRowAfter, BeatenRow, EnforcedRow;
    var marked := MarkedRow(c, batch, t);
    var credited := CreditedRowAfter(marked, batch, t.now);
    var beaten := BeatenRow(credited, list, batch, seen, t.lastUsedFailed);
    MarkKeepsAccount(c, batch, t);
    CreditCounts(marked, batch, t.now, d);
    BeatKeepsAccount(credited, list, batch, seen, t.lastUsedFailed);
    EnforceKeepsAccount(beaten, t.enforceNow, t.statusFailed);
    if batch == [] {
      NoBatch(batch, c.id, d);
    }
  }

  lemma {:induction false} NoBatch(batch: seq<TrafficDelta>, r: int, d: Direction)
    requires batch == []
    ensures Sum(batch, DeltaTerm(r, d)) == 0
  {
  }

  // ---- whole runs ------------------------------------------------------------

  function PollOf(t: Tick, rows: Rows, list: seq<Client>): Poll {
    Poll(t.fetched, Directory(NamesOf(rows), t.lookupFailed), list, t.listOk && t.addOk)
  }

  // deltas is what the source answered in a tick.
  ghost predicate TickReported(t: Tick, rows: Rows, list: seq<Client>, deltas: seq<UserTraffic>, ids: seq<int>,
                               prev: map<string, Bytes>)
  {
    match t.fetched
    case None => deltas == []
    case Some(conns) => Reports(deltas, ids, prev, PollOf(t, rows, list).dir, conns)
  }

  // The batch of a tick holds the poll's gain for every row.
  lemma {:induction false} BatchIsPollGain(t: Tick, rows: Rows, list: seq<Client>, deltas: seq<UserTraffic>, ids: seq<int>,
                                           prev: map<string, Bytes>, r: int, d: Direction)
    requires TickReported(t, rows, list, deltas, ids, prev)
    ensures Sum(BatchOf(list, deltas), DeltaTerm(r, d)) == PollGain(prev, PollOf(t, rows, list), r, d)
  {
    if t.fetched.Some? {
      BatchIsGain(deltas, ids, prev, PollOf(t, rows, list).dir, list, t.fetched.value, r, d);
    }
  }

  function PollGains(prev: map<string, Bytes>, p: Poll, d: Direction): int -> nat {
    r => PollGain(prev, p, r, d)
  }

  function ClientKey(): TrafficDelta -> int {
    (t: TrafficDelta) => t.clientId
  }

  lemma {:induction false} BatchNamesRows(list: seq<Client>, deltas: seq<UserTraffic>)
    ensures forall t :: t in BatchOf(list, deltas) ==> exists c :: c in list && c.id == t.clientId
  {
    if |deltas| > 0 {
      BatchNamesRows(list, deltas[..|deltas| - 1]);
      RowForListed(list, deltas[|deltas| - 1].name);
    }
  }

  lemma {:induction false} RowForListed(list: seq<Client>, name: string)
    ensures RowFor(list, name).Some? ==> exists c :: c in list && c.id == RowFor(list, name).value
  {
    if |list| > 0 {
      assert list[|list| - 1] in list;
      RowForListed(list[..|list| - 1], name);
      assert forall c :: c in list[..|list| - 1] ==> c in list;
    }
  }

  // What a tick books on its day is what it stores over all rows.
  lemma {:induction false} DayIsAllGains(t: Tick, rows: Rows, rs: seq<int>, list: seq<Client>, deltas: seq<UserTraffic>, ids: seq<int>,
                                         prev: map<string, Bytes>, d: Direction)
    requires Lists(list, rows) && Distinct(rs) && forall r :: r in rows ==> r in rs
    requires TickReported(t, rows, list, deltas, ids, prev)
    ensures Total(BatchOf(list, deltas)).Get(d) == Sum(rs, PollGains(prev, PollOf(t, rows, list), d))
  {
    hide TickReported;
    var batch := BatchOf(list, deltas);
    BatchNamesRows(list, deltas);
    forall x | x in batch
      ensures ClientKey()(x) in rs
    {
      assert exists c :: c in list && c.id == x.clientId;
    }
    SumByKey(batch, rs, ClientKey(), Amount(d));
    forall r | r in rs
      ensures KeyedSum(batch, ClientKey(), Amount(d))(r) == PollGains(prev, PollOf(t, rows, list), d)(r)
    {
      SumEqual(batch, Keyed(ClientKey(), Amount(d), r), DeltaTerm(r, d));
      BatchIsPollGain(t, rows, list, deltas, ids, prev, r, d);
    }
    SumEqual(rs, KeyedSum(batch, ClientKey(), Amount(d)), PollGains(prev, PollOf(t, rows, list), d));
  }

  // The bytes a run books on a day: every row's gain at each tick of that day
  // whose counters and rollup were both written.
  function Booked(run: seq<Poll>, ticks: seq<Tick>, day: string, rs: seq<int>, d: Direction): nat
    requires |run| == |ticks|
  {
    if |run| == 0 then 0
    else
      var n := |run| - 1;
      Booked(run[..n], ticks[..n], day, rs, d) +
      if run[n].stored && ticks[n].dailyOk && ticks[n].day == day then Sum(rs, PollGains(PrevAfter(run[..n]), run[n], d)) else 0
  }

  // The rows' identities do not change, and their counters grew by the run's stored gains.
  ghost predicate Accounted(rows0: Rows, rows1: Rows, run: seq<Poll>) {
    && rows1.Keys == rows0.Keys
    && (forall id :: id in rows0 ==> rows1[id].name == rows0[id].name && rows1[id].nodeId == rows0[id].nodeId)
    && (forall id, d :: id in rows0 ==> rows1[id].Used(d) == rows0[id].Used(d) + Gained(run, true, id, d))
  }

  // A tick changes a row's counters by the poll's gain if it was stored.
  lemma {:induction false} TickGains(rows1: Rows, rows2: Rows, prev: map<string, Bytes>, t: Tick, list: seq<Client>,
                                     deltas: seq<UserTraffic>, ids: seq<int>, seen: map<string, Time>, id: int, d: Direction)
    requires WellKeyed(rows1) && id in rows1
    requires TickReported(t, rows1, list, deltas, ids, prev)
    requires if t.listOk && !(deltas == [] && seen == map[])
             then Ticked(rows1, rows2, list, BatchOf(list, deltas), seen, t) else rows2 == rows1
    ensures id in rows2 && rows2[id].name == rows1[id].name && rows2[id].nodeId == rows1[id].nodeId && rows2[id].id == id
    ensures rows2[id].Used(d) == rows1[id].Used(d) +
            if t.listOk && t.addOk then PollGain(prev, PollOf(t, rows1, list), id, d) else 0
  {
    hide TickReported, PollGain, RowAfterTick;
    BatchIsPollGain(t, rows1, list, deltas, ids, prev, id, d);
    if t.listOk && !(deltas == [] && seen == map[]) {
      TickCounts(rows1[id], list, BatchOf(list, deltas), seen, t, d);
    } else if deltas == [] {
      NoBatch(BatchOf(list, deltas), id, d);
    }
  }

  lemma {:induction false} TickAccounted(rows0: Rows, rows1: Rows, rows2: Rows, run: seq<Poll>, t: Tick, list: seq<Client>,
                                         deltas: seq<UserTraffic>, ids: seq<int>, seen: map<string, Time>)
    requires WellKeyed(rows1) && Accounted(rows0, rows1, run)
    requires TickReported(t, rows1, list, deltas, ids, PrevAfter(run))
    requires if t.listOk && !(deltas == [] && seen == map[])
             then Ticked(rows1, rows2, list, BatchOf(list, deltas), seen, t) else rows2 == rows1
    ensures Accounted(rows0, rows2, run + [PollOf(t, rows1, list)])
  {
    var p := PollOf(t, rows1, list);
    assert rows2.Keys == rows1.Keys;
    hide TickReported, PollGain, Ticked;
    forall id, d | id in rows0
      ensures rows2[id].Used(d) == rows0[id].Used(d) + Gained(run + [p], true, id, d)
      ensures rows2[id].name == rows0[id].name && rows2[id].nodeId == rows0[id].nodeId
    {
      TickGains(rows1, rows2, PrevAfter(run), t, list, deltas, ids, seen, id, d);
      GainedStep(run, p, id, d);
    }
    forall id | id in rows0
      ensures rows2[id].name == rows0[id].name && rows2[id].nodeId == rows0[id].nodeId
    {
      assert rows2[id].Used(Up) == rows0[id].Used(Up) + Gained(run + [p], true, id, Up);
    }
  }

  lemma {:induction false} GainedStep(run: seq<Poll>, p: Poll, r: int, d: Direction)
    ensures Gained(run + [p], true, r, d) == Gained(run, true, r, d) + if p.stored then PollGain(PrevAfter(run), p, r, d) else 0
  {
    assert (run + [p])[..|run|] == run;
  }

  lemma {:induction false} TickBooked(run: seq<Poll>, ticks: seq<Tick>, t: Tick, rows: Rows, rs: seq<int>, list: seq<Client>,
                                      deltas: seq<UserTraffic>, ids: seq<int>, day: string, d: Direction)
    requires |run| == |ticks|
    requires Lists(list, rows) && Distinct(rs) && forall r :: r in rows ==> r in rs
    requires TickReported(t, rows, list, deltas, ids, PrevAfter(run))
    ensures Booked(run + [PollOf(t, rows, list)], ticks + [t], day, rs, d) ==
            Booked(run, ticks, day, rs, d) +
            if t.listOk && t.addOk && t.dailyOk && t.day == day then Total(BatchOf(list, deltas)).Get(d) else 0
  {
    hide TickReported;
    var p := PollOf(t, rows, list);
    assert (run + [p])[..|run|] == run && (ticks + [t])[..|ticks|] == ticks;
    DayIsAllGains(t, rows, rs, list, deltas, ids, PrevAfter(run), d);
  }

  // Every day's rollup grew by what the run books on it.
  ghost predicate DaysBooked(days0: map<string, Bytes>, days1: map<string, Bytes>, run: seq<Poll>, ticks: seq<Tick>, rs: seq<int>)
    requires |run| == |ticks|
  {
    forall day, d :: Day(days1, day).Get(d) == Day(days0, day).Get(d) + Booked(run, ticks, day, rs, d)
  }

  lemma {:induction false} DayGrows(days1: map<string, Bytes>, days2: map<string, Bytes>, at: string, bytes: Bytes, day: string, d: Direction)
    ensures AddsToDay(days1, days2, at, bytes) ==>
              Day(days2, day).Get(d) == Day(days1, day).Get(d) + if day == at then bytes.Get(d) else 0
  {
    hide Day;
    if AddsToDay(days1, days2, at, bytes) && day != at {
      assert Day(days2, day) == Day(days1, day);
    }
  }

  lemma {:induction false} TickDays(days0: map<string, Bytes>, days1: map<string, Bytes>, days2: map<string, Bytes>,
                                    run: seq<Poll>, ticks: seq<Tick>, t: Tick, rows: Rows, rs: seq<int>, list: seq<Client>,
                                    deltas: seq<UserTraffic>, ids: seq<int>)
    requires |run| == |ticks| && DaysBooked(days0, days1, run, ticks, rs)
    requires Lists(list, rows) && Distinct(rs) && forall r :: r in rows ==> r in rs
    requires TickReported(t, rows, list, deltas, ids, PrevAfter(run))
    ensures AddsToDay(days1, days2, t.day,
                      if t.listOk && t.addOk && t.dailyOk then Total(BatchOf(list, deltas)) else Bytes(0, 0)) ==>
              DaysBooked(days0, days2, run + [PollOf(t, rows, list)], ticks + [t], rs)
  {
    hide TickReported, Lists, Booked, Total, AddsToDay, BatchOf, Distinct;
    var bytes := if t.listOk && t.addOk && t.dailyOk then Total(BatchOf(list, deltas)) else Bytes(0, 0);
    forall day, d | AddsToDay(days1, days2, t.day, bytes)
      ensures Day(days2, day).Get(d) ==
              Day(days0, day).Get(d) + Booked(run + [PollOf(t, rows, list)], ticks + [t], day, rs, d)
    {
      TickBooked(run, ticks, t, rows, rs, list, deltas, ids, day, d);
      DayGrows(days1, days2, t.day, bytes, day, d);
    }
  }

  // list has the rows' ids, names and nodes, by descending id; their counters
  // and times of use may be later ones.
  ghost predicate ListsNames(list: seq<Client>, rows: Rows) {
    && ConservationLimits.Descending(list)
    && (forall i :: 0 <= i < |list| ==> RowNamed(rows, list[i]))
    && (forall id :: id in rows ==> HasRow(list, id))
  }

  predicate RowNamed(rows: Rows, c: Client) {
    c.id in rows && rows[c.id].name == c.name && rows[c.id].nodeId == c.nodeId
  }

  predicate HasRow(list: seq<Client>, id: int) {
    exists c :: c in list && c.id == id
  }

  // A tick of the run was made with these inputs on rows of these ids and names.
  ghost predicate Records(run: seq<Poll>, ticks: seq<Tick>, rows: Rows) {
    && |run| == |ticks|
    && forall i :: 0 <= i < |ticks| ==>
                     && run[i].fetched == ticks[i].fetched
                     && run[i].stored == (ticks[i].listOk && ticks[i].addOk)
                     && run[i].dir == Directory(NamesOf(rows), ticks[i].lookupFailed)
                     && ListsNames(run[i].list, rows)
  }

  lemma {:induction false} ListedNames(rows0: Rows, rows1: Rows, run: seq<Poll>, list: seq<Client>)
    requires Accounted(rows0, rows1, run) && WellKeyed(rows1) && Lists(list, rows1)
    ensures ListsNames(list, rows0)
  {
    forall id | id in rows0
      ensures HasRow(list, id)
    {
      assert rows1[id] in list && rows1[id].id == id;
    }
  }

  lemma {:induction false} RecordsStep(run: seq<Poll>, ticks: seq<Tick>, rows0: Rows, rows1: Rows, t: Tick, list: seq<Client>)
    requires Records(run, ticks, rows0) && Accounted(rows0, rows1, run) && WellKeyed(rows1) && Lists(list, rows1)
    ensures Records(run + [PollOf(t, rows1, list)], ticks + [t], rows0)
  {
    ListedNames(rows0, rows1, run, list);
    hide ListsNames;
    forall id | id in rows0
      ensures NamesOf(rows1)[id] == NamesOf(rows0)[id]
    {
    }
    assert NamesOf(rows1) == NamesOf(rows0);
  }

  lemma {:induction false} PrevStep(run: seq<Poll>, p: Poll)
    ensures PrevAfter(run + [p]) == if p.fetched.None? then PrevAfter(run) else Tracked(p.dir, p.fetched.value)
  {
    assert (run + [p])[..|run|] == run;
  }

  lemma {:induction false} RowsStay(rows0: Rows, rows1: Rows, run: seq<Poll>)
    requires Accounted(rows0, rows1, run)
    ensures rows1.Keys == rows0.Keys
  {
  }

  lemma {:induction false} NothingYet(rows: Rows, days: map<string, Bytes>, rs: seq<int>)
    ensures Accounted(rows, rows, []) && DaysBooked(days, days, [], [], rs) && Records([], [], rows) && PrevAfter([]) == map[]
  {
  }

  // Runs the loop for a sequence of ticks, starting with a fresh source.
  method RunTicks(w: Worker, ticks: seq<Tick>, ghost rs: seq<int>) returns (ghost run: seq<Poll>)
    requires w.repo.Valid() && w.source.prevConn == map[]
    requires Distinct(rs) && forall r :: r in w.repo.rows ==> r in rs
    modifies w, w.source, w.repo, w.rollup
    ensures w.repo.Valid() && Records(run, ticks, old(w.repo.rows))
    ensures Accounted(old(w.repo.rows), w.repo.rows, run)
    ensures DaysBooked(old(w.rollup.days), w.rollup.days, run, ticks, rs)
  {
    hide TickReported, Ticked, Tracked, Reports, Seen, Lists, AddsToDay, Accounted, DaysBooked, Records, PrevAfter, NamesOf, Total, BatchOf;
    ghost var rows0, days0 := w.repo.rows, w.rollup.days;
    run := [];
    NothingYet(rows0, days0, rs);
    assert ticks[..0] == [];
    for i := 0 to |ticks|
      invariant w.repo.Valid() && w.source.prevConn == PrevAfter(run)
      invariant |run| == i && Records(run, ticks[..i], rows0)
      invariant Accounted(rows0, w.repo.rows, run)
      invariant DaysBooked(days0, w.rollup.days, run, ticks[..i], rs)
    {
      ghost var rows1, days1 := w.repo.rows, w.rollup.days;
      var t := ticks[i];
      ghost var list, deltas, ids := w.Account(t);
      RowsStay(rows0, rows1, run);
      Reported(t, rows1, list, deltas, ids, PrevAfter(run));
      TickAccounted(rows0, rows1, w.repo.rows, run, t, list, deltas, ids, w.source.lastSeen);
      TickDays(days0, days1, w.rollup.days, run, ticks[..i], t, rows1, rs, list, deltas, ids);
      RecordsStep(run, ticks[..i], rows0, rows1, t, list);
      PrevStep(run, PollOf(t, rows1, list));
      run := run + [PollOf(t, rows1, list)];
      assert ticks[..i + 1] == ticks[..i] + [t];
    }
    assert ticks[..|ticks|] == ticks;
  }

  lemma {:induction false} Reported(t: Tick, rows: Rows, list: seq<Client>, deltas: seq<UserTraffic>, ids: seq<int>, prev: map<string, Bytes>)
    requires t.fetched.None? ==> deltas == []
    requires t.fetched.Some? ==> Reports(deltas, ids, prev, Directory(NamesOf(rows), t.lookupFailed), t.fetched.value)
    ensures TickReported(t, rows, list, deltas, ids, prev)
  {
  }

  // Conservation for the stored counters: whatever fails during the run, a row's
  // counters grew by the final values of its connections' stretches, less what
  // those had counted before they came to the row, and less exactly the bytes of
  // the ticks whose write failed.
  lemma {:induction false} CountersConserved(rows0: Rows, rows1: Rows, run: seq<Poll>, ks: seq<string>, id: int, d: Direction)
    requires Accounted(rows0, rows1, run) && id in rows0 && Covers(ks, run)
    ensures rows1[id].Used(d) + Gained(run, false, id, d) + Sum(ks, BroughtTo(run, id, d)) ==
            rows0[id].Used(d) + Sum(ks, CarriedFor(run, id, d))
  {
    TrafficConserved(run, ks, id, d);
  }
}
