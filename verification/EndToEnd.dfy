// The compiler and the accounting are inverse to each other: what a client's
// connections carried under the compiled configurations is what its own row's
// counters grow by.
module EndToEnd {
  import opened Accounting
  import opened ClashUser
  import opened ClientRepo
  import opened Collections
  import opened Conservation
  import opened ConservationLimits
  import opened Domain
  import opened Generator
  import opened Routing
  import opened RunConservation
  import Tag
  import opened Text
  import opened Worker

  // The core opened conn for a user authenticated as name, and reports the
  // outbound it left through first.
  ghost predicate Opened(cfg: Config, conn: Conn, protocol: string, name: string) {
    |conn.chains| > 0 && Route(cfg.rules, cfg.final, protocol, name) == Via(conn.chains[0])
  }

  // ---- one connection -------------------------------------------------------------

  // The attribution of a snapshot's connection recovers the client; its bytes go
  // to the client's own row, whatever that row counts by now, exactly when no
  // listed client of the same name has a smaller id.
  lemma {:induction false} ChargedToItsClient(g: GeneratorConfig, inbounds: seq<Inbound>, clients: seq<Client>, cfg: Config,
                                              dir: Directory, list: seq<Client>, conn: Conn, protocol: string, c: Client, row: Client)
    requires ValidInput(inbounds, clients) && Compiles(g, inbounds, clients, cfg)
    requires forall i, j :: 0 <= i < j < |clients| ==> clients[i].name != clients[j].name
    requires c in Emitted(inbounds, clients) && c.name != ""
    requires Opened(cfg, conn, protocol, c.name)
    requires dir.NameById(conn.id, c.id) == c.name
    requires Descending(list) && row in list && row.id == c.id && row.name == c.name
    ensures Owner(dir, conn) == Some(c.id)
    ensures CreditedRow(dir, list, conn) == Some(c.id) <==> forall x :: x in list && x.name == c.name ==> x.id >= c.id
  {
    BittorrentRejected(g, inbounds, clients, cfg, c.name);
    hide Compiles, ValidInput, Emitted;
    EveryClientOwnOutbound(g, inbounds, clients, cfg, c, protocol);
    CreditedToOwnRowIff(list, row);
  }

  // Traffic of nobody in particular is charged to nobody.
  lemma {:induction false} DirectChargedToNobody(dir: Directory, list: seq<Client>, conn: Conn)
    requires |conn.chains| == 0 || conn.chains[0] == "direct"
    ensures Owner(dir, conn).None? && CreditedRow(dir, list, conn).None?
  {
    DirectIsNoClient();
  }

  // ---- renderings of one table ------------------------------------------------------

  // One compiled configuration, with what it was compiled from.
  datatype Rendering = Rendering(g: GeneratorConfig, inbounds: seq<Inbound>, clients: seq<Client>, cfg: Config)

  predicate LocalRow(rows: Rows, c: Client) {
    c.id in rows && rows[c.id].Local() && rows[c.id].name == c.name
  }

  // It was compiled from local clients of the table, at whatever state of their counters.
  ghost predicate Rendered(x: Rendering, rows: Rows) {
    && ValidInput(x.inbounds, x.clients) && Compiles(x.g, x.inbounds, x.clients, x.cfg)
    && forall i :: 0 <= i < |x.clients| ==> LocalRow(rows, x.clients[i])
  }

  // Under this configuration the connection was opened with that client's credentials.
  ghost predicate OpenedFor(x: Rendering, conn: Conn, id: int) {
    exists c, protocol :: c in Emitted(x.inbounds, x.clients) && c.id == id && Opened(x.cfg, conn, protocol, c.name)
  }

  // The connection is the core's own traffic, or it was opened by that client
  // under one of the configurations.
  ghost predicate OpenedBy(xs: seq<Rendering>, conn: Conn, user: Option<int>) {
    match user
    case None => |conn.chains| == 0 || conn.chains[0] == "direct"
    case Some(id) => exists i :: 0 <= i < |xs| && OpenedFor(xs[i], conn, id)
  }

  // The first hop leads back to that local client, or to no client.
  predicate LeadsTo(rows: Rows, conn: Conn, user: Option<int>) {
    match user
    case None => |conn.chains| == 0 || Tag.ParseClientOutboundTag(conn.chains[0]).None?
    case Some(id) => id in rows && rows[id].Local() && |conn.chains| > 0 && Tag.ParseClientOutboundTag(conn.chains[0]) == Some(id)
  }

  lemma {:induction false} RenderedNames(x: Rendering, rows: Rows)
    requires Rendered(x, rows) && UniqueNames(rows)
    ensures forall i, j :: 0 <= i < j < |x.clients| ==> x.clients[i].name != x.clients[j].name
  {
    hide Compiles;
    forall i, j | 0 <= i < j < |x.clients|
      ensures x.clients[i].name != x.clients[j].name
    {
      assert LocalRow(rows, x.clients[i]) && LocalRow(rows, x.clients[j]);
    }
  }

  lemma {:induction false} OpenedForLeads(x: Rendering, rows: Rows, conn: Conn, id: int)
    requires Rendered(x, rows) && UniqueNames(rows) && OpenedFor(x, conn, id)
    ensures LeadsTo(rows, conn, Some(id))
  {
    RenderedNames(x, rows);
    hide Emitted, Compiles, Route, Tag.ParseClientOutboundTag, Tag.ClientOutboundTag;
    var c, protocol :| c in Emitted(x.inbounds, x.clients) && c.id == id && Opened(x.cfg, conn, protocol, c.name);
    EmittedExactlyOnce(x.inbounds, x.inbounds, x.clients);
    assert c in x.clients && LocalRow(rows, c);
    hide ValidInput;
    BittorrentRejected(x.g, x.inbounds, x.clients, x.cfg, c.name);
    EveryClientOwnOutbound(x.g, x.inbounds, x.clients, x.cfg, c, protocol);
  }

  lemma {:induction false} OpenedByLeads(xs: seq<Rendering>, rows: Rows, conn: Conn, user: Option<int>)
    requires UniqueNames(rows) && (forall i :: 0 <= i < |xs| ==> Rendered(xs[i], rows)) && OpenedBy(xs, conn, user)
    ensures LeadsTo(rows, conn, user)
  {
    hide Rendered, OpenedFor;
    match user
    case None => DirectIsNoClient();
    case Some(id) =>
      var i :| 0 <= i < |xs| && OpenedFor(xs[i], conn, id);
      OpenedForLeads(xs[i], rows, conn, id);
  }

  // ---- the reference: the core's counters -----------------------------------------

  function CounterIn(conns: seq<Conn>, k: string): Option<Bytes> {
    if |conns| == 0 then None
    else if conns[|conns| - 1].id == k then Some(conns[|conns| - 1].bytes)
    else CounterIn(conns[..|conns| - 1], k)
  }

  // What the snapshots showed of connection k; one entry for every answered poll,
  // None where it is not listed or the database failed to look up its client.
  function Counters(ticks: seq<Tick>, k: string): seq<Option<Bytes>> {
    if |ticks| == 0 then []
    else
      var front, t := Counters(ticks[..|ticks| - 1], k), ticks[|ticks| - 1];
      if t.fetched.None? then front
      else front + [if k in t.lookupFailed then None else CounterIn(t.fetched.value, k)]
  }

  // A counter's value counts where it is the last one before the counter
  // vanishes, drops or is no longer watched.
  function Counted(s: seq<Option<Bytes>>, n: nat, d: Direction): nat
    requires n <= |s|
  {
    if n == 0 then 0
    else
      Counted(s, n - 1, d) +
      if s[n - 1].Some? && (n == |s| || s[n].None? || s[n].value.Get(d) < s[n - 1].value.Get(d)) then s[n - 1].value.Get(d) else 0
  }

  // The bytes of connection k, if the client opened it.
  function CarriedOf(ticks: seq<Tick>, user: string -> Option<int>, id: int, d: Direction): string -> nat {
    k => if user(k) == Some(id) then var s := Counters(ticks, k); Counted(s, |s|, d) else 0
  }

  // ---- histories of attributed connections ------------------------------------------

  // The row of a local client is the first of its name, so that name's bytes are its own.
  ghost predicate FirstOfName(rows: Rows, id: int) {
    && id in rows && rows[id].Local() && rows[id].name != ""
    && forall r :: r in rows && rows[r].name == rows[id].name ==> r >= id
  }

  // A sample of row id with these bytes, or nothing
  predicate OwnSample(x: Option<Sample>, b: Option<Bytes>, id: int) {
    match b
    case None => x.None?
    case Some(bytes) => x == Some(Sample(Some(id), bytes))
  }

  predicate OthersSample(x: Option<Sample>, id: int) {
    x.Some? ==> x.value.row != Some(id)
  }

  lemma {:induction false} FirstIsCredited(list: seq<Client>, rows: Rows, id: int)
    requires ListsNames(list, rows) && FirstOfName(rows, id)
    ensures RowFor(list, rows[id].name) == Some(id)
  {
    assert HasRow(list, id);
    var row :| row in list && row.id == id;
    assert RowNamed(rows, row);
    forall x | x in list && x.name == row.name
      ensures x.id >= id
    {
      assert RowNamed(rows, x);
    }
    CreditedToOwnRowIff(list, row);
  }

  // Another local client's name never leads to the row.
  lemma {:induction false} OtherIsNotCredited(list: seq<Client>, rows: Rows, id: int, other: int)
    requires ListsNames(list, rows) && id in rows && rows[id].Local()
    requires UniqueNames(rows) && other in rows && rows[other].Local() && other != id
    ensures RowFor(list, rows[other].name) != Some(id)
  {
    forall x | x in list && x.name == rows[other].name
      ensures x.id != id
    {
      assert RowNamed(rows, x);
    }
    RowForNamed(list, rows[other].name);
  }

  lemma {:induction false} OwnConn(p: Poll, rows: Rows, conn: Conn, id: int)
    requires p.dir.names == NamesOf(rows) && ListsNames(p.list, rows) && FirstOfName(rows, id)
    requires LeadsTo(rows, conn, Some(id))
    ensures Owner(p.dir, conn) == if conn.id in p.dir.failed then None else Some(id)
    ensures conn.id !in p.dir.failed ==> CreditedRow(p.dir, p.list, conn) == Some(id)
  {
    FirstIsCredited(p.list, rows, id);
  }

  lemma {:induction false} OthersConn(p: Poll, rows: Rows, conn: Conn, user: Option<int>, id: int)
    requires p.dir.names == NamesOf(rows) && ListsNames(p.list, rows) && id in rows && rows[id].Local() && UniqueNames(rows)
    requires LeadsTo(rows, conn, user) && user != Some(id)
    ensures CreditedRow(p.dir, p.list, conn) != Some(id)
  {
    if user.Some? {
      OtherIsNotCredited(p.list, rows, id, user.value);
    }
  }

  // The tracked entry of an own connection is its counter in the snapshot.
  lemma {:induction false} LatestIsCounter(dir: Directory, conns: seq<Conn>, k: string, id: int)
    requires forall c :: c in conns && c.id == k ==> Owner(dir, c) == if k in dir.failed then None else Some(id)
    ensures var latest := Latest(dir, conns, k);
            if k in dir.failed then latest.None?
            else latest.Some? == CounterIn(conns, k).Some? && (latest.Some? ==> latest.value.bytes == CounterIn(conns, k).value)
  {
    hide Owner;
    if |conns| > 0 {
      var front, last := conns[..|conns| - 1], conns[|conns| - 1];
      assert last in conns;
      assert forall c :: c in front ==> c in conns;
      LatestIsCounter(dir, front, k, id);
    }
  }

  lemma {:induction false} OwnPoll(p: Poll, rows: Rows, k: string, id: int)
    requires p.fetched.Some? && p.dir.names == NamesOf(rows) && ListsNames(p.list, rows) && FirstOfName(rows, id)
    requires forall c :: c in p.fetched.value && c.id == k ==> LeadsTo(rows, c, Some(id))
    ensures OwnSample(SampleOf(p.dir, p.list, p.fetched.value, k), if k in p.dir.failed then None else CounterIn(p.fetched.value, k), id)
  {
    hide ListsNames, LeadsTo, FirstOfName, CreditedRow, Owner;
    forall c | c in p.fetched.value && c.id == k
      ensures Owner(p.dir, c) == if k in p.dir.failed then None else Some(id)
      ensures k !in p.dir.failed ==> CreditedRow(p.dir, p.list, c) == Some(id)
    {
      OwnConn(p, rows, c, id);
    }
    LatestIsCounter(p.dir, p.fetched.value, k, id);
  }

  lemma {:induction false} OthersPoll(p: Poll, rows: Rows, k: string, user: Option<int>, id: int)
    requires p.fetched.Some? && p.dir.names == NamesOf(rows) && ListsNames(p.list, rows)
    requires id in rows && rows[id].Local() && UniqueNames(rows) && user != Some(id)
    requires forall c :: c in p.fetched.value && c.id == k ==> LeadsTo(rows, c, user)
    ensures OthersSample(SampleOf(p.dir, p.list, p.fetched.value, k), id)
  {
    var latest := Latest(p.dir, p.fetched.value, k);
    if latest.Some? {
      OthersConn(p, rows, latest.value, user, id);
    }
  }

  // Every connection the snapshots show leads back to the client that opened it.
  ghost predicate AllLead(ticks: seq<Tick>, rows: Rows, user: string -> Option<int>) {
    forall t, c :: t in ticks && t.fetched.Some? && c in t.fetched.value ==> LeadsTo(rows, c, user(c.id))
  }

  lemma {:induction false} FrontRecords(run: seq<Poll>, ticks: seq<Tick>, rows: Rows, user: string -> Option<int>)
    requires Records(run, ticks, rows) && AllLead(ticks, rows, user) && |run| > 0
    ensures |ticks| == |run|
    ensures var n := |run| - 1; Records(run[..n], ticks[..n], rows) && AllLead(ticks[..n], rows, user)
    ensures var p, t := run[|run| - 1], ticks[|run| - 1];
            && p.fetched == t.fetched && p.dir == Directory(NamesOf(rows), t.lookupFailed) && ListsNames(p.list, rows)
            && (t.fetched.Some? ==> forall c :: c in t.fetched.value ==> LeadsTo(rows, c, user(c.id)))
  {
    hide ListsNames, LeadsTo;
    var n := |run| - 1;
    assert ticks[n] in ticks;
    assert forall t :: t in ticks[..n] ==> t in ticks;
  }

  ghost predicate OwnHistory(h: History, s: seq<Option<Bytes>>, id: int) {
    |h| == |s| && forall i :: 0 <= i < |h| ==> OwnSample(h[i], s[i], id)
  }

  ghost predicate OthersHistory(h: History, id: int) {
    forall i :: 0 <= i < |h| ==> OthersSample(h[i], id)
  }

  lemma {:induction false} OwnExtends(h: History, s: seq<Option<Bytes>>, x: Option<Sample>, b: Option<Bytes>, id: int)
    requires OwnHistory(h, s, id) && OwnSample(x, b, id)
    ensures OwnHistory(h + [x], s + [b], id)
  {
    hide OwnSample;
  }

  lemma {:induction false} OthersExtend(h: History, x: Option<Sample>, id: int)
    requires OthersHistory(h, id) && OthersSample(x, id)
    ensures OthersHistory(h + [x], id)
  {
    hide OthersSample;
  }

  lemma {:induction false} CountersStep(ticks: seq<Tick>, k: string)
    requires |ticks| > 0
    ensures var front, t := ticks[..|ticks| - 1], ticks[|ticks| - 1];
            Counters(ticks, k) ==
            if t.fetched.None? then Counters(front, k)
            else Counters(front, k) + [if k in t.lookupFailed then None else CounterIn(t.fetched.value, k)]
  {
  }

  lemma {:induction false} OwnConnHistory(run: seq<Poll>, ticks: seq<Tick>, rows: Rows, user: string -> Option<int>, k: string, id: int)
    requires Records(run, ticks, rows) && AllLead(ticks, rows, user) && FirstOfName(rows, id) && user(k) == Some(id)
    ensures OwnHistory(HistoryOf(run, k), Counters(ticks, k), id)
  {
    var n := |run| - 1;
    if |run| == 0 {
      assert HistoryOf(run, k) == [] && Counters(ticks, k) == [];
    } else {
      hide *;
      FrontRecords(run, ticks, rows, user);
      HistoryStep(run, k);
      CountersStep(ticks, k);
      OwnConnHistory(run[..n], ticks[..n], rows, user, k, id);
      if run[n].fetched.Some? {
        OwnPoll(run[n], rows, k, id);
        OwnExtends(HistoryOf(run[..n], k), Counters(ticks[..n], k), SampleOf(run[n].dir, run[n].list, run[n].fetched.value, k),
                   if k in run[n].dir.failed then None else CounterIn(run[n].fetched.value, k), id);
      }
    }
  }

  lemma {:induction false} OthersConnHistory(run: seq<Poll>, ticks: seq<Tick>, rows: Rows, user: string -> Option<int>, k: string, id: int)
    requires Records(run, ticks, rows) && AllLead(ticks, rows, user) && FirstOfName(rows, id) && user(k) != Some(id)
    requires UniqueNames(rows)
    ensures OthersHistory(HistoryOf(run, k), id)
  {
    var n := |run| - 1;
    if |run| > 0 {
      assert id in rows && rows[id].Local();
      hide *;
      FrontRecords(run, ticks, rows, user);
      HistoryStep(run, k);
      OthersConnHistory(run[..n], ticks[..n], rows, user, k, id);
      if run[n].fetched.Some? {
        OthersPoll(run[n], rows, k, user(k), id);
        OthersExtend(HistoryOf(run[..n], k), SampleOf(run[n].dir, run[n].list, run[n].fetched.value, k), id);
      }
    }
  }

  lemma {:induction false} LifetimesCounted(h: History, s: seq<Option<Bytes>>, id: int, n: nat, d: Direction)
    requires OwnHistory(h, s, id) && n <= |h|
    ensures Lifetimes(h, n, d) == Counted(s, n, d)
  {
    if n > 0 {
      LifetimesCounted(h, s, id, n - 1, d);
      assert OwnSample(h[n - 1], s[n - 1], id);
      if n < |h| {
        assert OwnSample(h[n], s[n], id);
      }
    }
  }

  // What the accounting carries for the row from one connection
  lemma {:induction false} CarriedByUser(run: seq<Poll>, ticks: seq<Tick>, rows: Rows, user: string -> Option<int>, k: string,
                                         id: int, d: Direction)
    requires Records(run, ticks, rows) && AllLead(ticks, rows, user) && FirstOfName(rows, id) && UniqueNames(rows)
    ensures CarriedFor(run, id, d)(k) == CarriedOf(ticks, user, id, d)(k) && BroughtTo(run, id, d)(k) == 0
  {
    hide Records, AllLead, FirstOfName, UniqueNames, HistoryOf, Counters, Lifetimes, Counted, Peaks, Broughts;
    var h := HistoryOf(run, k);
    if user(k) == Some(id) {
      OwnConnHistory(run, ticks, rows, user, k, id);
      LifetimesCounted(h, Counters(ticks, k), id, |h|, d);
      assert forall i :: 0 <= i < |h| ==> OwnSample(h[i], Counters(ticks, k)[i], id);
      OwnLifetimes(h, |h|, id, d);
    } else {
      OthersConnHistory(run, ticks, rows, user, k, id);
      assert forall i :: 0 <= i < |h| ==> OthersSample(h[i], id);
      NoLifetimes(h, |h|, id, d);
    }
  }

  // ---- whole runs ---------------------------------------------------------------------

  // Every connection the core lists was opened by its user under some rendering.
  ghost predicate AllOpened(ticks: seq<Tick>, xs: seq<Rendering>, user: string -> Option<int>) {
    forall t, c :: t in ticks && t.fetched.Some? && c in t.fetched.value ==> OpenedBy(xs, c, user(c.id))
  }

  // Over any run of ticks, with any failures and any number of configurations
  // compiled meanwhile, a client's counters grow by exactly what the core's
  // counters show of the connections it opened, less the ticks whose write failed.
  lemma {:induction false} ClientPaysForItsConnections(rows0: Rows, rows1: Rows, run: seq<Poll>, ticks: seq<Tick>, ks: seq<string>,
                                                       xs: seq<Rendering>, user: string -> Option<int>, id: int, d: Direction)
    requires Records(run, ticks, rows0) && Accounted(rows0, rows1, run) && CoversTicks(ks, ticks)
    requires UniqueNames(rows0) && FirstOfName(rows0, id)
    requires (forall i :: 0 <= i < |xs| ==> Rendered(xs[i], rows0)) && AllOpened(ticks, xs, user)
    ensures id in rows1
    ensures rows1[id].Used(d) + Gained(run, false, id, d) == rows0[id].Used(d) + Sum(ks, CarriedOf(ticks, user, id, d))
  {
    hide OpenedBy, Rendered, LeadsTo;
    forall t, c | t in ticks && t.fetched.Some? && c in t.fetched.value
      ensures LeadsTo(rows0, c, user(c.id))
    {
      OpenedByLeads(xs, rows0, c, user(c.id));
    }
    assert AllLead(ticks, rows0, user);
    assert id in rows0 by {
      hide *;
      FirstIsRow(rows0, id);
    }
    hide AllLead, AllOpened;
    RecordedRun(run, ticks, rows0, ks);
    hide Records, OneTable, CoversTicks, UniqueNames, FirstOfName;
    CountersConserved(rows0, rows1, run, ks, id, d);
    RowsStay(rows0, rows1, run);
    hide Accounted, Gained, CarriedFor, BroughtTo, CarriedOf, Covers;
    forall k | k in ks
      ensures CarriedFor(run, id, d)(k) == CarriedOf(ticks, user, id, d)(k) && BroughtTo(run, id, d)(k) == 0
    {
      CarriedByUser(run, ticks, rows0, user, k, id, d);
    }
    SumEqual(ks, CarriedFor(run, id, d), CarriedOf(ticks, user, id, d));
    SumZero(ks, BroughtTo(run, id, d));
  }

  lemma {:induction false} FirstIsRow(rows: Rows, id: int)
    requires FirstOfName(rows, id)
    ensures id in rows
  {
  }

  // The loop with that conclusion: the table's invariant is all that is asked of
  // the rows, and every client the table names first pays for its connections.
  method RunAndBill(w: Worker, ticks: seq<Tick>, ghost rs: seq<int>, ghost ks: seq<string>, ghost xs: seq<Rendering>,
                    ghost user: string -> Option<int>)
    returns (ghost run: seq<Poll>)
    requires w.repo.Valid() && w.source.prevConn == map[]
    requires Distinct(rs) && (forall r :: r in w.repo.rows ==> r in rs) && CoversTicks(ks, ticks)
    requires (forall i :: 0 <= i < |xs| ==> Rendered(xs[i], w.repo.rows)) && AllOpened(ticks, xs, user)
    modifies w, w.source, w.repo, w.rollup
    ensures w.repo.Valid() && w.repo.rows.Keys == old(w.repo.rows).Keys
    ensures forall id, d :: FirstOfName(old(w.repo.rows), id) && id in w.repo.rows ==>
                              w.repo.rows[id].Used(d) + Gained(run, false, id, d) ==
                              old(w.repo.rows)[id].Used(d) + Sum(ks, CarriedOf(ticks, user, id, d))
  {
    hide Records, DaysBooked, CoversTicks, Rendered, AllOpened, FirstOfName;
    ghost var rows0 := w.repo.rows;
    assert UniqueNames(rows0);
    run := RunTicks(w, ticks, rs);
    ghost var rows1 := w.repo.rows;
    RowsStay(rows0, rows1, run);
    forall id, d | FirstOfName(rows0, id) && id in rows1
      ensures rows1[id].Used(d) + Gained(run, false, id, d) == rows0[id].Used(d) + Sum(ks, CarriedOf(ticks, user, id, d))
    {
      ClientPaysForItsConnections(rows0, rows1, run, ticks, ks, xs, user, id, d);
    }
  }
}
