// Traffic conservation over whole runs of polls: what the accounting charges,
// poll by poll, against what the connections' counters showed over their lives
// (internal/services/stats/clash_user.go, internal/services/stats/worker.go).
module Conservation {
  import opened ClashUser
  import opened Collections
  import opened Domain
  import opened Text

  // The row the worker credits for a name: it fills a map from names to rows
  // in list order, so the last row of that name in the list wins.
  function RowFor(list: seq<Client>, name: string): Option<int> {
    if |list| == 0 then None
    else if list[|list| - 1].name == name then Some(list[|list| - 1].id)
    else RowFor(list[..|list| - 1], name)
  }

  function CreditedRow(dir: Directory, list: seq<Client>, c: Conn): Option<int> {
    match Owner(dir, c)
    case None => None
    case Some(id) => RowFor(list, dir.names[id])
  }

  function GainTerm(prev: map<string, Bytes>, dir: Directory, list: seq<Client>, r: int, d: Direction): Conn -> nat {
    c => if CreditedRow(dir, list, c) == Some(r) then Growth(prev, c, d) else 0
  }

  // The bytes one poll has for row r.
  function Gain(prev: map<string, Bytes>, dir: Directory, list: seq<Client>, conns: seq<Conn>, r: int, d: Direction): nat {
    Sum(conns, GainTerm(prev, dir, list, r, d))
  }

  // One tick of the accounting loop: the snapshot (None: the request failed),
  // the directory and client list it met, and whether the counters were stored.
  datatype Poll = Poll(fetched: Option<seq<Conn>>, dir: Directory, list: seq<Client>, stored: bool)

  function PrevAfter(run: seq<Poll>): map<string, Bytes> {
    if |run| == 0 then map[]
    else
      var last := run[|run| - 1];
      if last.fetched.None? then PrevAfter(run[..|run| - 1]) else Tracked(last.dir, last.fetched.value)
  }

  function PollGain(prev: map<string, Bytes>, p: Poll, r: int, d: Direction): nat {
    if p.fetched.None? then 0 else Gain(prev, p.dir, p.list, p.fetched.value, r, d)
  }

  // Bytes for row r over a run, written to the store or lost with a failed write.
  function Gained(run: seq<Poll>, stored: bool, r: int, d: Direction): nat {
    if |run| == 0 then 0
    else
      var front, last := run[..|run| - 1], run[|run| - 1];
      Gained(front, stored, r, d) + if last.stored == stored then PollGain(PrevAfter(front), last, r, d) else 0
  }

  // ---- the reference: what each connection's counter showed ---------------

  datatype Sample = Sample(row: Option<int>, bytes: Bytes)

  // One entry for every successful poll; None where the connection is not tracked.
  type History = seq<Option<Sample>>

  function Latest(dir: Directory, conns: seq<Conn>, k: string): (r: Option<Conn>)
    ensures r.Some? ==> r.value in conns && r.value.id == k && Owner(dir, r.value).Some?
    ensures r.None? ==> forall c :: c in conns && c.id == k ==> Owner(dir, c).None?
  {
    if |conns| == 0 then None
    else
      var last := conns[|conns| - 1];
      assert conns == conns[..|conns| - 1] + [last];
      if last.id == k && Owner(dir, last).Some? then Some(last) else Latest(dir, conns[..|conns| - 1], k)
  }

  function SampleOf(dir: Directory, list: seq<Client>, conns: seq<Conn>, k: string): Option<Sample> {
    match Latest(dir, conns, k)
    case None => None
    case Some(c) => Some(Sample(CreditedRow(dir, list, c), c.bytes))
  }

  function HistoryOf(run: seq<Poll>, k: string): History {
    if |run| == 0 then []
    else
      var front, last := HistoryOf(run[..|run| - 1], k), run[|run| - 1];
      if last.fetched.None? then front
      else front + [SampleOf(last.dir, last.list, last.fetched.value, k)]
  }

  // A counter's lifetime ends where the connection vanishes, where its counter
  // drops (the id was reused), or with the history.
  ghost predicate LifeEndsAt(h: History, i: int, d: Direction)
    requires 0 <= i < |h| && h[i].Some?
  {
    i + 1 == |h| || h[i + 1].None? || h[i + 1].value.bytes.Get(d) < h[i].value.bytes.Get(d)
  }

  // Its stretch with one row ends there too, and where it goes over to another row.
  ghost predicate EndsAt(h: History, i: int, d: Direction)
    requires 0 <= i < |h| && h[i].Some?
  {
    LifeEndsAt(h, i, d) || h[i + 1].value.row != h[i].value.row
  }

  ghost function Peak(h: History, i: int, r: int, d: Direction): nat
    requires 0 <= i < |h|
  {
    if h[i].Some? && h[i].value.row == Some(r) && EndsAt(h, i, d) then h[i].value.bytes.Get(d) else 0
  }

  // The sum of the final counter values of row r's stretches that end before n.
  ghost function Peaks(h: History, n: nat, r: int, d: Direction): nat
    requires n <= |h|
  {
    if n == 0 then 0 else Peaks(h, n - 1, r, d) + Peak(h, n - 1, r, d)
  }

  ghost function Carried(h: History, r: int, d: Direction): nat {
    Peaks(h, |h|, r, d)
  }

  // What a counter already shows when it comes to row r from another row.
  function Brought(h: History, i: int, r: int, d: Direction): nat
    requires 0 <= i < |h|
  {
    if && i > 0 && h[i - 1].Some? && h[i].Some?
       && h[i].value.row == Some(r) && h[i - 1].value.row != Some(r)
       && h[i].value.bytes.Get(d) >= h[i - 1].value.bytes.Get(d)
    then h[i - 1].value.bytes.Get(d) else 0
  }

  function Broughts(h: History, n: nat, r: int, d: Direction): nat
    requires n <= |h|
  {
    if n == 0 then 0 else Broughts(h, n - 1, r, d) + Brought(h, n - 1, r, d)
  }

  // A connection changes its row only where a lifetime ends.
  ghost predicate Steady(h: History, d: Direction) {
    forall i :: 0 < i < |h| && h[i - 1].Some? && !LifeEndsAt(h, i - 1, d) ==> h[i].value.row == h[i - 1].value.row
  }

  // The sum of the final counter values of all lifetimes that end before n.
  ghost function Lifetimes(h: History, n: nat, d: Direction): nat
    requires n <= |h|
  {
    if n == 0 then 0
    else Lifetimes(h, n - 1, d) + if h[n - 1].Some? && LifeEndsAt(h, n - 1, d) then h[n - 1].value.bytes.Get(d) else 0
  }

  // ---- one connection: growth against peaks -------------------------------

  function Step(h: History, i: int, r: int, d: Direction): nat
    requires 0 <= i < |h|
  {
    if h[i].None? || h[i].value.row != Some(r) then 0
    else
      var now := h[i].value.bytes.Get(d);
      if i > 0 && h[i - 1].Some? && now >= h[i - 1].value.bytes.Get(d) then now - h[i - 1].value.bytes.Get(d) else now
  }

  function Steps(h: History, n: nat, r: int, d: Direction): nat
    requires n <= |h|
  {
    if n == 0 then 0 else Steps(h, n - 1, r, d) + Step(h, n - 1, r, d)
  }

  // The charged differences telescope to the peaks, less what was brought along;
  // the open stretch at position n counts with its current value.
  lemma {:induction false} StepsArePeaks(h: History, n: nat, r: int, d: Direction)
    requires 0 < n <= |h|
    ensures Steps(h, n, r, d) + Broughts(h, n, r, d) == Peaks(h, n - 1, r, d) +
            if h[n - 1].Some? && h[n - 1].value.row == Some(r) then h[n - 1].value.bytes.Get(d) else 0
  {
    if n == 1 {
      assert Steps(h, 0, r, d) == 0 == Peaks(h, 0, r, d);
      assert Broughts(h, 0, r, d) == 0;
    } else {
      StepsArePeaks(h, n - 1, r, d);
    }
  }

  lemma {:induction false} ChargedIsCarried(h: History, r: int, d: Direction)
    ensures Steps(h, |h|, r, d) + Broughts(h, |h|, r, d) == Carried(h, r, d)
  {
    if |h| > 0 {
      StepsArePeaks(h, |h|, r, d);
    }
  }

  // A steady connection brings nothing along.
  lemma {:induction false} SteadyBringsNothing(h: History, n: nat, r: int, d: Direction)
    requires Steady(h, d) && n <= |h|
    ensures Broughts(h, n, r, d) == 0
  {
    if n > 0 {
      SteadyBringsNothing(h, n - 1, r, d);
    }
  }

  // All the lifetimes of a connection that is only ever row r's are row r's.
  lemma {:induction false} OwnLifetimes(h: History, n: nat, r: int, d: Direction)
    requires n <= |h| && forall i :: 0 <= i < |h| && h[i].Some? ==> h[i].value.row == Some(r)
    ensures Peaks(h, n, r, d) == Lifetimes(h, n, d) && Broughts(h, n, r, d) == 0
  {
    if n > 0 {
      OwnLifetimes(h, n - 1, r, d);
    }
  }

  lemma {:induction false} NoLifetimes(h: History, n: nat, r: int, d: Direction)
    requires n <= |h| && forall i :: 0 <= i < |h| && h[i].Some? ==> h[i].value.row != Some(r)
    ensures Peaks(h, n, r, d) == 0 && Broughts(h, n, r, d) == 0
  {
    if n > 0 {
      NoLifetimes(h, n - 1, r, d);
    }
  }

  lemma {:induction false} StepsPrefix(h: History, g: History, n: nat, r: int, d: Direction)
    requires n <= |h| <= |g| && h == g[..|h|]
    ensures Steps(h, n, r, d) == Steps(g, n, r, d)
  {
    if n > 0 {
      StepsPrefix(h, g, n - 1, r, d);
    }
  }

  // ---- all connections: polls against connections --------------------------

  ghost predicate DistinctIds(conns: seq<Conn>) {
    forall i, j :: 0 <= i < j < |conns| ==> conns[i].id != conns[j].id
  }

  lemma {:induction false} TrackedIsLatest(dir: Directory, conns: seq<Conn>, k: string)
    ensures k in Tracked(dir, conns) <==> Latest(dir, conns, k).Some?
    ensures k in Tracked(dir, conns) ==> Tracked(dir, conns)[k] == Latest(dir, conns, k).value.bytes
  {
    if |conns| > 0 {
      TrackedIsLatest(dir, conns[..|conns| - 1], k);
    }
  }

  // The previous counters are the last samples of the histories.
  lemma {:induction false} PrevIsLastSample(run: seq<Poll>, k: string)
    ensures var h := HistoryOf(run, k);
            && (k in PrevAfter(run) <==> |h| > 0 && h[|h| - 1].Some?)
            && (k in PrevAfter(run) ==> PrevAfter(run)[k] == h[|h| - 1].value.bytes)
  {
    if |run| > 0 {
      var front, last := run[..|run| - 1], run[|run| - 1];
      if last.fetched.None? {
        PrevIsLastSample(front, k);
      } else {
        TrackedIsLatest(last.dir, last.fetched.value, k);
      }
    }
  }

  function ConnId(): Conn -> string {
    (c: Conn) => c.id
  }

  // Connection k's share of a snapshot's sum is the term of its own entry.
  lemma {:induction false} ShareOfConn(conns: seq<Conn>, prev: map<string, Bytes>, dir: Directory, list: seq<Client>, r: int, d: Direction, k: string)
    requires DistinctIds(conns)
    ensures KeyedSum(conns, ConnId(), GainTerm(prev, dir, list, r, d))(k) ==
            match Latest(dir, conns, k)
            case None => 0
            case Some(c) => GainTerm(prev, dir, list, r, d)(c)
  {
    var term := Keyed(ConnId(), GainTerm(prev, dir, list, r, d), k);
    match Latest(dir, conns, k)
    case None => SumZero(conns, term);
    case Some(c) => SumSingle(conns, term, c);
  }

  ghost predicate Covers(ks: seq<string>, run: seq<Poll>) {
    && Distinct(ks)
    && forall i :: 0 <= i < |run| && run[i].fetched.Some? ==>
                     && DistinctIds(run[i].fetched.value)
                     && forall c :: c in run[i].fetched.value ==> c.id in ks
  }

  function ChargedTo(run: seq<Poll>, r: int, d: Direction): string -> nat {
    k => var h := HistoryOf(run, k); Steps(h, |h|, r, d)
  }

  function BroughtTo(run: seq<Poll>, r: int, d: Direction): string -> nat {
    k => var h := HistoryOf(run, k); Broughts(h, |h|, r, d)
  }

  ghost function CarriedFor(run: seq<Poll>, r: int, d: Direction): string -> nat {
    k => Carried(HistoryOf(run, k), r, d)
  }

  lemma {:induction false} ChargesRegrouped(run: seq<Poll>, ks: seq<string>, r: int, d: Direction)
    requires Covers(ks, run)
    ensures Gained(run, true, r, d) + Gained(run, false, r, d) == Sum(ks, ChargedTo(run, r, d))
  {
    if |run| == 0 {
      SumZero(ks, ChargedTo(run, r, d));
    } else {
      var front, last := run[..|run| - 1], run[|run| - 1];
      ChargesRegrouped(front, ks, r, d);
      if last.fetched.None? {
        SumEqual(ks, ChargedTo(front, r, d), ChargedTo(run, r, d));
      } else {
        var conns, prev := last.fetched.value, PrevAfter(front);
        var term := GainTerm(prev, last.dir, last.list, r, d);
        var share := KeyedSum(conns, ConnId(), term);
        SumByKey(conns, ks, ConnId(), term);
        forall k | k in ks
          ensures ChargedTo(run, r, d)(k) == ChargedTo(front, r, d)(k) + share(k)
        {
          ChargeOfPoll(run, k, r, d);
        }
        SumSplit(ks, ChargedTo(front, r, d), share, ChargedTo(run, r, d));
      }
    }
  }

  lemma {:induction false} StepsExtend(h: History, x: Option<Sample>, r: int, d: Direction)
    ensures Steps(h + [x], |h| + 1, r, d) == Steps(h, |h|, r, d) + Step(h + [x], |h|, r, d)
  {
    StepsPrefix(h, h + [x], |h|, r, d);
  }

  // Extending a history by a snapshot's sample adds the connection's share.
  lemma {:induction false} StepIsShare(h: History, prev: map<string, Bytes>, dir: Directory, list: seq<Client>, conns: seq<Conn>, k: string,
                    r: int, d: Direction)
    requires DistinctIds(conns)
    requires k in prev <==> |h| > 0 && h[|h| - 1].Some?
    requires k in prev ==> prev[k] == h[|h| - 1].value.bytes
    ensures Step(h + [SampleOf(dir, list, conns, k)], |h|, r, d) ==
            KeyedSum(conns, ConnId(), GainTerm(prev, dir, list, r, d))(k)
  {
    ShareOfConn(conns, prev, dir, list, r, d, k);
  }

  // The last poll adds to connection k's charges exactly its share of the snapshot.
  lemma {:induction false} ChargeOfPoll(run: seq<Poll>, k: string, r: int, d: Direction)
    requires |run| > 0 && run[|run| - 1].fetched.Some? && DistinctIds(run[|run| - 1].fetched.value)
    ensures var front, last := run[..|run| - 1], run[|run| - 1];
            var h, g := HistoryOf(front, k), HistoryOf(run, k);
            Steps(g, |g|, r, d) == Steps(h, |h|, r, d) +
            KeyedSum(last.fetched.value, ConnId(), GainTerm(PrevAfter(front), last.dir, last.list, r, d))(k)
  {
    var front, last := run[..|run| - 1], run[|run| - 1];
    var h, x := HistoryOf(front, k), SampleOf(last.dir, last.list, last.fetched.value, k);
    assert HistoryOf(run, k) == h + [x];
    StepsExtend(h, x, r, d);
    PrevIsLastSample(front, k);
    StepIsShare(h, PrevAfter(front), last.dir, last.list, last.fetched.value, k, r, d);
  }

  // Conservation: over any run, with any failed requests, lookups and writes, the
  // bytes stored for a row plus the bytes lost with failed writes are the final
  // counter values of its connections' stretches, less what connections had
  // counted before they came to the row. Nothing is charged twice.
  lemma {:induction false} TrafficConserved(run: seq<Poll>, ks: seq<string>, r: int, d: Direction)
    requires Covers(ks, run)
    ensures Gained(run, true, r, d) + Gained(run, false, r, d) + Sum(ks, BroughtTo(run, r, d)) == Sum(ks, CarriedFor(run, r, d))
  {
    ChargesRegrouped(run, ks, r, d);
    forall k | k in ks
      ensures ChargedTo(run, r, d)(k) + BroughtTo(run, r, d)(k) == CarriedFor(run, r, d)(k)
    {
      ChargedIsCarried(HistoryOf(run, k), r, d);
    }
    SumSplit(ks, ChargedTo(run, r, d), BroughtTo(run, r, d), CarriedFor(run, r, d));
  }

  // When connections change rows only between lifetimes, the row gets exactly
  // the peaks: each counter's value before a drop or disappearance, or its last.
  lemma {:induction false} SteadyTrafficConserved(run: seq<Poll>, ks: seq<string>, r: int, d: Direction)
    requires Covers(ks, run) && forall k :: k in ks ==> Steady(HistoryOf(run, k), d)
    ensures Gained(run, true, r, d) + Gained(run, false, r, d) == Sum(ks, CarriedFor(run, r, d))
  {
    TrafficConserved(run, ks, r, d);
    forall k | k in ks
      ensures BroughtTo(run, r, d)(k) == 0
    {
      SteadyBringsNothing(HistoryOf(run, k), |HistoryOf(run, k)|, r, d);
    }
    SumZero(ks, BroughtTo(run, r, d));
  }

  // When every write succeeds nothing is lost.
  lemma {:induction false} NothingLost(run: seq<Poll>, r: int, d: Direction)
    requires forall p :: p in run ==> p.stored || p.fetched.None?
    ensures Gained(run, false, r, d) == 0
  {
    if |run| > 0 {
      assert forall p :: p in run[..|run| - 1] ==> p in run;
      NothingLost(run[..|run| - 1], r, d);
    }
  }
}
