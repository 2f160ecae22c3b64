// Where conservation stops: exactly when the charged bytes are the bytes a
// connection carried, and exactly when they reach the client's own row.
module ConservationLimits {
  import opened ClashUser
  import opened Collections
  import opened Conservation
  import opened Domain
  import opened Text

  // ---- gaps: a connection that leaves the view and comes back --------------

  // A connection of row r whose real counter never goes backwards.
  ghost predicate Genuine(h: History, r: int, d: Direction) {
    && (forall i :: 0 <= i < |h| && h[i].Some? ==> h[i].value.row == Some(r))
    && forall i, j :: 0 <= i < j < |h| && h[i].Some? && h[j].Some? ==>
                        h[i].value.bytes.Get(d) <= h[j].value.bytes.Get(d)
  }

  // The bytes it has really carried, as far as the polls can tell.
  function LastCounter(h: History, d: Direction): nat {
    if |h| == 0 then 0
    else if h[|h| - 1].Some? then h[|h| - 1].value.bytes.Get(d)
    else LastCounter(h[..|h| - 1], d)
  }

  // It is dropped from view at i with bytes on the counter, and seen again at j.
  ghost predicate Returns(h: History, i: int, j: int, d: Direction) {
    0 <= i && i + 1 < j < |h| && h[i].Some? && h[i].value.bytes.Get(d) > 0 && h[i + 1].None? && h[j].Some?
  }

  ghost predicate NeverReturns(h: History, d: Direction) {
    forall i, j :: !Returns(h, i, j, d)
  }

  lemma {:induction false} LastCounterAt(h: History, d: Direction) returns (i: int)
    requires LastCounter(h, d) > 0
    ensures 0 <= i < |h| && h[i].Some? && h[i].value.bytes.Get(d) == LastCounter(h, d)
    ensures forall j :: i < j < |h| ==> h[j].None?
  {
    if h[|h| - 1].Some? {
      i := |h| - 1;
    } else {
      i := LastCounterAt(h[..|h| - 1], d);
    }
  }

  lemma {:induction false} ZeroUntilLast(h: History, r: int, d: Direction)
    requires Genuine(h, r, d) && LastCounter(h, d) == 0
    ensures Steps(h, |h|, r, d) == 0
    ensures forall i :: 0 <= i < |h| && h[i].Some? ==> h[i].value.bytes.Get(d) == 0
  {
    if |h| > 0 {
      var front := h[..|h| - 1];
      if h[|h| - 1].Some? {
        if LastCounter(front, d) > 0 {
          var i := LastCounterAt(front, d);
          assert false;
        }
      }
      ZeroUntilLast(front, r, d);
      StepsPrefix(front, h, |front|, r, d);
    }
  }

  // A last entry that brings no connection back changes nothing.
  lemma {:induction false} ReturnsPrefix(h: History, d: Direction)
    requires |h| > 0 && (h[|h| - 1].None? || (|h| > 1 && h[|h| - 2].Some?))
    ensures NeverReturns(h, d) <==> NeverReturns(h[..|h| - 1], d)
  {
    var front := h[..|h| - 1];
    forall i, j | Returns(front, i, j, d)
      ensures Returns(h, i, j, d)
    {
    }
    forall i, j | Returns(h, i, j, d)
      ensures !NeverReturns(front, d)
    {
      assert Returns(front, i, if j < |front| then j else |h| - 2, d);
    }
  }

  lemma {:induction false} StillInView(h: History, r: int, d: Direction)
    requires Genuine(h, r, d) && |h| > 0 && (h[|h| - 1].None? || (|h| > 1 && h[|h| - 2].Some?))
    ensures Steps(h, |h|, r, d) - Steps(h, |h| - 1, r, d) == LastCounter(h, d) - LastCounter(h[..|h| - 1], d)
  {
    if h[|h| - 1].Some? {
      assert h[|h| - 2].value.bytes.Get(d) <= h[|h| - 1].value.bytes.Get(d);
    }
  }

  // The claim below, for a history that ends with a connection back in view.
  lemma {:induction false} BackInView(h: History, r: int, d: Direction)
    requires Genuine(h, r, d) && |h| > 0 && h[|h| - 1].Some? && (|h| == 1 || h[|h| - 2].None?)
    requires Steps(h, |h| - 1, r, d) >= LastCounter(h[..|h| - 1], d)
    ensures Steps(h, |h|, r, d) >= LastCounter(h, d)
    ensures Steps(h, |h|, r, d) == LastCounter(h, d) <==> NeverReturns(h, d)
  {
    var front := h[..|h| - 1];
    StepsPrefix(front, h, |front|, r, d);
    if LastCounter(front, d) == 0 {
      ZeroUntilLast(front, r, d);
      assert NeverReturns(h, d);
    } else {
      var i := LastCounterAt(front, d);
      assert Returns(h, i, |h| - 1, d);
    }
  }

  lemma {:induction false} ChargesAreGenuineIff(h: History, r: int, d: Direction)
    requires Genuine(h, r, d)
    ensures Steps(h, |h|, r, d) >= LastCounter(h, d)
    ensures Steps(h, |h|, r, d) == LastCounter(h, d) <==> NeverReturns(h, d)
  {
    if |h| > 0 {
      var front := h[..|h| - 1];
      ChargesAreGenuineIff(front, r, d);
      StepsPrefix(front, h, |front|, r, d);
      if h[|h| - 1].Some? && (|h| == 1 || h[|h| - 2].None?) {
        BackInView(h, r, d);
      } else {
        ReturnsPrefix(h, d);
        StillInView(h, r, d);
      }
    }
  }

  // A connection is charged at least what it carried, and exactly that if and
  // only if it never comes back after leaving the view with bytes counted.
  lemma {:induction false} ChargedExactlyIff(h: History, r: int, d: Direction)
    requires Genuine(h, r, d)
    ensures Carried(h, r, d) >= LastCounter(h, d)
    ensures Carried(h, r, d) == LastCounter(h, d) <==> NeverReturns(h, d)
  {
    ChargedIsCarried(h, r, d);
    OwnLifetimes(h, |h|, r, d);
    ChargesAreGenuineIff(h, r, d);
  }

  // A connection's sample in one snapshot.
  lemma {:induction false} SampleIs(dir: Directory, list: seq<Client>, conns: seq<Conn>, c: Conn)
    requires DistinctIds(conns) && c in conns
    ensures SampleOf(dir, list, conns, c.id) ==
            if Owner(dir, c).Some? then Some(Sample(CreditedRow(dir, list, c), c.bytes)) else None
  {
    var latest := Latest(dir, conns, c.id);
    if latest.Some? {
      SameConn(conns, latest.value, c);
    }
  }

  lemma {:induction false} SameConn(conns: seq<Conn>, a: Conn, b: Conn)
    requires DistinctIds(conns) && a in conns && b in conns && a.id == b.id
    ensures a == b
  {
    var i :| 0 <= i < |conns| && conns[i] == a;
    var j :| 0 <= j < |conns| && conns[j] == b;
  }

  lemma {:induction false} HistoryOfThree(p: Poll, q: Poll, k: string)
    requires p.fetched.Some? && q.fetched.Some?
    ensures HistoryOf([p, q, p], k) ==
            [SampleOf(p.dir, p.list, p.fetched.value, k), SampleOf(q.dir, q.list, q.fetched.value, k),
             SampleOf(p.dir, p.list, p.fetched.value, k)]
  {
    hide SampleOf;
    assert [p, q, p][..2] == [p, q] && [p, q][..1] == [p] && [p][..0] == [];
    assert HistoryOf([], k) == [];
    assert HistoryOf([p], k) == [] + [SampleOf(p.dir, p.list, p.fetched.value, k)];
    assert HistoryOf([p, q], k) == HistoryOf([p], k) + [SampleOf(q.dir, q.list, q.fetched.value, k)];
  }

  // What a connection that stands still is charged in three polls.
  lemma {:induction false} ThreeSamples(s: Option<Sample>, r: int, d: Direction)
    ensures var charged := if s.Some? && s.value.row == Some(r) then s.value.bytes.Get(d) else 0;
            Steps([s, s, s], 3, r, d) == charged && Steps([s, None, s], 3, r, d) == 2 * charged
  {
    var h, g := [s, s, s], [s, None, s];
    assert Steps(h, 0, r, d) == 0 == Steps(g, 0, r, d);
    assert Steps(h, 1, r, d) == Step(h, 0, r, d) && Steps(g, 1, r, d) == Step(g, 0, r, d);
    assert Steps(h, 2, r, d) == Steps(h, 1, r, d) && Steps(g, 2, r, d) == Steps(g, 1, r, d);
    assert Steps(h, 3, r, d) == Steps(h, 2, r, d) + Step(h, 2, r, d) && Steps(g, 3, r, d) == Steps(g, 2, r, d) + Step(g, 2, r, d);
  }

  function IdsOf(conns: seq<Conn>): (ks: seq<string>)
    ensures |ks| == |conns| && forall i :: 0 <= i < |conns| ==> ks[i] == conns[i].id
  {
    seq(|conns|, i requires 0 <= i < |conns| => conns[i].id)
  }

  // Three polls of one and the same snapshot; the lookup of one connection's
  // client fails during the second.
  function LookupFailsOnce(dir: Directory, list: seq<Client>, conns: seq<Conn>, k: string): seq<Poll> {
    var p := Poll(Some(conns), dir, list, true);
    [p, p.(dir := Directory(dir.names, dir.failed + {k})), p]
  }

  function NoLookupFails(dir: Directory, list: seq<Client>, conns: seq<Conn>): seq<Poll> {
    var p := Poll(Some(conns), dir, list, true);
    [p, p, p]
  }

  function Extra(k: string, bytes: nat): string -> nat {
    (x: string) => if x == k then bytes else 0
  }

  lemma {:induction false} RechargedOnce(dir: Directory, list: seq<Client>, conns: seq<Conn>, c: Conn, x: Conn, r: int, d: Direction)
    requires DistinctIds(conns) && c in conns && x in conns && CreditedRow(dir, list, c) == Some(r)
    ensures ChargedTo(LookupFailsOnce(dir, list, conns, c.id), r, d)(x.id) ==
            ChargedTo(NoLookupFails(dir, list, conns), r, d)(x.id) + Extra(c.id, c.bytes.Get(d))(x.id)
  {
    var ok := Poll(Some(conns), dir, list, true);
    var failing := ok.(dir := Directory(dir.names, dir.failed + {c.id}));
    HistoryOfThree(ok, ok, x.id);
    HistoryOfThree(ok, failing, x.id);
    var s, t := SampleOf(dir, list, conns, x.id), SampleOf(failing.dir, list, conns, x.id);
    assert t == (if x.id == c.id then None else s) && (x.id == c.id ==> s == Some(Sample(Some(r), c.bytes))) by {
      SampleIs(dir, list, conns, x);
      SampleIs(failing.dir, list, conns, x);
      if x.id == c.id {
        SameConn(conns, x, c);
      }
    }
    hide HistoryOf, SampleOf, Steps;
    ThreeSamples(s, r, d);
  }

  lemma {:induction false} IdsCover(conns: seq<Conn>, bad: seq<Poll>, good: seq<Poll>)
    requires DistinctIds(conns) && |bad| == |good| == 3
    requires forall i :: 0 <= i < 3 ==> bad[i].fetched == good[i].fetched == Some(conns) && bad[i].stored && good[i].stored
    ensures Covers(IdsOf(conns), bad) && Covers(IdsOf(conns), good) && forall c :: c in conns ==> c.id in IdsOf(conns)
    ensures forall p :: p in bad || p in good ==> p.stored
  {
    forall c | c in conns
      ensures c.id in IdsOf(conns)
    {
      var i :| 0 <= i < |conns| && conns[i] == c;
      assert IdsOf(conns)[i] == c.id;
    }
  }

  // A failed name lookup takes a connection out of view although it is alive:
  // one transient database error, and its whole counter is charged again.
  lemma {:induction false} FailedLookupRecharges(dir: Directory, list: seq<Client>, conns: seq<Conn>, c: Conn, r: int, d: Direction)
    requires DistinctIds(conns) && c in conns && CreditedRow(dir, list, c) == Some(r)
    ensures Gained(LookupFailsOnce(dir, list, conns, c.id), true, r, d) ==
            Gained(NoLookupFails(dir, list, conns), true, r, d) + c.bytes.Get(d)
  {
    var ks, bad, good := IdsOf(conns), LookupFailsOnce(dir, list, conns, c.id), NoLookupFails(dir, list, conns);
    hide HistoryOf, Gained, CreditedRow;
    IdsCover(conns, bad, good);
    hide LookupFailsOnce, NoLookupFails;
    NothingLost(bad, r, d);
    NothingLost(good, r, d);
    ChargesRegrouped(bad, ks, r, d);
    ChargesRegrouped(good, ks, r, d);
    var extra := Extra(c.id, c.bytes.Get(d));
    forall k | k in ks
      ensures ChargedTo(bad, r, d)(k) == ChargedTo(good, r, d)(k) + extra(k)
    {
      var i :| 0 <= i < |ks| && ks[i] == k;
      RechargedOnce(dir, list, conns, c, conns[i], r, d);
    }
    SumSplit(ks, ChargedTo(good, r, d), extra, ChargedTo(bad, r, d));
    SumSingle(ks, extra, c.id);
  }

  // ---- names: whose row is credited ----------------------------------------

  // The repository lists clients by descending id.
  ghost predicate Descending(list: seq<Client>) {
    forall i, j :: 0 <= i < j < |list| ==> list[i].id > list[j].id
  }

  // What the database's unique indexes guarantee: names are unique among the
  // local clients and among the cached clients of each node.
  ghost predicate UniquePerScope(list: seq<Client>) {
    forall i, j :: 0 <= i < j < |list| && list[i].nodeId == list[j].nodeId ==> list[i].name != list[j].name
  }

  lemma {:induction false} RowForIsLowest(list: seq<Client>, c: Client)
    requires Descending(list) && c in list
    ensures var r := RowFor(list, c.name);
            && r.Some? && r.value <= c.id
            && exists x :: x in list && x.name == c.name && x.id == r.value
  {
    var front, last := list[..|list| - 1], list[|list| - 1];
    assert list == front + [last];
    if last.name == c.name {
      assert last in list;
    } else {
      RowForIsLowest(front, c);
      var x :| x in front && x.name == c.name && x.id == RowFor(front, c.name).value;
      assert x in list;
    }
  }

  // A client's bytes reach its own row exactly when no listed client of the
  // same name, local or cached from a node, has a smaller id.
  lemma {:induction false} CreditedToOwnRowIff(list: seq<Client>, c: Client)
    requires Descending(list) && c in list
    ensures RowFor(list, c.name) == Some(c.id) <==> forall x :: x in list && x.name == c.name ==> x.id >= c.id
  {
    RowForIsLowest(list, c);
    forall x | x in list && x.name == c.name
      ensures RowFor(list, c.name).value <= x.id
    {
      RowForIsLowest(list, x);
    }
  }

  // Within the database's constraints the row credited can be another client's:
  // a client cached from a node before a local client of its name was created.
  lemma {:induction false} SharedNameMiscredits(local: Client, cached: Client)
    requires local.nodeId.None? && cached.nodeId.Some? && local.name == cached.name && cached.id < local.id
    ensures Descending([local, cached]) && UniquePerScope([local, cached])
    ensures RowFor([local, cached], local.name) == Some(cached.id)
  {
  }
}
