// From statistics to per-user deltas: parseUserStat and the aggregation of
// UserDeltas in internal/services/stats/v2ray.go.
module UserStats {
  import Collections
  import opened Text
  import opened V2Ray

  const USER_PREFIX: string := "user>>>"
  const SEP: string := ">>>"
  const UPLINK: string := "uplink"
  const DOWNLINK: string := "downlink"

  // "user>>>NAME>>>traffic>>>uplink|downlink"
  function ParseUserStat(name: string): Option<(string, string)> {
    match CutPrefix(name, USER_PREFIX)
    case None => None
    case Some(rest) =>
      var parts := Split(rest, SEP);
      if |parts| < 3 then None else Some((parts[0], parts[|parts| - 1]))
  }

  function StatName(user: string, direction: string): string {
    USER_PREFIX + user + ">>>traffic>>>" + direction
  }

  // The separator can be told from the name.
  ghost predicate Separable(user: string) {
    (forall i :: !OccursAt(user, ">>>", i)) && (|user| > 0 ==> user[|user| - 1] != '>')
  }

  // ---- the name is recovered exactly when it is separable --------------------------

  lemma {:induction false} IndexOfIs(s: string, n: nat)
    requires OccursAt(s, SEP, n) && forall j :: 0 <= j < n ==> !OccursAt(s, SEP, j)
    ensures IndexOf(s, SEP) == n
  {
  }

  lemma {:induction false} IndexOfIsNot(s: string, i: nat, n: nat)
    requires OccursAt(s, SEP, i) && i < n
    ensures IndexOf(s, SEP) != n
  {
  }

  lemma {:induction false} SeparatorAfter(user: string, more: string)
    ensures OccursAt(user + SEP + more, SEP, |user|)
    ensures |user| > 0 && user[|user| - 1] == '>' ==> OccursAt(user + SEP + more, SEP, |user| - 1)
  {
    var s := user + SEP + more;
    assert s[|user|..|user| + 3] == SEP;
    if |user| > 0 && user[|user| - 1] == '>' {
      assert s[|user| - 1..|user| + 2] == SEP;
    }
  }

  lemma {:induction false} SeparatorInside(user: string, more: string, i: int)
    requires OccursAt(user, SEP, i)
    ensures OccursAt(user + SEP + more, SEP, i)
  {
    assert (user + SEP + more)[i..i + 3] == user[i..i + 3];
  }

  // Some separator of s starts before n.
  ghost predicate SeparatorBefore(s: string, n: nat) {
    exists i: nat :: i < n && OccursAt(s, SEP, i)
  }

  lemma {:induction false} FirstOrNot(s: string, n: nat)
    requires OccursAt(s, SEP, n)
    ensures IndexOf(s, SEP) == n <==> !SeparatorBefore(s, n)
  {
    hide IndexOf;
    if !SeparatorBefore(s, n) {
      IndexOfIs(s, n);
    } else {
      var i: nat :| i < n && OccursAt(s, SEP, i);
      IndexOfIsNot(s, i, n);
    }
  }

  lemma {:induction false} SeparableMeans(user: string, more: string)
    ensures !SeparatorBefore(user + SEP + more, |user|) <==> Separable(user)
  {
    var s := user + SEP + more;
    if Separable(user) {
      forall j: nat
        ensures j < |user| ==> !OccursAt(s, SEP, j)
      {
        if j < |user| {
          NotBefore(user, more, j);
        }
      }
    } else if |user| > 0 && user[|user| - 1] == '>' {
      SeparatorAfter(user, more);
    } else {
      var i :| OccursAt(user, SEP, i);
      SeparatorInside(user, more, i);
    }
  }

  // The first separator of user + ">>>" + more.
  lemma {:induction false} FirstSeparator(user: string, more: string)
    ensures IndexOf(user + SEP + more, SEP) == |user| <==> Separable(user)
  {
    hide IndexOf, OccursAt, Separable, SeparatorBefore;
    SeparatorAfter(user, more);
    SeparableMeans(user, more);
    FirstOrNot(user + SEP + more, |user|);
  }

  lemma {:induction false} NotBefore(user: string, more: string, j: nat)
    requires Separable(user) && j < |user|
    ensures !OccursAt(user + SEP + more, SEP, j)
  {
    var s := user + SEP + more;
    if j + 3 <= |user| {
      assert s[j..j + 3] == user[j..j + 3];
      assert !OccursAt(user, SEP, j);
    } else {
      assert s[j..j + 3][|user| - 1 - j] == user[|user| - 1];
      assert SEP[|user| - 1 - j] == '>';
    }
  }

  predicate Plain(s: string) {
    forall i :: 0 <= i < |s| ==> s[i] != '>'
  }

  lemma {:induction false} PlainIsSeparable(s: string)
    requires Plain(s)
    ensures Separable(s) && Split(s, SEP) == [s]
  {
    forall i
      ensures !OccursAt(s, SEP, i)
    {
      if 0 <= i && i + 3 <= |s| {
        assert s[i..i + 3][0] != SEP[0];
      }
    }
  }

  lemma {:induction false} SplitAtFirst(user: string, more: string)
    requires Separable(user)
    ensures Split(user + SEP + more, SEP) == [user] + Split(more, SEP)
  {
    FirstSeparator(user, more);
    var s := user + SEP + more;
    assert s[..|user|] == user && s[|user| + 3..] == more;
  }

  lemma {:induction false} TailParts(direction: string)
    requires Plain(direction)
    ensures Split("traffic" + SEP + direction, SEP) == ["traffic", direction]
  {
    hide Separable, Split;
    PlainIsSeparable("traffic");
    SplitAtFirst("traffic", direction);
    PlainIsSeparable(direction);
  }

  // The first part of a split ends before the first separator.
  lemma {:induction false} HeadOfSplit(s: string)
    requires IndexOf(s, SEP) != -1
    ensures Split(s, SEP)[0] == s[..IndexOf(s, SEP)]
  {
  }

  lemma {:induction false} StatNameParts(user: string, direction: string)
    ensures CutPrefix(StatName(user, direction), USER_PREFIX) == Some(user + SEP + ("traffic" + SEP + direction))
  {
    var rest := user + SEP + ("traffic" + SEP + direction);
    assert ">>>traffic>>>" == SEP + "traffic" + SEP;
    assert StatName(user, direction) == USER_PREFIX + rest;
    assert (USER_PREFIX + rest)[..|USER_PREFIX|] == USER_PREFIX && (USER_PREFIX + rest)[|USER_PREFIX|..] == rest;
  }

  lemma {:induction false} PartsRecoveredIff(user: string, direction: string)
    requires Plain(direction)
    ensures var parts := Split(user + SEP + ("traffic" + SEP + direction), SEP);
            |parts| >= 3 && parts[0] == user && parts[|parts| - 1] == direction <==> Separable(user)
  {
    hide Separable, Plain, Split;
    var tail := "traffic" + SEP + direction;
    var rest := user + SEP + tail;
    FirstSeparator(user, tail);
    if Separable(user) {
      SplitAtFirst(user, tail);
      TailParts(direction);
      assert Split(rest, SEP) == [user] + ["traffic", direction];
    } else {
      HasSeparator(user, tail);
      HeadOfSplit(rest);
      assert |Split(rest, SEP)[0]| != |user|;
    }
  }

  lemma {:induction false} HasSeparator(user: string, more: string)
    ensures IndexOf(user + SEP + more, SEP) != -1
  {
    var s := user + SEP + more;
    assert OccursAt(s, SEP, |user|) by { assert s[|user|..|user| + 3] == SEP; }
  }

  lemma {:induction false} StatNameRecoveredIff(user: string, direction: string)
    requires direction == UPLINK || direction == DOWNLINK
    ensures ParseUserStat(StatName(user, direction)) == Some((user, direction)) <==> Separable(user)
  {
    assert Plain(direction);
    hide Separable, Plain, StatName, CutPrefix, Split;
    StatNameParts(user, direction);
    PartsRecoveredIff(user, direction);
  }

  // The parser recovers name and direction exactly for the names that hold no
  // ">>>" and do not end in ">".
  lemma {:induction false} UserStatRecoveredIff(user: string, direction: string)
    requires direction == "uplink" || direction == "downlink"
    ensures ParseUserStat("user>>>" + user + ">>>traffic>>>" + direction) == Some((user, direction)) <==> Separable(user)
  {
    assert StatName(user, direction) == "user>>>" + user + ">>>traffic>>>" + direction;
    hide ParseUserStat, StatName, Separable;
    StatNameRecoveredIff(user, direction);
  }

  lemma {:induction false} SeparatorInNameIsLost()
    ensures ParseUserStat("user>>>a>>>b>>>traffic>>>uplink") != Some(("a>>>b", "uplink"))
  {
    assert OccursAt("a>>>b", SEP, 1) by { assert "a>>>b"[1..4] == SEP; }
    var name := "user>>>" + "a>>>b" + ">>>traffic>>>" + "uplink";
    assert name == "user>>>a>>>b>>>traffic>>>uplink";
    UserStatRecoveredIff("a>>>b", "uplink");
    hide ParseUserStat;
  }

  // ---- aggregation ---------------------------------------------------------------------

  datatype UserTotal = UserTotal(name: string, up: int, down: int)

  // The sum over the statistics of one user in one direction.
  function Total(stats: seq<Stat>, name: string, direction: string): int {
    if |stats| == 0 then 0
    else
      Total(stats[..|stats| - 1], name, direction)
      + if ParseUserStat(stats[|stats| - 1].name) == Some((name, direction)) then stats[|stats| - 1].value else 0
  }

  predicate Mentioned(stats: seq<Stat>, name: string) {
    exists i :: 0 <= i < |stats| && IsFor(stats[i], name)
  }

  predicate IsFor(st: Stat, name: string) {
    ParseUserStat(st.name).Some? && ParseUserStat(st.name).value.0 == name
  }

  ghost predicate Totals(byName: map<string, UserTotal>, stats: seq<Stat>) {
    && (forall name :: name in byName <==> Mentioned(stats, name))
    && (forall name :: name in byName ==>
          byName[name] == UserTotal(name, Total(stats, name, UPLINK), Total(stats, name, DOWNLINK)))
  }

  predicate Names(out: seq<UserTotal>, name: string) {
    exists i :: 0 <= i < |out| && out[i].name == name
  }

  // One entry per user mentioned, in no particular order, with exact sums.
  ghost predicate ExactDeltas(out: seq<UserTotal>, stats: seq<Stat>) {
    && (forall i, j :: 0 <= i < j < |out| ==> out[i].name != out[j].name)
    && (forall i :: 0 <= i < |out| ==>
          Mentioned(stats, out[i].name)
          && out[i].up == Total(stats, out[i].name, UPLINK) && out[i].down == Total(stats, out[i].name, DOWNLINK))
    && (forall name :: Mentioned(stats, name) ==> Names(out, name))
  }

  function Counted(ut: UserTotal, direction: string, value: int): UserTotal {
    if direction == UPLINK then ut.(up := ut.up + value)
    else if direction == DOWNLINK then ut.(down := ut.down + value)
    else ut
  }

  lemma {:induction false} MentionedAppend(stats: seq<Stat>, st: Stat, name: string)
    ensures Mentioned(stats + [st], name) <==> Mentioned(stats, name) || IsFor(st, name)
  {
    if Mentioned(stats, name) {
      var i :| 0 <= i < |stats| && IsFor(stats[i], name);
      assert (stats + [st])[i] == stats[i];
    }
    assert (stats + [st])[|stats|] == st;
  }

  lemma {:induction false} TotalAppend(stats: seq<Stat>, st: Stat, name: string, direction: string)
    ensures Total(stats + [st], name, direction) ==
            Total(stats, name, direction) + if ParseUserStat(st.name) == Some((name, direction)) then st.value else 0
  {
    assert (stats + [st])[..|stats|] == stats;
  }

  lemma {:induction false} UnmentionedTotal(stats: seq<Stat>, name: string, direction: string)
    requires !Mentioned(stats, name)
    ensures Total(stats, name, direction) == 0
  {
    if |stats| > 0 {
      var front, last := stats[..|stats| - 1], stats[|stats| - 1];
      assert stats == front + [last];
      MentionedAppend(front, last, name);
      UnmentionedTotal(front, name, direction);
    }
  }

  lemma {:induction false} TotalsStep(byName: map<string, UserTotal>, stats: seq<Stat>, st: Stat)
    requires Totals(byName, stats)
    ensures ParseUserStat(st.name).None? ==> Totals(byName, stats + [st])
    ensures ParseUserStat(st.name).Some? ==>
              var (name, direction) := ParseUserStat(st.name).value;
              var ut := if name in byName then byName[name] else UserTotal(name, 0, 0);
              Totals(byName[name := Counted(ut, direction, st.value)], stats + [st])
  {
    hide Mentioned, Total, ParseUserStat;
    var parsed := ParseUserStat(st.name);
    var grown := if parsed.None? then byName
                 else
                   var (name, direction) := parsed.value;
                   byName[name := Counted(if name in byName then byName[name] else UserTotal(name, 0, 0), direction, st.value)];
    forall name
      ensures name in grown <==> Mentioned(stats + [st], name)
      ensures name in grown ==> grown[name] == UserTotal(name, Total(stats + [st], name, UPLINK), Total(stats + [st], name, DOWNLINK))
    {
      MentionedAppend(stats, st, name);
      TotalAppend(stats, st, name, UPLINK);
      TotalAppend(stats, st, name, DOWNLINK);
      assert UPLINK != DOWNLINK by { assert |UPLINK| != |DOWNLINK|; }
      if !Mentioned(stats, name) {
        UnmentionedTotal(stats, name, UPLINK);
        UnmentionedTotal(stats, name, DOWNLINK);
      }
    }
  }

  // UserDeltas, given the bytes of the response (None: the call failed).
  method UserDeltas(response: Option<Wire.bytes>) returns (r: Option<seq<UserTotal>>)
    ensures r.Some? <==> response.Some? && UnmarshalFrom(response.value, []).Ok?
    ensures r.Some? ==> ExactDeltas(r.value, UnmarshalFrom(response.value, []).value)
  {
    hide UnmarshalFrom, Totals, ParseUserStat;
    if response.None? {
      return None;
    }
    var decoded := Unmarshal(response.value);
    if decoded.Err? {
      return None;
    }
    var stats := decoded.value;
    var byName: map<string, UserTotal> := map[];
    NoTotals();
    assert stats[..0] == [];
    for i := 0 to |stats|
      invariant Totals(byName, stats[..i])
    {
      TotalsStep(byName, stats[..i], stats[i]);
      assert stats[..i] + [stats[i]] == stats[..i + 1];
      var parsed := ParseUserStat(stats[i].name);
      if parsed.None? {
        continue;
      }
      var (name, direction) := parsed.value;
      var ut := if name in byName then byName[name] else UserTotal(name, 0, 0);
      if direction == UPLINK {
        ut := ut.(up := ut.up + stats[i].value);
      } else if direction == DOWNLINK {
        ut := ut.(down := ut.down + stats[i].value);
      }
      byName := byName[name := ut];
    }
    assert stats[..|stats|] == stats;
    var out := Listed(byName, stats);
    r := Some(out);
  }

  lemma {:induction false} NoTotals()
    ensures Totals(map[], [])
  {
  }

  // The values of the map, in whatever order it is iterated.
  method Listed(byName: map<string, UserTotal>, ghost stats: seq<Stat>) returns (out: seq<UserTotal>)
    requires Totals(byName, stats)
    ensures ExactDeltas(out, stats)
  {
    hide Mentioned, Total;
    out := [];
    var todo := byName.Keys;
    while todo != {}
      invariant todo <= byName.Keys
      invariant forall i :: 0 <= i < |out| ==> out[i].name in byName && out[i].name !in todo && out[i] == byName[out[i].name]
      invariant forall name :: name in byName && name !in todo ==> Names(out, name)
      invariant forall i, j :: 0 <= i < j < |out| ==> out[i].name != out[j].name
      decreases todo
    {
      var name := Collections.Pick(todo);
      ghost var before := out;
      out := out + [byName[name]];
      forall n | n in byName && n !in todo - {name}
        ensures Names(out, n)
      {
        if n == name {
          assert out[|before|].name == n;
        } else {
          var i :| 0 <= i < |before| && before[i].name == n;
          assert out[i].name == n;
        }
      }
      todo := todo - {name};
    }
  }

  // ---- from the core's counters to the deltas --------------------------------------------

  datatype Counter = Counter(user: string, up: bool, value: int)

  function DirectionOf(c: Counter): string {
    if c.up then UPLINK else DOWNLINK
  }

  function StatsOf(counters: seq<Counter>): (stats: seq<Stat>)
    ensures |stats| == |counters|
    ensures forall i :: 0 <= i < |stats| ==> stats[i] == Stat(StatName(counters[i].user, DirectionOf(counters[i])), counters[i].value)
  {
    seq(|counters|, i requires 0 <= i < |counters| => Stat(StatName(counters[i].user, DirectionOf(counters[i])), counters[i].value))
  }

  // What the core counted for one user in one direction.
  function CountedFor(counters: seq<Counter>, user: string, up: bool): int {
    if |counters| == 0 then 0
    else
      var last := counters[|counters| - 1];
      CountedFor(counters[..|counters| - 1], user, up) + if last.user == user && last.up == up then last.value else 0
  }

  lemma {:induction false} TotalIsCounted(counters: seq<Counter>, user: string, up: bool)
    requires forall i :: 0 <= i < |counters| ==> Separable(counters[i].user)
    ensures Total(StatsOf(counters), user, if up then UPLINK else DOWNLINK) == CountedFor(counters, user, up)
    ensures Mentioned(StatsOf(counters), user) <==> exists i :: 0 <= i < |counters| && counters[i].user == user
  {
    hide Separable, ParseUserStat, StatName;
    forall i | 0 <= i < |counters|
      ensures IsFor(StatsOf(counters)[i], user) <==> counters[i].user == user
    {
      StatNameRecoveredIff(counters[i].user, DirectionOf(counters[i]));
    }
    if |counters| > 0 {
      var front, last := counters[..|counters| - 1], counters[|counters| - 1];
      StatNameRecoveredIff(last.user, DirectionOf(last));
      assert StatsOf(counters)[..|counters| - 1] == StatsOf(front);
      TotalIsCounted(front, user, up);
    }
  }

  // End to end: whatever valid encoding of the core's counters arrives, it is
  // decoded, and the deltas name exactly the counted users, once each, with
  // exact sums.
  lemma {:induction false} DeltasAreCounters(parts: seq<Part>, counters: seq<Counter>, out: seq<UserTotal>)
    requires forall i :: 0 <= i < |counters| ==> Separable(counters[i].user)
    requires ValidResponse(parts) && StatsIn(parts) == StatsOf(counters)
    ensures UnmarshalFrom(EncodeResponse(parts), []) == Ok(StatsOf(counters))
    ensures ExactDeltas(out, StatsOf(counters)) ==>
              && (forall i :: 0 <= i < |out| ==>
                    && out[i].up == CountedFor(counters, out[i].name, true)
                    && out[i].down == CountedFor(counters, out[i].name, false))
              && (forall j :: 0 <= j < |counters| ==> Names(out, counters[j].user))
  {
    hide UnmarshalFrom, Separable, EncodeResponse, StatsIn, ValidResponse, Total, Mentioned, CountedFor;
    UnmarshalInverts(parts, []);
    assert [] + StatsOf(counters) == StatsOf(counters);
    if ExactDeltas(out, StatsOf(counters)) {
      ExactDeltasAreCounters(counters, out);
    }
  }

  lemma {:induction false} ExactDeltasAreCounters(counters: seq<Counter>, out: seq<UserTotal>)
    requires forall i :: 0 <= i < |counters| ==> Separable(counters[i].user)
    requires ExactDeltas(out, StatsOf(counters))
    ensures forall i :: 0 <= i < |out| ==>
                          out[i].up == CountedFor(counters, out[i].name, true) && out[i].down == CountedFor(counters, out[i].name, false)
    ensures forall j :: 0 <= j < |counters| ==> Names(out, counters[j].user)
  {
    hide Separable, Total, Mentioned, CountedFor, StatsOf;
    forall i | 0 <= i < |out|
      ensures out[i].up == CountedFor(counters, out[i].name, true) && out[i].down == CountedFor(counters, out[i].name, false)
    {
      TotalIsCounted(counters, out[i].name, true);
      TotalIsCounted(counters, out[i].name, false);
    }
    forall j | 0 <= j < |counters|
      ensures Names(out, counters[j].user)
    {
      TotalIsCounted(counters, counters[j].user, true);
      assert Mentioned(StatsOf(counters), counters[j].user);
    }
  }
}
