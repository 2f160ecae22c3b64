// The bounded log buffer and the line splitter that feeds it:
// internal/services/logbuf/logbuf.go.
module LogBuffer {
  import opened Collections
  import opened Text

  datatype Entry = Entry(
    id: string,
    level: string,
    source: string,
    message: string,
    requestId: string,
    fields: map<string, string>)

  const PANEL: string := "panel"
  const DEFAULT_MAX := 200

  // The value of a uint64 counter after n increments.
  function Wrapped(n: nat): nat {
    n % 0x1_0000_0000_0000_0000
  }

  // Case mapping and the key patterns are the standard library's and the operator's business.
  datatype Config = Config(upper: string -> string, lower: string -> string, sensitive: string -> bool)

  function Redacted(fields: map<string, string>, sensitive: string -> bool): map<string, string> {
    map k | k in fields :: if sensitive(k) then "[redacted]" else fields[k]
  }

  // The n-th entry ever appended, counting from 1, as it is stored.
  function Stored(cfg: Config, e: Entry, n: nat): Entry {
    Entry(FormatInt(Wrapped(n)), if e.level == "" then "info" else e.level, if e.source == "" then PANEL else e.source,
          e.message, e.requestId, Redacted(e.fields, cfg.sensitive))
  }

  // What is stored of the n-th entry appended: the running number as a uint64,
  // defaults for what is missing, and no sensitive value.
  ghost predicate StoredAs(cfg: Config, e: Entry, n: nat, stored: Entry) {
    && stored.id == FormatInt(n % 18_446_744_073_709_551_616)
    && stored.level == (if e.level == "" then "info" else e.level)
    && stored.source == (if e.source == "" then "panel" else e.source)
    && stored.message == e.message && stored.requestId == e.requestId
    && stored.fields.Keys == e.fields.Keys
    && (forall k :: k in e.fields && cfg.sensitive(k) ==> stored.fields[k] == "[redacted]")
    && (forall k :: k in e.fields && !cfg.sensitive(k) ==> stored.fields[k] == e.fields[k])
  }

  lemma {:induction false} StoredIs(cfg: Config, e: Entry, n: nat)
    ensures StoredAs(cfg, e, n, Stored(cfg, e, n))
  {
    hide FormatInt;
  }

  function StoredAll(cfg: Config, history: seq<Entry>, es: seq<Entry>): seq<Entry> {
    if |es| == 0 then history
    else
      var front := StoredAll(cfg, history, es[..|es| - 1]);
      front + [Stored(cfg, es[|es| - 1], |front| + 1)]
  }

  // ---- queries ---------------------------------------------------------------------

  predicate Contains(s: string, sub: string) {
    sub == "" || IndexOf(s, sub) != -1
  }

  predicate MatchesQuery(cfg: Config, e: Entry, query: string) {
    || Contains(cfg.lower(e.message), query)
    || Contains(cfg.lower(e.requestId), query)
    || Contains(cfg.lower(e.source), query)
    || exists k :: k in e.fields && (Contains(cfg.lower(k), query) || Contains(cfg.lower(e.fields[k]), query))
  }

  ghost predicate Within(s: string, sub: string) {
    exists i :: OccursAt(s, sub, i)
  }

  // A query is looked for in the message, the request id, the source, and the
  // names and values of the fields, all in lower case.
  lemma {:induction false} QueryIff(cfg: Config, e: Entry, query: string)
    requires query != ""
    ensures MatchesQuery(cfg, e, query) <==>
            || Within(cfg.lower(e.message), query) || Within(cfg.lower(e.requestId), query) || Within(cfg.lower(e.source), query)
            || exists k :: k in e.fields && (Within(cfg.lower(k), query) || Within(cfg.lower(e.fields[k]), query))
  {
    forall s: string
      ensures Contains(s, query) <==> Within(s, query)
    {
      ContainsIff(s, query);
    }
    hide Contains, Within;
  }

  lemma {:induction false} ContainsIff(s: string, sub: string)
    requires sub != ""
    ensures Contains(s, sub) <==> Within(s, sub)
  {
    var i := IndexOf(s, sub);
    assert i != -1 ==> OccursAt(s, sub, i);
  }

  predicate Selected(cfg: Config, e: Entry, level: string, source: string, query: string) {
    && (level == "" || level == "all" || e.level == level)
    && (source == "" || source == "all" || e.source == source)
    && (query == "" || MatchesQuery(cfg, e, query))
  }

  function Filter<T>(s: seq<T>, p: T -> bool): seq<T> {
    if |s| == 0 then [] else Filter(s[..|s| - 1], p) + if p(s[|s| - 1]) then [s[|s| - 1]] else []
  }

  class Buffer {
    const cfg: Config
    const max: nat
    var entries: seq<Entry>
    var count: nat // a uint64: wraps around
    ghost var history: seq<Entry> // everything appended so far

    // The buffer is the last max entries of the history, and the history numbers
    // its entries consecutively.
    ghost predicate Valid()
      reads this
    {
      && max > 0
      && entries == LastOf(history, max)
      && count == Wrapped(|history|)
      && forall i :: 0 <= i < |history| ==> history[i].id == FormatInt(Wrapped(i + 1))
    }

    constructor (cfg: Config, max: int)
      ensures Valid() && history == [] && this.cfg == cfg && this.max == if max <= 0 then 200 else max
    {
      this.cfg := cfg;
      this.max := if max <= 0 then DEFAULT_MAX else max;
      entries, count, history := [], 0, [];
    }

    method AppendEntry(e: Entry)
      requires Valid()
      modifies this
      ensures Valid() && history == old(history) + [Stored(cfg, e, |old(history)| + 1)]
      ensures StoredAs(cfg, e, |history|, history[|history| - 1])
    {
      hide FormatInt, Wrapped, LastOf, Redacted;
      count := Wrapped(count + 1);
      var entry := e;
      if entry.level == "" {
        entry := entry.(level := "info");
      }
      if entry.source == "" {
        entry := entry.(source := PANEL);
      }
      entry := entry.(id := FormatInt(count), fields := Redacted(entry.fields, cfg.sensitive));
      if |entries| >= max {
        entries := entries[1..] + [entry];
      } else {
        entries := entries + [entry];
      }
      NextCount(|history|);
      StoredIs(cfg, e, |history| + 1);
      LastOfNext(history, entry, max);
      history := history + [entry];
    }

    method Recent(limit: int, level: string, source: string, query: string) returns (out: seq<Entry>)
      requires Valid()
      ensures var q := cfg.lower(query);
              var found := Filter(LastOf(history, max), e => Selected(cfg, e, level, source, q));
              out == if limit > 0 then LastOf(found, limit) else found
    {
      hide MatchesQuery, Filter, LastOf, FormatInt, Wrapped;
      var q := cfg.lower(query);
      ghost var wanted := (e: Entry) => Selected(cfg, e, level, source, q);
      NoneFiltered(wanted);
      out := [];
      for i := 0 to |entries|
        invariant out == Filter(entries[..i], wanted)
      {
        var e := entries[i];
        FilterNext(entries[..i], e, wanted);
        assert entries[..i + 1] == entries[..i] + [e];
        if level != "" && level != "all" && e.level != level {
          continue;
        }
        if source != "" && source != "all" && e.source != source {
          continue;
        }
        if q != "" && !MatchesQuery(cfg, e, q) {
          continue;
        }
        out := out + [e];
      }
      assert entries[..|entries|] == entries;
      SameFilter(entries, wanted, e => Selected(cfg, e, level, source, q));
      LastOfIs(out, if limit > 0 then limit else 0);
      if limit > 0 && |out| > limit {
        out := out[|out| - limit..];
      }
    }
  }

  lemma {:induction false} NextCount(n: nat)
    ensures Wrapped(Wrapped(n) + 1) == Wrapped(n + 1)
  {
  }

  lemma {:induction false} LastOfNext<T>(s: seq<T>, x: T, n: nat)
    requires n > 0
    ensures LastOf(s + [x], n) == (if |LastOf(s, n)| >= n then LastOf(s, n)[1..] else LastOf(s, n)) + [x]
  {
  }

  lemma {:induction false} LastOfIs<T>(s: seq<T>, n: nat)
    ensures LastOf(s, n) == if |s| <= n then s else s[|s| - n..]
  {
  }

  lemma {:induction false} NoneFiltered<T>(p: T -> bool)
    ensures Filter([], p) == []
  {
  }

  lemma {:induction false} FilterNext<T>(s: seq<T>, x: T, p: T -> bool)
    ensures Filter(s + [x], p) == Filter(s, p) + if p(x) then [x] else []
  {
    assert (s + [x])[..|s|] == s;
  }

  lemma {:induction false} SameFilter<T>(s: seq<T>, p: T -> bool, q: T -> bool)
    requires forall x :: x in s ==> p(x) == q(x)
    ensures Filter(s, p) == Filter(s, q)
  {
    if |s| > 0 {
      SameFilter(s[..|s| - 1], p, q);
    }
  }

  // The place of s[i] among the selected entries.
  function Rank<T>(s: seq<T>, p: T -> bool, i: nat): nat
    requires i <= |s|
  {
    |Filter(s[..i], p)|
  }

  lemma {:induction false} SelectedIsFound<T>(s: seq<T>, p: T -> bool, i: nat)
    requires i < |s| && p(s[i])
    ensures Rank(s, p, i) < |Filter(s, p)| && Filter(s, p)[Rank(s, p, i)] == s[i]
  {
    if i < |s| - 1 {
      assert s[..|s| - 1][..i] == s[..i];
      SelectedIsFound(s[..|s| - 1], p, i);
    }
  }

  lemma {:induction false} FoundIsSelected<T>(s: seq<T>, p: T -> bool, j: nat) returns (i: nat)
    requires j < |Filter(s, p)|
    ensures i < |s| && p(s[i]) && Rank(s, p, i) == j
  {
    var front := s[..|s| - 1];
    if j < |Filter(front, p)| {
      i := FoundIsSelected(front, p, j);
      assert front[..i] == s[..i];
    } else {
      i := |s| - 1;
    }
  }

  // The j-th entry found is a selected one.
  predicate FoundAt<T>(s: seq<T>, p: T -> bool, j: nat) {
    exists i :: 0 <= i < |s| && p(s[i]) && Rank(s, p, i) == j
  }

  // Filtering keeps exactly the selected entries, each as often as it occurs and
  // in the same order: each is found at its rank, and nothing else is found.
  lemma {:induction false} FilterExact<T>(s: seq<T>, p: T -> bool)
    ensures forall i :: 0 <= i < |s| && p(s[i]) ==> Rank(s, p, i) < |Filter(s, p)| && Filter(s, p)[Rank(s, p, i)] == s[i]
    ensures forall j :: 0 <= j < |Filter(s, p)| ==> FoundAt(s, p, j)
  {
    hide Filter;
    forall i | 0 <= i < |s| && p(s[i])
      ensures Rank(s, p, i) < |Filter(s, p)| && Filter(s, p)[Rank(s, p, i)] == s[i]
    {
      SelectedIsFound(s, p, i);
    }
    forall j | 0 <= j < |Filter(s, p)|
      ensures FoundAt(s, p, j)
    {
      var i := FoundIsSelected(s, p, j);
    }
  }

  // ---- the line writer ------------------------------------------------------------------

  const NL: string := "\n"

  predicate OneLine(s: string) {
    forall i :: 0 <= i < |s| ==> s[i] != '\n'
  }

  // The newline-terminated lines of a stream, and what is left over.
  function Lines(stream: string): (lines: seq<string>)
    decreases |stream|
  {
    var i := IndexOf(stream, NL);
    if i == -1 then [] else [stream[..i]] + Lines(stream[i + 1..])
  }

  function Tail(stream: string): (tail: string)
    decreases |stream|
  {
    var i := IndexOf(stream, NL);
    if i == -1 then stream else Tail(stream[i + 1..])
  }

  function Terminated(lines: seq<string>): string {
    if |lines| == 0 then "" else lines[0] + "\n" + Terminated(lines[1..])
  }

  lemma {:induction false} NewlineAt(line: string, rest: string)
    requires OneLine(line)
    ensures IndexOf(line + NL + rest, NL) == |line|
  {
    var s := line + NL + rest;
    assert OccursAt(s, NL, |line|) by { assert s[|line|..|line| + 1] == NL; }
    forall j | 0 <= j < |line|
      ensures !OccursAt(s, NL, j)
    {
      assert s[j..j + 1] == [line[j]] && line[j] != '\n';
    }
  }

  lemma {:induction false} NoNewlineNoIndex(s: string)
    requires OneLine(s)
    ensures IndexOf(s, NL) == -1
  {
    forall j
      ensures !OccursAt(s, NL, j)
    {
      if 0 <= j < |s| {
        assert s[j..j + 1] == [s[j]] && s[j] != '\n';
      }
    }
  }

  lemma {:induction false} NoNewlineBefore(s: string, n: nat)
    requires n <= |s| && forall j :: 0 <= j < n ==> !OccursAt(s, NL, j)
    ensures OneLine(s[..n])
  {
    forall j | 0 <= j < n
      ensures s[j] != '\n'
    {
      assert !OccursAt(s, NL, j);
      assert s[j..j + 1] == [s[j]];
    }
  }

  lemma {:induction false} CutAt(s: string, i: int)
    requires OccursAt(s, NL, i)
    ensures s == s[..i] + NL + s[i + 1..]
  {
    assert s[i..i + 1] == NL;
  }

  // Lines and Tail cut the stream at every newline and nowhere else.
  lemma {:induction false} LinesCutTheStream(stream: string)
    ensures stream == Terminated(Lines(stream)) + Tail(stream)
    ensures OneLine(Tail(stream)) && forall i :: 0 <= i < |Lines(stream)| ==> OneLine(Lines(stream)[i])
    decreases |stream|
  {
    hide IndexOf;
    var i := IndexOf(stream, NL);
    if i == -1 {
      NoNewlineBefore(stream, |stream|);
      assert stream[..|stream|] == stream;
    } else {
      NoNewlineBefore(stream, i);
      LinesCutTheStream(stream[i + 1..]);
      hide OneLine;
      CutAt(stream, i);
      assert Lines(stream)[1..] == Lines(stream[i + 1..]);
      Associate(stream[..i] + NL, Terminated(Lines(stream[i + 1..])), Tail(stream[i + 1..]));
    }
  }

  // There is only one way to cut a stream like that.
  lemma {:induction false} OnlyOneCut(lines: seq<string>, tail: string)
    requires OneLine(tail) && forall i :: 0 <= i < |lines| ==> OneLine(lines[i])
    ensures Lines(Terminated(lines) + tail) == lines && Tail(Terminated(lines) + tail) == tail
  {
    var stream := Terminated(lines) + tail;
    if |lines| == 0 {
      assert stream == tail;
      NoNewlineNoIndex(tail);
    } else {
      var rest := Terminated(lines[1..]) + tail;
      assert stream == lines[0] + NL + rest;
      NewlineAt(lines[0], rest);
      assert stream[..|lines[0]|] == lines[0] && stream[|lines[0]| + 1..] == rest;
      OnlyOneCut(lines[1..], tail);
    }
  }

  lemma {:induction false} Associate<T>(a: seq<T>, b: seq<T>, c: seq<T>)
    ensures a + (b + c) == a + b + c
  {
  }

  lemma {:induction false} TerminatedConcat(a: seq<string>, b: seq<string>)
    ensures Terminated(a + b) == Terminated(a) + Terminated(b)
  {
    if |a| == 0 {
      assert a + b == b;
    } else {
      TerminatedConcat(a[1..], b);
      assert (a + b)[1..] == a[1..] + b && (a + b)[0] == a[0];
      Associate(a[0] + NL, Terminated(a[1..]), Terminated(b));
    }
  }

  // Feeding a stream in two pieces finds the same lines and keeps the same rest.
  lemma {:induction false} LinesOfConcat(a: string, b: string)
    ensures Lines(a + b) == Lines(a) + Lines(Tail(a) + b)
    ensures Tail(a + b) == Tail(Tail(a) + b)
  {
    hide Lines, Tail, Terminated, OneLine;
    var lines, tail := Lines(a) + Lines(Tail(a) + b), Tail(Tail(a) + b);
    LinesCutTheStream(a);
    LinesCutTheStream(Tail(a) + b);
    TerminatedConcat(Lines(a), Lines(Tail(a) + b));
    Associate(Terminated(Lines(a)), Tail(a), b);
    Associate(Terminated(Lines(a)), Terminated(Lines(Tail(a) + b)), tail);
    OnlyOneCut(lines, tail);
  }

  function DetectLevel(cfg: Config, line: string): string {
    var up := cfg.upper(line);
    if Contains(up, "ERROR") || Contains(up, "FATAL") || Contains(up, "PANIC") then "error"
    else if Contains(up, "WARN") then "warn"
    else "info"
  }

  // The level of a line is that of the gravest word in it.
  lemma {:induction false} DetectLevelIff(cfg: Config, line: string)
    ensures var (up, level) := (cfg.upper(line), DetectLevel(cfg, line));
            && (level == "error" <==> Within(up, "ERROR") || Within(up, "FATAL") || Within(up, "PANIC"))
            && (level == "warn" <==> level != "error" && Within(up, "WARN"))
            && (level == "info" <==> level != "error" && !Within(up, "WARN"))
  {
    var up := cfg.upper(line);
    ContainsIff(up, "ERROR");
    ContainsIff(up, "FATAL");
    ContainsIff(up, "PANIC");
    ContainsIff(up, "WARN");
    hide Contains, Within;
  }

  // The entries a sequence of complete lines is turned into.
  function EntriesOf(cfg: Config, source: string, lines: seq<string>): seq<Entry> {
    if |lines| == 0 then []
    else
      var line := TrimRight(lines[|lines| - 1], '\r');
      EntriesOf(cfg, source, lines[..|lines| - 1])
      + if line == "" then [] else [Entry("", DetectLevel(cfg, line), source, line, "", map[])]
  }

  // The history after a writer has been fed a whole stream.
  function Fed(cfg: Config, source: string, history: seq<Entry>, stream: string): seq<Entry> {
    StoredAll(cfg, history, EntriesOf(cfg, source, Lines(stream)))
  }

  class LineWriter {
    const buf: Buffer
    const source: string
    var partial: string

    ghost predicate Valid()
      reads this, buf
    {
      buf.Valid() && OneLine(partial)
    }

    constructor (buf: Buffer, source: string)
      requires buf.Valid()
      ensures Valid()
      ensures this.buf == buf && this.source == (if source == "" then PANEL else source) && partial == ""
    {
      this.buf := buf;
      this.source := if source == "" then PANEL else source;
      partial := "";
    }

    method Write(p: string) returns (n: nat)
      requires Valid()
      modifies this, buf
      ensures Valid() && n == |p|
      ensures partial == Tail(old(partial) + p)
      ensures buf.history == Fed(buf.cfg, source, old(buf.history), old(partial) + p)
    {
      hide DetectLevel, FormatInt, IndexOf, EntriesOf, StoredAll, Stored, TrimRight, OneLine, Buffer.Valid;
      ghost var stream := partial + p;
      NoEntries(buf.cfg, source, buf.history);
      ghost var done: seq<string> := [];
      partial := partial + p;
      while true
        invariant buf.Valid()
        invariant Lines(stream) == done + Lines(partial) && Tail(stream) == Tail(partial)
        invariant buf.history == StoredAll(buf.cfg, old(buf.history), EntriesOf(buf.cfg, source, done))
        decreases |partial|
      {
        var i := IndexOf(partial, NL);
        if i < 0 {
          assert done + [] == done;
          break;
        }
        var text := partial[..i];
        var line := TrimRight(text, '\r');
        partial := partial[i + 1..];
        assert done + ([text] + Lines(partial)) == done + [text] + Lines(partial);
        assert (done + [text])[..|done|] == done;
        done := done + [text];
        LineStored(buf.cfg, source, old(buf.history), done[..|done| - 1], text);
        if line != "" {
          buf.AppendEntry(Entry("", DetectLevel(buf.cfg, line), source, line, "", map[]));
        }
      }
      LinesCutTheStream(stream);
      n := |p|;
    }
  }

  lemma {:induction false} NoEntries(cfg: Config, source: string, history: seq<Entry>)
    ensures StoredAll(cfg, history, EntriesOf(cfg, source, [])) == history
  {
  }

  // One more line stores one more entry, or none when nothing but CRs is left of it.
  lemma {:induction false} LineStored(cfg: Config, source: string, history: seq<Entry>, done: seq<string>, text: string)
    ensures var line, so := TrimRight(text, '\r'), StoredAll(cfg, history, EntriesOf(cfg, source, done));
            StoredAll(cfg, history, EntriesOf(cfg, source, done + [text])) ==
            so + if line == "" then [] else [Stored(cfg, Entry("", DetectLevel(cfg, line), source, line, "", map[]), |so| + 1)]
  {
    hide Stored, StoredAll, DetectLevel, TrimRight;
    var line, es := TrimRight(text, '\r'), EntriesOf(cfg, source, done);
    assert (done + [text])[..|done|] == done;
    if line == "" {
      assert es + [] == es;
    } else {
      StoredOneMore(cfg, history, es, Entry("", DetectLevel(cfg, line), source, line, "", map[]));
    }
  }

  lemma {:induction false} StoredOneMore(cfg: Config, history: seq<Entry>, es: seq<Entry>, e: Entry)
    ensures StoredAll(cfg, history, es + [e]) ==
            StoredAll(cfg, history, es) + [Stored(cfg, e, |StoredAll(cfg, history, es)| + 1)]
  {
    hide Stored;
    assert (es + [e])[..|es|] == es;
  }

  lemma {:induction false} EntriesConcat(cfg: Config, source: string, a: seq<string>, b: seq<string>)
    ensures EntriesOf(cfg, source, a + b) == EntriesOf(cfg, source, a) + EntriesOf(cfg, source, b)
  {
    hide DetectLevel, TrimRight;
    if |b| == 0 {
      assert a + b == a;
    } else {
      EntriesConcat(cfg, source, a, b[..|b| - 1]);
      assert (a + b)[..|a + b| - 1] == a + b[..|b| - 1];
    }
  }

  lemma {:induction false} StoredConcat(cfg: Config, history: seq<Entry>, a: seq<Entry>, b: seq<Entry>)
    ensures StoredAll(cfg, StoredAll(cfg, history, a), b) == StoredAll(cfg, history, a + b)
  {
    hide Stored;
    if |b| == 0 {
      assert a + b == a;
    } else {
      StoredConcat(cfg, history, a, b[..|b| - 1]);
      assert (a + b)[..|a + b| - 1] == a + b[..|b| - 1];
    }
  }

  // Feeding the rest to what the first piece left is feeding the whole.
  lemma {:induction false} FedInPieces(cfg: Config, source: string, history: seq<Entry>, a: string, b: string)
    ensures Fed(cfg, source, Fed(cfg, source, history, a), Tail(a) + b) == Fed(cfg, source, history, a + b)
    ensures Tail(Tail(a) + b) == Tail(a + b)
  {
    hide Lines, Tail, EntriesOf, StoredAll;
    LinesOfConcat(a, b);
    EntriesConcat(cfg, source, Lines(a), Lines(Tail(a) + b));
    StoredConcat(cfg, history, EntriesOf(cfg, source, Lines(a)), EntriesOf(cfg, source, Lines(Tail(a) + b)));
  }

  lemma {:induction false} NothingFed(cfg: Config, source: string, history: seq<Entry>, partial: string)
    requires OneLine(partial)
    ensures Fed(cfg, source, history, partial) == history && Tail(partial) == partial
  {
    OnlyOneCut([], partial);
    assert Terminated([]) + partial == partial;
  }

  // Chunk invariance: however the stream is split into writes, the buffer and
  // the retained tail depend on the stream alone.
  method WriteAll(w: LineWriter, chunks: seq<string>)
    requires w.Valid()
    modifies w, w.buf
    ensures w.Valid()
    ensures w.partial == Tail(old(w.partial) + Joined(chunks))
    ensures w.buf.history == Fed(w.buf.cfg, w.source, old(w.buf.history), old(w.partial) + Joined(chunks))
  {
    hide Lines, Tail, Fed;
    ghost var start, before := w.partial, w.buf.history;
    NothingFed(w.buf.cfg, w.source, before, start);
    assert start + Joined(chunks[..0]) == start;
    for k := 0 to |chunks|
      invariant w.Valid()
      invariant w.partial == Tail(start + Joined(chunks[..k]))
      invariant w.buf.history == Fed(w.buf.cfg, w.source, before, start + Joined(chunks[..k]))
    {
      ghost var so := start + Joined(chunks[..k]);
      FedInPieces(w.buf.cfg, w.source, before, so, chunks[k]);
      assert chunks[..k + 1][..k] == chunks[..k];
      assert so + chunks[k] == start + Joined(chunks[..k + 1]);
      var _ := w.Write(chunks[k]);
    }
    assert chunks[..|chunks|] == chunks;
  }
}
