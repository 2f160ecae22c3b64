// The size-rotated log file: rotateWriter in cmd/main.go, without I/O errors.
// A file's content is a string with one char per byte.
module RotateLog {
  import opened Text

  // Index 0 is the log file itself, index i its backup ".i".
  type Files = map<nat, string>

  function Content(files: Files, i: nat): string {
    if i in files then files[i] else ""
  }

  // The files hi, hi - 1, ..., lo read one after the other.
  function Range(files: Files, hi: int, lo: nat): string
    decreases hi - lo
  {
    if hi < lo then "" else Range(files, hi, lo + 1) + Content(files, lo)
  }

  // os.Rename, ignoring the error when the old name does not exist
  function Renamed(files: Files, i: nat, j: nat): Files {
    if i in files then (files - {i})[j := files[i]] else files
  }

  // The renames i -> i + 1 for i = backups - 1 down to from.
  function Shifted(files: Files, backups: nat, from: nat): Files
    decreases backups - from
  {
    if from >= backups then files else Renamed(Shifted(files, backups, from + 1), from, from + 1)
  }

  function Rotated(files: Files, backups: nat): Files {
    (if backups > 0 then Renamed(Shifted(files, backups, 1), 0, 1) else files - {0})[0 := ""]
  }

  function Written(files: Files, p: string, max: nat, backups: nat): Files {
    var f := if |Content(files, 0)| + |p| <= max then files else Rotated(files, backups);
    f[0 := Content(f, 0) + p]
  }

  const DEFAULT_MAX := 10 * 1024 * 1024

  class RotateWriter {
    const max: nat
    const backups: nat
    var files: Files

    // Opens the log for appending; whatever the directory holds stays.
    constructor (maxBytes: int, backups: int, files: Files)
      ensures this.max == (if maxBytes <= 0 then 10_485_760 else maxBytes) && this.backups == (if backups < 0 then 0 else backups)
      ensures this.files == files[0 := Content(files, 0)]
    {
      this.max := if maxBytes <= 0 then DEFAULT_MAX else maxBytes;
      this.backups := if backups < 0 then 0 else backups;
      this.files := files[0 := Content(files, 0)];
    }

    method Rename(i: nat, j: nat)
      requires i != j
      modifies this
      ensures files == Renamed(old(files), i, j)
    {
      if i in files {
        files := (files - {i})[j := files[i]];
      }
    }

    method RotateIfNeeded(next: nat)
      requires 0 in files
      modifies this
      ensures files == if |old(files)[0]| + next <= max then old(files) else Rotated(old(files), backups)
    {
      if |files[0]| + next <= max {
        return;
      }
      if backups > 0 {
        var i := backups - 1;
        while i >= 1
          invariant 0 <= i < backups
          invariant files == Shifted(old(files), backups, i + 1)
        {
          Rename(i, i + 1);
          i := i - 1;
        }
        Rename(0, 1);
      } else {
        files := files - {0};
      }
      files := files[0 := ""];
    }

    method Write(p: string)
      requires 0 in files
      modifies this
      ensures 0 in files && files == Written(old(files), p, max, backups)
    {
      RotateIfNeeded(|p|);
      files := files[0 := files[0] + p];
    }
  }

  // ---- nothing is lost but the oldest file ------------------------------------------

  lemma {:induction false} RangeSame(f: Files, g: Files, hi: int, lo: nat)
    requires forall i: nat :: lo <= i <= hi ==> Content(f, i) == Content(g, i)
    ensures Range(f, hi, lo) == Range(g, hi, lo)
    decreases hi - lo
  {
    if lo <= hi {
      RangeSame(f, g, hi, lo + 1);
    }
  }

  // The file the top rename overwrites.
  function Dropped(files: Files, backups: nat): string {
    if backups == 0 then Content(files, 0)
    else if backups - 1 in files then Content(files, backups)
    else ""
  }

  lemma {:induction false} RenameRange(h: Files, hi: nat, lo: nat)
    requires lo < hi
    ensures Range(Renamed(h, lo, lo + 1), hi, lo) == Range(h, hi, lo + 2) + if lo in h then h[lo] else Content(h, lo + 1)
    ensures Range(h, hi, lo) == Range(h, hi, lo + 2) + Content(h, lo + 1) + Content(h, lo)
  {
    var g := Renamed(h, lo, lo + 1);
    RangeSame(h, g, hi, lo + 2);
    assert Range(g, hi, lo) == Range(g, hi, lo + 2) + Content(g, lo + 1) + Content(g, lo);
  }

  ghost predicate SameOutside(f: Files, g: Files, lo: nat, hi: nat) {
    forall i: nat :: i < lo || i > hi ==> (i in g <==> i in f) && Content(g, i) == Content(f, i)
  }

  // The shifts move every file up by one, in order; gaps move too.
  lemma {:induction false} ShiftKeeps(files: Files, backups: nat, from: nat)
    requires 1 <= from <= backups
    ensures var g := Shifted(files, backups, from);
            && SameOutside(files, g, from, backups)
            && (from < backups ==> from !in g)
            && Range(files, backups, from) ==
               (if from < backups && backups - 1 in files then Content(files, backups) else "") + Range(g, backups, from)
    decreases backups - from
  {
    hide Range;
    if from < backups {
      ShiftKeeps(files, backups, from + 1);
      var h := Shifted(files, backups, from + 1);
      RenamedKeeps(files, h, from, backups);
      ContentAt(h, from);
      ContentAt(h, from + 1);
      ContentAt(files, from);
      assert from + 1 == backups ==> h == files;
      hide Shifted, SameOutside, Renamed, Content;
      RenameRange(h, backups, from);
      RangeStep(files, backups, from);
      RangeStep(h, backups, from + 1);
      RangeEnd(files, backups);
    }
  }

  lemma {:induction false} RenamedKeeps(files: Files, h: Files, from: nat, backups: nat)
    requires from < backups && SameOutside(files, h, from + 1, backups)
    ensures SameOutside(files, Renamed(h, from, from + 1), from, backups) && from !in Renamed(h, from, from + 1)
    ensures (from in h <==> from in files) && Content(h, from) == Content(files, from)
  {
  }

  lemma {:induction false} RangeStep(f: Files, hi: nat, lo: nat)
    requires lo <= hi
    ensures Range(f, hi, lo) == Range(f, hi, lo + 1) + Content(f, lo)
  {
  }

  lemma {:induction false} RangeEnd(f: Files, hi: nat)
    ensures Range(f, hi, hi + 1) == ""
    ensures Range(f, hi, hi) == Content(f, hi)
  {
  }

  lemma {:induction false} RotateOne(files: Files)
    ensures Range(files, 1, 0) == Dropped(files, 1) + Range(Rotated(files, 1), 1, 0)
  {
    var g := Renamed(files, 0, 1);
    assert Shifted(files, 1, 1) == files;
    RangeSame(g, Rotated(files, 1), 1, 0);
    RenameRange(files, 1, 0);
    RangeEnd(files, 1);
    hide Range;
    ContentAt(files, 0);
  }

  lemma {:induction false} RotateMany(files: Files, backups: nat)
    requires backups > 1
    ensures Range(files, backups, 0) == Dropped(files, backups) + Range(Rotated(files, backups), backups, 0)
  {
    hide Range, Shifted;
    var g := Shifted(files, backups, 1);
    ShiftKeeps(files, backups, 1);
    ContentAt(g, 1);
    ContentAt(g, 0);
    ContentAt(files, 0);
    RangeSame(Renamed(g, 0, 1), Rotated(files, backups), backups, 0);
    hide Renamed, Rotated, Content;
    assert (0 in g <==> 0 in files) && Content(g, 0) == Content(files, 0);
    hide SameOutside;
    RenameRange(g, backups, 0);
    RangeStep(files, backups, 0);
    RangeStep(g, backups, 1);
    var lost, rest, current := Dropped(files, backups), Range(g, backups, 2), Content(files, 0);
    assert Range(g, backups, 1) == rest;
    assert lost + rest + current == lost + (rest + current);
  }

  lemma {:induction false} ContentAt(f: Files, i: nat)
    ensures Content(f, i) == if i in f then f[i] else ""
  {
  }

  // A rotation starts an empty file and loses at most the oldest one.
  lemma {:induction false} RotateDropsOldest(files: Files, backups: nat)
    ensures Range(files, backups, 0) == Dropped(files, backups) + Range(Rotated(files, backups), backups, 0)
    ensures Content(Rotated(files, backups), 0) == ""
  {
    hide Range, Shifted;
    if backups == 0 {
      RangeEnd(files, 0);
      RangeEnd(Rotated(files, 0), 0);
    } else {
      assert Content(Rotated(files, backups), 0) == "";
      hide Rotated, Dropped;
      if backups == 1 {
        RotateOne(files);
      } else {
        RotateMany(files, backups);
      }
    }
  }

  // ---- runs of writes ---------------------------------------------------------------

  function AfterWrites(files: Files, ps: seq<string>, max: nat, backups: nat): Files {
    if |ps| == 0 then files else Written(AfterWrites(files, ps[..|ps| - 1], max, backups), ps[|ps| - 1], max, backups)
  }

  predicate IsSuffix(s: string, whole: string) {
    |s| <= |whole| && whole[|whole| - |s|..] == s
  }

  lemma {:induction false} WriteAppends(files: Files, p: string, max: nat, backups: nat)
    ensures 0 in Written(files, p, max, backups)
    ensures IsSuffix(Range(Written(files, p, max, backups), backups, 0), Range(files, backups, 0) + p)
  {
    hide Range, Rotated, Shifted, Dropped;
    var rotates := |Content(files, 0)| + |p| > max;
    var f := if rotates then Rotated(files, backups) else files;
    var g := f[0 := Content(f, 0) + p];
    RotateDropsOldest(files, backups);
    RangeStep(f, backups, 0);
    RangeStep(g, backups, 0);
    RangeSame(f, g, backups, 1);
    var lost := if rotates then Dropped(files, backups) else "";
    assert Range(files, backups, 0) + p == lost + Range(g, backups, 0);
  }

  lemma {:induction false} SuffixExtends(s: string, whole: string, t: string, p: string)
    requires IsSuffix(s, whole) && IsSuffix(t, s + p)
    ensures IsSuffix(t, whole + p)
  {
    var lost := whole[..|whole| - |s|];
    assert whole + p == lost + (s + p);
  }

  // The files read from oldest to newest are always a suffix of everything
  // ever written, even when backups are missing to begin with.
  lemma {:induction false} LogIsSuffix(files: Files, ps: seq<string>, max: nat, backups: nat)
    ensures IsSuffix(Range(AfterWrites(files, ps, max, backups), backups, 0), Range(files, backups, 0) + Joined(ps))
  {
    hide Range, Written;
    if |ps| == 0 {
      assert Range(files, backups, 0) + "" == Range(files, backups, 0);
    } else {
      hide IsSuffix, Content;
      var front, p := ps[..|ps| - 1], ps[|ps| - 1];
      var so := AfterWrites(files, front, max, backups);
      LogIsSuffix(files, front, max, backups);
      WriteAppends(so, p, max, backups);
      var whole := Range(files, backups, 0) + Joined(front);
      SuffixExtends(Range(so, backups, 0), whole, Range(Written(so, p, max, backups), backups, 0), p);
      assert whole + p == Range(files, backups, 0) + (Joined(front) + p);
    }
  }

  // ---- segments -----------------------------------------------------------------------

  // The files are the newest of these segments, without gaps.
  ghost predicate Holds(files: Files, backups: nat, segs: seq<string>) {
    && |segs| > 0
    && forall i: nat :: i <= backups ==>
                          && (i in files <==> i < |segs|)
                          && (i < |segs| ==> Content(files, i) == segs[|segs| - 1 - i])
  }

  ghost predicate GapFree(files: Files, backups: nat) {
    0 in files && forall i: nat :: i < backups && i + 1 in files ==> i in files
  }

  function Present(files: Files, i: nat): (r: seq<string>)
    ensures |r| <= i + 1
  {
    (if i in files then [files[i]] else []) + if i == 0 then [] else Present(files, i - 1)
  }

  lemma {:induction false} HoldsOneMore(files: Files, backups: nat, segs: seq<string>)
    requires Holds(files, backups, segs) && |segs| <= backups + 1 && (backups + 1 in files ==> backups in files)
    ensures Holds(files, backups + 1, (if backups + 1 in files then [files[backups + 1]] else []) + segs)
  {
    assert backups in files ==> |segs| == backups + 1;
    var all := (if backups + 1 in files then [files[backups + 1]] else []) + segs;
    forall i: nat | i <= backups + 1
      ensures (i in files <==> i < |all|) && (i < |all| ==> Content(files, i) == all[|all| - 1 - i])
    {
      if i <= backups {
        assert i < |segs| ==> all[|all| - 1 - i] == segs[|segs| - 1 - i];
      }
    }
  }

  lemma {:induction false} HoldsFirst(files: Files)
    requires 0 in files
    ensures Holds(files, 0, Present(files, 0))
  {
  }

  lemma {:induction false} GapFreeBelow(files: Files, backups: nat)
    requires GapFree(files, backups)
    ensures 0 in files
    ensures backups > 0 ==> GapFree(files, backups - 1) && (backups in files ==> backups - 1 in files)
  {
  }

  lemma {:induction false} PresentHolds(files: Files, backups: nat)
    requires GapFree(files, backups)
    ensures Holds(files, backups, Present(files, backups))
  {
    hide Holds, GapFree;
    GapFreeBelow(files, backups);
    if backups == 0 {
      HoldsFirst(files);
    } else {
      PresentHolds(files, backups - 1);
      HoldsOneMore(files, backups - 1, Present(files, backups - 1));
    }
  }

  function NextSegments(segs: seq<string>, p: string, max: nat): seq<string>
    requires |segs| > 0
  {
    var n := |segs| - 1;
    if |segs[n]| + |p| <= max then segs[n := segs[n] + p] else segs + [p]
  }

  function SegmentsAfter(segs: seq<string>, ps: seq<string>, max: nat): (r: seq<string>)
    requires |segs| > 0
    ensures |r| >= |segs|
  {
    if |ps| == 0 then segs else NextSegments(SegmentsAfter(segs, ps[..|ps| - 1], max), ps[|ps| - 1], max)
  }

  lemma {:induction false} ShiftExact(files: Files, backups: nat, from: nat)
    requires 1 <= from <= backups && (backups in files ==> backups - 1 in files)
    ensures var g := Shifted(files, backups, from);
            forall i: nat :: from < i <= backups ==> (i in g <==> i - 1 in files) && Content(g, i) == Content(files, i - 1)
    decreases backups - from
  {
    if from < backups {
      ShiftExact(files, backups, from + 1);
      ShiftKeeps(files, backups, from + 1);
    }
  }

  lemma {:induction false} RotationHolds(files: Files, backups: nat, segs: seq<string>)
    requires Holds(files, backups, segs)
    ensures Holds(Rotated(files, backups), backups, segs + [""])
  {
    hide Range, Shifted;
    var r := Rotated(files, backups);
    if backups > 0 {
      ShiftExact(files, backups, 1);
      ShiftKeeps(files, backups, 1);
      forall i: nat | 0 < i <= backups
        ensures (i in r <==> i - 1 in files) && Content(r, i) == Content(files, i - 1)
      {
      }
      hide Rotated;
      forall i: nat | i <= backups
        ensures (i in r <==> i <= |segs|) && (i <= |segs| ==> Content(r, i) == (segs + [""])[|segs| - i])
      {
      }
    }
  }

  lemma {:induction false} WriteHolds(files: Files, backups: nat, segs: seq<string>, p: string, max: nat)
    requires Holds(files, backups, segs)
    ensures Holds(Written(files, p, max, backups), backups, NextSegments(segs, p, max))
  {
    assert Content(files, 0) == segs[|segs| - 1];
    hide Rotated;
    if |Content(files, 0)| + |p| > max {
      RotationHolds(files, backups, segs);
      var r := Rotated(files, backups);
      assert Content(r, 0) == (segs + [""])[|segs|];
      assert "" + p == p && (segs + [""])[|segs| := p] == segs + [p];
      LastReplaced(r, backups, segs + [""], "" + p);
    } else {
      LastReplaced(files, backups, segs, Content(files, 0) + p);
    }
  }

  lemma {:induction false} LastReplaced(files: Files, backups: nat, segs: seq<string>, s: string)
    requires Holds(files, backups, segs)
    ensures Holds(files[0 := s], backups, segs[|segs| - 1 := s])
  {
  }

  // From a gap-free directory the files are exactly the last backups + 1
  // segments of the log, cut only where it rotated.
  lemma {:induction false} LogHoldsLastSegments(files: Files, backups: nat, segs: seq<string>, ps: seq<string>, max: nat)
    requires Holds(files, backups, segs)
    ensures Holds(AfterWrites(files, ps, max, backups), backups, SegmentsAfter(segs, ps, max))
    ensures Joined(SegmentsAfter(segs, ps, max)) == Joined(segs) + Joined(ps)
  {
    assert |segs| > 0;
    hide Holds, Written;
    if |ps| == 0 {
      assert Joined(segs) + "" == Joined(segs);
    } else {
      var front, p := ps[..|ps| - 1], ps[|ps| - 1];
      LogHoldsLastSegments(files, backups, segs, front, max);
      var so := SegmentsAfter(segs, front, max);
      WriteHolds(AfterWrites(files, front, max, backups), backups, so, p, max);
      SegmentsJoin(so, p, max);
      assert Joined(segs) + Joined(front) + p == Joined(segs) + (Joined(front) + p);
    }
  }

  lemma {:induction false} SegmentsJoin(segs: seq<string>, p: string, max: nat)
    requires |segs| > 0
    ensures Joined(NextSegments(segs, p, max)) == Joined(segs) + p
  {
    var n := |segs| - 1;
    if |segs[n]| + |p| <= max {
      assert segs[n := segs[n] + p][..n] == segs[..n];
      assert Joined(segs[..n]) + (segs[n] + p) == Joined(segs[..n]) + segs[n] + p;
    } else {
      assert (segs + [p])[..|segs|] == segs;
    }
  }

  // Every segment begun since is at most max bytes or one single write.
  lemma {:induction false} SegmentSizes(segs: seq<string>, ps: seq<string>, max: nat, i: nat)
    requires |segs| > 0 && |segs| - 1 <= i < |SegmentsAfter(segs, ps, max)|
    ensures var s := SegmentsAfter(segs, ps, max)[i];
            |s| <= max || s in ps || (i == |segs| - 1 && s == segs[i])
  {
    if |ps| > 0 {
      var so := SegmentsAfter(segs, ps[..|ps| - 1], max);
      if i < |so| {
        SegmentSizes(segs, ps[..|ps| - 1], max, i);
      }
    }
  }

  function OldestKept(segments: nat, backups: nat): nat {
    if segments > backups + 1 then segments - backups - 1 else 0
  }

  // The segments kept in the files backups, ..., n.
  function KeptFrom(segs: seq<string>, backups: nat, n: nat): string {
    if n < |segs| && OldestKept(|segs|, backups) <= |segs| - n then Joined(segs[OldestKept(|segs|, backups)..|segs| - n]) else ""
  }

  function SegmentAt(segs: seq<string>, n: nat): string {
    if n < |segs| then segs[|segs| - 1 - n] else ""
  }

  lemma {:induction false} KeptStep(segs: seq<string>, backups: nat, n: nat)
    requires n <= backups
    ensures KeptFrom(segs, backups, n) == (if n < backups then KeptFrom(segs, backups, n + 1) else "") + SegmentAt(segs, n)
  {
    hide Joined;
    var lo, m := OldestKept(|segs|, backups), |segs|;
    assert n < m ==> lo <= m - n - 1 && (n == backups || n + 1 == m ==> lo == m - n - 1);
    hide OldestKept;
    if n < m {
      JoinedOneMore(segs, lo, m - n - 1);
      assert KeptFrom(segs, backups, n) == Joined(segs[lo..m - n]);
      assert n + 1 < m ==> KeptFrom(segs, backups, n + 1) == Joined(segs[lo..m - n - 1]);
    }
  }

  lemma {:induction false} ContentIsSegment(files: Files, backups: nat, segs: seq<string>, n: nat)
    requires Holds(files, backups, segs) && n <= backups
    ensures Content(files, n) == SegmentAt(segs, n)
  {
  }

  lemma {:induction false} RangeFrom(files: Files, backups: nat, segs: seq<string>, n: nat)
    requires Holds(files, backups, segs) && n <= backups
    ensures Range(files, backups, n) == KeptFrom(segs, backups, n)
    decreases backups - n
  {
    hide Range, KeptFrom, Content, Holds, SegmentAt;
    RangeStep(files, backups, n);
    ContentIsSegment(files, backups, segs, n);
    KeptStep(segs, backups, n);
    if n < backups {
      RangeFrom(files, backups, segs, n + 1);
    } else {
      RangeEnd(files, n);
    }
  }

  lemma {:induction false} JoinedOneMore(segs: seq<string>, lo: nat, hi: nat)
    requires lo <= hi < |segs|
    ensures Joined(segs[lo..hi + 1]) == Joined(segs[lo..hi]) + segs[hi]
    ensures Joined(segs[lo..lo]) == ""
  {
    assert segs[lo..hi + 1][..hi - lo] == segs[lo..hi];
  }

  // What a reader of the files sees: the last backups + 1 segments, whole.
  lemma {:induction false} LogIsLastSegments(files: Files, backups: nat, segs: seq<string>)
    requires Holds(files, backups, segs)
    ensures Range(files, backups, 0) == Joined(segs[OldestKept(|segs|, backups)..])
  {
    RangeFrom(files, backups, segs, 0);
    assert segs[OldestKept(|segs|, backups)..|segs|] == segs[OldestKept(|segs|, backups)..];
  }
}
