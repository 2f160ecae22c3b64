// Release version comparison: internal/services/updater/service.go.
module Version {
  import opened Text

  // strings.TrimPrefix(t, "v")
  function TrimV(t: string): string {
    if |t| > 0 && t[0] == 'v' then t[1..] else t
  }

  function NormalizeVersion(v: string): string {
    TrimV(TrimSpace(v))
  }

  // strings.SplitN(v, "-", 2)[0]
  function MainPart(v: string): string {
    var i := IndexOf(v, "-");
    if i == -1 then v else v[..i]
  }

  // The numeric components, or nothing when some component is not a number.
  function Components(parts: seq<string>): (r: Option<seq<int>>)
    ensures r.Some? ==> |r.value| == |parts|
  {
    if |parts| == 0 then Some([])
    else
      match (Components(parts[..|parts| - 1]), ParseInt(parts[|parts| - 1]))
      case (Some(front), Some(n)) => Some(front + [n])
      case _ => None
  }

  function VersionParts(v: string): seq<int> {
    match Components(Split(MainPart(NormalizeVersion(v)), "."))
    case None => []
    case Some(ns) => ns
  }

  predicate Parseable(v: string) {
    |VersionParts(v)| > 0
  }

  // The i-th component, zero beyond the last.
  function At(xs: seq<int>, i: nat): int {
    if i < |xs| then xs[i] else 0
  }

  // Lexicographic order of the zero-padded component vectors.
  ghost predicate Above(xs: seq<int>, ys: seq<int>) {
    exists i: nat :: FirstAbove(xs, ys, i)
  }

  ghost predicate FirstAbove(xs: seq<int>, ys: seq<int>, i: nat) {
    At(xs, i) > At(ys, i) && forall j: nat :: j < i ==> At(xs, j) == At(ys, j)
  }

  ghost predicate Tied(xs: seq<int>, ys: seq<int>) {
    forall i: nat :: At(xs, i) == At(ys, i)
  }

  ghost predicate Greater(a: string, b: string) {
    if Parseable(a) && Parseable(b) then Above(VersionParts(a), VersionParts(b))
    else NormalizeVersion(a) != "" && NormalizeVersion(a) != NormalizeVersion(b)
  }

  method VersionPartsOf(v: string) returns (out: seq<int>)
    ensures out == VersionParts(v)
  {
    hide Split, ParseInt, NormalizeVersion, MainPart;
    var parts := Split(MainPart(NormalizeVersion(v)), ".");
    out := [];
    for i := 0 to |parts|
      invariant Components(parts[..i]) == Some(out)
    {
      assert parts[..i + 1][..i] == parts[..i];
      if parts[i] == "" {
        NothingParsesFromNothing();
        BadComponent(parts, i);
        return [];
      }
      var n := ParseInt(parts[i]);
      if n.None? {
        BadComponent(parts, i);
        return [];
      }
      out := out + [n.value];
    }
    assert parts[..|parts|] == parts;
  }

  lemma {:induction false} NothingParsesFromNothing()
    ensures ParseInt("") == None
  {
  }

  lemma {:induction false} BadComponent(parts: seq<string>, i: nat)
    requires i < |parts| && ParseInt(parts[i]).None?
    ensures Components(parts).None?
  {
    if i < |parts| - 1 {
      BadComponent(parts[..|parts| - 1], i);
    }
  }

  method VersionGreater(a: string, b: string) returns (r: bool)
    ensures r == Greater(a, b)
  {
    hide VersionParts, NormalizeVersion;
    var aa := VersionPartsOf(a);
    var bb := VersionPartsOf(b);
    if |aa| == 0 || |bb| == 0 {
      return NormalizeVersion(a) != "" && NormalizeVersion(a) != NormalizeVersion(b);
    }
    var i := 0;
    while i < |aa| || i < |bb|
      invariant forall j: nat :: j < i ==> At(aa, j) == At(bb, j)
      decreases (if |aa| > |bb| then |aa| else |bb|) - i
    {
      var av, bv := 0, 0;
      if i < |aa| {
        av := aa[i];
      }
      if i < |bb| {
        bv := bb[i];
      }
      if av > bv {
        assert FirstAbove(aa, bb, i);
        return true;
      }
      if av < bv {
        assert FirstAbove(bb, aa, i);
        Asymmetric(bb, aa);
        return false;
      }
      i := i + 1;
    }
    r := false;
  }

  // ---- a strict weak order on the versions that parse ----------------------------

  lemma {:induction false} Asymmetric(xs: seq<int>, ys: seq<int>)
    requires Above(xs, ys)
    ensures !Above(ys, xs) && !Tied(xs, ys)
  {
    var i: nat :| FirstAbove(xs, ys, i);
    forall j: nat
      ensures !FirstAbove(ys, xs, j)
    {
      assert j < i ==> At(xs, j) == At(ys, j);
    }
  }

  lemma {:induction false} Transitive(xs: seq<int>, ys: seq<int>, zs: seq<int>)
    requires Above(xs, ys) && Above(ys, zs)
    ensures Above(xs, zs)
  {
    var i: nat :| FirstAbove(xs, ys, i);
    var j: nat :| FirstAbove(ys, zs, j);
    assert FirstAbove(xs, zs, if i < j then i else j);
  }

  // Any two vectors are ordered or tied.
  lemma {:induction false} Trichotomy(xs: seq<int>, ys: seq<int>, i: nat)
    requires forall j: nat :: j < i ==> At(xs, j) == At(ys, j)
    ensures Above(xs, ys) || Above(ys, xs) || Tied(xs, ys)
    decreases |xs| + |ys| - i
  {
    if At(xs, i) > At(ys, i) {
      assert FirstAbove(xs, ys, i);
    } else if At(xs, i) < At(ys, i) {
      assert FirstAbove(ys, xs, i);
    } else if i < |xs| + |ys| {
      Trichotomy(xs, ys, i + 1);
    }
  }

  predicate AllZero(xs: seq<int>) {
    forall i :: 0 <= i < |xs| ==> xs[i] == 0
  }

  // Tied vectors differ only in trailing zeros.
  lemma {:induction false} TiedIff(xs: seq<int>, ys: seq<int>)
    requires |xs| <= |ys|
    ensures Tied(xs, ys) <==> xs == ys[..|xs|] && AllZero(ys[|xs|..])
  {
    if Tied(xs, ys) {
      assert forall i :: 0 <= i < |xs| ==> xs[i] == At(xs, i) == At(ys, i) == ys[i];
      forall i | 0 <= i < |ys| - |xs|
        ensures ys[|xs|..][i] == 0
      {
        assert At(xs, |xs| + i) == At(ys, |xs| + i);
      }
    } else {
      var i: nat :| At(xs, i) != At(ys, i);
      if i < |xs| {
        assert xs[i] != ys[..|xs|][i];
      } else {
        assert ys[|xs|..][i - |xs|] != 0;
      }
    }
  }

  // The order of the component vectors is a strict weak order: irreflexive,
  // asymmetric, transitive, and so is the tie relation, which is what is left
  // when neither is above the other.
  lemma {:induction false} VectorOrder(x: seq<int>, y: seq<int>, z: seq<int>)
    ensures !Above(x, x)
    ensures Above(x, y) ==> !Above(y, x)
    ensures Above(x, y) && Above(y, z) ==> Above(x, z)
    ensures !Above(x, y) && !Above(y, x) <==> Tied(x, y)
    ensures Tied(x, y) && Tied(y, z) ==> Tied(x, z)
    ensures Above(x, y) && Tied(y, z) ==> Above(x, z)
  {
    Trichotomy(x, y, 0);
    if Above(x, y) {
      Asymmetric(x, y);
      if Above(y, z) {
        Transitive(x, y, z);
      }
      if Tied(y, z) {
        var i: nat :| FirstAbove(x, y, i);
        assert FirstAbove(x, z, i);
      }
    }
    if Above(y, x) {
      Asymmetric(y, x);
    }
  }

  // So versionGreater is a strict weak order on the versions that parse; two of
  // them tie exactly when all their zero-padded components agree.
  lemma {:induction false} StrictWeakOrder(a: string, b: string, c: string)
    ensures Parseable(a) ==> !Greater(a, a)
    ensures Parseable(a) && Parseable(b) ==>
              && (Greater(a, b) ==> !Greater(b, a))
              && (!Greater(a, b) && !Greater(b, a) <==> Tied(VersionParts(a), VersionParts(b)))
    ensures Parseable(a) && Parseable(b) && Parseable(c) ==>
              && (Greater(a, b) && Greater(b, c) ==> Greater(a, c))
              && (Greater(a, b) && Tied(VersionParts(b), VersionParts(c)) ==> Greater(a, c))
  {
    hide VersionParts, Above, Tied;
    VectorOrder(VersionParts(a), VersionParts(a), VersionParts(a));
    VectorOrder(VersionParts(a), VersionParts(b), VersionParts(c));
  }

  // Outside of that the comparison claims too much: of two versions each can be
  // reported newer than the other, exactly when one does not parse and both are
  // non-empty and different.
  lemma {:induction false} BothGreaterIff(a: string, b: string)
    ensures Greater(a, b) && Greater(b, a) <==>
            && !(Parseable(a) && Parseable(b))
            && NormalizeVersion(a) != "" && NormalizeVersion(b) != "" && NormalizeVersion(a) != NormalizeVersion(b)
  {
    hide VersionParts, NormalizeVersion;
    if Parseable(a) && Parseable(b) && Greater(a, b) {
      Asymmetric(VersionParts(a), VersionParts(b));
    }
  }

  // ---- the suffix after "-" ----------------------------------------------------------

  lemma {:induction false} TrimKeepsFront(front: string, rest: string)
    requires |front| > 0 && !IsSpace(front[0]) && !IsSpace(front[|front| - 1])
    ensures HasPrefix(TrimSpace(front + rest), front)
  {
    hide IsSpace;
    var s := front + rest;
    if |rest| > 0 && IsSpace(s[|s| - 1]) {
      assert s[..|s| - 1] == front + rest[..|rest| - 1];
      TrimKeepsFront(front, rest[..|rest| - 1]);
    } else {
      assert s[0] == front[0];
      assert |rest| == 0 ==> s == front;
      assert s[..|front|] == front;
    }
  }

  predicate NoDash(v: string) {
    forall i :: 0 <= i < |v| ==> v[i] != '-'
  }

  lemma {:induction false} MainPartBeforeDash(main: string, rest: string)
    requires NoDash(main)
    ensures MainPart(main + "-" + rest) == main && MainPart(main) == main
  {
    var s := main + "-" + rest;
    IndexOfChar(main, '-', rest);
    assert s[..|main|] == main;
  }

  // ---- reading a release version -----------------------------------------------------

  // The numbers as a release spells them, with dots in between
  function Dotted(ns: seq<nat>): string {
    if |ns| == 0 then ""
    else if |ns| == 1 then FormatInt(ns[0])
    else FormatInt(ns[0]) + "." + Dotted(ns[1..])
  }

  ghost predicate Numerals(s: string) {
    forall i :: 0 <= i < |s| ==> IsDigit(s[i]) || s[i] == '.'
  }

  lemma {:induction false} DottedNumerals(ns: seq<nat>)
    requires |ns| > 0
    ensures Numerals(Dotted(ns)) && |Dotted(ns)| > 0 && IsDigit(Dotted(ns)[0]) && IsDigit(Dotted(ns)[|Dotted(ns)| - 1])
  {
    var first := FormatInt(ns[0]);
    assert AllDigits(first);
    hide FormatInt, IsDigit;
    if |ns| > 1 {
      DottedNumerals(ns[1..]);
      var rest := Dotted(ns[1..]);
      hide Dotted;
      assert Dotted(ns) == first + "." + rest;
    }
  }

  lemma {:induction false} SplitDotted(ns: seq<nat>)
    requires |ns| > 0
    ensures Split(Dotted(ns), ['.']) == seq(|ns|, i requires 0 <= i < |ns| => FormatInt(ns[i]))
  {
    var first := FormatInt(ns[0]);
    assert AllDigits(first);
    assert '.' !in first by {
      forall i | 0 <= i < |first|
        ensures first[i] != '.'
      {
        assert IsDigit(first[i]);
      }
    }
    hide FormatInt, Split;
    if |ns| == 1 {
      SplitOnce(first, '.', "");
    } else {
      SplitDotted(ns[1..]);
      SplitOnce(first, '.', Dotted(ns[1..]));
      assert first + "." + Dotted(ns[1..]) == first + ['.'] + Dotted(ns[1..]);
    }
  }

  lemma {:induction false} ComponentsOf(parts: seq<string>, ns: seq<int>)
    requires |parts| == |ns| && forall i :: 0 <= i < |ns| ==> ParseInt(parts[i]) == Some(ns[i])
    ensures Components(parts) == Some(ns)
  {
    hide ParseInt;
    if |ns| > 0 {
      ComponentsOf(parts[..|parts| - 1], ns[..|ns| - 1]);
      assert ns == ns[..|ns| - 1] + [ns[|ns| - 1]];
    }
  }

  lemma {:induction false} MainPartOfNumerals(s: string)
    requires Numerals(s)
    ensures MainPart(s) == s
  {
    assert '-' !in s by { assert forall i :: 0 <= i < |s| ==> s[i] != '-'; }
    MainPartBeforeDash(s, "");
  }

  lemma {:induction false} DottedNormalized(before: string, v: string, dotted: string, after: string)
    requires AllSpace(before) && AllSpace(after) && (v == "" || v == "v")
    requires Numerals(dotted) && |dotted| > 0 && IsDigit(dotted[0]) && IsDigit(dotted[|dotted| - 1])
    ensures NormalizeVersion(before + v + dotted + after) == dotted
  {
    var s := v + dotted;
    assert !IsSpace(s[0]) && !IsSpace(s[|s| - 1]);
    hide TrimSpace, IsSpace;
    TrimSpaceExact(before, s, after);
    assert before + s + after == before + v + dotted + after;
    assert TrimV(s) == dotted;
  }

  // Dotted numbers, with or without a "v" and with any white space around them,
  // are read as these numbers.
  lemma {:induction false} VersionRoundTrip(before: string, v: string, ns: seq<nat>, after: string)
    requires |ns| > 0 && (forall i :: 0 <= i < |ns| ==> IsInt64(ns[i]))
    requires AllSpace(before) && AllSpace(after) && (v == "" || v == "v")
    ensures VersionParts(before + v + Dotted(ns) + after) == ns
  {
    DottedNumerals(ns);
    SplitDotted(ns);
    forall i | 0 <= i < |ns|
      ensures ParseInt(FormatInt(ns[i])) == Some(ns[i])
    {
      ParseFormat(ns[i]);
    }
    hide Dotted, FormatInt, ParseInt, Split, AllSpace, Components, MainPart, NormalizeVersion, Numerals;
    ComponentsOf(Split(Dotted(ns), ['.']), ns);
    DottedNormalized(before, v, Dotted(ns), after);
    MainPartOfNumerals(Dotted(ns));
  }

  lemma {:induction false} TrimKeepsSuffix(v: string, suffix: string) returns (rest: string)
    requires |v| > 0 && !IsSpace(v[0])
    ensures TrimSpace(v + "-" + suffix) == v + "-" + rest
  {
    var front := v + "-";
    assert front[0] == v[0] && front[|v|] == '-' && !IsSpace('-');
    hide IsSpace;
    TrimKeepsFront(front, suffix);
    hide TrimSpace;
    var t := TrimSpace(front + suffix);
    rest := t[|front|..];
    assert t == front + rest;
  }

  lemma {:induction false} TrimVKeepsSuffix(v: string, rest: string)
    requires |v| > 0
    ensures TrimV(v + rest) == TrimV(v) + rest
  {
    assert (v + rest)[1..] == v[1..] + rest;
  }

  lemma {:induction false} NormalizeKeepsSuffix(v: string, suffix: string) returns (rest: string)
    requires |v| > 0 && !IsSpace(v[0]) && !IsSpace(v[|v| - 1])
    ensures NormalizeVersion(v + "-" + suffix) == NormalizeVersion(v) + "-" + rest
    ensures TrimSpace(v) == v
  {
    assert TrimSpace(v) == v;
    hide IsSpace, TrimSpace, TrimV;
    rest := TrimKeepsSuffix(v, suffix);
    TrimVKeepsSuffix(v, "-" + rest);
    assert v + "-" + rest == v + ("-" + rest);
    assert TrimV(v) + "-" + rest == TrimV(v) + ("-" + rest);
  }

  // Whatever follows the first "-" does not count.
  lemma {:induction false} SuffixIgnored(v: string, suffix: string)
    requires |v| > 0 && !IsSpace(v[0]) && !IsSpace(v[|v| - 1]) && NoDash(v)
    ensures VersionParts(v + "-" + suffix) == VersionParts(v)
  {
    hide IsSpace, Split, Components, TrimSpace;
    var rest := NormalizeKeepsSuffix(v, suffix);
    var main := NormalizeVersion(v);
    assert NoDash(main);
    hide NormalizeVersion, MainPart;
    MainPartBeforeDash(main, rest);
  }
}
