// The lexicographic order of strings, as sort.Strings uses it.
module Strings {
  import Collections
  import Text

  predicate Less(a: string, b: string) {
    |b| > 0 && (|a| == 0 || a[0] < b[0] || (a[0] == b[0] && Less(a[1..], b[1..])))
  }

  lemma {:induction false} LessTotal(a: string, b: string)
    ensures a != b ==> (Less(a, b) <==> !Less(b, a))
    ensures !Less(a, a)
  {
    if |a| > 0 && |b| > 0 {
      LessTotal(a[1..], b[1..]);
      LessTotal(a[1..], a[1..]);
      if a[0] == b[0] && a[1..] == b[1..] {
        assert a == [a[0]] + a[1..] == b;
      }
    } else if |a| > 0 {
      LessTotal(a[1..], a[1..]);
    }
  }

  lemma {:induction false} LessTransitive(a: string, b: string, c: string)
    requires Less(a, b) && Less(b, c)
    ensures Less(a, c)
  {
    if |a| > 0 && a[0] == b[0] == c[0] {
      LessTransitive(a[1..], b[1..], c[1..]);
    }
  }

  lemma {:induction false} LessWithPrefix(p: string, a: string, b: string)
    ensures Less(p + a, p + b) <==> Less(a, b)
  {
    if |p| == 0 {
      assert p + a == a && p + b == b;
    } else {
      assert (p + a)[1..] == p[1..] + a && (p + b)[1..] == p[1..] + b;
      LessWithPrefix(p[1..], a, b);
    }
  }

  // Digit strings of one width are ordered as the numbers they spell.
  lemma {:induction false} LessIsNumeric(a: string, b: string)
    requires Text.AllDigits(a) && Text.AllDigits(b) && |a| == |b|
    ensures Less(a, b) <==> Text.Value(a) < Text.Value(b)
    decreases |a|
  {
    if |a| > 0 {
      var n := |a| - 1;
      LessIsNumeric(a[..n], b[..n]);
      LessByLast(a, b);
      LessTotal(a[..n], b[..n]);
      if a[..n] == b[..n] {
        LessTotal(a[..n], a[..n]);
      } else if !Less(a[..n], b[..n]) {
        LessIsNumeric(b[..n], a[..n]);
      }
    }
  }

  lemma {:induction false} LessByLast(a: string, b: string)
    requires |a| == |b| > 0
    ensures var n := |a| - 1;
            Less(a, b) <==> Less(a[..n], b[..n]) || (a[..n] == b[..n] && a[n] < b[n])
  {
    var n := |a| - 1;
    if n == 0 {
      assert a[1..] == [] == b[1..];
    } else {
      LessByLast(a[1..], b[1..]);
      assert a[1..][..n - 1] == a[..n][1..] && b[1..][..n - 1] == b[..n][1..];
      assert a[..n] == [a[0]] + a[..n][1..] && b[..n] == [b[0]] + b[..n][1..];
    }
  }

  ghost predicate Ascending(names: seq<string>) {
    forall i, j :: 0 <= i < j < |names| ==> Less(names[i], names[j])
  }

  method Least(names: set<string>) returns (least: string)
    requires names != {}
    ensures least in names && forall x :: x in names && x != least ==> Less(least, x)
  {
    least := Collections.Pick(names);
    var rest := names - {least};
    while rest != {}
      invariant least in names && rest <= names
      invariant forall x :: x in names && x !in rest && x != least ==> Less(least, x)
      decreases rest
    {
      var x := Collections.Pick(rest);
      rest := rest - {x};
      LessTotal(least, x);
      if Less(x, least) {
        forall y | y in names && y !in rest && y != x
          ensures Less(x, y)
        {
          if y != least {
            LessTransitive(x, least, y);
          }
        }
        least := x;
      }
    }
  }

  // sort.Strings on the elements of a set
  method Sorted(names: set<string>) returns (sorted: seq<string>)
    ensures Ascending(sorted)
    ensures forall x :: x in sorted <==> x in names
    ensures |sorted| == |names|
  {
    sorted := [];
    var rest := names;
    while rest != {}
      invariant rest <= names
      invariant Ascending(sorted)
      invariant forall x :: x in sorted <==> x in names && x !in rest
      invariant forall x, y :: x in sorted && y in rest ==> Less(x, y)
      invariant |sorted| + |rest| == |names|
      decreases rest
    {
      var x := Least(rest);
      rest := rest - {x};
      sorted := sorted + [x];
    }
  }
}
