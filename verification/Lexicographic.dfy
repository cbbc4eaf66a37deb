/** The order of strings by their characters, in which both languages of the repository sort names. */
module Lexicographic {

  predicate AtMost(a: string, b: string) {
    a == [] || (b != [] && (a[0] < b[0] || (a[0] == b[0] && AtMost(a[1..], b[1..]))))
  }

  /** `a` and `b` first differ at place k, where `a` has the smaller character. */
  ghost predicate SmallerAt(a: string, b: string, k: nat) {
    k < |a| && k < |b| && a[..k] == b[..k] && a[k] < b[k]
  }

  predicate Begins(a: string, b: string) { |a| <= |b| && a == b[..|a|] }

  lemma ConsSlices(c: char, a: string, k: nat)
    requires k <= |a|
    ensures ([c] + a)[..k + 1] == [c] + a[..k]
  {}

  lemma SmallerStep(c: char, a: string, b: string, k: nat)
    ensures SmallerAt([c] + a, [c] + b, k + 1) <==> SmallerAt(a, b, k)
  {
    if k < |a| && k < |b| {
      ConsSlices(c, a, k);
      ConsSlices(c, b, k);
      assert ([c] + a[..k])[1..] == a[..k] && ([c] + b[..k])[1..] == b[..k];
    }
  }

  lemma BeginsStep(c: char, a: string, b: string)
    ensures Begins([c] + a, [c] + b) <==> Begins(a, b)
  {
    if |a| <= |b| {
      ConsSlices(c, b, |a|);
      assert ([c] + a)[1..] == a && ([c] + b[..|a|])[1..] == b[..|a|];
    }
  }

  lemma HeadsDiffer(a: string, b: string, k: nat)
    requires a != [] && b != [] && a[0] != b[0]
    ensures !Begins(a, b) && (SmallerAt(a, b, k) <==> k == 0 && a[0] < b[0])
  {
    if |a| <= |b| { assert b[..|a|][0] == b[0]; }
    if k > 0 && k < |a| && k < |b| { assert a[..k][0] == a[0] && b[..k][0] == b[0]; }
  }

  /** One string comes before another if it is a beginning of it, or has the smaller character where they first differ. */
  lemma {:induction false} AtMostIff(a: string, b: string)
    ensures AtMost(a, b) <==> Begins(a, b) || exists k :: SmallerAt(a, b, k)
  {
    if a != [] && b != [] {
      if a[0] == b[0] {
        SameHeads(a[0], a[1..], b[1..]);
        assert a == [a[0]] + a[1..] && b == [a[0]] + b[1..];
        AtMostIff(a[1..], b[1..]);
      } else {
        forall k: nat ensures SmallerAt(a, b, k) <==> k == 0 && a[0] < b[0] { HeadsDiffer(a, b, k); }
        HeadsDiffer(a, b, 0);
      }
    }
  }

  lemma SameHeads(c: char, a: string, b: string)
    ensures Begins([c] + a, [c] + b) <==> Begins(a, b)
    ensures (exists k :: SmallerAt([c] + a, [c] + b, k)) <==> exists k :: SmallerAt(a, b, k)
  {
    BeginsStep(c, a, b);
    if k: nat :| SmallerAt(a, b, k) {
      SmallerStep(c, a, b, k);
    }
    if k: nat :| SmallerAt([c] + a, [c] + b, k) {
      SmallerStep(c, a, b, k - 1);
    }
  }

  /** What it means for one name to come before another, beside being it. */
  ghost predicate ComesBefore(a: string, b: string) {
    Begins(a, b) || exists k :: SmallerAt(a, b, k)
  }

  ghost predicate IsLeast(first: string, names: set<string>) {
    first in names && forall n :: n in names ==> ComesBefore(first, n)
  }

  ghost predicate InOrder(names: seq<string>) {
    forall i, j :: 0 <= i < j < |names| ==> ComesBefore(names[i], names[j]) && names[i] != names[j]
  }

  lemma FirstIsLeast(first: string, names: set<string>)
    ensures IsFirst(first, names) <==> IsLeast(first, names)
  {
    forall n ensures AtMost(first, n) <==> ComesBefore(first, n) { AtMostIff(first, n); }
  }

  lemma SortedIsInOrder(names: seq<string>)
    ensures IsSorted(names) <==> InOrder(names)
  {
    forall i, j | 0 <= i < j < |names| ensures AtMost(names[i], names[j]) <==> ComesBefore(names[i], names[j]) {
      AtMostIff(names[i], names[j]);
    }
  }

  lemma {:induction false} Total(a: string, b: string)
    ensures AtMost(a, b) || AtMost(b, a)
  {
    if a != [] && b != [] && a[0] == b[0] { Total(a[1..], b[1..]); }
  }

  lemma {:induction false} Antisymmetric(a: string, b: string)
    requires AtMost(a, b) && AtMost(b, a)
    ensures a == b
  {
    if a != [] && b != [] {
      Antisymmetric(a[1..], b[1..]);
      assert a == [a[0]] + a[1..] && b == [b[0]] + b[1..];
    }
  }

  lemma {:induction false} Transitive(a: string, b: string, c: string)
    requires AtMost(a, b) && AtMost(b, c)
    ensures AtMost(a, c)
  {
    if a != [] && a[0] == b[0] && b[0] == c[0] { Transitive(a[1..], b[1..], c[1..]); }
  }

  /** `first` comes first of the names. */
  predicate IsFirst(first: string, names: set<string>) {
    first in names && forall n :: n in names ==> AtMost(first, n)
  }

  lemma {:induction false} FirstExists(names: set<string>)
    requires names != {}
    ensures exists first :: IsFirst(first, names)
  {
    var n :| n in names;
    if names == {n} {
      Total(n, n);
      assert IsFirst(n, names);
    } else {
      FirstExists(names - {n});
      var m :| IsFirst(m, names - {n});
      Total(m, n);
      if AtMost(m, n) {
        assert IsFirst(m, names);
      } else {
        forall k | k in names ensures AtMost(n, k) {
          if k != n { Transitive(n, m, k); } else { Total(n, n); }
        }
        assert IsFirst(n, names);
      }
    }
  }

  ghost predicate IsSorted(names: seq<string>) {
    forall i, j :: 0 <= i < j < |names| ==> AtMost(names[i], names[j]) && names[i] != names[j]
  }

  /** The names in order. */
  method Sorted(names: set<string>) returns (r: seq<string>)
    ensures IsSorted(r) && forall n :: n in r <==> n in names
  {
    r := [];
    var rest := names;
    while rest != {}
      invariant rest <= names && forall n :: n in r <==> n in names && n !in rest
      invariant IsSorted(r)
      invariant forall i, n :: 0 <= i < |r| && n in rest ==> AtMost(r[i], n)
      decreases rest
    {
      FirstExists(rest);
      var first :| IsFirst(first, rest);
      assert forall i :: 0 <= i < |r| ==> r[i] in r;
      r := r + [first];
      rest := rest - {first};
    }
  }
}
