/** Sequence helpers shared by the two type parsers and the dead-code eliminator. */
module Sequences {

  /** `list.reversed()` */
  function Reverse<T>(s: seq<T>): (r: seq<T>)
    ensures |r| == |s|
  {
    if s == [] then [] else Reverse(s[1..]) + [s[0]]
  }

  /** `groups.flatten()` */
  function Flatten<T>(groups: seq<seq<T>>): seq<T> {
    if groups == [] then [] else groups[0] + Flatten(groups[1..])
  }

  /** The argument groups of a type are `argumentGroups.reversed().flatten()`. */
  function ReversedFlatten<T>(groups: seq<seq<T>>): seq<T> {
    Flatten(Reverse(groups))
  }

  lemma {:induction false} ReverseSnoc<T>(s: seq<T>, x: T)
    ensures Reverse(s + [x]) == [x] + Reverse(s)
  {
    if s == [] {
      assert s + [x] == [x];
    } else {
      assert (s + [x])[1..] == s[1..] + [x];
      ReverseSnoc(s[1..], x);
    }
  }

  lemma {:induction false} FlattenAppend<T>(a: seq<seq<T>>, b: seq<seq<T>>)
    ensures Flatten(a + b) == Flatten(a) + Flatten(b)
  {
    if a == [] {
      assert a + b == b;
    } else {
      assert (a + b)[1..] == a[1..] + b;
      FlattenAppend(a[1..], b);
    }
  }

  /** A group found later comes first in the flattened argument list: recording one more group `g`
      puts exactly `g` in front of the arguments recorded so far. */
  lemma ReversedFlattenSnoc<T>(groups: seq<seq<T>>, g: seq<T>)
    ensures ReversedFlatten(groups + [g]) == g + ReversedFlatten(groups)
  {
    ReverseSnoc(groups, g);
    FlattenAppend([g], Reverse(groups));
    assert Flatten([g]) == g + Flatten([]);
  }

  lemma {:induction false} ReverseMember<T>(s: seq<T>, x: T)
    ensures x in Reverse(s) <==> x in s
  {
    if s != [] {
      ReverseMember(s[1..], x);
      assert s == [s[0]] + s[1..];
    }
  }

  lemma {:induction false} FlattenMember<T>(groups: seq<seq<T>>, x: T)
    ensures x in Flatten(groups) <==> exists g :: g in groups && x in g
  {
    if groups != [] {
      FlattenMember(groups[1..], x);
      assert groups == [groups[0]] + groups[1..];
    }
  }

  /** The flattened arguments are exactly the members of the groups. */
  lemma ReversedFlattenMember<T>(groups: seq<seq<T>>, x: T)
    ensures x in ReversedFlatten(groups) <==> exists g :: g in groups && x in g
  {
    FlattenMember(Reverse(groups), x);
    if x in ReversedFlatten(groups) {
      var g :| g in Reverse(groups) && x in g;
      ReverseMember(groups, g);
    } else {
      forall g | g in groups && x in g
        ensures false
      {
        ReverseMember(groups, g);
      }
    }
  }

  /** `s` ends with `suffix`. */
  predicate EndsWith<T(==)>(s: seq<T>, suffix: seq<T>) {
    |suffix| <= |s| && s[|s| - |suffix|..] == suffix
  }

  lemma EndsWithAppend<T>(s: seq<T>, a: seq<T>, b: seq<T>)
    requires EndsWith(s, a + b)
    ensures EndsWith(s, b)
  {
    assert s[|s| - |b|..] == s[|s| - |a + b|..][|a|..];
  }

  /** `s.startsWith(prefix)` */
  predicate StartsWith<T(==)>(s: seq<T>, prefix: seq<T>) {
    |prefix| <= |s| && s[..|prefix|] == prefix
  }

  /** `s.replace(from, to)` for characters: every occurrence of `from` becomes `to`. */
  function ReplaceChar(s: string, from: char, to: char): (r: string)
    ensures |r| == |s|
    ensures forall k :: 0 <= k < |s| ==> r[k] == if s[k] == from then to else s[k]
  {
    if s == [] then [] else [if s[0] == from then to else s[0]] + ReplaceChar(s[1..], from, to)
  }

  /** `set.addAll(xs)` on an insertion-ordered set (Kotlin's `mutableSetOf`, a LinkedHashSet), whose
      iteration order is the order of first insertion. */
  function AddAll<T(==,!new)>(s: seq<T>, xs: seq<T>): (r: seq<T>)
    ensures StartsWith(r, s)
    ensures forall x :: x in r <==> x in s || x in xs
    ensures (forall i, j :: 0 <= i < j < |s| ==> s[i] != s[j]) ==> forall i, j :: 0 <= i < j < |r| ==> r[i] != r[j]
    decreases |xs|
  {
    if xs == [] then s
    else if xs[0] in s then AddAll(s, xs[1..])
    else AddAll(s + [xs[0]], xs[1..])
  }
}
