/** Filtering a sequence, and cutting one after each element that ends a group. */
module Grouping {
  function Filter<T>(s: seq<T>, keep: T -> bool): seq<T> {
    if s == [] then [] else (if keep(s[0]) then [s[0]] else []) + Filter(s[1..], keep)
  }

  lemma {:induction false} FilterHas<T>(s: seq<T>, keep: T -> bool)
    ensures forall x :: x in Filter(s, keep) <==> x in s && keep(x)
  {
    if s != [] {
      FilterHas(s[1..], keep);
      assert s == [s[0]] + s[1..];
    }
  }

  lemma FilterOne<T>(x: T, keep: T -> bool)
    ensures Filter([x], keep) == if keep(x) then [x] else []
  {
    assert [x][1..] == [];
  }

  lemma {:induction false} FilterJoin<T>(a: seq<T>, b: seq<T>, keep: T -> bool)
    ensures Filter(a + b, keep) == Filter(a, keep) + Filter(b, keep)
  {
    if a == [] {
      assert a + b == b;
    } else {
      assert (a + b)[1..] == a[1..] + b;
      FilterJoin(a[1..], b, keep);
    }
  }

  lemma FilterNext<T>(s: seq<T>, i: nat, keep: T -> bool)
    requires i < |s|
    ensures Filter(s[..i + 1], keep) == if keep(s[i]) then Filter(s[..i], keep) + [s[i]] else Filter(s[..i], keep)
  {
    FilterJoin(s[..i], [s[i]], keep);
    FilterOne(s[i], keep);
    assert s[..i + 1] == s[..i] + [s[i]];
  }

  function Flatten<T>(groups: seq<seq<T>>): seq<T> {
    if groups == [] then [] else groups[0] + Flatten(groups[1..])
  }

  lemma {:induction false} FlattenHas<T>(groups: seq<seq<T>>, i: nat)
    requires i < |groups|
    ensures forall x :: x in groups[i] ==> x in Flatten(groups)
  {
    if i > 0 {
      FlattenHas(groups[1..], i - 1);
      assert groups[1..][i - 1] == groups[i];
    }
  }

  lemma {:induction false} FlattenAppend<T>(groups: seq<seq<T>>, group: seq<T>)
    ensures Flatten(groups + [group]) == Flatten(groups) + group
  {
    if groups == [] {
      assert Flatten([group]) == group + Flatten([]);
    } else {
      FlattenAppend(groups[1..], group);
      assert (groups + [group])[1..] == groups[1..] + [group];
    }
  }

  // The length of the first group: up to and with the first element that ends one.
  function FirstEnd<T>(s: seq<T>, ends: T -> bool): (k: nat)
    requires s != []
    ensures 1 <= k <= |s| && Group(s[..k], ends) && (k < |s| ==> ends(s[k - 1]))
  {
    if |s| == 1 || ends(s[0]) then 1
    else
      var k := FirstEnd(s[1..], ends);
      assert s[..k + 1] == [s[0]] + s[1..][..k];
      k + 1
  }

  function Cuts<T>(s: seq<T>, ends: T -> bool): seq<seq<T>>
    decreases |s|
  {
    if s == [] then []
    else
      var k := FirstEnd(s, ends);
      [s[..k]] + Cuts(s[k..], ends)
  }

  // No element but the last ends the group.
  predicate Group<T>(group: seq<T>, ends: T -> bool) {
    group != [] && forall j :: 0 <= j < |group| - 1 ==> !ends(group[j])
  }

  predicate Closed<T>(group: seq<T>, ends: T -> bool) {
    group != [] && ends(group[|group| - 1])
  }

  /** The elements in order, cut into groups that each end where they should but perhaps the last. */
  ghost predicate IsCut<T>(s: seq<T>, groups: seq<seq<T>>, ends: T -> bool) {
    && Flatten(groups) == s
    && (forall i :: 0 <= i < |groups| ==> Group(groups[i], ends))
    && (forall i :: 0 <= i < |groups| - 1 ==> Closed(groups[i], ends))
  }

  lemma {:induction false} CutsAreCuts<T>(s: seq<T>, ends: T -> bool)
    ensures IsCut(s, Cuts(s, ends), ends)
    decreases |s|
  {
    if s != [] {
      var k := FirstEnd(s, ends);
      CutsAreCuts(s[k..], ends);
      PrependGroup(s[..k], s[k..], Cuts(s[k..], ends), ends);
      assert s == s[..k] + s[k..];
    }
  }

  lemma PrependGroup<T>(group: seq<T>, s: seq<T>, groups: seq<seq<T>>, ends: T -> bool)
    requires Group(group, ends) && (Closed(group, ends) || groups == []) && IsCut(s, groups, ends)
    ensures IsCut(group + s, [group] + groups, ends)
  {
    assert ([group] + groups)[1..] == groups;
  }

  lemma {:induction false} CutsAreUnique<T>(s: seq<T>, groups: seq<seq<T>>, ends: T -> bool)
    requires IsCut(s, groups, ends)
    ensures groups == Cuts(s, ends)
    decreases |groups|
  {
    if groups != [] {
      var first, rest := groups[0], groups[1..];
      assert s == first + Flatten(rest);
      assert forall i :: 0 <= i < |rest| ==> rest[i] == groups[i + 1];
      CutsAreUnique(Flatten(rest), rest, ends);
      assert Group(first, ends) && (rest != [] ==> Closed(first, ends));
      assert rest == [] ==> s == first;
      FirstGroup(s, first, ends);
      assert s[|first|..] == Flatten(rest);
    }
  }

  lemma FirstGroup<T>(s: seq<T>, first: seq<T>, ends: T -> bool)
    requires first <= s && Group(first, ends) && (first == s || Closed(first, ends))
    ensures FirstEnd(s, ends) == |first|
  {
    var k := FirstEnd(s, ends);
    assert s[..|first|] == first;
  }

  /** The elements so far: groups that have ended, and the start of one that has not. */
  ghost predicate OpenCut<T>(s: seq<T>, cut: seq<seq<T>>, open: seq<T>, ends: T -> bool) {
    && IsCut(Flatten(cut), cut, ends) && s == Flatten(cut) + open
    && (cut != [] ==> Closed(cut[|cut| - 1], ends))
    && (forall j :: 0 <= j < |open| ==> !ends(open[j]))
  }

  lemma NextElement<T>(s: seq<T>, cut: seq<seq<T>>, open: seq<T>, next: T, ends: T -> bool)
    requires OpenCut(s, cut, open, ends)
    ensures !ends(next) ==> OpenCut(s + [next], cut, open + [next], ends)
    ensures ends(next) ==> OpenCut(s + [next], cut + [open + [next]], [], ends)
  {
    FlattenAppend(cut, open + [next]);
    assert ends(next) ==> Closed(open + [next], ends);
  }

  lemma LastGroup<T>(s: seq<T>, cut: seq<seq<T>>, open: seq<T>, ends: T -> bool)
    requires OpenCut(s, cut, open, ends)
    ensures Cuts(s, ends) == if open == [] then cut else cut + [open]
  {
    FlattenAppend(cut, open);
    CutsAreUnique(s, if open == [] then cut else cut + [open], ends);
  }
}
