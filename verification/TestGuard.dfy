/**
 The test guard (cmd/lidza/testguard.go): pairing the assertions a diff removes with those it adds,
 within a file and then across files. A file arrives with its lines already classified; shape,
 subject and the loose matchers are uninterpreted.
 */
module TestGuard {
  datatype Matchers = Matchers(shape: string -> string, subject: string -> string, loose: string -> bool)

  datatype FileDiff = FileDiff(path: string, deleted: bool, removedTests: seq<string>, addedTests: seq<string>,
                               removedSkips: multiset<string>, addedSkips: seq<string>,
                               removed: seq<string>, added: seq<string>)

  datatype Finding =
    | SkipAdded(path: string, text: string)
    | Loosened(path: string, old_: string, new_: string)
    | AssertionRemoved(path: string, text: string, removed: nat, added: nat)
    | TestFileDeleted(path: string)

  // ---- One file: the greedy pairing ----

  predicate SameCheck(m: Matchers, removed: string, added: string) {
    m.shape(added) == m.shape(removed)
  }

  predicate LooserCheck(m: Matchers, removed: string, added: string) {
    m.loose(added) && !m.loose(removed) && m.subject(added) != "" && m.subject(added) == m.subject(removed)
  }

  predicate Pairs(m: Matchers, removed: string, added: string) {
    SameCheck(m, removed, added) || LooserCheck(m, removed, added)
  }

  // The first unused added line, from j on, that pairs with a removed one; |added| when there is none.
  function Partner(m: Matchers, text: string, added: seq<string>, used: set<nat>, j: nat): (r: nat)
    requires j <= |added|
    ensures j <= r <= |added|
    ensures r < |added| ==> r !in used && Pairs(m, text, added[r])
    ensures forall k :: j <= k < r ==> k in used || !Pairs(m, text, added[k])
    decreases |added| - j
  {
    if j == |added| || (j !in used && Pairs(m, text, added[j])) then j else Partner(m, text, added, used, j + 1)
  }

  // Each removed line's partner, in order, each added line used once.
  function Pairing(m: Matchers, removed: seq<string>, added: seq<string>): (p: seq<nat>)
    ensures |p| == |removed| && forall i :: 0 <= i < |p| ==> p[i] <= |added|
  {
    if removed == [] then []
    else
      var p := Pairing(m, removed[..|removed| - 1], added);
      p + [Partner(m, removed[|removed| - 1], added, Used(p, |added|), 0)]
  }

  function Used(p: seq<nat>, n: nat): set<nat> {
    set i | 0 <= i < |p| && p[i] < n :: p[i]
  }

  // The removed lines without a partner, and the added lines nobody took, in order.
  function Kept(removed: seq<string>, p: seq<nat>, n: nat): seq<string>
    requires |p| == |removed|
  {
    if p == [] then []
    else Kept(removed[..|p| - 1], p[..|p| - 1], n) + (if p[|p| - 1] == n then [removed[|p| - 1]] else [])
  }

  function Unused(added: seq<string>, used: set<nat>): seq<string> {
    if added == [] then []
    else Unused(added[..|added| - 1], used) + (if |added| - 1 in used then [] else [added[|added| - 1]])
  }

  function KeptOf(m: Matchers, f: FileDiff): seq<string> {
    Kept(f.removed, Pairing(m, f.removed, f.added), |f.added|)
  }

  function UnusedOf(m: Matchers, f: FileDiff): seq<string> {
    Unused(f.added, Used(Pairing(m, f.removed, f.added), |f.added|))
  }

  function Loosenings(m: Matchers, f: FileDiff, p: seq<nat>): seq<Finding>
    requires |p| <= |f.removed|
    requires forall i :: 0 <= i < |p| ==> p[i] <= |f.added|
  {
    if p == [] then []
    else
      var i := |p| - 1;
      Loosenings(m, f, p[..i]) +
      (if p[i] < |f.added| && !SameCheck(m, f.removed[i], f.added[p[i]])
          then [Loosened(f.path, f.removed[i], f.added[p[i]])] else [])
  }

  // Texts each taken out of the counts while they last: the ones that found none left.
  function Surplus(texts: seq<string>, counts: multiset<string>): seq<string> {
    if texts == [] then []
    else if texts[0] in counts then Surplus(texts[1..], counts - multiset{texts[0]})
    else [texts[0]] + Surplus(texts[1..], counts)
  }

  function Each(path: string, texts: seq<string>): seq<Finding> {
    seq(|texts|, i requires 0 <= i < |texts| => SkipAdded(path, texts[i]))
  }

  /** judge: the file's own pairing. */
  method Judge(m: Matchers, f: FileDiff) returns (findings: seq<Finding>, kept: seq<string>, unused: seq<string>)
    ensures kept == KeptOf(m, f) && unused == UnusedOf(m, f)
    ensures findings == Each(f.path, Surplus(f.addedSkips, f.removedSkips)) +
        Loosenings(m, f, Pairing(m, f.removed, f.added))
  {
    var skips, _ := Consume(f.addedSkips, f.removedSkips);
    var used := new bool[|f.added|](_ => false);
    var loosened;
    ghost var p;
    loosened, kept, p := PairLines(m, f, used);
    findings := Each(f.path, skips) + loosened;
    unused := [];
    for j := 0 to |f.added|
      invariant unused == Unused(f.added[..j], Used(p, |f.added|))
    {
      assert f.added[..j + 1][..j] == f.added[..j];
      if !used[j] {
        unused := unused + [f.added[j]];
      }
    }
    assert f.added[..|f.added|] == f.added;
  }

  // The used flags and the partners given so far say the same.
  ghost predicate Flags(used: seq<bool>, p: seq<nat>) {
    forall j :: 0 <= j < |used| ==> (used[j] <==> j in Used(p, |used|))
  }

  method PairLines(m: Matchers, f: FileDiff, used: array<bool>)
      returns (loosened: seq<Finding>, kept: seq<string>, ghost p: seq<nat>)
    requires used.Length == |f.added| && forall j :: 0 <= j < used.Length ==> !used[j]
    modifies used
    ensures p == Pairing(m, f.removed, f.added) && Flags(used[..], p)
    ensures kept == Kept(f.removed, p, |f.added|) && loosened == Loosenings(m, f, p)
  {
    loosened, kept, p := [], [], [];
    for i := 0 to |f.removed|
      invariant |p| == i && p == Pairing(m, f.removed[..i], f.added) && Flags(used[..], p)
      invariant kept == Kept(f.removed[..i], p, |f.added|) && loosened == Loosenings(m, f, p)
    {
      var text := f.removed[i];
      var j := FindPartner(m, text, f.added, used, p);
      OnePairMore(m, f, i, used[..], p, j);
      p := p + [j];
      if j < |f.added| {
        used[j] := true;
        if !SameCheck(m, text, f.added[j]) {
          loosened := loosened + [Loosened(f.path, text, f.added[j])];
        }
      } else {
        kept := kept + [text];
      }
    }
    assert f.removed[..|f.removed|] == f.removed;
  }

  method FindPartner(m: Matchers, text: string, added: seq<string>, used: array<bool>, ghost p: seq<nat>)
      returns (j: nat)
    requires used.Length == |added| && Flags(used[..], p)
    ensures j == Partner(m, text, added, Used(p, |added|), 0)
  {
    j := 0;
    while j < |added| && (used[j] || !Pairs(m, text, added[j]))
      invariant 0 <= j <= |added|
      invariant Partner(m, text, added, Used(p, |added|), 0) == Partner(m, text, added, Used(p, |added|), j)
    {
      assert used[..][j] == used[j];
      j := j + 1;
    }
    assert j < |added| ==> used[..][j] == used[j];
  }

  lemma OnePairMore(m: Matchers, f: FileDiff, i: nat, used: seq<bool>, p: seq<nat>, j: nat)
    requires i < |f.removed| && |p| == i && p == Pairing(m, f.removed[..i], f.added) && |used| == |f.added|
        && Flags(used, p)
    requires j == Partner(m, f.removed[i], f.added, Used(p, |f.added|), 0)
    ensures p + [j] == Pairing(m, f.removed[..i + 1], f.added)
    ensures Flags(if j < |used| then used[j := true] else used, p + [j])
    ensures Kept(f.removed[..i + 1], p + [j], |f.added|) ==
        Kept(f.removed[..i], p, |f.added|) + (if j == |f.added| then [f.removed[i]] else [])
    ensures Loosenings(m, f, p + [j]) == Loosenings(m, f, p) +
              (if j < |f.added| && !SameCheck(m, f.removed[i], f.added[j])
                  then [Loosened(f.path, f.removed[i], f.added[j])] else [])
  {
    PairingOneMore(m, f.removed[..i], f.removed[i], f.added);
    KeptOneMore(f.removed[..i], f.removed[i], p, j, |f.added|);
    assert f.removed[..i + 1] == f.removed[..i] + [f.removed[i]];
    FlagsOneMore(used, p, j);
    LooseningsOneMore(m, f, p, j);
  }

  lemma FlagsOneMore(used: seq<bool>, p: seq<nat>, j: nat)
    requires Flags(used, p) && j <= |used|
    ensures Flags(if j < |used| then used[j := true] else used, p + [j])
  {
    UsedOneMore(p, j, |used|);
  }

  lemma PairingOneMore(m: Matchers, removed: seq<string>, text: string, added: seq<string>)
    ensures var p := Pairing(m, removed, added);
            Pairing(m, removed + [text], added) == p + [Partner(m, text, added, Used(p, |added|), 0)]
  {
    assert (removed + [text])[..|removed|] == removed;
  }

  lemma KeptOneMore(removed: seq<string>, text: string, p: seq<nat>, j: nat, n: nat)
    requires |p| == |removed|
    ensures Kept(removed + [text], p + [j], n) == Kept(removed, p, n) + (if j == n then [text] else [])
  {
    assert (removed + [text])[..|removed|] == removed && (p + [j])[..|p|] == p;
  }

  lemma LooseningsOneMore(m: Matchers, f: FileDiff, p: seq<nat>, j: nat)
    requires |p| < |f.removed| && j <= |f.added| && forall i :: 0 <= i < |p| ==> p[i] <= |f.added|
    ensures Loosenings(m, f, p + [j]) == Loosenings(m, f, p) +
              (if j < |f.added| && !SameCheck(m, f.removed[|p|], f.added[j])
                  then [Loosened(f.path, f.removed[|p|], f.added[j])] else [])
  {
    assert (p + [j])[..|p|] == p;
  }

  lemma UsedOneMore(p: seq<nat>, j: nat, n: nat)
    ensures Used(p + [j], n) == Used(p, n) + (if j < n then {j} else {})
  {
    var q := p + [j];
    assert forall i :: 0 <= i < |p| ==> q[i] == p[i];
    assert q[|p|] == j;
  }

  // if counts[text] > 0 { counts[text]-- } else { keep it }
  method Consume(texts: seq<string>, counts: multiset<string>) returns (left: seq<string>, rest: multiset<string>)
    ensures left == Surplus(texts, counts) && rest == counts - multiset(texts)
  {
    left, rest := [], counts;
    var todo := texts;
    while todo != []
      invariant Surplus(texts, counts) == left + Surplus(todo, rest)
      invariant rest - multiset(todo) == counts - multiset(texts)
      decreases |todo|
    {
      var t := todo[0];
      assert todo == [t] + todo[1..];
      if rest[t] > 0 {
        assert rest - multiset{t} == rest[t := rest[t] - 1];
        rest := rest[t := rest[t] - 1];
      } else {
        assert left + ([t] + Surplus(todo[1..], rest)) == left + [t] + Surplus(todo[1..], rest);
        left := left + [t];
      }
      todo := todo[1..];
    }
  }

  // ---- What the pairing conserves ----

  ghost predicate Injective(p: seq<nat>, n: nat) {
    forall i, j :: 0 <= i < j < |p| && p[i] < n ==> p[i] != p[j]
  }

  lemma {:induction false} PairingIsInjective(m: Matchers, removed: seq<string>, added: seq<string>)
    ensures Injective(Pairing(m, removed, added), |added|)
  {
    if removed != [] {
      var r := removed[..|removed| - 1];
      PairingIsInjective(m, r, added);
      var p, q := Pairing(m, r, added), Pairing(m, removed, added);
      assert q == p + [q[|p|]];
      forall i | 0 <= i < |p| && p[i] < |added|
        ensures q[i] != q[|p|]
      {
        assert p[i] in Used(p, |added|);
      }
    }
  }

  // The lines counted: each paired line of one side takes one of the other.
  lemma {:induction false} KeptCount(removed: seq<string>, p: seq<nat>, n: nat)
    requires |p| == |removed| && forall i :: 0 <= i < |p| ==> p[i] <= n
    requires Injective(p, n)
    ensures |Kept(removed, p, n)| + |Used(p, n)| == |removed|
  {
    if p != [] {
      var k := |p| - 1;
      KeptCount(removed[..k], p[..k], n);
      UsedLast(p, n);
      var before := Kept(removed[..k], p[..k], n);
      assert Kept(removed, p, n) == before + (if p[k] == n then [removed[k]] else []);
    }
  }

  lemma UsedLast(p: seq<nat>, n: nat)
    requires p != [] && Injective(p, n)
    ensures |Used(p, n)| == |Used(p[..|p| - 1], n)| + (if p[|p| - 1] < n then 1 else 0)
  {
    var k := |p| - 1;
    UsedOneMore(p[..k], p[k], n);
    assert p[..k] + [p[k]] == p;
    assert p[k] < n ==> p[k] !in Used(p[..k], n);
  }

  ghost function UsedBelow(used: set<nat>, n: nat): set<nat> {
    set j | j in used && j < n
  }

  lemma {:induction false} UnusedCount(added: seq<string>, used: set<nat>)
    ensures |Unused(added, used)| + |UsedBelow(used, |added|)| == |added|
  {
    if added == [] {
      assert UsedBelow(used, 0) == {};
    } else {
      var n := |added| - 1;
      UnusedCount(added[..n], used);
      assert UsedBelow(used, n + 1) == UsedBelow(used, n) + (if n in used then {n} else {});
    }
  }

  /** Within a file each added assertion makes up for one removed: what is left unpaired on the two
      sides differs as the two sides did, in whatever order the lines came. */
  lemma PairingConserves(m: Matchers, f: FileDiff)
    ensures |KeptOf(m, f)| - |UnusedOf(m, f)| == |f.removed| - |f.added|
  {
    var p, n := Pairing(m, f.removed, f.added), |f.added|;
    PairingIsInjective(m, f.removed, f.added);
    KeptCount(f.removed, p, n);
    UnusedCount(f.added, Used(p, n));
    assert UsedBelow(Used(p, n), n) == Used(p, n);
  }

  lemma {:induction false} KeptLines(removed: seq<string>, p: seq<nat>, n: nat)
    requires |p| == |removed|
    ensures forall x :: x in Kept(removed, p, n) <==> exists i :: 0 <= i < |p| && p[i] == n && removed[i] == x
  {
    if p != [] {
      var k := |p| - 1;
      KeptLines(removed[..k], p[..k], n);
    }
  }

  lemma {:induction false} UnusedLines(added: seq<string>, used: set<nat>)
    ensures forall x :: x in Unused(added, used) <==> exists j :: 0 <= j < |added| && j !in used && added[j] == x
  {
    if added != [] {
      var k := |added| - 1;
      UnusedLines(added[..k], used);
    }
  }

  lemma {:induction false} UnpairedStay(m: Matchers, removed: seq<string>, added: seq<string>, i: nat, j: nat)
    requires i < |removed| && j < |added|
    requires Pairing(m, removed, added)[i] == |added| && j !in Used(Pairing(m, removed, added), |added|)
    ensures !Pairs(m, removed[i], added[j])
  {
    var k := |removed| - 1;
    var p := Pairing(m, removed[..k], added);
    UsedOneMore(p, Pairing(m, removed, added)[k], |added|);
    if i < k {
      UnpairedStay(m, removed[..k], added, i, j);
    }
  }

  /** Nothing pairable is left over: no unpaired removed assertion could have taken an unused added
      one, so in particular none was added back word for word. */
  lemma PairingIsMaximal(m: Matchers, f: FileDiff, x: string, y: string)
    requires x in KeptOf(m, f) && y in UnusedOf(m, f)
    ensures !Pairs(m, x, y) && x != y && m.shape(x) != m.shape(y)
    ensures m.loose(y) && !m.loose(x) && m.subject(x) == m.subject(y) ==> m.subject(x) == ""
  {
    var p, n := Pairing(m, f.removed, f.added), |f.added|;
    KeptLines(f.removed, p, n);
    UnusedLines(f.added, Used(p, n));
    var i :| 0 <= i < |p| && p[i] == n && f.removed[i] == x;
    var j :| 0 <= j < n && j !in Used(p, n) && f.added[j] == y;
    UnpairedStay(m, f.removed, f.added, i, j);
  }

  /** Whatever the order, a text is left over as often as it occurs beyond its count: a skip is
      reported exactly as often as it was added more than removed. */
  lemma {:induction false} SurplusCounts(texts: seq<string>, counts: multiset<string>)
    ensures multiset(Surplus(texts, counts)) == multiset(texts) - counts
    ensures forall x :: x in Surplus(texts, counts) ==> x in texts
  {
    if texts != [] {
      assert texts == [texts[0]] + texts[1..];
      SurplusCounts(texts[1..], if texts[0] in counts then counts - multiset{texts[0]} else counts);
    }
  }

  /** A pair has one shape, or a strict matcher gave way to a loose one on one subject: a loosening is reported
      for exactly the pairs of the second kind. */
  lemma {:induction false} PairsMean(m: Matchers, f: FileDiff, p: seq<nat>, i: nat)
    requires p == Pairing(m, f.removed, f.added) && i < |p| && p[i] < |f.added|
    ensures var x, y := f.removed[i], f.added[p[i]];
            && (m.shape(x) == m.shape(y) || (m.loose(y) && !m.loose(x) && m.subject(x) == m.subject(y) != ""))
            && (m.shape(x) != m.shape(y) ==> Loosened(f.path, x, y) in Loosenings(m, f, p))
  {
    PairIsFound(m, f.removed, f.added, i);
    if m.shape(f.removed[i]) != m.shape(f.added[p[i]]) {
      LooseningIsReported(m, f, p, i);
    }
  }

  lemma {:induction false} PairIsFound(m: Matchers, removed: seq<string>, added: seq<string>, i: nat)
    requires i < |removed| && Pairing(m, removed, added)[i] < |added|
    ensures Pairs(m, removed[i], added[Pairing(m, removed, added)[i]])
  {
    if i < |removed| - 1 {
      PairIsFound(m, removed[..|removed| - 1], added, i);
    }
  }

  lemma {:induction false} LooseningIsReported(m: Matchers, f: FileDiff, p: seq<nat>, i: nat)
    requires |p| <= |f.removed| && forall k :: 0 <= k < |p| ==> p[k] <= |f.added|
    requires i < |p| && p[i] < |f.added| && m.shape(f.removed[i]) != m.shape(f.added[p[i]])
    ensures Loosened(f.path, f.removed[i], f.added[p[i]]) in Loosenings(m, f, p)
  {
    if i < |p| - 1 {
      LooseningIsReported(m, f, p[..|p| - 1], i);
    }
  }

  /** And for nothing else. */
  lemma {:induction false} LooseningsMean(m: Matchers, f: FileDiff, p: seq<nat>, x: Finding)
    requires |p| <= |f.removed| && forall k :: 0 <= k < |p| ==> p[k] <= |f.added|
    requires x in Loosenings(m, f, p)
    ensures exists i :: 0 <= i < |p| && p[i] < |f.added| && m.shape(f.removed[i]) != m.shape(f.added[p[i]])
                        && x == Loosened(f.path, f.removed[i], f.added[p[i]])
  {
    var n := |p| - 1;
    if x in Loosenings(m, f, p[..n]) {
      LooseningsMean(m, f, p[..n], x);
    } else {
      assert p[n] < |f.added| && m.shape(f.removed[n]) != m.shape(f.added[p[n]]);
    }
  }

  // ---- Across files ----

  // What judging a file left: its unpaired removed assertions and its unused added ones.
  datatype Judged = Judged(path: string, deleted: bool, removedTests: seq<string>, addedTests: seq<string>,
                           kept: seq<string>, unused: seq<string>)

  // judge is not run on a deleted file.
  function JudgedOf(m: Matchers, f: FileDiff): Judged {
    Judged(f.path, f.deleted, f.removedTests, f.addedTests,
           if f.deleted then [] else KeptOf(m, f), if f.deleted then [] else UnusedOf(m, f))
  }

  type Counter = map<string, int>

  function At(c: Counter, k: string): int {
    if k in c then c[k] else 0
  }

  function Minus(c: Counter, names: seq<string>): Counter
    decreases |names|
  {
    if names == [] then c else Minus(c[names[0] := At(c, names[0]) - 1], names[1..])
  }

  function Plus(c: Counter, names: seq<string>): Counter
    decreases |names|
  {
    if names == [] then c else Plus(c[names[0] := At(c, names[0]) + 1], names[1..])
  }

  // A deleted file moved when it had tests and none of their counts is zero.
  predicate Moved(c: Counter, names: seq<string>) {
    names != [] && forall i :: 0 <= i < |names| ==> At(c, names[i]) != 0
  }

  function Removals(path: string, left: seq<string>, added: nat): seq<Finding> {
    if |left| <= added then []
    else seq(|left|, i requires 0 <= i < |left| => AssertionRemoved(path, left[i], |left|, added))
  }

  function AllAdded(files: seq<Judged>): Counter {
    if files == [] then map[] else Plus(AllAdded(files[..|files| - 1]), files[|files| - 1].addedTests)
  }

  function AllUnused(files: seq<Judged>): multiset<string> {
    if files == [] then multiset{} else AllUnused(files[..|files| - 1]) + multiset(files[|files| - 1].unused)
  }

  // The findings of the files in turn, and the counts they leave.
  datatype Pass = Pass(findings: seq<Finding>, tests: Counter, asserts: multiset<string>)

  function AcrossOne(f: Judged, before: Pass): Pass {
    if f.deleted then
      if Moved(before.tests, f.removedTests) then before.(tests := Minus(before.tests, f.removedTests))
      else before.(findings := before.findings + [TestFileDeleted(f.path)])
    else
      var left := Surplus(f.kept, before.asserts);
      Pass(before.findings + Removals(f.path, left, |f.unused|), before.tests, before.asserts - multiset(f.kept))
  }

  function AcrossFrom(files: seq<Judged>, tests: Counter, asserts: multiset<string>): Pass {
    if files == [] then Pass([], tests, asserts)
    else AcrossOne(files[|files| - 1], AcrossFrom(files[..|files| - 1], tests, asserts))
  }

  /** across: what one file lost against what another gained. */
  method Across(files: seq<Judged>) returns (findings: seq<Finding>)
    ensures findings == AcrossFrom(files, AllAdded(files), AllUnused(files)).findings
  {
    var tests: Counter, asserts: multiset<string> := map[], multiset{};
    for i := 0 to |files|
      invariant tests == AllAdded(files[..i]) && asserts == AllUnused(files[..i])
    {
      assert files[..i + 1][..i] == files[..i];
      tests := Tally(tests, files[i].addedTests);
      asserts := asserts + multiset(files[i].unused);
    }
    assert files[..|files|] == files;
    var pass := Pass([], tests, asserts);
    for i := 0 to |files|
      invariant pass == AcrossFrom(files[..i], tests, asserts)
    {
      assert files[..i + 1][..i] == files[..i];
      pass := AcrossFile(files[i], pass);
    }
    findings := pass.findings;
  }

  method AcrossFile(f: Judged, before: Pass) returns (after: Pass)
    ensures after == AcrossOne(f, before)
  {
    if f.deleted {
      var moved := AllThere(before.tests, f.removedTests);
      if moved {
        var tests := Untally(before.tests, f.removedTests);
        return before.(tests := tests);
      }
      return before.(findings := before.findings + [TestFileDeleted(f.path)]);
    }
    var left, asserts := Consume(f.kept, before.asserts);
    return Pass(before.findings + Removals(f.path, left, |f.unused|), before.tests, asserts);
  }

  method Tally(c: Counter, names: seq<string>) returns (r: Counter)
    ensures r == Plus(c, names)
  {
    r := c;
    var todo := names;
    while todo != []
      invariant Plus(c, names) == Plus(r, todo)
      decreases |todo|
    {
      r, todo := r[todo[0] := At(r, todo[0]) + 1], todo[1..];
    }
  }

  method Untally(c: Counter, names: seq<string>) returns (r: Counter)
    ensures r == Minus(c, names)
  {
    r := c;
    var todo := names;
    while todo != []
      invariant Minus(c, names) == Minus(r, todo)
      decreases |todo|
    {
      r, todo := r[todo[0] := At(r, todo[0]) - 1], todo[1..];
    }
  }

  method AllThere(c: Counter, names: seq<string>) returns (moved: bool)
    ensures moved == Moved(c, names)
  {
    moved := |names| > 0;
    for i := 0 to |names|
      invariant moved == (|names| > 0 && forall k :: 0 <= k < i ==> At(c, names[k]) != 0)
    {
      if At(c, names[i]) == 0 {
        return false;
      }
    }
  }

  function AllKept(files: seq<Judged>): multiset<string> {
    if files == [] then multiset{}
    else
      var last := files[|files| - 1];
      AllKept(files[..|files| - 1]) + (if last.deleted then multiset{} else multiset(last.kept))
  }

  // The kept assertions no other file's gain makes up for.
  function LeftOver(files: seq<Judged>, tests: Counter, asserts: multiset<string>): multiset<string> {
    if files == [] then multiset{}
    else
      var n := |files| - 1;
      LeftOver(files[..n], tests, asserts) +
      (if files[n].deleted then multiset{}
          else multiset(Surplus(files[n].kept, AcrossFrom(files[..n], tests, asserts).asserts)))
  }

  /** Across files each text is consumed exactly min(kept, unused) times: what is left of the losses
      is what was lost beyond the gains, and what is left of the gains what was gained beyond the
      losses, in whatever order the files come. */
  lemma {:induction false} EachTextConsumedOnce(files: seq<Judged>, tests: Counter, asserts: multiset<string>)
    ensures AcrossFrom(files, tests, asserts).asserts == asserts - AllKept(files)
    ensures LeftOver(files, tests, asserts) == AllKept(files) - asserts
  {
    if files != [] {
      var n := |files| - 1;
      EachTextConsumedOnce(files[..n], tests, asserts);
      var before := AcrossFrom(files[..n], tests, asserts).asserts;
      if !files[n].deleted {
        SurplusCounts(files[n].kept, before);
        TakenInTurn(asserts, AllKept(files[..n]), multiset(files[n].kept));
      }
    }
  }

  lemma TakenInTurn(have: multiset<string>, first: multiset<string>, second: multiset<string>)
    ensures have - first - second == have - (first + second)
    ensures (first - have) + (second - (have - first)) == first + second - have
  {
  }

  /** A diff of one file gets "assertion removed" findings, one for each unpaired line, exactly when
      it removes more assertions than it adds. */
  lemma OneFileFindings(m: Matchers, f: FileDiff)
    requires !f.deleted
    ensures var found := AcrossFrom([JudgedOf(m, f)], AllAdded([JudgedOf(m, f)]), AllUnused([JudgedOf(m, f)])).findings;
            |found| == if |f.removed| > |f.added| then |KeptOf(m, f)| else 0
  {
    var j := JudgedOf(m, f);
    assert [j][..0] == [];
    assert AllUnused([j]) == multiset(j.unused);
    forall x | x in j.kept ensures x !in multiset(j.unused) {
      if x in j.unused {
        PairingIsMaximal(m, f, x, x);
      }
    }
    NothingConsumed(j.kept, multiset(j.unused));
    PairingConserves(m, f);
  }

  lemma {:induction false} NothingConsumed(texts: seq<string>, counts: multiset<string>)
    requires forall x :: x in texts ==> x !in counts
    ensures Surplus(texts, counts) == texts
  {
    if texts != [] {
      NothingConsumed(texts[1..], counts);
    }
  }

  // ---- What a quiet guard means for a whole diff ----

  function JudgedAll(m: Matchers, fs: seq<FileDiff>): (js: seq<Judged>)
    ensures |js| == |fs| && forall i :: 0 <= i < |fs| ==> js[i] == JudgedOf(m, fs[i])
  {
    seq(|fs|, i requires 0 <= i < |fs| => JudgedOf(m, fs[i]))
  }

  // Assertions removed less assertions added, over the files that still exist.
  function NetLoss(fs: seq<FileDiff>): int {
    if fs == [] then 0
    else NetLoss(fs[..|fs| - 1]) + (if fs[|fs| - 1].deleted then 0 else |fs[|fs| - 1].removed| - |fs[|fs| - 1].added|)
  }

  // No "assertion removed" finding for any file.
  ghost predicate Quiet(files: seq<Judged>, tests: Counter, asserts: multiset<string>) {
    files == [] ||
    var n := |files| - 1;
    && Quiet(files[..n], tests, asserts)
    && (!files[n].deleted ==>
        |Surplus(files[n].kept, AcrossFrom(files[..n], tests, asserts).asserts)| <= |files[n].unused|)
  }

  lemma {:induction false} QuietMeansNoFinding(files: seq<Judged>, tests: Counter, asserts: multiset<string>)
    ensures Quiet(files, tests, asserts) <==>
            forall x :: x in AcrossFrom(files, tests, asserts).findings ==> !x.AssertionRemoved?
  {
    if files != [] {
      var n := |files| - 1;
      QuietMeansNoFinding(files[..n], tests, asserts);
      var before, after := AcrossFrom(files[..n], tests, asserts), AcrossFrom(files, tests, asserts);
      assert before.findings <= after.findings;
      assert forall x :: x in before.findings ==> x in after.findings;
      var left := Surplus(files[n].kept, before.asserts);
      if !files[n].deleted && |left| > |files[n].unused| {
        assert after.findings[|before.findings|].AssertionRemoved?;
      }
    }
  }

  lemma {:induction false} LossOfJudged(m: Matchers, fs: seq<FileDiff>)
    ensures NetLoss(fs) == |AllKept(JudgedAll(m, fs))| - |AllUnused(JudgedAll(m, fs))|
  {
    if fs != [] {
      var n := |fs| - 1;
      LossOfJudged(m, fs[..n]);
      assert JudgedAll(m, fs)[..n] == JudgedAll(m, fs[..n]);
      PairingConserves(m, fs[n]);
    }
  }

  lemma {:induction false} QuietLeavesLittle(files: seq<Judged>, tests: Counter, asserts: multiset<string>)
    requires Quiet(files, tests, asserts)
    ensures |LeftOver(files, tests, asserts)| <= |AllUnused(files)|
  {
    if files != [] {
      QuietLeavesLittle(files[..|files| - 1], tests, asserts);
    }
  }

  // The assertions that left one file and reached another word for word.
  function MovedTexts(m: Matchers, fs: seq<FileDiff>): multiset<string> {
    AllKept(JudgedAll(m, fs)) * AllUnused(JudgedAll(m, fs))
  }

  // The losses nothing made up for word for word, and the gains not used to make up for any.
  function Losses(m: Matchers, fs: seq<FileDiff>): multiset<string> {
    AllKept(JudgedAll(m, fs)) - AllUnused(JudgedAll(m, fs))
  }

  function Gains(m: Matchers, fs: seq<FileDiff>): multiset<string> {
    AllUnused(JudgedAll(m, fs)) - AllKept(JudgedAll(m, fs))
  }

  predicate NoneReported(m: Matchers, fs: seq<FileDiff>) {
    var js := JudgedAll(m, fs);
    forall x :: x in AcrossFrom(js, AllAdded(js), AllUnused(js)).findings ==> !x.AssertionRemoved?
  }

  /** What a diff loses is what it lost beyond its gains: moved assertions do not count, though the
      guard counts them as gains. */
  lemma LossIsLossesLessGains(m: Matchers, fs: seq<FileDiff>)
    ensures NetLoss(fs) == |Losses(m, fs)| - |Gains(m, fs)|
  {
    var js := JudgedAll(m, fs);
    var kept, unused := AllKept(js), AllUnused(js);
    LossOfJudged(m, fs);
    assert kept == (kept - unused) + (kept * unused);
    assert unused == (unused - kept) + (kept * unused);
  }

  /** A diff in which no "assertion removed" is reported loses nothing exactly when no more texts moved
      than gains were left over from its losses; it never loses more than moved. */
  lemma QuietDiffLoss(m: Matchers, fs: seq<FileDiff>)
    requires NoneReported(m, fs)
    ensures var unused := AllUnused(JudgedAll(m, fs));
            && |Losses(m, fs)| <= |unused|
            && (NetLoss(fs) <= 0 <==> |MovedTexts(m, fs)| <= |unused| - |Losses(m, fs)|)
    ensures NetLoss(fs) <= |MovedTexts(m, fs)|
    ensures MovedTexts(m, fs) == multiset{} ==> NetLoss(fs) <= 0
  {
    var js := JudgedAll(m, fs);
    var kept, unused := AllKept(js), AllUnused(js);
    QuietMeansNoFinding(js, AllAdded(js), unused);
    QuietLeavesLittle(js, AllAdded(js), unused);
    EachTextConsumedOnce(js, AllAdded(js), unused);
    LossIsLossesLessGains(m, fs);
    assert unused == (unused - kept) + (kept * unused);
  }

  lemma {:induction false} NoneUsed(added: seq<string>)
    ensures Unused(added, {}) == added
  {
    if added != [] {
      NoneUsed(added[..|added| - 1]);
    }
  }

  // No removed line could take an added one.
  predicate NoPairs(m: Matchers, removed: seq<string>, added: seq<string>) {
    forall i, j :: 0 <= i < |removed| && 0 <= j < |added| ==> !Pairs(m, removed[i], added[j])
  }

  lemma NoPartner(m: Matchers, text: string, added: seq<string>)
    requires forall j :: 0 <= j < |added| ==> !Pairs(m, text, added[j])
    ensures Partner(m, text, added, {}, 0) == |added|
  {
  }

  lemma {:induction false} NonePaired(m: Matchers, removed: seq<string>, added: seq<string>)
    requires NoPairs(m, removed, added)
    ensures Used(Pairing(m, removed, added), |added|) == {}
    ensures Kept(removed, Pairing(m, removed, added), |added|) == removed
  {
    if removed != [] {
      var n := |removed| - 1;
      var p := Pairing(m, removed[..n], added);
      NonePaired(m, removed[..n], added);
      NoPartner(m, removed[n], added);
      assert removed == removed[..n] + [removed[n]];
      PairingOneMore(m, removed[..n], removed[n], added);
      KeptOneMore(removed[..n], removed[n], p, |added|, |added|);
      UsedOneMore(p, |added|, |added|);
    }
  }

  lemma NothingPairedInFile(m: Matchers, f: FileDiff)
    requires !f.deleted && NoPairs(m, f.removed, f.added)
    ensures JudgedOf(m, f) == Judged(f.path, false, f.removedTests, f.addedTests, f.removed, f.added)
  {
    NonePaired(m, f.removed, f.added);
    NoneUsed(f.added);
  }

  lemma AcrossOneMore(files: seq<Judged>, f: Judged, tests: Counter, asserts: multiset<string>)
    ensures AcrossFrom(files + [f], tests, asserts) == AcrossOne(f, AcrossFrom(files, tests, asserts))
  {
    assert (files + [f])[..|files|] == files;
  }

  lemma AcrossTwo(one: Judged, two: Judged, tests: Counter, asserts: multiset<string>)
    ensures AcrossFrom([one, two], tests, asserts) == AcrossOne(two, AcrossOne(one, Pass([], tests, asserts)))
  {
    AcrossOneMore([], one, tests, asserts);
    AcrossOneMore([one], two, tests, asserts);
    assert [] + [one] == [one] && [one] + [two] == [one, two];
  }

  lemma CountsOfTwo(one: Judged, two: Judged)
    ensures AllUnused([one, two]) == multiset(one.unused) + multiset(two.unused)
    ensures !one.deleted && !two.deleted ==> AllKept([one, two]) == multiset(one.kept) + multiset(two.kept)
  {
    assert [one, two][..1] == [one] && [one][..0] == [];
    assert AllUnused([one]) == AllUnused([]) + multiset(one.unused);
    assert !one.deleted ==> AllKept([one]) == AllKept([]) + multiset(one.kept);
  }

  lemma QuietStep(f: Judged, before: Pass)
    requires !f.deleted && |Surplus(f.kept, before.asserts)| <= |f.unused|
    ensures AcrossOne(f, before) == before.(asserts := before.asserts - multiset(f.kept))
  {
  }

  lemma NoSurplus(texts: seq<string>)
    ensures Surplus(texts, multiset(texts)) == []
  {
    SurplusCounts(texts, multiset(texts));
    assert multiset(Surplus(texts, multiset(texts))) == multiset{};
  }

  lemma MovedAwayQuietly(one: Judged, two: Judged, tests: Counter)
    requires !one.deleted && !two.deleted && one.unused == [] && two.unused == one.kept && |two.kept| <= |one.kept|
    ensures AcrossFrom([one, two], tests, AllUnused([one, two])).findings == []
  {
    var texts := multiset(one.kept);
    CountsOfTwo(one, two);
    assert AllUnused([one, two]) == texts;
    AcrossTwo(one, two, tests, texts);
    NoSurplus(one.kept);
    QuietStep(one, Pass([], tests, texts));
    assert texts - texts == multiset{};
    NothingConsumed(two.kept, multiset{});
    QuietStep(two, Pass([], tests, multiset{}));
  }

  lemma LossOfTwo(one: FileDiff, two: FileDiff)
    requires !one.deleted && !two.deleted
    ensures NetLoss([one, two]) == |one.removed| - |one.added| + |two.removed| - |two.added|
  {
    assert [one, two][..1] == [one] && [one][..0] == [];
    assert NetLoss([one]) == NetLoss([]) + |one.removed| - |one.added|;
  }

  /** Moved assertions count twice, for the file they left and as gains of the file they reached: any
      others, up to as many, can go from that file and nothing is reported. */
  lemma MovedAssertionsHideLosses(m: Matchers, one: FileDiff, two: FileDiff)
    requires !one.deleted && !two.deleted && one.added == [] && two.added == one.removed
    requires |two.removed| <= |one.removed| && NoPairs(m, two.removed, two.added)
    ensures var js := JudgedAll(m, [one, two]); AcrossFrom(js, AllAdded(js), AllUnused(js)).findings == []
    ensures NetLoss([one, two]) == |two.removed| && MovedTexts(m, [one, two]) == multiset(one.removed)
  {
    var a := Judged(one.path, false, one.removedTests, one.addedTests, one.removed, []);
    var b := Judged(two.path, false, two.removedTests, two.addedTests, two.removed, one.removed);
    NothingPairedInFile(m, one);
    NothingPairedInFile(m, two);
    JudgedTwo(m, one, two);
    assert JudgedAll(m, [one, two]) == [a, b];
    LossOfTwo(one, two);
    MovedAwayQuietly(a, b, AllAdded([a, b]));
    TextsOfTwo(a, b);
  }

  lemma JudgedTwo(m: Matchers, one: FileDiff, two: FileDiff)
    ensures JudgedAll(m, [one, two]) == [JudgedOf(m, one), JudgedOf(m, two)]
  {
  }

  lemma TextsOfTwo(one: Judged, two: Judged)
    requires !one.deleted && !two.deleted && one.unused == [] && two.unused == one.kept
    ensures AllKept([one, two]) * AllUnused([one, two]) == multiset(one.kept)
  {
    CountsOfTwo(one, two);
    MeetsItself(multiset(one.kept), multiset(two.kept));
  }

  lemma MeetsItself(a: multiset<string>, b: multiset<string>)
    ensures (a + b) * (a + multiset{}) == a && (a + b) * (multiset{} + a) == a
  {
  }

  function Copies(text: string, n: nat): (r: seq<string>)
    ensures |r| == n && forall x :: x in r ==> x == text
  {
    seq(n, _ => text)
  }

  /** The bound is met: every loss up to the number of moved texts occurs without a report. */
  lemma EveryLossOccurs(m: Matchers, moved: string, lost: string, count: nat, loss: nat) returns (fs: seq<FileDiff>)
    requires !Pairs(m, lost, moved) && loss <= count
    ensures NoneReported(m, fs) && |MovedTexts(m, fs)| == count && NetLoss(fs) == loss
  {
    var one := FileDiff("one", false, [], [], multiset{}, [], Copies(moved, count), []);
    var two := FileDiff("two", false, [], [], multiset{}, [], Copies(lost, loss), Copies(moved, count));
    fs := [one, two];
    MovedAssertionsHideLosses(m, one, two);
  }

  /** The smallest case: two assertions go, one is added, and nothing is reported. */
  lemma MovedAssertionHidesALoss(m: Matchers, a: string, b: string, one: FileDiff, two: FileDiff)
    requires m.shape(a) != m.shape(b) && !m.loose(a)
    requires !one.deleted && one.removed == [a] && one.added == []
    requires !two.deleted && two.removed == [b] && two.added == [a]
    ensures NetLoss([one, two]) == 1
    ensures var js := JudgedAll(m, [one, two]); AcrossFrom(js, AllAdded(js), AllUnused(js)).findings == []
  {
    MovedAssertionsHideLosses(m, one, two);
  }

  // ---- Deleted test files ----

  lemma {:induction false} MinusCounts(c: Counter, names: seq<string>, x: string)
    ensures At(Minus(c, names), x) == At(c, x) - multiset(names)[x]
    decreases |names|
  {
    if names != [] {
      MinusCounts(c[names[0] := At(c, names[0]) - 1], names[1..], x);
      assert names == [names[0]] + names[1..];
    }
  }

  ghost predicate NeverNegative(c: Counter) {
    forall x :: At(c, x) >= 0
  }

  /** Taking a file as moved keeps every count backed by added tests exactly when no test is named
      more often than it was added; a file that names each test once always does. */
  lemma MoveIsBacked(c: Counter, names: seq<string>)
    requires NeverNegative(c) && Moved(c, names)
    ensures NeverNegative(Minus(c, names)) <==> forall x :: multiset(names)[x] <= At(c, x)
    ensures (forall i, j :: 0 <= i < j < |names| ==> names[i] != names[j]) ==> NeverNegative(Minus(c, names))
  {
    forall x ensures At(Minus(c, names), x) == At(c, x) - multiset(names)[x] {
      MinusCounts(c, names, x);
    }
    if forall i, j :: 0 <= i < j < |names| ==> names[i] != names[j] {
      forall x ensures multiset(names)[x] <= At(c, x) {
        DistinctOnce(names, x);
        if x in names {
          var i :| 0 <= i < |names| && names[i] == x;
          assert At(c, names[i]) != 0;
        }
      }
    }
    if NeverNegative(Minus(c, names)) {
      forall x ensures multiset(names)[x] <= At(c, x) {
        assert At(Minus(c, names), x) >= 0;
      }
    }
  }

  lemma {:induction false} DistinctOnce(names: seq<string>, x: string)
    requires forall i, j :: 0 <= i < j < |names| ==> names[i] != names[j]
    ensures multiset(names)[x] == if x in names then 1 else 0
  {
    if names != [] {
      DistinctOnce(names[1..], x);
      assert names == [names[0]] + names[1..];
      assert names[0] !in names[1..];
    }
  }

  // The tests of the deleted files taken as moved.
  function MovedTests(files: seq<Judged>, tests: Counter, asserts: multiset<string>): multiset<string> {
    if files == [] then multiset{}
    else
      var n := |files| - 1;
      MovedTests(files[..n], tests, asserts) +
      (if files[n].deleted && Moved(AcrossFrom(files[..n], tests, asserts).tests, files[n].removedTests)
          then multiset(files[n].removedTests) else multiset{})
  }

  // No file taken as moved names a test more often than its count has left when the pass gets there.
  ghost predicate Backed(files: seq<Judged>, tests: Counter, asserts: multiset<string>) {
    files == [] ||
    var n := |files| - 1;
    var left := AcrossFrom(files[..n], tests, asserts).tests;
    && Backed(files[..n], tests, asserts)
    && (files[n].deleted && Moved(left, files[n].removedTests) ==>
        forall x :: multiset(files[n].removedTests)[x] <= At(left, x))
  }

  lemma {:induction false} TestsLeft(files: seq<Judged>, tests: Counter, asserts: multiset<string>, x: string)
    ensures At(AcrossFrom(files, tests, asserts).tests, x) == At(tests, x) - MovedTests(files, tests, asserts)[x]
  {
    if files != [] {
      var n := |files| - 1;
      TestsLeft(files[..n], tests, asserts, x);
      MinusCounts(AcrossFrom(files[..n], tests, asserts).tests, files[n].removedTests, x);
    }
  }

  // Every test that was taken as moved was added, one addition for each.
  ghost predicate AllWereAdded(files: seq<Judged>, tests: Counter, asserts: multiset<string>) {
    forall x :: MovedTests(files, tests, asserts)[x] <= At(tests, x)
  }

  lemma TestsLeftOf(files: seq<Judged>, tests: Counter, asserts: multiset<string>)
    ensures forall x ::
              At(AcrossFrom(files, tests, asserts).tests, x) == At(tests, x) - MovedTests(files, tests, asserts)[x]
  {
    forall x
      ensures At(AcrossFrom(files, tests, asserts).tests, x) == At(tests, x) - MovedTests(files, tests, asserts)[x]
    {
      TestsLeft(files, tests, asserts, x);
    }
  }

  /** For the whole pass: every test of every file taken as moved was added elsewhere, one addition for
      each, exactly when no such file names a test more often than its count has left. */
  lemma {:induction false} MovedTestsWereAddedIff(files: seq<Judged>, tests: Counter, asserts: multiset<string>)
    requires NeverNegative(tests)
    ensures AllWereAdded(files, tests, asserts) <==> Backed(files, tests, asserts)
  {
    if files != [] {
      var n := |files| - 1;
      var left := AcrossFrom(files[..n], tests, asserts).tests;
      MovedTestsWereAddedIff(files[..n], tests, asserts);
      TestsLeftOf(files[..n], tests, asserts);
      if AllWereAdded(files, tests, asserts) {
        forall x
          ensures MovedTests(files[..n], tests, asserts)[x] <= At(tests, x)
        {
          assert MovedTests(files, tests, asserts)[x] <= At(tests, x);
        }
        if files[n].deleted && Moved(left, files[n].removedTests) {
          forall x
            ensures multiset(files[n].removedTests)[x] <= At(left, x)
          {
            assert MovedTests(files, tests, asserts)[x] <= At(tests, x);
          }
        }
      }
    }
  }

  /** When each deleted file names its tests once, every test of a file taken as moved was added
      elsewhere, each addition standing for one test. */
  lemma {:induction false} MovedTestsWereAdded(files: seq<Judged>, tests: Counter, asserts: multiset<string>, x: string)
    requires NeverNegative(tests)
    requires forall k, i, j :: 0 <= k < |files| && 0 <= i < j < |files[k].removedTests| ==>
               files[k].removedTests[i] != files[k].removedTests[j]
    ensures NeverNegative(AcrossFrom(files, tests, asserts).tests)
    ensures At(AcrossFrom(files, tests, asserts).tests, x) == At(tests, x) - MovedTests(files, tests, asserts)[x]
    ensures MovedTests(files, tests, asserts)[x] <= At(tests, x)
  {
    if files != [] {
      var n := |files| - 1;
      MovedTestsWereAdded(files[..n], tests, asserts, x);
      var before := AcrossFrom(files[..n], tests, asserts).tests;
      if files[n].deleted && Moved(before, files[n].removedTests) {
        MoveIsBacked(before, files[n].removedTests);
        MinusCounts(before, files[n].removedTests, x);
      }
    }
  }

  lemma {:induction false} NeverAddedStaysZero(files: seq<Judged>, tests: Counter, asserts: multiset<string>,
      name: string)
    requires At(tests, name) == 0
    ensures At(AcrossFrom(files, tests, asserts).tests, name) == 0
  {
    if files != [] {
      var n := |files| - 1;
      NeverAddedStaysZero(files[..n], tests, asserts, name);
      var left := AcrossFrom(files[..n], tests, asserts).tests;
      MinusCounts(left, files[n].removedTests, name);
    }
  }

  // The file has no tests, or one that is not among those added.
  ghost predicate Unmovable(f: Judged, tests: Counter) {
    f.removedTests == [] || exists name :: name in f.removedTests && At(tests, name) == 0
  }

  lemma StaysUnmovable(files: seq<Judged>, tests: Counter, asserts: multiset<string>, f: Judged)
    requires Unmovable(f, tests)
    ensures !Moved(AcrossFrom(files, tests, asserts).tests, f.removedTests)
  {
    if f.removedTests != [] {
      var name :| name in f.removedTests && At(tests, name) == 0;
      NeverAddedStaysZero(files, tests, asserts, name);
      var i :| 0 <= i < |f.removedTests| && f.removedTests[i] == name;
    }
  }

  /** A deleted file is reported that has no test, or one that no file adds, wherever it stands. */
  lemma {:induction false} UnmovedFileIsReported(files: seq<Judged>, tests: Counter, asserts: multiset<string>,
      f: Judged)
    requires f in files && f.deleted && Unmovable(f, tests)
    ensures TestFileDeleted(f.path) in AcrossFrom(files, tests, asserts).findings
  {
    var n := |files| - 1;
    FindingsGrow(files[n], AcrossFrom(files[..n], tests, asserts));
    if f == files[n] {
      StaysUnmovable(files[..n], tests, asserts, f);
    } else {
      UnmovedFileIsReported(files[..n], tests, asserts, f);
    }
  }

  lemma FindingsGrow(f: Judged, before: Pass)
    ensures forall x :: x in before.findings ==> x in AcrossOne(f, before).findings
    ensures f.deleted && !Moved(before.tests, f.removedTests) ==>
              TestFileDeleted(f.path) in AcrossOne(f, before).findings
  {
  }

  lemma {:induction false} PlusCounts(c: Counter, names: seq<string>, x: string)
    ensures At(Plus(c, names), x) == At(c, x) + multiset(names)[x]
    decreases |names|
  {
    if names != [] {
      PlusCounts(c[names[0] := At(c, names[0]) + 1], names[1..], x);
      assert names == [names[0]] + names[1..];
    }
  }

  /** The counts the pass starts from are zero exactly for the tests no file adds. */
  lemma {:induction false} CountsOfAdded(files: seq<Judged>, x: string)
    ensures At(AllAdded(files), x) >= 0
    ensures At(AllAdded(files), x) == 0 <==> forall k :: 0 <= k < |files| ==> x !in files[k].addedTests
  {
    if files != [] {
      var n := |files| - 1;
      CountsOfAdded(files[..n], x);
      PlusCounts(AllAdded(files[..n]), files[n].addedTests, x);
      assert multiset(files[n].addedTests)[x] == 0 <==> x !in files[n].addedTests;
    }
  }

  /** A file that names a test twice takes two additions for one: of two deleted files and one that
      adds a test, three tests gone and one added, nothing is reported. */
  lemma DuplicateNamesPassAsMoved(t: string, files: seq<Judged>)
    requires |files| == 3 && !files[0].deleted && files[0].addedTests == [t] && files[0].kept == []
    requires files[1].deleted && files[1].removedTests == [t, t] && files[1].addedTests == []
    requires files[2].deleted && files[2].removedTests == [t] && files[2].addedTests == []
    ensures AcrossFrom(files, AllAdded(files), AllUnused(files)).findings == []
    ensures !AllWereAdded(files, AllAdded(files), AllUnused(files))
  {
    var asserts, c: Counter := AllUnused(files), map[t := 1];
    assert files == [files[0], files[1], files[2]];
    AddedByTheFirst(t, files);
    AcrossTwo(files[0], files[1], c, asserts);
    AcrossOneMore([files[0], files[1]], files[2], c, asserts);
    assert [files[0], files[1]] + [files[2]] == files;
    QuietStep(files[0], Pass([], c, asserts));
    TakenTwice(t);
    TestsLeft(files, c, asserts, t);
  }

  lemma TakenTwice(t: string)
    ensures var c: Counter := map[t := 1];
            && Moved(c, [t, t]) && Moved(Minus(c, [t, t]), [t]) && At(Minus(Minus(c, [t, t]), [t]), t) == -2
  {
    var c: Counter := map[t := 1];
    MinusCounts(c, [t, t], t);
    MinusCounts(Minus(c, [t, t]), [t], t);
  }

  lemma AddedByTheFirst(t: string, files: seq<Judged>)
    requires |files| == 3 && files[0].addedTests == [t] && files[1].addedTests == files[2].addedTests == []
    ensures AllAdded(files) == map[t := 1]
  {
    assert files[..2][..1] == files[..1] && files[..1][..0] == [];
    assert AllAdded(files[..1]) == Plus(AllAdded([]), [t]) == map[t := 1];
    assert AllAdded(files[..2]) == Plus(AllAdded(files[..1]), []);
  }
}
