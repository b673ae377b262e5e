/**
 How a script that runs outside a transaction is cut into statements (packs/db/migrate.go:297-335):
 comment lines and blank lines dropped, a statement ending at a line that ends with a semicolon.
 */
module Statements {
  import opened Text
  import opened Grouping

  const NL := '\n'

  type Lines = seq<string>

  predicate HasSuffix(s: string, p: string) {
    |p| <= |s| && s[|s| - |p|..] == p
  }

  predicate Contains(s: string, p: string) {
    exists i {:trigger s[i..i + |p|]} :: 0 <= i <= |s| - |p| && s[i..i + |p|] == p
  }

  predicate IsComment(line: string) {
    "--" <= TrimSpace(line)
  }

  predicate IsBlank(line: string) {
    TrimSpace(line) == ""
  }

  predicate IsText(line: string) {
    !IsComment(line)
  }

  predicate IsSolid(line: string) {
    !IsBlank(line)
  }

  predicate IsKept(line: string) {
    IsText(line) && IsSolid(line)
  }

  // The line ends a statement.
  predicate Ends(line: string) {
    var t := TrimSpace(line);
    HasSuffix(t, ";") || Contains(t, "; --")
  }

  function Unlines(lines: Lines): string {
    if lines == [] then "" else lines[0] + [NL] + Unlines(lines[1..])
  }

  // ---- What it computes ----

  // The lines a script is made of: neither comments nor blank.
  function Kept(lines: Lines): Lines {
    Filter(lines, IsKept)
  }

  function Pieces(groups: seq<Lines>): (r: seq<string>)
    ensures |r| == |groups| && forall i :: 0 <= i < |r| ==> r[i] == TrimSpace(Unlines(groups[i]))
  {
    seq(|groups|, i requires 0 <= i < |groups| => TrimSpace(Unlines(groups[i])))
  }

  // The kept lines, cut after each line that ends a statement.
  function GroupsOf(script: string): seq<Lines> {
    Cuts(Kept(Split(script, NL)), Ends)
  }

  function Statements(script: string): seq<string> {
    Pieces(GroupsOf(script))
  }

  // ---- The program ----

  method StripComments(script: string) returns (b: string)
    ensures b == Unlines(Filter(Split(script, NL), IsText))
  {
    b := "";
    var lines := Split(script, NL);
    assert lines[..0] == [];
    for i := 0 to |lines|
      invariant b == Unlines(Filter(lines[..i], IsText))
    {
      FilterNext(lines, i, IsText);
      UnlinesAppend(Filter(lines[..i], IsText), lines[i]);
      if !IsComment(lines[i]) {
        b := b + lines[i] + [NL];
      }
    }
    assert lines[..|lines|] == lines;
  }

  method CutScript(script: string) returns (out: seq<string>)
    ensures out == Statements(script)
  {
    out := [];
    var cur := "";
    var stripped := StripComments(script);
    var lines := Split(stripped, NL);
    ghost var open: Lines, cut: seq<Lines> := [], [];
    assert lines[..0] == [];
    for i := 0 to |lines|
      invariant Halfway(Filter(lines[..i], IsSolid), out, cur, cut, open)
    {
      FilterNext(lines, i, IsSolid);
      if IsBlank(lines[i]) {
        continue;
      }
      OneLineOn(Filter(lines[..i], IsSolid), out, cur, cut, open, lines[i]);
      cur := cur + lines[i] + [NL];
      open := open + [lines[i]];
      if Ends(lines[i]) {
        out := out + [TrimSpace(cur)];
        cur := "";
        cut, open := cut + [open], [];
      }
    }
    assert lines[..|lines|] == lines;
    StrippedLines(script);
    LastPiece(script, out, cur, cut, open);
    var s := TrimSpace(cur);
    if s != "" {
      out := out + [s];
    }
  }

  // out holds the pieces that have ended and cur the text of the one that has not.
  ghost predicate Halfway(lines: Lines, out: seq<string>, cur: string, cut: seq<Lines>, open: Lines) {
    OpenCut(lines, cut, open, Ends) && out == Pieces(cut) && cur == Unlines(open)
  }

  lemma OneLineOn(lines: Lines, out: seq<string>, cur: string, cut: seq<Lines>, open: Lines, line: string)
    requires Halfway(lines, out, cur, cut, open)
    ensures var longer := cur + line + [NL];
            if Ends(line) then Halfway(lines + [line], out + [TrimSpace(longer)], "", cut + [open + [line]], [])
            else Halfway(lines + [line], out, longer, cut, open + [line])
  {
    NextElement(lines, cut, open, line, Ends);
    UnlinesAppend(open, line);
    PiecesAppend(cut, open + [line]);
  }

  // What is left at the end is blank only when no line is left.
  lemma LastPiece(script: string, out: seq<string>, cur: string, cut: seq<Lines>, open: Lines)
    requires Halfway(Kept(Split(script, NL)), out, cur, cut, open)
    ensures Statements(script) == if TrimSpace(cur) == "" then out else out + [TrimSpace(cur)]
  {
    LastGroup(Kept(Split(script, NL)), cut, open, Ends);
    if open == [] {
      assert TrimSpace(Unlines([])) == "";
    } else {
      SolidGroupsOf(script);
      assert GroupsOf(script)[|cut|] == open;
      PieceLines(open);
      PiecesAppend(cut, open);
    }
  }

  // ---- Joining and trimming ----

  lemma {:induction false} UnlinesJoin(a: Lines, b: Lines)
    ensures Unlines(a + b) == Unlines(a) + Unlines(b)
  {
    if a == [] {
      assert a + b == b;
    } else {
      assert (a + b)[1..] == a[1..] + b;
      UnlinesJoin(a[1..], b);
    }
  }

  lemma UnlinesAppend(lines: Lines, last: string)
    ensures Unlines(lines + [last]) == Unlines(lines) + last + [NL]
  {
    UnlinesJoin(lines, [last]);
    assert Unlines([last]) == last + [NL] + Unlines([]);
  }

  lemma PiecesAppend(groups: seq<Lines>, group: Lines)
    ensures Pieces(groups + [group]) == Pieces(groups) + [TrimSpace(Unlines(group))]
  {
  }

  lemma {:induction false} SplitUnlines(lines: Lines)
    requires forall l :: l in lines ==> NL !in l
    ensures Split(Unlines(lines), NL) == lines + [""]
  {
    if lines != [] {
      SplitUnlines(lines[1..]);
      SplitFirst(lines[0], NL, Unlines(lines[1..]));
    }
  }

  lemma {:induction false} FilterTwice(lines: Lines)
    ensures Filter(Filter(lines, IsText), IsSolid) == Kept(lines)
  {
    if lines != [] {
      FilterTwice(lines[1..]);
      var first, rest := [lines[0]], Filter(lines[1..], IsText);
      FilterJoin(first, rest, IsSolid);
      FilterOne(lines[0], IsSolid);
      assert Filter(lines, IsText) == if IsText(lines[0]) then first + rest else rest;
    }
  }

  // The lines of the stripped script that are not blank are the lines kept.
  lemma StrippedLines(script: string)
    ensures var text := Filter(Split(script, NL), IsText);
            Filter(Split(Unlines(text), NL), IsSolid) == Kept(Split(script, NL))
  {
    var text := Filter(Split(script, NL), IsText);
    FilterHas(Split(script, NL), IsText);
    SplitUnlines(text);
    FilterJoin(text, [""], IsSolid);
    FilterOne("", IsSolid);
    FilterTwice(Split(script, NL));
  }

  lemma {:induction false} JoinAppend(lines: Lines, last: string)
    requires lines != []
    ensures Join(lines + [last], NL) == Join(lines, NL) + [NL] + last
  {
    if |lines| > 1 {
      JoinAppend(lines[1..], last);
      assert (lines + [last])[1..] == lines[1..] + [last];
    }
  }

  lemma {:induction false} UnlinesIsJoin(lines: Lines)
    requires lines != []
    ensures Unlines(lines) == Join(lines, NL) + [NL]
  {
    if |lines| > 1 {
      UnlinesIsJoin(lines[1..]);
    } else {
      assert lines[1..] == [];
    }
  }

  lemma {:induction false} TrimLeftJoin(a: string, b: string)
    ensures TrimLeft(a + b) == if TrimLeft(a) == "" then TrimLeft(b) else TrimLeft(a) + b
  {
    if a == "" {
      assert a + b == b;
    } else {
      assert (a + b)[1..] == a[1..] + b;
      TrimLeftJoin(a[1..], b);
    }
  }

  lemma {:induction false} TrimRightJoin(a: string, b: string)
    ensures TrimRight(a + b) == if TrimRight(b) == "" then TrimRight(a) else a + TrimRight(b)
  {
    if b == "" {
      assert a + b == a;
    } else {
      assert (a + b)[..|a + b| - 1] == a + b[..|b| - 1];
      TrimRightJoin(a, b[..|b| - 1]);
    }
  }

  // The two ends can be trimmed in either order, and trimming twice is trimming once.
  lemma {:induction false} TrimsCommute(s: string)
    ensures TrimLeft(TrimRight(s)) == TrimSpace(s)
    ensures TrimSpace(TrimLeft(s)) == TrimSpace(s) && TrimSpace(TrimRight(s)) == TrimSpace(s)
    ensures TrimLeft(s) == "" <==> TrimRight(s) == ""
  {
    if s != "" {
      TrimsCommute(s[1..]);
      TrimRightJoin([s[0]], s[1..]);
      assert s == [s[0]] + s[1..];
      assert TrimRight("") == "" && TrimRight([s[0]]) == if IsSpace(s[0]) then "" else [s[0]];
    }
  }

  // A group's lines as its piece holds them.
  function Trimmed(group: Lines): (r: Lines)
    requires group != []
    ensures |r| == |group|
  {
    if |group| == 1 then [TrimSpace(group[0])]
    else [TrimLeft(group[0])] + group[1..|group| - 1] + [TrimRight(group[|group| - 1])]
  }

  predicate Solid(lines: Lines) {
    forall l :: l in lines ==> !IsBlank(l) && NL !in l
  }

  lemma {:induction false} TrimLeftWithin(s: string)
    ensures forall c :: c in TrimLeft(s) ==> c in s
  {
    if s != "" {
      TrimLeftWithin(s[1..]);
    }
  }

  // The line read the same, trimmed on either side or both.
  predicate Alike(l: string, like: string) {
    TrimSpace(l) == TrimSpace(like) && NL !in l
  }

  lemma TrimmedLine(l: string)
    requires NL !in l
    ensures Alike(TrimLeft(l), l) && Alike(TrimRight(l), l) && Alike(TrimSpace(l), l)
    ensures TrimLeft(TrimLeft(l)) == TrimLeft(l) && TrimRight(TrimRight(l)) == TrimRight(l)
  {
    TrimsCommute(l);
    TrimsCommute(TrimLeft(l));
    TrimLeftWithin(l);
    assert TrimRight(l) <= l && TrimSpace(l) <= TrimLeft(l);
  }

  lemma TrimmedAt(group: Lines, j: nat)
    requires j < |group| && Solid(group)
    ensures Alike(Trimmed(group)[j], group[j])
  {
    assert group[j] in group;
    TrimmedLine(group[j]);
    var n := |group|;
    if n == 1 || j == 0 || j == n - 1 {
      return;
    }
    assert Trimmed(group)[j] == group[1..n - 1][j - 1] == group[j];
  }

  lemma TrimmedLines(group: Lines)
    requires group != [] && Solid(group)
    ensures Solid(Trimmed(group))
    ensures forall j :: 0 <= j < |group| ==> TrimSpace(Trimmed(group)[j]) == TrimSpace(group[j])
  {
    forall j | 0 <= j < |group|
      ensures Alike(Trimmed(group)[j], group[j]) && !IsBlank(group[j])
    {
      TrimmedAt(group, j);
      assert group[j] in group;
    }
  }

  lemma TrimmedTwice(group: Lines)
    requires group != [] && Solid(group)
    ensures Trimmed(Trimmed(group)) == Trimmed(group)
  {
    var n := |group|;
    assert group[0] in group && group[n - 1] in group;
    TrimmedLine(group[0]);
    TrimmedLine(group[n - 1]);
  }

  lemma TrimRightEnd(a: string)
    ensures TrimRight(a + [NL]) == TrimRight(a)
  {
    assert [NL][..0] == "" && TrimRight([NL]) == TrimRight("");
    TrimRightJoin(a, [NL]);
  }

  lemma UnlinesFirst(line: string, rest: Lines)
    ensures Unlines([line] + rest) == line + [NL] + Unlines(rest)
  {
  }

  // The text of a group of two lines or more, trimmed on the left, then on the right.
  lemma PieceOfMany(first: string, inner: Lines, last: string)
    requires !IsBlank(first) && !IsBlank(last)
    ensures TrimSpace(Unlines([first] + (inner + [last]))) == Join([TrimLeft(first)] + inner + [TrimRight(last)], NL)
  {
    var head := [TrimLeft(first)] + inner;
    LeftOfMany(first, inner + [last]);
    assert head + [last] == [TrimLeft(first)] + (inner + [last]);
    UnlinesIsJoin(head + [last]);
    TrimRightEnd(Join(head + [last], NL));
    JoinAppend(head, last);
    JoinAppend(head, TrimRight(last));
    TrimsCommute(last);
    TrimRightJoin(Join(head, NL) + [NL], last);
  }

  lemma LeftOfMany(first: string, rest: Lines)
    requires !IsBlank(first)
    ensures TrimLeft(Unlines([first] + rest)) == Unlines([TrimLeft(first)] + rest)
  {
    TrimsCommute(first);
    LeftOfText(first, Unlines(rest));
    UnlinesFirst(first, rest);
    UnlinesFirst(TrimLeft(first), rest);
  }

  lemma LeftOfText(first: string, text: string)
    requires TrimLeft(first) != ""
    ensures TrimLeft(first + [NL] + text) == TrimLeft(first) + [NL] + text
  {
    Regroup(first, [NL], text);
    Regroup(TrimLeft(first), [NL], text);
    TrimLeftJoin(first, [NL] + text);
  }

  lemma PieceText(group: Lines)
    requires group != [] && Solid(group)
    ensures TrimSpace(Unlines(group)) == Join(Trimmed(group), NL)
  {
    var n := |group|;
    assert group[0] in group && group[n - 1] in group;
    if n == 1 {
      PieceOfOne(group[0]);
      assert group == [group[0]];
      assert Join([TrimSpace(group[0])], NL) == TrimSpace(group[0]);
    } else {
      var inner := group[1..n - 1];
      assert group == [group[0]] + (inner + [group[n - 1]]);
      PieceOfMany(group[0], inner, group[n - 1]);
      assert Trimmed(group) == [TrimLeft(group[0])] + inner + [TrimRight(group[n - 1])];
    }
  }

  /** A piece is its group's lines with the two ends trimmed. */
  lemma PieceLines(group: Lines)
    requires group != [] && Solid(group)
    ensures TrimSpace(Unlines(group)) == Join(Trimmed(group), NL) != ""
    ensures Split(TrimSpace(Unlines(group)), NL) == Trimmed(group)
  {
    TrimmedLines(group);
    PieceText(group);
    SplitJoin(Trimmed(group), NL);
    NotEmpty(Trimmed(group));
  }

  lemma PieceOfOne(line: string)
    requires !IsBlank(line)
    ensures TrimSpace(Unlines([line])) == TrimSpace(line)
  {
    assert Unlines([line]) == line + [NL] + Unlines([]) == line + [NL];
    TrimsCommute(line);
    TrimLeftJoin(line, [NL]);
    TrimRightEnd(TrimLeft(line));
  }

  lemma NotEmpty(lines: Lines)
    requires lines != [] && Solid(lines)
    ensures Join(lines, NL) != ""
  {
    assert lines[0] in lines && IsBlank("");
  }

  // ---- What the cutting keeps ----

  function LinesOf(pieces: seq<string>): Lines {
    if pieces == [] then [] else Split(pieces[0], NL) + LinesOf(pieces[1..])
  }

  function TrimAll(lines: Lines): Lines {
    seq(|lines|, i requires 0 <= i < |lines| => TrimSpace(lines[i]))
  }

  function TrimEach(groups: seq<Lines>): (r: seq<Lines>)
    requires forall i :: 0 <= i < |groups| ==> groups[i] != []
  {
    seq(|groups|, i requires 0 <= i < |groups| => Trimmed(groups[i]))
  }

  predicate SolidGroups(groups: seq<Lines>) {
    forall i :: 0 <= i < |groups| ==> groups[i] != [] && Solid(groups[i])
  }

  // No group of a script is empty, has a blank line, or a line break inside a line.
  lemma SolidGroupsOf(script: string)
    ensures SolidGroups(GroupsOf(script)) && IsCut(Kept(Split(script, NL)), GroupsOf(script), Ends)
    ensures forall l :: l in Kept(Split(script, NL)) ==> IsKept(l)
  {
    var kept := Kept(Split(script, NL));
    var groups := GroupsOf(script);
    CutsAreCuts(kept, Ends);
    FilterHas(Split(script, NL), IsKept);
    forall i | 0 <= i < |groups|
      ensures groups[i] != [] && Solid(groups[i])
    {
      FlattenHas(groups, i);
      assert Group(groups[i], Ends);
    }
  }

  lemma {:induction false} LinesAre(pieces: seq<string>, groups: seq<Lines>)
    requires |pieces| == |groups| && forall i :: 0 <= i < |pieces| ==> Split(pieces[i], NL) == groups[i]
    ensures LinesOf(pieces) == Flatten(groups)
  {
    if pieces != [] {
      LinesAre(pieces[1..], groups[1..]);
    }
  }

  // The lines of a script's pieces are its groups' lines, trimmed at the ends of each group.
  lemma LinesOfPieces(groups: seq<Lines>)
    requires SolidGroups(groups)
    ensures LinesOf(Pieces(groups)) == Flatten(TrimEach(groups))
  {
    forall i | 0 <= i < |groups|
      ensures Split(Pieces(groups)[i], NL) == TrimEach(groups)[i]
    {
      PieceLines(groups[i]);
    }
    LinesAre(Pieces(groups), TrimEach(groups));
  }

  lemma {:induction false} TrimmedFlat(groups: seq<Lines>)
    requires SolidGroups(groups)
    ensures TrimAll(Flatten(TrimEach(groups))) == TrimAll(Flatten(groups))
  {
    if groups != [] {
      assert SolidGroups(groups[1..]);
      TrimmedFlat(groups[1..]);
      TrimmedLines(groups[0]);
      assert TrimEach(groups)[1..] == TrimEach(groups[1..]);
      assert TrimAll(Trimmed(groups[0])) == TrimAll(groups[0]);
      TrimAllJoin(Trimmed(groups[0]), Flatten(TrimEach(groups[1..])));
      TrimAllJoin(groups[0], Flatten(groups[1..]));
    }
  }

  lemma TrimAllJoin(a: Lines, b: Lines)
    ensures TrimAll(a + b) == TrimAll(a) + TrimAll(b)
  {
  }

  /** Nothing is lost, added or moved: up to trimming, the lines of the statements in order are the
      script's lines that are neither blank nor comments. */
  lemma NothingIsLost(script: string)
    ensures TrimAll(LinesOf(Statements(script))) == TrimAll(Kept(Split(script, NL)))
  {
    SolidGroupsOf(script);
    LinesOfPieces(GroupsOf(script));
    TrimmedFlat(GroupsOf(script));
  }

  /** A statement is never empty, no line inside it ends a statement but its last, and its last line
      does in every statement but the script's last. */
  lemma EveryPieceEndsOnce(script: string, i: nat)
    requires i < |Statements(script)|
    ensures Statements(script)[i] != "" && Group(Split(Statements(script)[i], NL), Ends)
    ensures i < |Statements(script)| - 1 ==> Closed(Split(Statements(script)[i], NL), Ends)
  {
    SolidGroupsOf(script);
    var group := GroupsOf(script)[i];
    PieceLines(group);
    TrimmedEnds(group);
    assert Group(group, Ends);
    assert i < |Statements(script)| - 1 ==> Closed(group, Ends);
  }

  lemma TrimmedEnds(group: Lines)
    requires group != [] && Solid(group)
    ensures Group(Trimmed(group), Ends) == Group(group, Ends)
    ensures Closed(Trimmed(group), Ends) == Closed(group, Ends)
  {
    TrimmedLines(group);
    SameEnds(Trimmed(group), group);
    SameEnds(group, Trimmed(group));
  }

  lemma SameEnds(a: Lines, b: Lines)
    requires |a| == |b| && forall j :: 0 <= j < |a| ==> TrimSpace(a[j]) == TrimSpace(b[j])
    ensures Group(b, Ends) ==> Group(a, Ends)
    ensures Closed(b, Ends) ==> Closed(a, Ends)
  {
  }

  lemma {:induction false} SplitAcross(a: string, b: string)
    ensures Split(a + [NL] + b, NL) == Split(a, NL) + Split(b, NL)
    decreases |a|
  {
    if NL in a {
      var head, tail := AtTheBreak(a);
      SplitAcross(tail, b);
      OneMoreLine(head, tail, b);
    } else {
      LastLine(a, b);
    }
  }

  lemma AtTheBreak(a: string) returns (head: string, tail: string)
    requires NL in a
    ensures a == head + [NL] + tail && NL !in head
  {
    var i := IndexOf(a, NL);
    head, tail := a[..i], a[i + 1..];
  }

  lemma LastLine(a: string, b: string)
    requires NL !in a
    ensures Split(a + [NL] + b, NL) == Split(a, NL) + Split(b, NL)
  {
    SplitFirst(a, NL, b);
    assert Split(a, NL) == [a];
  }

  lemma OneMoreLine(head: string, tail: string, b: string)
    requires NL !in head && Split(tail + [NL] + b, NL) == Split(tail, NL) + Split(b, NL)
    ensures var a := head + [NL] + tail; Split(a + [NL] + b, NL) == Split(a, NL) + Split(b, NL)
  {
    calc {
      Split(head + [NL] + tail + [NL] + b, NL);
      { Rebracket(head, NL, tail, b); }
      Split(head + [NL] + (tail + [NL] + b), NL);
      { SplitFirst(head, NL, tail + [NL] + b); }
      [head] + (Split(tail, NL) + Split(b, NL));
      { Regroup([head], Split(tail, NL), Split(b, NL)); }
      ([head] + Split(tail, NL)) + Split(b, NL);
      { SplitFirst(head, NL, tail); }
      Split(head + [NL] + tail, NL) + Split(b, NL);
    }
  }

  lemma Regroup<T>(a: seq<T>, b: seq<T>, c: seq<T>)
    ensures a + (b + c) == (a + b) + c
  {
  }

  lemma Rebracket(a: string, c: char, b: string, d: string)
    ensures a + [c] + b + [c] + d == a + [c] + (b + [c] + d)
  {
  }

  lemma {:induction false} SplitOfJoin(pieces: seq<string>)
    requires pieces != []
    ensures Split(Join(pieces, NL), NL) == LinesOf(pieces)
  {
    if |pieces| > 1 {
      SplitOfJoin(pieces[1..]);
      SplitAcross(pieces[0], Join(pieces[1..], NL));
    } else {
      assert LinesOf(pieces[1..]) == [];
    }
  }

  lemma {:induction false} KeptOfSolid(lines: Lines, like: Lines)
    requires |lines| == |like| && TrimAll(lines) == TrimAll(like)
    requires forall l :: l in like ==> !IsComment(l) && !IsBlank(l)
    ensures Kept(lines) == lines
  {
    if lines != [] {
      assert TrimAll(lines)[0] == TrimAll(like)[0];
      assert TrimAll(lines[1..]) == TrimAll(lines)[1..] == TrimAll(like)[1..] == TrimAll(like[1..]);
      KeptOfSolid(lines[1..], like[1..]);
      assert like[0] in like;
      assert lines == [lines[0]] + lines[1..];
    }
  }

  lemma TrimmedIsCut(kept: Lines, groups: seq<Lines>)
    requires IsCut(kept, groups, Ends) && SolidGroups(groups)
    ensures IsCut(Flatten(TrimEach(groups)), TrimEach(groups), Ends)
  {
    forall i | 0 <= i < |groups|
      ensures Group(TrimEach(groups)[i], Ends) && (Closed(groups[i], Ends) ==> Closed(TrimEach(groups)[i], Ends))
    {
      TrimmedEnds(groups[i]);
    }
  }

  /** Cutting the statements joined by line breaks again gives the same statements. */
  lemma CuttingTwice(script: string)
    ensures Statements(Join(Statements(script), NL)) == Statements(script)
  {
    var kept := Kept(Split(script, NL));
    var groups := GroupsOf(script);
    var pieces := Statements(script);
    SolidGroupsOf(script);
    if pieces == [] {
      FilterOne("", IsKept);
    } else {
      SplitOfJoin(pieces);
      LinesOfPieces(groups);
      TrimmedFlat(groups);
      var lines := Flatten(TrimEach(groups));
      assert |TrimAll(lines)| == |lines|;
      KeptOfSolid(lines, kept);
      TrimmedIsCut(kept, groups);
      CutsAreUnique(lines, TrimEach(groups), Ends);
      PiecesOfTrimmed(groups);
    }
  }

  lemma PiecesOfTrimmed(groups: seq<Lines>)
    requires SolidGroups(groups)
    ensures Pieces(TrimEach(groups)) == Pieces(groups)
  {
    forall i | 0 <= i < |groups|
      ensures Pieces(TrimEach(groups))[i] == Pieces(groups)[i]
    {
      TrimmedLines(groups[i]);
      PieceLines(groups[i]);
      PieceLines(Trimmed(groups[i]));
      TrimmedTwice(groups[i]);
    }
  }

  // ---- What ends a statement and what is dropped ----

  predicate Space(s: string) {
    forall c :: c in s ==> IsSpace(c)
  }

  predicate Tight(s: string) {
    s != "" && !IsSpace(s[0]) && !IsSpace(s[|s| - 1])
  }

  lemma {:induction false} TrimLeftOf(left: string, s: string)
    requires Space(left) && (s == "" || !IsSpace(s[0]))
    ensures TrimLeft(left + s) == s
  {
    if left == "" {
      assert left + s == s;
    } else {
      assert (left + s)[1..] == left[1..] + s;
      TrimLeftOf(left[1..], s);
    }
  }

  lemma {:induction false} TrimRightOf(s: string, right: string)
    requires Space(right) && (s == "" || !IsSpace(s[|s| - 1]))
    ensures TrimRight(s + right) == s
  {
    if right == "" {
      assert s + right == s;
    } else {
      assert (s + right)[..|s + right| - 1] == s + right[..|right| - 1];
      TrimRightOf(s, right[..|right| - 1]);
    }
  }

  /** Trimming takes the white space off both ends and nothing else. */
  lemma TrimSpaceOf(left: string, s: string, right: string)
    requires Space(left) && Space(right) && (s == "" || Tight(s))
    ensures TrimSpace(left + s + right) == s
  {
    if s == "" {
      assert left + s + right == left + right;
      SpaceTrims(left + right);
    } else {
      assert left + s + right == left + (s + right);
      TrimLeftOf(left, s + right);
      TrimRightOf(s, right);
    }
  }

  lemma {:induction false} SpaceTrims(s: string)
    requires Space(s)
    ensures TrimSpace(s) == ""
  {
    if s != "" {
      SpaceTrims(s[1..]);
    }
  }

  /** Around white space: a line is dropped when it is empty or starts with "--", and ends a statement when it
      ends with ";" or has a comment after one; a line without a semicolon ends none. */
  lemma LinesMean(left: string, s: string, right: string)
    requires Space(left) && Space(right) && (s == "" || Tight(s))
    ensures var line := left + s + right;
            && (IsBlank(line) <==> s == "") && (IsComment(line) <==> |s| >= 2 && s[..2] == "--")
            && (s != "" && s[|s| - 1] == ';' ==> Ends(line))
            && (forall a: string, b: string :: s == a + "; --" + b ==> Ends(line))
            && (';' !in s ==> !Ends(line))
  {
    TrimSpaceOf(left, s, right);
    if s != "" && s[|s| - 1] == ';' {
      assert s[|s| - 1..] == ";";
    }
    forall a: string, b: string | s == a + "; --" + b
      ensures Contains(s, "; --")
    {
      var p := "; --";
      assert s[|a|..|a| + |p|] == p;
    }
    if Contains(s, "; --") {
      var i :| 0 <= i <= |s| - 4 && s[i..i + 4] == "; --";
      assert s[i] == s[i..i + 4][0] == ';';
    }
  }
}
