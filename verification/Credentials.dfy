/**
 The credential store (packs/db/credentials.go): values kept in one table, each node's copy of them,
 and the (count, newest write) stamp that tells a node to read them again. Sealing is left out.
 */
module Credentials {
  import opened Wrappers

  datatype Row = Row(value: string, at: int)

  type Table = map<string, Row>

  datatype Version = Version(count: nat, newest: int)

  // max(updated_at), the epoch without a row.
  ghost function Newest(t: Table): int {
    if t == map[] then 0
    else
      var k :| k in t;
      var rest := Newest(t - {k});
      if t[k].at > rest then t[k].at else rest
  }

  lemma {:induction false} NewestIsTheMaximum(t: Table)
    ensures forall k :: k in t ==> t[k].at <= Newest(t)
    ensures Newest(t) == 0 || exists k :: k in t && t[k].at == Newest(t)
    ensures 0 <= Newest(t)
  {
    if t != map[] {
      var k :| k in t && Newest(t) == if t[k].at > Newest(t - {k}) then t[k].at else Newest(t - {k});
      NewestIsTheMaximum(t - {k});
      forall j | j in t
        ensures t[j].at <= Newest(t)
      {
        assert j == k || (j in t - {k} && (t - {k})[j] == t[j]);
      }
      if t[k].at > Newest(t - {k}) {
        assert k in t && t[k].at == Newest(t);
      } else if Newest(t) != 0 {
        var j :| j in t - {k} && (t - {k})[j].at == Newest(t - {k});
        assert j in t && t[j].at == Newest(t);
      }
    }
  }

  ghost function VersionOf(t: Table): Version {
    Version(|t|, Newest(t))
  }

  function Values(t: Table): map<string, string> {
    map k | k in t :: t[k].value
  }

  /** The store on one node, call after call: its copy of the values and the version it was read at. */
  class CredentialStore {
    const hasKey: bool
    var table: Table
    var overrides: map<string, string>
    var seen: Option<Version>

    constructor (hasKey: bool)
      ensures this.hasKey == hasKey && table == map[] && overrides == map[] && seen == None
    {
      this.hasKey, table, overrides, seen := hasKey, map[], map[], None;
    }

    method ReadVersion() returns (v: Version)
      ensures v == VersionOf(table)
    {
      var newest := 0;
      var todo := table.Keys;
      while todo != {}
        invariant todo <= table.Keys && newest >= 0
        invariant forall k :: k in table && k !in todo ==> table[k].at <= newest
        invariant newest == 0 || exists k :: k in table && table[k].at == newest
        decreases todo
      {
        var k :| k in todo;
        if table[k].at > newest {
          newest := table[k].at;
        }
        todo := todo - {k};
      }
      NewestIsTheMaximum(table);
      v := Version(|table|, newest);
    }

    method Load()
      modifies this`overrides, this`seen
      ensures !hasKey ==> overrides == old(overrides) && seen == old(seen)
      ensures hasKey ==> overrides == Values(table) && seen == Some(VersionOf(table))
    {
      if !hasKey {
        return;
      }
      var v := ReadVersion();
      overrides := map k | k in table :: table[k].value;
      seen := Some(v);
    }

    method Refresh() returns (loaded: bool)
      modifies this`overrides, this`seen
      ensures loaded <==> Some(VersionOf(table)) != old(seen)
      ensures !loaded ==> overrides == old(overrides) && seen == old(seen)
      ensures loaded && hasKey ==> overrides == Values(table) && seen == Some(VersionOf(table))
    {
      var v := ReadVersion();
      loaded := Some(v) != seen;
      if loaded {
        Load();
      }
    }

    method Save(name: string, value: string, now: int) returns (ok: bool)
      modifies this`table, this`overrides
      ensures ok == hasKey
      ensures table == if ok then old(table)[name := Row(value, now)] else old(table)
      ensures overrides == if ok then old(overrides)[name := value] else old(overrides)
    {
      ok := hasKey;
      if ok {
        table := table[name := Row(value, now)];
        overrides := overrides[name := value];
      }
    }

    method Delete(name: string)
      modifies this`table, this`overrides
      ensures table == old(table) - {name} && overrides == old(overrides) - {name}
    {
      table := table - {name};
      overrides := overrides - {name};
    }

    /** Ensure: the stored value, storing the given one first when there is none. */
    method Ensure(name: string, generated: string, now: int) returns (r: Option<string>)
      modifies this`table, this`overrides
      ensures r == if !hasKey then None
                   else if name in old(table) then Some(old(table)[name].value) else Some(generated)
      ensures table == if r.Some? && name !in old(table) then old(table)[name := Row(generated, now)] else old(table)
      ensures overrides == if r.Some? then old(overrides)[name := r.value] else old(overrides)
    {
      if !hasKey {
        return None;
      }
      if name !in table {
        table := table[name := Row(generated, now)];
      }
      overrides := overrides[name := table[name].value];
      return Some(table[name].value);
    }
  }

  // ---- Every interleaving of writes from any number of nodes ----

  // A value an Ensure call returned.
  datatype Answer = Answer(name: string, value: string)

  // last: the time of the newest write so far; inserted: Ensure calls past their insert.
  datatype State = State(table: Table, last: int, inserted: map<nat, string>, answers: seq<Answer>)

  datatype Step =
    | Save(name: string, value: string, at: int)
    | Delete(name: string)
    | EnsureInsert(call: nat, name: string, generated: string, at: int)
    | EnsureRead(call: nat)

  // Write times strictly increase: a step at an older time is not taken.
  function Apply(s: State, e: Step): State {
    match e
    case Save(name, value, at) => if at <= s.last then s else s.(table := s.table[name := Row(value, at)], last := at)
    case Delete(name) => s.(table := s.table - {name})
    case EnsureInsert(call, name, generated, at) =>
      if call in s.inserted || at <= s.last then s
      else if name in s.table then s.(inserted := s.inserted[call := name])
      else s.(table := s.table[name := Row(generated, at)], last := at, inserted := s.inserted[call := name])
    case EnsureRead(call) =>
      if call !in s.inserted || s.inserted[call] !in s.table then s
      else s.(answers := s.answers + [Answer(s.inserted[call], s.table[s.inserted[call]].value)])
  }

  function Exec(s: State, es: seq<Step>): State {
    if es == [] then s else Apply(Exec(s, es[..|es| - 1]), es[|es| - 1])
  }

  const EMPTY := State(map[], 0, map[], [])

  predicate Dated(s: State) {
    0 <= s.last && forall k :: k in s.table ==> 0 < s.table[k].at <= s.last
  }

  // Every row of t is one of s's as it was, or was written after all of s's.
  predicate OldOrNewer(s: State, t: Table) {
    forall k :: k in t ==> t[k].at > s.last || (k in s.table && t[k] == s.table[k])
  }

  lemma {:induction false} RowsAreOldOrNewer(s: State, es: seq<Step>)
    requires Dated(s)
    ensures Dated(Exec(s, es)) && s.last <= Exec(s, es).last && OldOrNewer(s, Exec(s, es).table)
  {
    if es != [] {
      RowsAreOldOrNewer(s, es[..|es| - 1]);
    }
  }

  lemma SameSizeSubtable(a: Table, b: Table)
    requires |a| == |b| && forall k :: k in b ==> k in a && b[k] == a[k]
    ensures a == b
  {
    assert b.Keys <= a.Keys;
    assert |a.Keys| == |a| && |b.Keys| == |b|;
    if k :| k in a.Keys && k !in b.Keys {
      SubsetSize(b.Keys, a.Keys - {k});
    }
  }

  /** Two states of one run with the same count and newest write time hold the same rows. */
  lemma SameVersionSameTable(s: State, es: seq<Step>)
    requires Dated(s) && VersionOf(Exec(s, es).table) == VersionOf(s.table)
    ensures Exec(s, es).table == s.table
  {
    var t := Exec(s, es).table;
    RowsAreOldOrNewer(s, es);
    NewestIsTheMaximum(s.table);
    NewestIsTheMaximum(t);
    assert Newest(s.table) <= s.last;
    SameSizeSubtable(s.table, t);
  }

  /** A node reads the version at s, the rows after fs and compares versions after gs. When it then
      skips the reload, the table is the one whose version it read, and the rows it holds are the
      table's exactly when the version right after reading them was still the one before. */
  lemma SkippedReload(s: State, fs: seq<Step>, gs: seq<Step>)
    requires Dated(s) && VersionOf(Exec(Exec(s, fs), gs).table) == VersionOf(s.table)
    ensures var rows, now := Exec(s, fs).table, Exec(Exec(s, fs), gs).table;
            now == s.table && (rows == now <==> VersionOf(rows) == VersionOf(s.table))
  {
    RunsJoin(s, fs, gs);
    SameVersionSameTable(s, fs + gs);
    if VersionOf(Exec(s, fs).table) == VersionOf(s.table) {
      SameVersionSameTable(s, fs);
    }
  }

  lemma {:induction false} RunsJoin(s: State, es: seq<Step>, fs: seq<Step>)
    ensures Exec(s, es + fs) == Exec(Exec(s, es), fs)
  {
    if fs == [] {
      assert es + fs == es;
    } else {
      RunsJoin(s, es, fs[..|fs| - 1]);
      assert (es + fs)[..|es + fs| - 1] == es + fs[..|fs| - 1];
    }
  }

  // ---- A node that loads, while others write ----

  // pending: the version a load under way has read; seen: that of the last load; copy: the values it keeps.
  datatype Node = Node(pending: Option<Version>, seen: Option<Version>, copy: map<string, string>)

  datatype World = World(s: State, node: Node)

  datatype Move =
    | Write(step: Step)
    | LoadVersion
    | LoadRows

  ghost function Moved(w: World, m: Move): World {
    match m
    case Write(step) => w.(s := Apply(w.s, step))
    case LoadVersion => w.(node := w.node.(pending := Some(VersionOf(w.s.table))))
    case LoadRows =>
      if w.node.pending.None? then w else w.(node := Node(None, w.node.pending, Values(w.s.table)))
  }

  ghost function After(w: World, ms: seq<Move>): World {
    if ms == [] then w else Moved(After(w, ms[..|ms| - 1]), ms[|ms| - 1])
  }

  // Refresh would not load again.
  ghost predicate Skips(w: World) {
    w.node.seen == Some(VersionOf(w.s.table))
  }

  function Writes(es: seq<Step>): (ms: seq<Move>)
    ensures |ms| == |es|
  {
    seq(|es|, i requires 0 <= i < |es| => Write(es[i]))
  }

  lemma {:induction false} WritesOnly(w: World, es: seq<Step>)
    ensures After(w, Writes(es)) == World(Exec(w.s, es), w.node)
  {
    if es != [] {
      WritesOnly(w, es[..|es| - 1]);
      assert Writes(es)[..|es| - 1] == Writes(es[..|es| - 1]);
    }
  }

  lemma {:induction false} AfterJoin(w: World, ms: seq<Move>, ns: seq<Move>)
    ensures After(w, ms + ns) == After(After(w, ms), ns)
  {
    if ns == [] {
      assert ms + ns == ms;
    } else {
      AfterJoin(w, ms, ns[..|ns| - 1]);
      assert (ms + ns)[..|ms + ns| - 1] == ms + ns[..|ns| - 1];
    }
  }

  lemma OneMove(w: World, m: Move)
    ensures After(w, [m]) == Moved(w, m)
  {
    assert [m][..0] == [];
  }

  // A load, with the writes between its two reads and those after it.
  function LoadAmong(fs: seq<Step>, gs: seq<Step>): seq<Move> {
    [LoadVersion] + Writes(fs) + [LoadRows] + Writes(gs)
  }

  lemma LoadEnds(w: World, fs: seq<Step>, gs: seq<Step>)
    ensures After(w, LoadAmong(fs, gs)) ==
            World(Exec(Exec(w.s, fs), gs), Node(None, Some(VersionOf(w.s.table)), Values(Exec(w.s, fs).table)))
  {
    AfterJoin(w, [LoadVersion] + Writes(fs) + [LoadRows], Writes(gs));
    AfterJoin(w, [LoadVersion] + Writes(fs), [LoadRows]);
    AfterJoin(w, [LoadVersion], Writes(fs));
    OneMove(w, LoadVersion);
    var read := Moved(w, LoadVersion);
    WritesOnly(read, fs);
    OneMove(World(Exec(w.s, fs), read.node), LoadRows);
    WritesOnly(Moved(World(Exec(w.s, fs), read.node), LoadRows), gs);
  }

  /** A node that would skip its reload keeps a copy of the table as it is exactly when the rows it loaded
      have the same values; they are the table's rows exactly when the version had not moved between its
      two reads. */
  lemma CopyWhenSkipped(w: World, fs: seq<Step>, gs: seq<Step>)
    requires Dated(w.s) && Skips(After(w, LoadAmong(fs, gs)))
    ensures var end, rows := After(w, LoadAmong(fs, gs)), Exec(w.s, fs).table;
            && end.node.copy == Values(rows) && end.s.table == w.s.table
            && (rows == end.s.table <==> VersionOf(rows) == end.node.seen.value)
            && (VersionOf(rows) == end.node.seen.value ==> end.node.copy == Values(end.s.table))
  {
    LoadEnds(w, fs, gs);
    SkippedReload(w.s, fs, gs);
  }

  /** A value saved between the two reads and deleted later leaves the version as it was read: the
      reload is skipped and the node keeps the deleted value. */
  lemma StaleAfterADelete(name: string, value: string, node: Node)
    ensures var end := After(World(EMPTY, node), LoadAmong([Save(name, value, 1)], [Delete(name)]));
            Skips(end) && name in end.node.copy && name !in Values(end.s.table)
  {
    var save, delete := Save(name, value, 1), Delete(name);
    LoadEnds(World(EMPTY, node), [save], [delete]);
    assert [save][..0] == [] && [delete][..0] == [];
    assert Exec(EMPTY, [save]) == Apply(Exec(EMPTY, []), save);
    var rows := Exec(EMPTY, [save]);
    assert Exec(rows, [delete]) == Apply(Exec(rows, []), delete);
    assert Exec(rows, [delete]).table == map[];
  }

  // The step writes or deletes the name's value.
  predicate Touches(e: Step, name: string) {
    (e.Save? || e.Delete?) && e.name == name
  }

  // A call past its insert finds a value, and every value returned is the stored one.
  predicate Agreed(s: State, name: string) {
    && (forall c :: c in s.inserted && s.inserted[c] == name ==> name in s.table)
    && (forall i :: 0 <= i < |s.answers| && s.answers[i].name == name ==>
          name in s.table && s.answers[i].value == s.table[name].value)
  }

  lemma StepKeepsAgreed(s: State, e: Step, name: string)
    requires Agreed(s, name) && !Touches(e, name)
    ensures Agreed(Apply(s, e), name)
  {
    match e
    case Save(_, _, _) =>
    case Delete(_) =>
    case EnsureInsert(_, _, _, _) =>
    case EnsureRead(_) =>
  }

  /** All Ensure calls for a name on all nodes return one value while nobody saves or deletes it, and
      a call past its insert always finds a value. */
  lemma {:induction false} EnsureAgrees(es: seq<Step>, name: string)
    requires forall i :: 0 <= i < |es| ==> !Touches(es[i], name)
    ensures Agreed(Exec(EMPTY, es), name)
  {
    if es != [] {
      EnsureAgrees(es[..|es| - 1], name);
      StepKeepsAgreed(Exec(EMPTY, es[..|es| - 1]), es[|es| - 1], name);
    }
  }

  /** The first value stored stays: later Ensure calls do not replace it. */
  lemma {:induction false} FirstValueStays(s: State, es: seq<Step>, name: string)
    requires name in s.table && forall i :: 0 <= i < |es| ==> !Touches(es[i], name)
    ensures name in Exec(s, es).table && Exec(s, es).table[name] == s.table[name]
  {
    if es != [] {
      FirstValueStays(s, es[..|es| - 1], name);
      assert !Touches(es[|es| - 1], name);
    }
  }
}
