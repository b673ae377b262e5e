/**
 The in-process cache (Memory in packs/cache/cache.go): a bounded TTL map with an eviction loop,
 against the unbounded map it stands in for. Each call is made at a time now, under the lock.
 */
module MemoryCache {
  import opened Wrappers
  import opened Text

  datatype Item = Item(value: string, expires: Option<int>)

  type Items = map<string, Item>

  predicate Fresh(it: Item, now: int) {
    it.expires.None? || now <= it.expires.value
  }

  function Until(ttl: int, now: int): Option<int> {
    if ttl > 0 then Some(now + ttl) else None
  }

  // ---- The bounded map ----

  datatype Mem = Mem(items: Items, order: seq<string>)

  function Evict(m: Mem, max: nat): Mem
    decreases |m.order|
  {
    if |m.items| >= max && m.order != [] then Evict(Mem(m.items - {m.order[0]}, m.order[1..]), max) else m
  }

  function Put(m: Mem, max: nat, key: string, it: Item): Mem {
    if key in m.items then Mem(m.items[key := it], m.order)
    else
      var e := Evict(m, max);
      Mem(e.items[key := it], e.order + [key])
  }

  // The entry an increment starts from.
  function Base(items: Items, key: string, ttl: int, now: int): Item {
    if key in items && Fresh(items[key], now) then items[key] else Item("0", Until(ttl, now))
  }

  function Added(it: Item, delta: int): Option<int>
    requires MIN_INT <= delta <= MAX_INT
  {
    match ParseInt(it.value)
    case None => None
    case Some(n) => Some(Wrap(n + delta))
  }

  /** At most max entries, each of them in the eviction order. */
  ghost predicate Bounded(m: Mem, max: nat) {
    max > 0 && |m.items| <= max && forall k :: k in m.items ==> k in m.order
  }

  function Among(keys: seq<string>): set<string> {
    set k | k in keys
  }

  function WithoutPrefix(items: Items, prefix: string): Items {
    map k | k in items && !(prefix <= k) :: items[k]
  }

  lemma AmongOneMore(keys: seq<string>, i: nat)
    requires i < |keys|
    ensures Among(keys[..i + 1]) == Among(keys[..i]) + {keys[i]}
  {
    assert keys[..i + 1] == keys[..i] + [keys[i]];
  }

  class Memory {
    const max: nat
    var items: Items
    var order: seq<string>

    function State(): Mem
      reads this
    {
      Mem(items, order)
    }

    ghost predicate Valid()
      reads this
    {
      Bounded(State(), max)
    }

    constructor (max: int)
      ensures Valid() && State() == Mem(map[], []) && this.max == if max <= 0 then 10000 else max
    {
      this.max, items, order := if max <= 0 then 10000 else max, map[], [];
    }

    method Get(key: string, now: int) returns (r: Option<string>)
      requires Valid()
      modifies this`items
      ensures Valid()
      ensures r == if key in old(items) && Fresh(old(items)[key], now) then Some(old(items)[key].value) else None
      ensures items == if r.Some? then old(items) else old(items) - {key}
    {
      if key !in items || (items[key].expires.Some? && now > items[key].expires.value) {
        ghost var before := items;
        items := items - {key};
        assert items.Keys == before.Keys - {key};
        return None;
      }
      return Some(items[key].value);
    }

    method Set(key: string, value: string, ttl: int, now: int)
      requires Valid()
      modifies this`items, this`order
      ensures Valid() && State() == Put(old(State()), max, key, Item(value, Until(ttl, now)))
    {
      var it := Item(value, None);
      if ttl > 0 {
        it := it.(expires := Some(now + ttl));
      }
      PutItem(key, it);
    }

    method PutItem(key: string, it: Item)
      requires Valid()
      modifies this`items, this`order
      ensures Valid() && State() == Put(old(State()), max, key, it)
    {
      PutKeepsBounded(State(), max, key, it);
      if key !in items {
        while |items| >= max && |order| > 0
          invariant Evict(State(), max) == Evict(old(State()), max)
          decreases |order|
        {
          var oldest := order[0];
          order := order[1..];
          items := items - {oldest};
        }
        order := order + [key];
      }
      items := items[key := it];
    }

    method Incr(key: string, delta: int, ttl: int, now: int) returns (r: Option<int>)
      requires Valid() && MIN_INT <= delta <= MAX_INT
      modifies this`items, this`order
      ensures Valid()
      ensures r == Added(Base(old(items), key, ttl, now), delta)
      ensures State() == if r.None? then old(State())
          else Put(old(State()), max, key, Item(FormatInt(r.value), Base(old(items), key, ttl, now).expires))
    {
      var it := Item("0", None);
      if key in items && !(items[key].expires.Some? && now > items[key].expires.value) {
        it := items[key];
      } else if ttl > 0 {
        it := it.(expires := Some(now + ttl));
      }
      var n := ParseInt(it.value);
      if n.None? {
        return None;
      }
      r := Some(Wrap(n.value + delta));
      PutItem(key, it.(value := FormatInt(r.value)));
    }

    method Delete(keys: seq<string>)
      requires Valid()
      modifies this`items
      ensures Valid() && items == old(items) - Among(keys)
    {
      for i := 0 to |keys|
        invariant items == old(items) - Among(keys[..i])
      {
        AmongOneMore(keys, i);
        assert old(items) - Among(keys[..i + 1]) == old(items) - Among(keys[..i]) - {keys[i]};
        items := items - {keys[i]};
      }
      assert keys[..|keys|] == keys;
      FewerIsBounded(old(State()), max, items);
    }

    method DeletePrefix(prefix: string)
      requires Valid()
      modifies this`items
      ensures Valid() && items == WithoutPrefix(old(items), prefix)
    {
      var todo := items.Keys;
      while todo != {}
        invariant todo <= items.Keys
        invariant forall k :: k in items <==> k in old(items) && (k in todo || !(prefix <= k))
        invariant forall k :: k in items ==> items[k] == old(items)[k]
        decreases todo
      {
        var k :| k in todo;
        if prefix <= k {
          items := items - {k};
        }
        todo := todo - {k};
      }
      FewerIsBounded(old(State()), max, items);
    }
  }

  lemma FewerIsBounded(m: Mem, max: nat, items: Items)
    requires Bounded(m, max) && items.Keys <= m.items.Keys
    ensures Bounded(Mem(items, m.order), max)
  {
    SubsetSize(items.Keys, m.items.Keys);
    assert |items| == |items.Keys| && |m.items| == |m.items.Keys|;
  }

  lemma OldestGoesFirst(m: Mem, max: nat)
    requires Bounded(m, max) && |m.items| >= max
    ensures m.order != [] && Bounded(Mem(m.items - {m.order[0]}, m.order[1..]), max)
  {
    assert m.order == [] ==> m.items == map[];
    FewerIsBounded(m, max, m.items - {m.order[0]});
    forall k | k in m.items && k != m.order[0] ensures k in m.order[1..] {
      assert m.order == [m.order[0]] + m.order[1..];
    }
  }

  lemma {:induction false} EvictMakesRoom(m: Mem, max: nat)
    requires Bounded(m, max)
    ensures |Evict(m, max).items| < max && Bounded(Evict(m, max), max)
    decreases |m.order|
  {
    if |m.items| >= max {
      OldestGoesFirst(m, max);
      EvictMakesRoom(Mem(m.items - {m.order[0]}, m.order[1..]), max);
    }
  }

  // What is left after the n oldest of the order.
  function AfterOldest(m: Mem, n: nat): Mem
    requires n <= |m.order|
  {
    Mem(m.items - Among(m.order[..n]), m.order[n..])
  }

  /** The eviction loop drops the oldest entries of the order and no more than it must. */
  lemma {:induction false} EvictDropsAPrefix(m: Mem, max: nat) returns (n: nat)
    requires Bounded(m, max)
    ensures n <= |m.order| && Evict(m, max) == AfterOldest(m, n)
    ensures forall k :: 0 <= k < n ==> |AfterOldest(m, k).items| >= max
    decreases |m.order|
  {
    AfterNone(m);
    if |m.items| < max {
      n := 0;
    } else {
      OldestGoesFirst(m, max);
      var rest := Mem(m.items - {m.order[0]}, m.order[1..]);
      var r := EvictDropsAPrefix(rest, max);
      n := r + 1;
      DropOneMore(m, r);
      NeededUntil(m, rest, max, r);
    }
  }

  lemma NeededUntil(m: Mem, rest: Mem, max: nat, r: nat)
    requires m.order != [] && rest == Mem(m.items - {m.order[0]}, m.order[1..]) && r <= |rest.order| && |m.items| >= max
    requires forall k :: 0 <= k < r ==> |AfterOldest(rest, k).items| >= max
    ensures forall k :: 0 <= k < r + 1 ==> |AfterOldest(m, k).items| >= max
  {
    AfterNone(m);
    forall k | 0 < k < r + 1 ensures |AfterOldest(m, k).items| >= max {
      DropOneMore(m, k - 1);
      assert AfterOldest(rest, k - 1).items == AfterOldest(m, k).items;
    }
  }

  lemma AfterNone(m: Mem)
    ensures AfterOldest(m, 0) == m
  {
    assert m.order[..0] == [] && m.order[0..] == m.order;
    assert m.items - Among([]) == m.items;
  }

  lemma DropOneMore(m: Mem, k: nat)
    requires k < |m.order|
    ensures m.items - {m.order[0]} - Among(m.order[1..][..k]) == m.items - Among(m.order[..k + 1])
    ensures m.order[1..][k..] == m.order[k + 1..]
  {
    assert m.order[..k + 1] == [m.order[0]] + m.order[1..][..k];
  }

  lemma PutKeepsBounded(m: Mem, max: nat, key: string, it: Item)
    requires Bounded(m, max)
    ensures Bounded(Put(m, max, key, it), max)
  {
    if key !in m.items {
      EvictMakesRoom(m, max);
    } else {
      assert m.items[key := it].Keys == m.items.Keys;
    }
  }

  // ---- The unbounded map ----

  datatype Op =
    | Get(key: string)
    | Set(key: string, value: string, ttl: int)
    | Incr(key: string, delta: int, ttl: int)
    | Delete(keys: seq<string>)
    | DeletePrefix(prefix: string)

  datatype Reply = Hit(value: string) | Miss | Number(n: int) | NotANumber | Done

  // The entries not expired at now.
  function Live(items: Items, now: int): Items {
    map k | k in items && Fresh(items[k], now) :: items[k]
  }

  // A call on a map of live entries that never forgets.
  function Ideal(a: Items, op: Op, now: int): (Items, Reply) {
    match op
    case Get(key) => (a, if key in a then Hit(a[key].value) else Miss)
    case Set(key, value, ttl) => (a[key := Item(value, Until(ttl, now))], Done)
    case Incr(key, delta, ttl) =>
      var base := if key in a then a[key] else Item("0", Until(ttl, now));
      if !(MIN_INT <= delta <= MAX_INT) then (a, NotANumber)
      else
        (match Added(base, delta)
         case None => (a, NotANumber)
         case Some(n) => (a[key := Item(FormatInt(n), base.expires)], Number(n)))
    case Delete(keys) => (a - Among(keys), Done)
    case DeletePrefix(prefix) => (WithoutPrefix(a, prefix), Done)
  }

  // The same call on Memory, as its methods' contracts have it.
  function Bound(m: Mem, max: nat, op: Op, now: int): (Mem, Reply) {
    match op
    case Get(key) =>
      if key in m.items && Fresh(m.items[key], now) then (m, Hit(m.items[key].value))
      else (m.(items := m.items - {key}), Miss)
    case Set(key, value, ttl) => (Put(m, max, key, Item(value, Until(ttl, now))), Done)
    case Incr(key, delta, ttl) =>
      if !(MIN_INT <= delta <= MAX_INT) then (m, NotANumber)
      else
        (match Added(Base(m.items, key, ttl, now), delta)
         case None => (m, NotANumber)
         case Some(n) => (Put(m, max, key, Item(FormatInt(n), Base(m.items, key, ttl, now).expires)), Number(n)))
    case Delete(keys) => (m.(items := m.items - Among(keys)), Done)
    case DeletePrefix(prefix) => (m.(items := WithoutPrefix(m.items, prefix)), Done)
  }

  // A call that may evict: it writes a key not held while the map is full.
  predicate Pressed(m: Mem, max: nat, op: Op) {
    (op.Set? || op.Incr?) && op.key !in m.items && |m.items| >= max
  }

  lemma PutIsAWrite(m: Mem, max: nat, key: string, it: Item, now: int) returns (forgotten: set<string>)
    requires Bounded(m, max) && Fresh(it, now)
    ensures Live(Put(m, max, key, it).items, now) == (Live(m.items, now) - forgotten)[key := it]
    ensures key !in forgotten && (forgotten != {} ==> key !in m.items && |m.items| >= max)
  {
    if key in m.items || |m.items| < max {
      forgotten := {};
    } else {
      var n := EvictDropsAPrefix(m, max);
      forgotten := Among(m.order[..n]) - {key};
    }
  }

  lemma LiveWithout(items: Items, keys: set<string>, now: int)
    ensures Live(items - keys, now) == Live(items, now) - keys
  {
  }

  lemma RemovalsRefine(m: Mem, max: nat, op: Op, now: int)
    requires Bounded(m, max) && (op.Get? || op.Delete? || op.DeletePrefix?)
    ensures var (u, reply) := Bound(m, max, op, now);
            Bounded(u, max) && (Live(u.items, now), reply) == Ideal(Live(m.items, now), op, now)
  {
    FewerIsBounded(m, max, Bound(m, max, op, now).0.items);
    match op
    case Get(key) =>
      LiveWithout(m.items, {key}, now);
      assert key !in Live(m.items, now) ==> Live(m.items, now) - {key} == Live(m.items, now);
    case Delete(keys) => LiveWithout(m.items, Among(keys), now);
    case DeletePrefix(prefix) => PrefixRefines(m, prefix, now);
    case _ =>
  }

  lemma PrefixRefines(m: Mem, prefix: string, now: int)
    ensures Live(WithoutPrefix(m.items, prefix), now) == WithoutPrefix(Live(m.items, now), prefix)
  {
  }

  lemma WriteRefines(m: Mem, max: nat, key: string, it: Item, now: int) returns (forgotten: set<string>)
    requires Bounded(m, max) && Fresh(it, now)
    ensures Bounded(Put(m, max, key, it), max)
    ensures Live(Put(m, max, key, it).items, now) == (Live(m.items, now) - forgotten)[key := it]
    ensures forgotten != {} ==> key !in m.items && |m.items| >= max && key !in forgotten
  {
    PutKeepsBounded(m, max, key, it);
    forgotten := PutIsAWrite(m, max, key, it, now);
  }

  /** Memory is the unbounded map, but that a call that writes a new key at the bound may first
      forget other keys. */
  lemma RefinesForgetfulMap(m: Mem, max: nat, op: Op, now: int) returns (forgotten: set<string>)
    requires Bounded(m, max)
    ensures var (u, reply) := Bound(m, max, op, now);
            Bounded(u, max) && (Live(u.items, now), reply) == Ideal(Live(m.items, now) - forgotten, op, now)
    ensures forgotten != {} ==> Pressed(m, max, op) && op.key !in forgotten
  {
    forgotten := {};
    assert Live(m.items, now) - {} == Live(m.items, now);
    if op.Set? {
      forgotten := WriteRefines(m, max, op.key, Item(op.value, Until(op.ttl, now)), now);
    } else if op.Incr? {
      var base := Base(m.items, op.key, op.ttl, now);
      if MIN_INT <= op.delta <= MAX_INT && Added(base, op.delta).Some? {
        forgotten := WriteRefines(m, max, op.key, Item(FormatInt(Added(base, op.delta).value), base.expires), now);
      }
    } else {
      RemovalsRefine(m, max, op, now);
    }
  }

  // ---- Whole runs ----

  datatype Call = Call(op: Op, now: int)

  datatype Run<S> = Run(state: S, replies: seq<Reply>)

  function RunBound(m: Mem, max: nat, cs: seq<Call>): (r: Run<Mem>)
    ensures |r.replies| == |cs|
  {
    if cs == [] then Run(m, [])
    else
      var before := RunBound(m, max, cs[..|cs| - 1]);
      var (u, reply) := Bound(before.state, max, cs[|cs| - 1].op, cs[|cs| - 1].now);
      Run(u, before.replies + [reply])
  }

  function RunIdeal(a: Items, cs: seq<Call>): Run<Items> {
    if cs == [] then Run(a, [])
    else
      var before := RunIdeal(a, cs[..|cs| - 1]);
      var c := cs[|cs| - 1];
      var (b, reply) := Ideal(Live(before.state, c.now), c.op, c.now);
      Run(b, before.replies + [reply])
  }

  // Times do not go back.
  predicate Ordered(cs: seq<Call>) {
    forall i, j :: 0 <= i < j < |cs| ==> cs[i].now <= cs[j].now
  }

  // No call of the run writes a new key while the map is full.
  predicate Unpressed(m: Mem, max: nat, cs: seq<Call>) {
    cs == [] ||
    (Unpressed(m, max, cs[..|cs| - 1]) && !Pressed(RunBound(m, max, cs[..|cs| - 1]).state, max, cs[|cs| - 1].op))
  }

  lemma LiveLater(items: Items, now: int, later: int)
    requires now <= later
    ensures Live(Live(items, now), later) == Live(items, later)
  {
  }

  /** On a run where no new key arrives at the bound, Memory replies exactly as the unbounded TTL map
      does, increments included, and holds the same live entries. */
  lemma {:induction false} ExactWithoutPressure(max: nat, cs: seq<Call>)
    requires max > 0 && Ordered(cs) && Unpressed(Mem(map[], []), max, cs)
    ensures var b, a := RunBound(Mem(map[], []), max, cs), RunIdeal(map[], cs);
            && Bounded(b.state, max) && b.replies == a.replies
            && (forall later :: (cs == [] || cs[|cs| - 1].now <= later) ==>
                Live(b.state.items, later) == Live(a.state, later))
  {
    if cs != [] {
      var n := |cs| - 1;
      var c := cs[n];
      ExactWithoutPressure(max, cs[..n]);
      var before, ideal := RunBound(Mem(map[], []), max, cs[..n]), RunIdeal(map[], cs[..n]);
      assert n > 0 ==> cs[..n][n - 1].now <= c.now;
      assert Live(before.state.items, c.now) == Live(ideal.state, c.now);
      var forgotten := RefinesForgetfulMap(before.state, max, c.op, c.now);
      assert Live(before.state.items, c.now) - {} == Live(before.state.items, c.now);
      var u := Bound(before.state, max, c.op, c.now).0;
      forall later | c.now <= later
        ensures Live(u.items, later) == Live(RunIdeal(map[], cs).state, later)
      {
        LiveLater(u.items, c.now, later);
      }
    }
  }

  // The value the calls last gave a key, None before any or after its removal.
  function LastWritten(cs: seq<Call>, replies: seq<Reply>, key: string): Option<string>
    requires |replies| == |cs|
  {
    if cs == [] then None
    else
      var n := |cs| - 1;
      WrittenAfter(LastWritten(cs[..n], replies[..n], key), cs[n], replies[n], key)
  }

  function WrittenAfter(before: Option<string>, c: Call, reply: Reply, key: string): Option<string> {
    match c.op
    case Get(_) => before
    case Set(k, value, _) => if k == key then Some(value) else before
    case Incr(k, _, _) => if k == key && reply.Number? then Some(FormatInt(reply.n)) else before
    case Delete(keys) => if key in keys then None else before
    case DeletePrefix(prefix) => if prefix <= key then None else before
  }

  lemma PutKeepsValues(m: Mem, max: nat, key: string, it: Item, k: string)
    requires Bounded(m, max)
    ensures k in Put(m, max, key, it).items && k != key ==> k in m.items && Put(m, max, key, it).items[k] == m.items[k]
  {
    if key !in m.items {
      var n := EvictDropsAPrefix(m, max);
    }
  }

  lemma BoundKeepsBounded(m: Mem, max: nat, op: Op, now: int)
    requires Bounded(m, max)
    ensures Bounded(Bound(m, max, op, now).0, max)
  {
    var forgotten := RefinesForgetfulMap(m, max, op, now);
  }

  /** On every run a hit is the value last written to its key, never one removed or overwritten. */
  lemma {:induction false} HitIsLastWritten(max: nat, cs: seq<Call>, key: string)
    requires max > 0
    ensures var b := RunBound(Mem(map[], []), max, cs);
            && |b.replies| == |cs| && Bounded(b.state, max)
            && (key in b.state.items ==> LastWritten(cs, b.replies, key) == Some(b.state.items[key].value))
  {
    if cs != [] {
      var n := |cs| - 1;
      HitIsLastWritten(max, cs[..n], key);
      var before := RunBound(Mem(map[], []), max, cs[..n]);
      var (u, reply) := Bound(before.state, max, cs[n].op, cs[n].now);
      BoundKeepsBounded(before.state, max, cs[n].op, cs[n].now);
      assert RunBound(Mem(map[], []), max, cs).replies[..n] == before.replies;
      match cs[n].op
      case Set(k, value, ttl) => PutKeepsValues(before.state, max, k, Item(value, Until(ttl, cs[n].now)), key);
      case Incr(k, delta, ttl) =>
        if reply.Number? {
          PutKeepsValues(before.state, max, k,
              Item(FormatInt(reply.n), Base(before.state.items, k, ttl, cs[n].now).expires), key);
        }
      case _ =>
    }
  }

  // ---- Lifetimes, from the calls alone ----

  // The write that started a key's lifetime: when, and for how long (for good at 0 or less).
  datatype Birth = Birth(at: int, ttl: int)

  predicate Lives(b: Option<Birth>, now: int) {
    b.Some? && (b.value.ttl <= 0 || now <= b.value.at + b.value.ttl)
  }

  // A Set starts a lifetime, and so does an increment that finds none running; a removal ends it.
  function Born(cs: seq<Call>, replies: seq<Reply>, key: string): Option<Birth>
    requires |replies| == |cs|
  {
    if cs == [] then None
    else
      var n := |cs| - 1;
      BornAfter(Born(cs[..n], replies[..n], key), cs[n], replies[n], key)
  }

  function BornAfter(before: Option<Birth>, c: Call, reply: Reply, key: string): Option<Birth> {
    match c.op
    case Get(_) => before
    case Set(k, _, ttl) => if k == key then Some(Birth(c.now, ttl)) else before
    case Incr(k, _, ttl) =>
      if k == key && reply.Number? && !Lives(before, c.now) then Some(Birth(c.now, ttl)) else before
    case Delete(keys) => if key in keys then None else before
    case DeletePrefix(prefix) => if prefix <= key then None else before
  }

  // The entry is what was last written, until its lifetime ends; without an entry there is no lifetime left.
  predicate Tracks(items: Items, born: Option<Birth>, last: Option<string>, key: string, now: int) {
    if key in items then
      && born.Some? && last == Some(items[key].value)
      && items[key].expires == if born.value.ttl > 0 then Some(born.value.at + born.value.ttl) else None
    else !Lives(born, now)
  }

  predicate NotBefore(cs: seq<Call>, now: int) {
    cs != [] ==> cs[|cs| - 1].now <= now
  }

  lemma PutUnpressed(m: Mem, max: nat, key: string, it: Item)
    requires key in m.items || |m.items| < max
    ensures Put(m, max, key, it).items == m.items[key := it]
  {
  }

  lemma StepTracks(m: Mem, max: nat, c: Call, key: string, born: Option<Birth>, last: Option<string>)
    requires Tracks(m.items, born, last, key, c.now) && !Pressed(m, max, c.op)
    ensures var (u, reply) := Bound(m, max, c.op, c.now);
            Tracks(u.items, BornAfter(born, c, reply, key), WrittenAfter(last, c, reply, key), key, c.now)
  {
    var (u, reply) := Bound(m, max, c.op, c.now);
    match c.op
    case Set(k, value, ttl) => PutUnpressed(m, max, k, Item(value, Until(ttl, c.now)));
    case Incr(k, delta, ttl) =>
      if reply.Number? {
        PutUnpressed(m, max, k, Item(FormatInt(reply.n), Base(m.items, k, ttl, c.now).expires));
      }
    case _ =>
  }

  // What an increment answers by the key's lifetime and last value.
  function Counted(born: Option<Birth>, last: Option<string>, delta: int, now: int): Reply {
    if !(MIN_INT <= delta <= MAX_INT) then NotANumber
    else if !Lives(born, now) || last.None? then Number(delta)
    else
      match ParseInt(last.value)
      case None => NotANumber
      case Some(n) => Number(Wrap(n + delta))
  }

  lemma IncrCounts(m: Mem, max: nat, key: string, delta: int, ttl: int, now: int, born: Option<Birth>,
      last: Option<string>)
    requires Tracks(m.items, born, last, key, now)
    ensures Bound(m, max, Incr(key, delta, ttl), now).1 == Counted(born, last, delta, now)
  {
    assert ParseInt("0") == Some(0) by {
      ParseFormat(0);
      assert Digits(0) == "0";
    }
  }

  lemma LivesLess(items: Items, born: Option<Birth>, last: Option<string>, key: string, now: int, later: int)
    requires Tracks(items, born, last, key, now) && now <= later
    ensures Tracks(items, born, last, key, later)
  {
  }

  lemma {:induction false} RunTracks(max: nat, cs: seq<Call>, key: string, now: int)
    requires max > 0 && Ordered(cs) && Unpressed(Mem(map[], []), max, cs) && NotBefore(cs, now)
    ensures var b := RunBound(Mem(map[], []), max, cs);
            && |b.replies| == |cs|
            && Tracks(b.state.items, Born(cs, b.replies, key), LastWritten(cs, b.replies, key), key, now)
  {
    if cs != [] {
      var n := |cs| - 1;
      var before := RunBound(Mem(map[], []), max, cs[..n]);
      assert n > 0 ==> cs[..n][n - 1].now <= cs[n].now;
      RunTracks(max, cs[..n], key, cs[n].now);
      var b := RunBound(Mem(map[], []), max, cs);
      assert b.replies[..n] == before.replies;
      var born, last := Born(cs[..n], before.replies, key), LastWritten(cs[..n], before.replies, key);
      StepTracks(before.state, max, cs[n], key, born, last);
      LivesLess(b.state.items, Born(cs, b.replies, key), LastWritten(cs, b.replies, key), key, cs[n].now, now);
    }
  }

  /** On a run where no new key arrives at the bound, a Get hits exactly while the lifetime lasts that the key's
      writes gave it, with the value last written; an increment counts on from that value while it lasts, and
      starts again from 0 afterwards. */
  lemma LifetimesDecide(max: nat, cs: seq<Call>, c: Call)
    requires max > 0 && Ordered(cs) && Unpressed(Mem(map[], []), max, cs) && NotBefore(cs, c.now)
    ensures var b := RunBound(Mem(map[], []), max, cs);
            var reply := RunBound(Mem(map[], []), max, cs + [c]).replies[|cs|];
            && (c.op.Get? ==>
                var born, last := Born(cs, b.replies, c.op.key), LastWritten(cs, b.replies, c.op.key);
                && (Lives(born, c.now) ==> last.Some? && reply == Hit(last.value))
                && (!Lives(born, c.now) ==> reply == Miss))
            && (c.op.Incr? ==>
                var born, last := Born(cs, b.replies, c.op.key), LastWritten(cs, b.replies, c.op.key);
                reply == Counted(born, last, c.op.delta, c.now))
  {
    var b := RunBound(Mem(map[], []), max, cs);
    assert (cs + [c])[..|cs|] == cs;
    if c.op.Get? || c.op.Incr? {
      RunTracks(max, cs, c.op.key, c.now);
    }
    if c.op.Incr? {
      var born, last := Born(cs, b.replies, c.op.key), LastWritten(cs, b.replies, c.op.key);
      IncrCounts(b.state, max, c.op.key, c.op.delta, c.op.ttl, c.now, born, last);
    }
  }
}
