/**
 Subscriptions as Stripe's events report them (packs/billing/billing.go): the tables of customers and
 of subscriptions, how an event is recorded, what an owner may use, and every interleaving of events
 that arrive late, twice, out of order and at the same time.
 */
module Billing {
  import opened Wrappers

  // ---- Stripe's objects ----

  datatype Item = Item(currentPeriodEnd: int, price: string)

  datatype StripeSubscription = StripeSubscription(id: string, customer: string, status: string,
      cancelAtPeriodEnd: bool, currentPeriodEnd: int, owner: string, items: seq<Item>)

  datatype Content = Content(price: string, status: string, periodEnd: Option<int>, cancelAtPeriodEnd: bool)

  // owner: the owner in the subscription's metadata, "" without one.
  datatype Event = Event(id: string, customer: string, owner: string, content: Content, at: int)

  // The period is on the first item in current API versions, on the subscription in older ones.
  function EventOf(s: StripeSubscription, at: int): Event {
    var price := if s.items == [] then "" else s.items[0].price;
    var end := if s.items != [] && s.items[0].currentPeriodEnd != 0 then s.items[0].currentPeriodEnd
        else s.currentPeriodEnd;
    Event(s.id, s.customer, s.owner,
        Content(price, s.status, if end == 0 then None else Some(end), s.cancelAtPeriodEnd), at)
  }

  /** The first item decides the price and, when it has one, the period; without items there is no price. */
  lemma WhatAnEventSays(s: StripeSubscription, at: int)
    ensures var e := EventOf(s, at);
            && e.id == s.id && e.customer == s.customer && e.owner == s.owner && e.at == at
            && e.content.status == s.status && e.content.cancelAtPeriodEnd == s.cancelAtPeriodEnd
            && (s.items == [] ==> e.content.price == "") && (s.items != [] ==> e.content.price == s.items[0].price)
            && (s.items != [] && s.items[0].currentPeriodEnd != 0 ==>
                e.content.periodEnd == Some(s.items[0].currentPeriodEnd))
            && (s.items == [] || s.items[0].currentPeriodEnd == 0 ==>
                (s.currentPeriodEnd == 0 <==> e.content.periodEnd == None) &&
                (s.currentPeriodEnd != 0 ==> e.content.periodEnd == Some(s.currentPeriodEnd)))
  {
  }

  // ---- The tables ----

  datatype Row = Row(owner: string, customer: string, content: Content, at: int)

  // By owner; the customer column is unique too.
  type Customers = map<string, string>

  type Subscriptions = map<string, Row>

  // An event with the owner found for it.
  datatype Due = Due(owner: string, event: Event)

  predicate Unique(customers: Customers) {
    forall a, b :: a in customers && b in customers && customers[a] == customers[b] ==> a == b
  }

  predicate Knows(customers: Customers, customer: string) {
    exists o :: o in customers && customers[o] == customer
  }

  ghost function OwnerFor(customers: Customers, e: Event): (r: Option<string>)
    ensures r.None? <==> e.owner == "" && !Knows(customers, e.customer)
    ensures r.Some? && e.owner == "" ==> r.value in customers && customers[r.value] == e.customer
    ensures e.owner != "" ==> r == Some(e.owner)
  {
    if e.owner != "" then Some(e.owner)
    else if Knows(customers, e.customer) then
      var o :| o in customers && customers[o] == e.customer;
      Some(o)
    else None
  }

  // No other owner has the customer, so that the upsert of the link can go through.
  predicate Linkable(customers: Customers, owner: string, customer: string) {
    forall o :: o in customers && customers[o] == customer ==> o == owner
  }

  // The upsert of a subscription: an event not older than the one recorded replaces its content, and keeps
  // owner and customer.
  function Merge(subs: Subscriptions, d: Due): Subscriptions {
    var e := d.event;
    if e.id !in subs then subs[e.id := Row(d.owner, e.customer, e.content, e.at)]
    else if subs[e.id].at <= e.at then subs[e.id := subs[e.id].(content := e.content, at := e.at)]
    else subs
  }

  datatype Tables = Tables(customers: Customers, subs: Subscriptions)

  const NONE := Tables(map[], map[])

  // A whole call: without an owner, or when the link cannot be made, nothing changes.
  ghost function Synced(t: Tables, e: Event): Tables {
    match OwnerFor(t.customers, e)
    case None => t
    case Some(owner) =>
      if !Linkable(t.customers, owner, e.customer) then t
      else Tables(t.customers[owner := e.customer], Merge(t.subs, Due(owner, e)))
  }

  // ---- What an owner may use ----

  datatype Plan = Plan(price: string, features: seq<string>)

  type Plans = map<string, Plan>

  const FREE_PLAN := "free"

  predicate Granting(subs: Subscriptions, owner: string, id: string) {
    id in subs && subs[id].owner == owner && subs[id].content.status in ["active", "trialing", "past_due"]
  }

  // The answer is the owner's newest granting subscription, or none when it has none.
  predicate IsCurrent(subs: Subscriptions, owner: string, r: Option<string>) {
    match r
    case None => forall id :: id in subs ==> !Granting(subs, owner, id)
    case Some(best) =>
      && Granting(subs, owner, best)
      && forall id :: id in subs && Granting(subs, owner, id) ==> subs[id].at <= subs[best].at
  }

  predicate IsPlanOf(plans: Plans, price: string, key: string) {
    key in plans && plans[key].price != "" && plans[key].price == price
  }

  lemma {:induction false} NewestExists(subs: Subscriptions, ids: set<string>)
    requires ids != {} && ids <= subs.Keys
    ensures exists best :: best in ids && forall id :: id in ids ==> subs[id].at <= subs[best].at
  {
    var x :| x in ids;
    var rest := ids - {x};
    if rest == {} {
      assert ids == {x};
    } else {
      NewestExists(subs, rest);
      var y :| y in rest && forall id :: id in rest ==> subs[id].at <= subs[y].at;
      var best := if subs[y].at <= subs[x].at then x else y;
      assert best in ids && forall id :: id in ids ==> id == x || id in rest;
    }
  }

  class Billing {
    var customers: Customers
    var subs: Subscriptions

    constructor ()
      ensures customers == map[] && subs == map[]
    {
      customers, subs := map[], map[];
    }

    method Sync(s: StripeSubscription, at: int) returns (ok: bool)
      requires Unique(customers)
      modifies this
      ensures Unique(customers)
      ensures Tables(customers, subs) == Synced(Tables(old(customers), old(subs)), EventOf(s, at))
      ensures var owner := OwnerFor(old(customers), EventOf(s, at));
              ok <==> owner.None? || Linkable(old(customers), owner.value, s.customer)
    {
      var owner := s.owner;
      if owner == "" {
        if !Knows(customers, s.customer) {
          return true;
        }
        owner :| owner in customers && customers[owner] == s.customer;
      }
      var price := "";
      var end := s.currentPeriodEnd;
      if |s.items| > 0 {
        price := s.items[0].price;
        if s.items[0].currentPeriodEnd != 0 {
          end := s.items[0].currentPeriodEnd;
        }
      }
      var periodEnd := None;
      if end != 0 {
        periodEnd := Some(end);
      }
      if !Linkable(customers, owner, s.customer) {
        return false;
      }
      customers := customers[owner := s.customer];
      if s.id !in subs {
        subs := subs[s.id := Row(owner, s.customer, Content(price, s.status, periodEnd, s.cancelAtPeriodEnd), at)];
      } else if subs[s.id].at <= at {
        subs := subs[s.id := Row(subs[s.id].owner, subs[s.id].customer,
            Content(price, s.status, periodEnd, s.cancelAtPeriodEnd), at)];
      }
      return true;
    }

    method Current(owner: string) returns (r: Option<string>)
      ensures IsCurrent(subs, owner, r)
    {
      var granting := set id | id in subs && Granting(subs, owner, id);
      if granting == {} {
        assert forall id :: id in subs && Granting(subs, owner, id) ==> id in granting;
        return None;
      }
      NewestExists(subs, granting);
      var best :| best in granting && forall id :: id in granting ==> subs[id].at <= subs[best].at;
      return Some(best);
    }

    method Of(plans: Plans, owner: string) returns (key: string, sub: Option<string>)
      ensures IsAnswer(plans, subs, owner, key, sub)
    {
      sub := Current(owner);
      if sub.None? {
        return FREE_PLAN, sub;
      }
      var price := subs[sub.value].content.price;
      var todo := plans.Keys;
      while todo != {}
        invariant todo <= plans.Keys
        invariant forall k :: k in plans && k !in todo ==> !IsPlanOf(plans, price, k)
        decreases todo
      {
        key :| key in todo;
        if plans[key].price != "" && plans[key].price == price {
          return key, sub;
        }
        todo := todo - {key};
      }
      return "", sub;
    }

    method Has(plans: Plans, owner: string, feature: string) returns (has: bool)
      ensures exists key, sub :: IsAnswer(plans, subs, owner, key, sub) && has == Features(plans, key, feature)
    {
      var key, sub := Of(plans, owner);
      has := key in plans && feature in plans[key].features;
    }
  }

  // A key that Of may return: the free plan without a current subscription, the plan of the current
  // one's price, or "" when no plan has it.
  predicate IsAnswer(plans: Plans, subs: Subscriptions, owner: string, key: string, sub: Option<string>) {
    && IsCurrent(subs, owner, sub)
    && match sub
       case None => key == FREE_PLAN
       case Some(id) =>
         var price := subs[id].content.price;
         IsPlanOf(plans, price, key) || (key == "" && forall k :: k in plans ==> !IsPlanOf(plans, price, k))
  }

  predicate Features(plans: Plans, key: string, feature: string) {
    key in plans && feature in plans[key].features
  }

  // ---- One answer ----

  // No two granting subscriptions of the owner have one event time.
  ghost predicate NoTie(subs: Subscriptions, owner: string) {
    forall a, b :: Granting(subs, owner, a) && Granting(subs, owner, b) && subs[a].at == subs[b].at ==> a == b
  }

  predicate DistinctPrices(plans: Plans) {
    forall a, b :: a in plans && b in plans && plans[a].price == plans[b].price != "" ==> a == b
  }

  /** With distinct prices and event times there is only one answer to give. */
  lemma OneAnswer(plans: Plans, subs: Subscriptions, owner: string, key: string, sub: Option<string>, key': string,
      sub': Option<string>)
    requires DistinctPrices(plans) && NoTie(subs, owner)
    requires IsAnswer(plans, subs, owner, key, sub) && IsAnswer(plans, subs, owner, key', sub')
    ensures sub == sub' && key == key'
  {
    assert sub.Some? && sub'.Some? ==> subs[sub.value].at == subs[sub'.value].at;
  }

  // ---- The order of events ----

  // The table after recording the events one after the other.
  function Recorded(ds: seq<Due>): Subscriptions {
    if ds == [] then map[] else Merge(Recorded(ds[..|ds| - 1]), ds[|ds| - 1])
  }

  // A subscription keeps its owner and its customer.
  predicate Steady(ds: seq<Due>) {
    forall i, j :: 0 <= i < |ds| && 0 <= j < |ds| && ds[i].event.id == ds[j].event.id
                   ==> ds[i].owner == ds[j].owner && ds[i].event.customer == ds[j].event.customer
  }

  function RowOf(d: Due): Row {
    Row(d.owner, d.event.customer, d.event.content, d.event.at)
  }

  predicate IsNewest(ds: seq<Due>, d: Due) {
    d in ds && forall x :: x in ds && x.event.id == d.event.id ==> x.event.at <= d.event.at
  }

  ghost predicate FromNewest(ds: seq<Due>, id: string, row: Row) {
    exists d: Due :: IsNewest(ds, d) && d.event.id == id && row == RowOf(d)
  }

  predicate Mentions(ds: seq<Due>, id: string) {
    exists d :: d in ds && d.event.id == id
  }

  /** Every subscription that has an event is in the table, as its newest event has it. */
  lemma {:induction false} NewestWins(ds: seq<Due>, id: string)
    requires Steady(ds)
    ensures id in Recorded(ds) <==> Mentions(ds, id)
    ensures id in Recorded(ds) ==> FromNewest(ds, id, Recorded(ds)[id])
  {
    if ds != [] {
      var before, last := ds[..|ds| - 1], ds[|ds| - 1];
      assert ds == before + [last];
      NewestWins(before, id);
      if last.event.id == id {
        NewestAfter(before, last);
      } else if id in Recorded(before) {
        var d: Due :| IsNewest(before, d) && d.event.id == id && Recorded(before)[id] == RowOf(d);
        assert IsNewest(ds, d);
      }
    }
  }

  lemma NewestAfter(before: seq<Due>, last: Due)
    requires Steady(before + [last])
    requires var id := last.event.id; id in Recorded(before) <==> Mentions(before, id)
    requires var id := last.event.id;
             id in Recorded(before) ==> FromNewest(before, id, Recorded(before)[id])
    ensures var id := last.event.id; var now := Merge(Recorded(before), last);
            id in now && FromNewest(before + [last], id, now[id])
  {
    var id := last.event.id;
    var now := Merge(Recorded(before), last);
    var all := before + [last];
    assert all[|before|] == last;
    if id in Recorded(before) {
      var d: Due :| IsNewest(before, d) && d.event.id == id && Recorded(before)[id] == RowOf(d);
      var i :| 0 <= i < |before| && before[i] == d;
      assert all[i] == d;
      if d.event.at <= last.event.at {
        assert IsNewest(all, last) && now[id] == RowOf(last);
      } else {
        assert IsNewest(all, d) && now[id] == RowOf(d);
      }
    } else {
      assert IsNewest(all, last) && now[id] == RowOf(last);
    }
  }

  ghost predicate SameEvents(a: seq<Due>, b: seq<Due>) {
    forall d :: d in a <==> d in b
  }

  // Two events of one subscription at its newest time.
  predicate AtOnce(ds: seq<Due>, d: Due, e: Due) {
    IsNewest(ds, d) && IsNewest(ds, e) && d.event.id == e.event.id
  }

  // The events of a subscription at its newest time say the same.
  ghost predicate NewestAgree(ds: seq<Due>) {
    forall d, e :: AtOnce(ds, d, e) ==> d.event.content == e.event.content
  }

  lemma SameTable(a: seq<Due>, b: seq<Due>)
    requires Steady(a) && NewestAgree(a) && SameEvents(a, b)
    ensures Recorded(a) == Recorded(b)
  {
    SteadyToo(a, b);
    forall id | id in Recorded(a) || id in Recorded(b)
      ensures id in Recorded(a) && id in Recorded(b) && Recorded(a)[id] == Recorded(b)[id]
    {
      NewestWins(a, id);
      NewestWins(b, id);
      var d: Due :| IsNewest(a, d) && d.event.id == id && Recorded(a)[id] == RowOf(d);
      var e: Due :| IsNewest(b, e) && e.event.id == id && Recorded(b)[id] == RowOf(e);
      assert d in a && e in a && AtOnce(a, d, e);
    }
  }

  lemma SteadyToo(a: seq<Due>, b: seq<Due>)
    requires Steady(a) && SameEvents(a, b)
    ensures Steady(b)
  {
    forall i, j | 0 <= i < |b| && 0 <= j < |b| && b[i].event.id == b[j].event.id
      ensures b[i].owner == b[j].owner && b[i].event.customer == b[j].event.customer
    {
      assert b[i] in a && b[j] in a;
    }
  }

  lemma NewestLast(ds: seq<Due>, d: Due)
    requires Steady(ds) && IsNewest(ds, d)
    ensures SameEvents(ds, ds + [d]) && d.event.id in Recorded(ds + [d])
        && Recorded(ds + [d])[d.event.id].content == d.event.content
  {
    NewestWins(ds, d.event.id);
    assert (ds + [d])[..|ds|] == ds;
  }

  lemma LastOfTheNewestWins(a: seq<Due>, d: Due, e: Due)
    requires Steady(a) && AtOnce(a, d, e) && d.event.content != e.event.content
    ensures SameEvents(a, a + [d]) && SameEvents(a, a + [e]) && Recorded(a + [d]) != Recorded(a + [e])
  {
    NewestLast(a, d);
    NewestLast(a, e);
  }

  // ---- Every interleaving of the events' statements ----

  // One sync call: what became of its event so far.
  datatype Call =
    | Ignored(event: Event)
    | Found(due: Due)
    | Linked(due: Due)
    | Refused(due: Due)
    | Done(due: Due)

  function CallEvent(c: Call): Event {
    if c.Ignored? then c.event else c.due.event
  }

  // calls: every call begun, in that order; recorded: the events merged into the table, in that order.
  datatype State = State(customers: Customers, subs: Subscriptions, calls: seq<Call>, recorded: seq<Due>)

  // A call is named by its number in the order the calls began.
  datatype Step =
    | Begin(event: Event)
    | Link(call: nat)
    | Record(call: nat)

  ghost function Apply(s: State, t: Step): State {
    match t
    case Begin(event) =>
      var owner := OwnerFor(s.customers, event);
      s.(calls := s.calls + [if owner.None? then Ignored(event) else Found(Due(owner.value, event))])
    case Link(i) =>
      if i >= |s.calls| || !s.calls[i].Found? then s
      else
        var d := s.calls[i].due;
        if !Linkable(s.customers, d.owner, d.event.customer) then s.(calls := s.calls[i := Refused(d)])
        else s.(customers := s.customers[d.owner := d.event.customer], calls := s.calls[i := Linked(d)])
    case Record(i) =>
      if i >= |s.calls| || !s.calls[i].Linked? then s
      else
        var d := s.calls[i].due;
        s.(subs := Merge(s.subs, d), calls := s.calls[i := Done(d)], recorded := s.recorded + [d])
  }

  ghost function Exec(s: State, ts: seq<Step>): State {
    if ts == [] then s else Apply(Exec(s, ts[..|ts| - 1]), ts[|ts| - 1])
  }

  lemma {:induction false} RunsJoin(s: State, ts: seq<Step>, us: seq<Step>)
    ensures Exec(s, ts + us) == Exec(Exec(s, ts), us)
  {
    if us == [] {
      assert ts + us == ts;
    } else {
      RunsJoin(s, ts, us[..|us| - 1]);
      assert (ts + us)[..|ts + us| - 1] == ts + us[..|us| - 1];
    }
  }

  // The events that arrived, in order.
  function Begun(ts: seq<Step>): seq<Event> {
    if ts == [] then []
    else Begun(ts[..|ts| - 1]) + (if ts[|ts| - 1].Begin? then [ts[|ts| - 1].event] else [])
  }

  // No event recorded yet and no call under way.
  predicate AtStart(s: State) {
    s.subs == map[] && s.calls == [] && s.recorded == []
  }

  // No call is left open.
  predicate Finished(s: State) {
    forall i :: 0 <= i < |s.calls| ==> s.calls[i].Ignored? || s.calls[i].Refused? || s.calls[i].Done?
  }

  // ---- Which events are dropped ----

  predicate Made(calls: seq<Call>, es: seq<Event>) {
    |calls| == |es| && forall i :: 0 <= i < |es| ==> CallEvent(calls[i]) == es[i]
  }

  /** Every event that arrives has its call, and no call is of anything else. */
  lemma {:induction false} CallsAreBegun(s: State, ts: seq<Step>)
    requires s.calls == []
    ensures Made(Exec(s, ts).calls, Begun(ts))
  {
    if ts != [] {
      CallsAreBegun(s, ts[..|ts| - 1]);
    }
  }

  // The call's fate is sealed.
  predicate Sealed(s: State, i: nat) {
    i < |s.calls| && (s.calls[i].Ignored? || s.calls[i].Refused? || s.calls[i].Done?)
  }

  // Past the customer's upsert.
  predicate Through(s: State, i: nat) {
    i < |s.calls| && (s.calls[i].Linked? || s.calls[i].Done?)
  }

  lemma {:induction false} FateStays(s: State, ts: seq<Step>, i: nat)
    requires i < |s.calls|
    ensures i < |Exec(s, ts).calls|
    ensures Sealed(s, i) ==> Exec(s, ts).calls[i] == s.calls[i]
    ensures Through(s, i) ==> Through(Exec(s, ts), i)
    ensures !s.calls[i].Ignored? ==> !Exec(s, ts).calls[i].Ignored?
  {
    if ts != [] {
      FateStays(s, ts[..|ts| - 1], i);
    }
  }

  /** On every run an event is dropped exactly when it names no owner and nobody has its customer at
      the moment it arrives. */
  lemma DroppedWhenUnknown(s: State, before: seq<Step>, e: Event, after: seq<Step>)
    requires s.calls == []
    ensures var i, now := |Begun(before)|, Exec(s, before + [Begin(e)] + after);
            && i < |now.calls| && CallEvent(now.calls[i]) == e
            && (now.calls[i].Ignored? <==> e.owner == "" && !Knows(Exec(s, before).customers, e.customer))
  {
    var run := before + [Begin(e)];
    var i := |Begun(before)|;
    CallsAreBegun(s, before);
    assert run[..|before|] == before && Begun(run) == Begun(before) + [e];
    RunsJoin(s, run, after);
    FateStays(Exec(s, run), after, i);
    CallsAreBegun(s, run + after);
    BegunJoin(run, after);
  }

  lemma {:induction false} BegunJoin(ts: seq<Step>, us: seq<Step>)
    ensures Begun(ts + us) == Begun(ts) + Begun(us)
  {
    if us == [] {
      assert ts + us == ts;
    } else {
      BegunJoin(ts, us[..|us| - 1]);
      assert (ts + us)[..|ts + us| - 1] == ts + us[..|us| - 1];
    }
  }

  /** And a call that found its owner is refused exactly when the customer is another owner's at the
      moment of its link. */
  lemma RefusedWhenTaken(s: State, before: seq<Step>, i: nat, after: seq<Step>)
    requires i < |Exec(s, before).calls| && Exec(s, before).calls[i].Found?
    ensures var d, now := Exec(s, before).calls[i].due, Exec(s, before + [Link(i)] + after);
            && i < |now.calls|
            && (now.calls[i].Refused? <==> !Linkable(Exec(s, before).customers, d.owner, d.event.customer))
  {
    var run := before + [Link(i)];
    assert run[..|before|] == before;
    RunsJoin(s, run, after);
    FateStays(Exec(s, run), after, i);
  }

  /** One call after the other: a new subscription is recorded exactly when its event names an owner
      who may have the customer, or names none and the customer is known. */
  lemma RecordedExactlyWhen(t: Tables, e: Event)
    requires Unique(t.customers) && e.id !in t.subs
    ensures e.id in Synced(t, e).subs <==>
            if e.owner == "" then Knows(t.customers, e.customer) else Linkable(t.customers, e.owner, e.customer)
  {
  }

  // ---- When every event fits ----

  // Whose customer each one is, once and for all.
  type Book = map<string, string>

  predicate Honest(book: Book, customers: Customers) {
    forall o :: o in customers ==> customers[o] in book && book[customers[o]] == o
  }

  // The owner's customer is linked and the owner has no other.
  predicate Settled(book: Book, customers: Customers, customer: string) {
    && customer in book && book[customer] in customers && customers[book[customer]] == customer
    && forall c :: c in book && book[c] == book[customer] ==> c == customer
  }

  predicate Settling(book: Book, start: Customers, now: Customers) {
    forall c :: c in book && Settled(book, start, c) ==> Settled(book, now, c)
  }

  // The event names its customer's owner, or names none and needs none.
  predicate Fits(book: Book, customers: Customers, e: Event) {
    e.customer in book && if e.owner != "" then e.owner == book[e.customer] else Settled(book, customers, e.customer)
  }

  // The events fit, and those of one subscription name one customer.
  predicate Fitting(book: Book, customers: Customers, es: seq<Event>) {
    && (forall e :: e in es ==> Fits(book, customers, e))
    && (forall d, e :: d in es && e in es && d.id == e.id ==> d.customer == e.customer)
  }

  function DueOf(book: Book, e: Event): Due
    requires e.customer in book
  {
    Due(book[e.customer], e)
  }

  predicate CallOk(book: Book, s: State, c: Call) {
    && !c.Ignored? && !c.Refused? && c.due.event.customer in book && c.due == DueOf(book, c.due.event)
    && (c.Done? ==> c.due in s.recorded)
  }

  // What every run of fitting events keeps.
  predicate Inv(book: Book, start: Customers, s: State) {
    && Honest(book, s.customers) && Settling(book, start, s.customers)
    && s.subs == Recorded(s.recorded)
    && (forall i :: 0 <= i < |s.calls| ==> CallOk(book, s, s.calls[i]))
    && (forall d :: d in s.recorded ==> Done(d) in s.calls)
  }

  /** No fitting event is dropped: its owner is found, and the upsert of its link goes through. */
  lemma FittingEventsGoThrough(book: Book, start: Customers, s: State, e: Event)
    requires Honest(book, s.customers) && Settling(book, start, s.customers) && Fits(book, start, e)
    ensures OwnerFor(s.customers, e) == Some(book[e.customer])
    ensures Linkable(s.customers, book[e.customer], e.customer)
  {
  }

  lemma BeginKeepsInv(book: Book, start: Customers, s: State, e: Event)
    requires Inv(book, start, s) && Fits(book, start, e)
    ensures Inv(book, start, Apply(s, Begin(e)))
  {
    FittingEventsGoThrough(book, start, s, e);
    var u := Apply(s, Begin(e));
    assert u.calls == s.calls + [Found(DueOf(book, e))];
    forall i | 0 <= i < |u.calls|
      ensures CallOk(book, u, u.calls[i])
    {
      assert i < |s.calls| ==> CallOk(book, s, s.calls[i]);
    }
  }

  lemma LinkSettles(book: Book, start: Customers, now: Customers, d: Due)
    requires Honest(book, now) && Settling(book, start, now) && d.event.customer in book && d == DueOf(book, d.event)
    ensures var next := now[d.owner := d.event.customer]; Honest(book, next) && Settling(book, start, next)
    ensures Linkable(now, d.owner, d.event.customer)
  {
  }

  lemma LinkKeepsInv(book: Book, start: Customers, s: State, i: nat)
    requires Inv(book, start, s)
    ensures Inv(book, start, Apply(s, Link(i)))
  {
    if i < |s.calls| && s.calls[i].Found? {
      var d := s.calls[i].due;
      assert CallOk(book, s, s.calls[i]);
      LinkSettles(book, start, s.customers, d);
      DoneStays(s.calls, i, Linked(d));
      var u := Apply(s, Link(i));
      forall k | 0 <= k < |u.calls|
        ensures CallOk(book, u, u.calls[k])
      {
        assert CallOk(book, s, s.calls[k]);
      }
    }
  }

  lemma DoneStays(calls: seq<Call>, i: nat, c: Call)
    requires i < |calls| && !calls[i].Done?
    ensures forall d :: Done(d) in calls ==> Done(d) in calls[i := c]
    ensures c in calls[i := c]
  {
    forall d | Done(d) in calls
      ensures Done(d) in calls[i := c]
    {
      var k :| 0 <= k < |calls| && calls[k] == Done(d);
      assert calls[i := c][k] == Done(d);
    }
    assert calls[i := c][i] == c;
  }

  lemma RecordKeepsInv(book: Book, start: Customers, s: State, i: nat)
    requires Inv(book, start, s)
    ensures Inv(book, start, Apply(s, Record(i)))
  {
    if i < |s.calls| && s.calls[i].Linked? {
      var d := s.calls[i].due;
      assert CallOk(book, s, s.calls[i]);
      DoneStays(s.calls, i, Done(d));
      assert (s.recorded + [d])[..|s.recorded|] == s.recorded;
      var u := Apply(s, Record(i));
      forall k | 0 <= k < |u.calls|
        ensures CallOk(book, u, u.calls[k])
      {
        assert CallOk(book, s, s.calls[k]);
      }
    }
  }

  lemma {:induction false} RunKeepsInv(book: Book, s: State, ts: seq<Step>)
    requires AtStart(s) && Honest(book, s.customers) && forall e :: e in Begun(ts) ==> Fits(book, s.customers, e)
    ensures Inv(book, s.customers, Exec(s, ts))
  {
    if ts != [] {
      var before := ts[..|ts| - 1];
      RunKeepsInv(book, s, before);
      var u := Exec(s, before);
      match ts[|ts| - 1]
      case Begin(e) =>
        assert Begun(ts)[|Begun(before)|] == e;
        BeginKeepsInv(book, s.customers, u, e);
      case Link(i) => LinkKeepsInv(book, s.customers, u, i);
      case Record(i) => RecordKeepsInv(book, s.customers, u, i);
    }
  }

  ghost predicate AllRecorded(book: Book, es: seq<Event>, ds: seq<Due>) {
    forall d :: d in ds <==> d.event in es && d.event.customer in book && d == DueOf(book, d.event)
  }

  /** When no call is open, the events recorded are exactly the events that arrived. */
  lemma EveryEventIsRecorded(book: Book, s: State, ts: seq<Step>)
    requires AtStart(s) && Honest(book, s.customers) && Fitting(book, s.customers, Begun(ts)) && Finished(Exec(s, ts))
    ensures AllRecorded(book, Begun(ts), Exec(s, ts).recorded)
    ensures Exec(s, ts).subs == Recorded(Exec(s, ts).recorded) && Steady(Exec(s, ts).recorded)
  {
    RunKeepsInv(book, s, ts);
    CallsAreBegun(s, ts);
    var u, es := Exec(s, ts), Begun(ts);
    forall e | e in es
      ensures DueOf(book, e) in u.recorded
    {
      var i :| 0 <= i < |es| && es[i] == e;
      assert CallOk(book, u, u.calls[i]) && u.calls[i].Done? && CallEvent(u.calls[i]) == e;
    }
    forall d | d in u.recorded
      ensures d.event in es && d.event.customer in book && d == DueOf(book, d.event)
    {
      var i :| 0 <= i < |u.calls| && u.calls[i] == Done(d);
      assert CallOk(book, u, u.calls[i]) && CallEvent(u.calls[i]) == es[i];
    }
  }

  // ---- Runs converge ----

  // No event of its subscription among them is newer.
  predicate NewestEvent(es: seq<Event>, e: Event) {
    e in es && forall x :: x in es && x.id == e.id ==> x.at <= e.at
  }

  // The newest events of each subscription say the same.
  ghost predicate Agree(es: seq<Event>) {
    forall d, e :: NewestEvent(es, d) && NewestEvent(es, e) && d.id == e.id ==> d.content == e.content
  }

  ghost predicate SameArrivals(ts: seq<Step>, us: seq<Step>) {
    forall e :: e in Begun(ts) <==> e in Begun(us)
  }

  lemma AgreeWhenRecorded(book: Book, es: seq<Event>, ds: seq<Due>)
    requires AllRecorded(book, es, ds) && forall e :: e in es ==> e.customer in book
    ensures NewestAgree(ds) <==> Agree(es)
    ensures forall d :: IsNewest(ds, d) ==> NewestEvent(es, d.event)
    ensures forall e :: NewestEvent(es, e) ==> IsNewest(ds, DueOf(book, e))
  {
    forall e | NewestEvent(es, e)
      ensures IsNewest(ds, DueOf(book, e))
    {
    }
    forall d | IsNewest(ds, d)
      ensures NewestEvent(es, d.event)
    {
      forall x | x in es && x.id == d.event.id
        ensures x.at <= d.event.at
      {
        assert DueOf(book, x) in ds;
      }
    }
    if Agree(es) {
      forall d, e | AtOnce(ds, d, e)
        ensures d.event.content == e.event.content
      {
      }
    }
    if NewestAgree(ds) {
      forall d, e | NewestEvent(es, d) && NewestEvent(es, e) && d.id == e.id
        ensures d.content == e.content
      {
        assert AtOnce(ds, DueOf(book, d), DueOf(book, e));
      }
    }
  }

  /** When no call is open, the subscriptions in the table are exactly those with an event that arrived,
      each as one of its newest events has it and with its customer's owner. */
  lemma TableIsTheNewestEvents(book: Book, s: State, ts: seq<Step>, id: string)
    requires AtStart(s) && Honest(book, s.customers) && Fitting(book, s.customers, Begun(ts)) && Finished(Exec(s, ts))
    ensures var subs, es := Exec(s, ts).subs, Begun(ts);
            && (id in subs <==> exists e :: e in es && e.id == id)
            && (id in subs ==> exists e :: NewestEvent(es, e) && e.id == id && subs[id] == RowOf(DueOf(book, e)))
  {
    var ds, es := Exec(s, ts).recorded, Begun(ts);
    EveryEventIsRecorded(book, s, ts);
    NewestWins(ds, id);
    AgreeWhenRecorded(book, es, ds);
    if e :| e in es && e.id == id {
      assert DueOf(book, e) in ds;
    }
    if id in Recorded(ds) {
      var d: Due :| IsNewest(ds, d) && d.event.id == id && Recorded(ds)[id] == RowOf(d);
      assert NewestEvent(es, d.event) && d == DueOf(book, d.event);
    }
  }

  /** Two runs that the same events reached, whatever their order, however often each came and however
      their statements interleaved, end in the same table, once no call is open. */
  lemma RunsConverge(book: Book, s: State, ts: seq<Step>, us: seq<Step>)
    requires AtStart(s) && Honest(book, s.customers) && Fitting(book, s.customers, Begun(ts))
    requires SameArrivals(ts, us) && Agree(Begun(ts)) && Finished(Exec(s, ts)) && Finished(Exec(s, us))
    ensures Exec(s, ts).subs == Exec(s, us).subs
  {
    EveryEventIsRecorded(book, s, ts);
    EveryEventIsRecorded(book, s, us);
    AgreeWhenRecorded(book, Begun(ts), Exec(s, ts).recorded);
    SameTable(Exec(s, ts).recorded, Exec(s, us).recorded);
  }

  // Every other finished run of the same events ends in the same table.
  ghost predicate OrderIsNoMatter(s: State, ts: seq<Step>) {
    forall us :: SameArrivals(ts, us) && Finished(Exec(s, us)) ==> Exec(s, us).subs == Exec(s, ts).subs
  }

  /** A finished run's table depends only on the set of events that arrived exactly when the newest
      events of each subscription agree. */
  lemma OrderDoesNotMatter(book: Book, s: State, ts: seq<Step>)
    requires AtStart(s) && Honest(book, s.customers) && Fitting(book, s.customers, Begun(ts)) && Finished(Exec(s, ts))
    ensures OrderIsNoMatter(s, ts) <==> Agree(Begun(ts))
  {
    if Agree(Begun(ts)) {
      forall us | SameArrivals(ts, us) && Finished(Exec(s, us))
        ensures Exec(s, us).subs == Exec(s, ts).subs
      {
        RunsConverge(book, s, ts, us);
      }
    } else {
      var es := Begun(ts);
      var d, e :| NewestEvent(es, d) && NewestEvent(es, e) && d.id == e.id && d.content != e.content;
      ComesAgain(book, s, ts, d);
      ComesAgain(book, s, ts, e);
      assert Exec(s, Again(ts, d)).subs[d.id].content != Exec(s, Again(ts, e)).subs[d.id].content;
    }
  }

  // The run, and then the whole call of one more event.
  function Again(ts: seq<Step>, e: Event): seq<Step> {
    ts + [Begin(e), Link(|Begun(ts)|), Record(|Begun(ts)|)]
  }

  // A newest event that comes once more has the last word.
  lemma ComesAgain(book: Book, s: State, ts: seq<Step>, e: Event)
    requires AtStart(s) && Honest(book, s.customers) && Fitting(book, s.customers, Begun(ts)) && Finished(Exec(s, ts))
    requires NewestEvent(Begun(ts), e)
    ensures SameArrivals(ts, Again(ts, e)) && Finished(Exec(s, Again(ts, e)))
    ensures e.id in Exec(s, Again(ts, e)).subs && Exec(s, Again(ts, e)).subs[e.id].content == e.content
  {
    var u, n := Exec(s, ts), |Begun(ts)|;
    CallsAreBegun(s, ts);
    RunsJoin(s, ts, [Begin(e), Link(n), Record(n)]);
    ArrivesAgain(ts, e);
    RunKeepsInv(book, s, ts);
    FittingEventsGoThrough(book, s.customers, u, e);
    WholeCall(u, e, book[e.customer]);
    NewestAgain(book, s, ts, e);
  }

  lemma NewestAgain(book: Book, s: State, ts: seq<Step>, e: Event)
    requires AtStart(s) && Honest(book, s.customers) && Fitting(book, s.customers, Begun(ts)) && Finished(Exec(s, ts))
    requires NewestEvent(Begun(ts), e)
    ensures var merged := Merge(Exec(s, ts).subs, DueOf(book, e)); e.id in merged && merged[e.id].content == e.content
  {
    EveryEventIsRecorded(book, s, ts);
    AgreeWhenRecorded(book, Begun(ts), Exec(s, ts).recorded);
    NewestIsMerged(Exec(s, ts).recorded, DueOf(book, e));
  }

  lemma ArrivesAgain(ts: seq<Step>, e: Event)
    requires e in Begun(ts)
    ensures SameArrivals(ts, Again(ts, e))
  {
    BegunJoin(ts, [Begin(e), Link(|Begun(ts)|), Record(|Begun(ts)|)]);
    BegunOfOne(e, |Begun(ts)|);
  }

  lemma NewestIsMerged(ds: seq<Due>, d: Due)
    requires Steady(ds) && IsNewest(ds, d)
    ensures d.event.id in Merge(Recorded(ds), d) && Merge(Recorded(ds), d)[d.event.id].content == d.event.content
  {
    NewestWins(ds, d.event.id);
  }

  lemma WholeCall(u: State, e: Event, owner: string)
    requires OwnerFor(u.customers, e) == Some(owner) && Linkable(u.customers, owner, e.customer)
    ensures var n, d := |u.calls|, Due(owner, e);
            var after := Exec(u, [Begin(e), Link(n), Record(n)]);
            after.subs == Merge(u.subs, d) && after.calls == u.calls + [Done(d)]
  {
    ThreeSteps(u, Begin(e), Link(|u.calls|), Record(|u.calls|));
  }

  lemma ThreeSteps(s: State, a: Step, b: Step, c: Step)
    ensures Exec(s, [a, b, c]) == Apply(Apply(Apply(s, a), b), c)
  {
    assert [a, b, c][..2] == [a, b] && [a, b][..1] == [a] && [a][..0] == [];
    assert Exec(s, [a]) == Apply(Exec(s, []), a);
  }

  lemma BegunOfOne(e: Event, n: nat)
    ensures Begun([Begin(e), Link(n), Record(n)]) == [e]
  {
    var steps := [Begin(e), Link(n), Record(n)];
    assert steps[..2] == [Begin(e), Link(n)] && [Begin(e), Link(n)][..1] == [Begin(e)] && [Begin(e)][..0] == [];
    assert Begun([Begin(e)]) == Begun([]) + [e];
  }

  predicate OneOwner(book: Book, c: string, d: string) {
    c in book && d in book && book[c] == book[d]
  }

  // No two subscriptions of one owner have events at one time.
  predicate DistinctTimes(book: Book, es: seq<Event>) {
    forall d, e :: d in es && e in es && OneOwner(book, d.customer, e.customer) && d.at == e.at ==> d.id == e.id
  }

  /** So every owner is told the same: with distinct prices and times, what Current, Of and Has may
      answer after either run is one and the same. */
  lemma OneAnswerAfterAll(book: Book, s: State, ts: seq<Step>, us: seq<Step>, plans: Plans, owner: string,
                          key: string, sub: Option<string>, key': string, sub': Option<string>)
    requires AtStart(s) && Honest(book, s.customers) && Fitting(book, s.customers, Begun(ts))
    requires SameArrivals(ts, us) && Agree(Begun(ts)) && Finished(Exec(s, ts)) && Finished(Exec(s, us))
    requires DistinctPrices(plans) && DistinctTimes(book, Begun(ts))
    requires IsAnswer(plans, Exec(s, ts).subs, owner, key, sub) && IsAnswer(plans, Exec(s, us).subs, owner, key', sub')
    ensures sub == sub' && key == key'
    ensures forall feature :: Features(plans, key, feature) == Features(plans, key', feature)
  {
    RunsConverge(book, s, ts, us);
    var subs := Exec(s, ts).subs;
    forall a, b | Granting(subs, owner, a) && Granting(subs, owner, b) && subs[a].at == subs[b].at
      ensures a == b
    {
      TableIsTheNewestEvents(book, s, ts, a);
      TableIsTheNewestEvents(book, s, ts, b);
    }
    OneAnswer(plans, subs, owner, key, sub, key', sub');
  }

  // A newest event of its subscription, of a customer of the owner's, that lets the owner in.
  ghost predicate LetsIn(book: Book, es: seq<Event>, e: Event, owner: string) {
    && NewestEvent(es, e) && e.customer in book && book[e.customer] == owner
    && (e.content.status == "active" || e.content.status == "trialing" || e.content.status == "past_due")
  }

  lemma GrantedByItsEvent(book: Book, s: State, ts: seq<Step>, owner: string, id: string)
    requires AtStart(s) && Honest(book, s.customers) && Fitting(book, s.customers, Begun(ts)) && Finished(Exec(s, ts))
    requires Agree(Begun(ts))
    ensures Granting(Exec(s, ts).subs, owner, id) <==>
            exists e: Event :: e.id == id && LetsIn(book, Begun(ts), e, owner)
    ensures forall e: Event :: e.id == id && NewestEvent(Begun(ts), e) ==>
              id in Exec(s, ts).subs && Exec(s, ts).subs[id].at == e.at
  {
    TableIsTheNewestEvents(book, s, ts, id);
    var subs, es := Exec(s, ts).subs, Begun(ts);
    if id in subs {
      var e :| NewestEvent(es, e) && e.id == id && subs[id] == RowOf(DueOf(book, e));
      assert Granting(subs, owner, id) ==> LetsIn(book, es, e, owner);
    }
  }

  /** What Current answers after a finished run, by the events alone: the subscription of the newest event among
      those that let the owner in, none when no newest event does. */
  lemma CurrentByTheEvents(book: Book, s: State, ts: seq<Step>, owner: string, r: Option<string>)
    requires AtStart(s) && Honest(book, s.customers) && Fitting(book, s.customers, Begun(ts)) && Finished(Exec(s, ts))
    requires Agree(Begun(ts)) && IsCurrent(Exec(s, ts).subs, owner, r)
    ensures r.None? ==> forall e: Event :: !LetsIn(book, Begun(ts), e, owner)
    ensures r.Some? ==> exists e: Event :: e.id == r.value && LetsIn(book, Begun(ts), e, owner) &&
                          forall f :: LetsIn(book, Begun(ts), f, owner) ==> f.at <= e.at
  {
    var subs, es := Exec(s, ts).subs, Begun(ts);
    forall e | LetsIn(book, es, e, owner)
      ensures Granting(subs, owner, e.id) && subs[e.id].at == e.at
    {
      GrantedByItsEvent(book, s, ts, owner, e.id);
    }
    if r.Some? {
      GrantedByItsEvent(book, s, ts, owner, r.value);
      var e: Event :| e.id == r.value && LetsIn(book, es, e, owner);
    }
  }

  /** An event that names no owner is ignored until an event that does has linked their customer, and
      recorded after: the order of the two decides. */
  lemma NamelessEventNeedsItsCustomer(named: Event, nameless: Event)
    requires named.owner != "" && nameless.owner == "" && named.customer == nameless.customer && named.id != nameless.id
    ensures nameless.id in Synced(Synced(NONE, named), nameless).subs
    ensures nameless.id !in Synced(Synced(NONE, nameless), named).subs
  {
    var first := Synced(NONE, named);
    assert first.customers == map[named.owner := named.customer];
    assert Knows(first.customers, nameless.customer) by {
      assert first.customers[named.owner] == nameless.customer;
    }
    assert Synced(NONE, nameless) == NONE;
  }
}
