/** Reading a cron expression into its five sets (packs/jobs/cron.go). */
module CronField {
  import opened Wrappers
  import opened Text
  import opened Cron

  datatype FieldError = Empty | BadStep | BadValue | Backwards
    | IndexPanic // v += step wrapped below zero: the Go program stops with an index error

  // What one comma-separated part names: from, from + step, ... up to to.
  datatype Range = Range(from: nat, to: nat, step: nat)

  ghost predicate Selects(r: Range, v: int) {
    r.step > 0 && r.from <= v <= r.to && (v - r.from) % r.step == 0
  }

  // The step carries the loop variable over the largest integer.
  predicate Overruns(r: Range) {
    r.from + r.step > MAX_INT
  }

  function CronValue(s: string, lo: nat, hi: nat, names: map<string, nat>): Result<nat, FieldError> {
    if Lower(s) in names then Ok(names[Lower(s)])
    else
      match ParseInt(s)
      case None => Err(BadValue)
      case Some(v) => if v < lo || v > hi then Err(BadValue) else Ok(v)
  }

  function PartStep(part: string): Result<nat, FieldError> {
    var i := IndexOf(part, '/');
    if i == |part| then Ok(1)
    else
      match ParseInt(part[i + 1..])
      case None => Err(BadStep)
      case Some(n) => if n < 1 then Err(BadStep) else Ok(n)
  }

  function PartRange(part: string, lo: nat, hi: nat, names: map<string, nat>): Result<Range, FieldError> {
    match PartStep(part)
    case Err(e) => Err(e)
    case Ok(step) => ItemRange(part[..IndexOf(part, '/')], step, lo, hi, names)
  }

  function ItemRange(item: string, step: nat, lo: nat, hi: nat, names: map<string, nat>): Result<Range, FieldError> {
    var j := IndexOf(item, '-');
    if item == "*" then Ok(Range(lo, hi, step))
    else if j < |item| then
      match CronValue(item[..j], lo, hi, names)
      case Err(e) => Err(e)
      case Ok(from) =>
        match CronValue(item[j + 1..], lo, hi, names)
        case Err(e) => Err(e)
        case Ok(to) => if from > to then Err(Backwards) else Ok(Range(from, to, step))
    else
      match CronValue(item, lo, hi, names)
      case Err(e) => Err(e)
      case Ok(v) => Ok(Range(v, if step > 1 then hi else v, step))
  }

  predicate NamesWithin(names: map<string, nat>, lo: nat, hi: nat) {
    forall k :: k in names ==> lo <= names[k] <= hi
  }

  lemma RangeWithin(part: string, lo: nat, hi: nat, names: map<string, nat>)
    requires lo <= hi && NamesWithin(names, lo, hi)
    ensures match PartRange(part, lo, hi, names)
            case Ok(r) => lo <= r.from <= r.to <= hi && 1 <= r.step <= MAX_INT
            case Err(e) => e != IndexPanic
  {
  }

  ghost predicate Reads(part: string, lo: nat, hi: nat, names: map<string, nat>) {
    PartRange(part, lo, hi, names).Ok? && !Overruns(PartRange(part, lo, hi, names).value)
  }

  ghost predicate PartSelects(part: string, lo: nat, hi: nat, names: map<string, nat>, v: int) {
    PartRange(part, lo, hi, names).Ok? && Selects(PartRange(part, lo, hi, names).value, v)
  }

  // v is a value some part of the field names.
  ghost predicate Names(field: string, lo: nat, hi: nat, names: map<string, nat>, v: int) {
    exists p :: p in Split(field, ',') && PartSelects(p, lo, hi, names, v)
  }

  ghost predicate FieldReads(on: seq<bool>, field: string, lo: nat, hi: nat, names: map<string, nat>) {
    |on| == hi + 1 && forall v :: 0 <= v <= hi ==> (on[v] <==> Names(field, lo, hi, names, v))
  }

  ghost predicate AllRead(parts: seq<string>, lo: nat, hi: nat, names: map<string, nat>) {
    forall p :: p in parts ==> Reads(p, lo, hi, names)
  }

  // The fields that are accepted, and those the program stops on.
  ghost predicate Parses(field: string, lo: nat, hi: nat, names: map<string, nat>) {
    field != "" && AllRead(Split(field, ','), lo, hi, names)
  }

  // What is wrong with a part: it cannot be read, or its step overruns.
  predicate PartFails(part: string, lo: nat, hi: nat, names: map<string, nat>, e: FieldError) {
    match PartRange(part, lo, hi, names)
    case Err(error) => e == error
    case Ok(r) => Overruns(r) && e == IndexPanic
  }

  // A field fails as the first of its parts that does not read.
  ghost predicate FirstFails(parts: seq<string>, lo: nat, hi: nat, names: map<string, nat>, e: FieldError) {
    exists i :: 0 <= i < |parts| && AllRead(parts[..i], lo, hi, names) && PartFails(parts[i], lo, hi, names, e)
  }

  ghost predicate FieldFails(field: string, lo: nat, hi: nat, names: map<string, nat>, e: FieldError) {
    if field == "" then e == Empty else FirstFails(Split(field, ','), lo, hi, names, e)
  }

  // The program stops on the field: the first part that does not read overruns.
  ghost predicate Panics(field: string, lo: nat, hi: nat, names: map<string, nat>) {
    field != "" &&
    var parts := Split(field, ',');
    exists i :: 0 <= i < |parts| && AllRead(parts[..i], lo, hi, names) && PartOverruns(parts[i], lo, hi, names)
  }

  predicate PartOverruns(part: string, lo: nat, hi: nat, names: map<string, nat>) {
    PartRange(part, lo, hi, names).Ok? && Overruns(PartRange(part, lo, hi, names).value)
  }

  lemma FailingParts(part: string, lo: nat, hi: nat, names: map<string, nat>, e: FieldError)
    requires lo <= hi && NamesWithin(names, lo, hi) && PartFails(part, lo, hi, names, e)
    ensures !Reads(part, lo, hi, names) && (e == IndexPanic <==> PartOverruns(part, lo, hi, names))
    ensures forall x :: PartFails(part, lo, hi, names, x) ==> x == e
  {
    RangeWithin(part, lo, hi, names);
  }

  /** A field that fails fails in one way, and does not parse; with an index error exactly when the
      first part that does not read overruns. */
  lemma OneFailure(field: string, lo: nat, hi: nat, names: map<string, nat>, e: FieldError)
    requires lo <= hi && NamesWithin(names, lo, hi) && FieldFails(field, lo, hi, names, e)
    ensures !Parses(field, lo, hi, names) && (e == IndexPanic <==> Panics(field, lo, hi, names))
    ensures forall x :: FieldFails(field, lo, hi, names, x) ==> x == e
  {
    if field != "" {
      var parts := Split(field, ',');
      var i :| 0 <= i < |parts| && AllRead(parts[..i], lo, hi, names) && PartFails(parts[i], lo, hi, names, e);
      FailingParts(parts[i], lo, hi, names, e);
      assert parts[i] in parts;
      forall x | FieldFails(field, lo, hi, names, x)
        ensures x == e
      {
        var j :| 0 <= j < |parts| && AllRead(parts[..j], lo, hi, names) && PartFails(parts[j], lo, hi, names, x);
        FailingParts(parts[j], lo, hi, names, x);
        SameFirst(parts, i, j, lo, hi, names);
      }
      if Panics(field, lo, hi, names) {
        var j :| 0 <= j < |parts| && AllRead(parts[..j], lo, hi, names) && PartOverruns(parts[j], lo, hi, names);
        SameFirst(parts, i, j, lo, hi, names);
      }
    }
  }

  lemma ReadUpTo(parts: seq<string>, n: nat, lo: nat, hi: nat, names: map<string, nat>)
    requires n <= |parts| && AllRead(parts[..n], lo, hi, names)
    ensures forall k :: 0 <= k < n ==> Reads(parts[k], lo, hi, names)
  {
    assert forall k :: 0 <= k < n ==> parts[k] in parts[..n];
  }

  lemma SameFirst(parts: seq<string>, i: nat, j: nat, lo: nat, hi: nat, names: map<string, nat>)
    requires i < |parts| && j < |parts| && AllRead(parts[..i], lo, hi, names) && AllRead(parts[..j], lo, hi, names)
    requires !Reads(parts[i], lo, hi, names) && !Reads(parts[j], lo, hi, names)
    ensures i == j
  {
    ReadUpTo(parts, i, lo, hi, names);
    ReadUpTo(parts, j, lo, hi, names);
  }

  ghost predicate Inhabited(on: seq<bool>, hi: nat) {
    exists v :: 0 <= v <= hi && v < |on| && on[v]
  }

  // A field that reads names some value: the sets of a schedule are never empty.
  lemma FieldsAreFilled(on: seq<bool>, field: string, lo: nat, hi: nat, names: map<string, nat>)
    requires lo <= hi && NamesWithin(names, lo, hi) && FieldReads(on, field, lo, hi, names)
    requires Parses(field, lo, hi, names)
    ensures Inhabited(on, hi)
  {
    var p := Split(field, ',')[0];
    assert Reads(p, lo, hi, names);
    RangeWithin(p, lo, hi, names);
    var v := PartRange(p, lo, hi, names).value.from;
    assert Names(field, lo, hi, names, v) by {
      assert PartSelects(p, lo, hi, names, v);
    }
  }

  /** One field as a set over 0..hi. */
  method ReadField(field: string, lo: nat, hi: nat, names: map<string, nat>) returns (r: Result<seq<bool>, FieldError>)
    requires lo <= hi < 100 && NamesWithin(names, lo, hi)
    ensures r.Ok? <==> Parses(field, lo, hi, names)
    ensures r.Ok? ==> FieldReads(r.value, field, lo, hi, names) && Inhabited(r.value, hi)
    ensures forall e :: r == Err(e) <==> FieldFails(field, lo, hi, names, e)
    ensures r == Err(IndexPanic) <==> Panics(field, lo, hi, names)
  {
    if field == "" {
      return Err(Empty);
    }
    var out := new bool[hi + 1](_ => false);
    var parts := Split(field, ',');
    for i := 0 to |parts|
      invariant AllRead(parts[..i], lo, hi, names)
      invariant MarkedBy(parts[..i], out[..], lo, hi, names)
    {
      ghost var before := out[..];
      var e := ReadPart(out, parts[i], lo, hi, names);
      if e.Some? {
        OneFailure(field, lo, hi, names, e.value);
        return Err(e.value);
      }
      PartMarked(parts, i, before, out[..], lo, hi, names);
      assert parts[..i + 1] == parts[..i] + [parts[i]];
    }
    assert parts[..|parts|] == parts;
    FieldsAreFilled(out[..], field, lo, hi, names);
    ParsedDoesNotFail(field, lo, hi, names);
    r := Ok(out[..]);
  }

  lemma ParsedDoesNotFail(field: string, lo: nat, hi: nat, names: map<string, nat>)
    requires lo <= hi && NamesWithin(names, lo, hi) && Parses(field, lo, hi, names)
    ensures !Panics(field, lo, hi, names) && forall e :: !FieldFails(field, lo, hi, names, e)
  {
    forall e | FieldFails(field, lo, hi, names, e)
      ensures false
    {
      OneFailure(field, lo, hi, names, e);
    }
    assert Panics(field, lo, hi, names) ==> FieldFails(field, lo, hi, names, IndexPanic);
  }

  method ReadPart(out: array<bool>, part: string, lo: nat, hi: nat, names: map<string, nat>)
      returns (e: Option<FieldError>)
    requires lo <= hi < 100 && NamesWithin(names, lo, hi) && out.Length == hi + 1
    modifies out
    ensures e.None? <==> Reads(part, lo, hi, names)
    ensures e.None? ==> forall v :: 0 <= v <= hi ==> (out[v] <==> old(out[v]) || PartSelects(part, lo, hi, names, v))
    ensures e == Some(IndexPanic) <==> PartOverruns(part, lo, hi, names)
    ensures e.Some? ==> PartFails(part, lo, hi, names, e.value)
  {
    RangeWithin(part, lo, hi, names);
    match PartRange(part, lo, hi, names)
    case Err(error) => return Some(error);
    case Ok(range) =>
      var wrapped := Mark(out, range);
      return if wrapped then Some(IndexPanic) else None;
  }

  ghost predicate MarkedBy(parts: seq<string>, on: seq<bool>, lo: nat, hi: nat, names: map<string, nat>) {
    |on| == hi + 1 && forall v :: 0 <= v <= hi ==>
        (on[v] <==> exists p :: p in parts && PartSelects(p, lo, hi, names, v))
  }

  lemma PartMarked(parts: seq<string>, i: nat, before: seq<bool>, on: seq<bool>, lo: nat, hi: nat,
      names: map<string, nat>)
    requires i < |parts| && MarkedBy(parts[..i], before, lo, hi, names) && |on| == hi + 1
    requires forall v :: 0 <= v <= hi ==> (on[v] <==> before[v] || PartSelects(parts[i], lo, hi, names, v))
    ensures MarkedBy(parts[..i + 1], on, lo, hi, names)
  {
    assert parts[..i + 1] == parts[..i] + [parts[i]];
  }

  // The loop that sets a part's values, stopping where the loop variable wraps.
  method Mark(out: array<bool>, r: Range) returns (wrapped: bool)
    requires r.from <= r.to < out.Length <= 100 && 1 <= r.step <= MAX_INT
    modifies out
    ensures wrapped <==> Overruns(r)
    ensures !wrapped ==> forall v :: 0 <= v < out.Length ==> (out[v] <==> old(out[v]) || Selects(r, v))
  {
    var v := r.from;
    MarkNone(out[..], r);
    while v <= r.to
      invariant (v == r.from && v <= r.to) || (r.from + r.step <= v <= r.to + r.step && !Overruns(r))
      invariant Marked(old(out[..]), out[..], r, v)
    {
      MarkOne(old(out[..]), out[..], r, v);
      out[v] := true;
      var next := Wrap(v + r.step);
      if next < 0 {
        return true;
      }
      v := next;
    }
    wrapped := false;
  }

  // The values selected below v are set, the others as before.
  ghost predicate Marked(before: seq<bool>, now: seq<bool>, r: Range, v: nat) {
    && |now| == |before| && r.step > 0 && r.from <= v && (v - r.from) % r.step == 0
    && forall w :: 0 <= w < |now| ==> (now[w] <==> before[w] || (w < v && Selects(r, w)))
  }

  lemma MarkNone(before: seq<bool>, r: Range)
    requires r.step > 0
    ensures Marked(before, before, r, r.from)
  {
  }

  lemma MarkOne(before: seq<bool>, now: seq<bool>, r: Range, v: nat)
    requires Marked(before, now, r, v) && v <= r.to < |now|
    ensures Marked(before, now[v := true], r, v + r.step)
  {
    NextSelected(r, v);
  }

  lemma NextSelected(r: Range, v: nat)
    requires r.step > 0 && r.from <= v <= r.to && (v - r.from) % r.step == 0
    ensures forall w :: v <= w < v + r.step ==> (Selects(r, w) <==> w == v)
    ensures (v + r.step - r.from) % r.step == 0
  {
    forall w | v <= w < v + r.step
      ensures Selects(r, w) <==> w == v
    {
      NextMultiple(v - r.from, r.step, w - v);
    }
    NextMultiple(v - r.from, r.step, r.step);
  }

  // Between two multiples there is none.
  lemma NextMultiple(n: nat, step: nat, d: nat)
    requires step > 0 && n % step == 0 && d <= step
    ensures (n + d) % step == 0 <==> d == 0 || d == step
  {
    var q := n / step;
    if d < step {
      Euclid(n + d, q, d, step);
    } else {
      Euclid(n + d, q + 1, 0, step);
    }
  }

  lemma Euclid(x: nat, q: nat, r: nat, step: nat)
    requires step > 0 && r < step && x == q * step + r
    ensures x % step == r
  {
    var p := x / step;
    assert (p - q) * step == r - x % step;
    if p != q {
      FarMultiple(p - q, step);
    }
  }

  lemma FarMultiple(k: int, step: nat)
    requires k != 0
    ensures k * step >= step || k * step + step <= 0
  {
    if k > 0 {
      assert (k - 1) * step >= 0;
    } else {
      assert (-k - 1) * step >= 0;
    }
  }

  const MONTH_NAMES: map<string, nat> := map["jan" := 1, "feb" := 2, "mar" := 3, "apr" := 4, "may" := 5, "jun" := 6,
    "jul" := 7, "aug" := 8, "sep" := 9, "oct" := 10, "nov" := 11, "dec" := 12]

  const DAY_NAMES: map<string, nat> := map[
    "sun" := 0, "mon" := 1, "tue" := 2, "wed" := 3, "thu" := 4, "fri" := 5, "sat" := 6]

  datatype CronError = FieldCount | BadField(index: nat, error: FieldError) | UnknownAlias | Reboot | NeverDue
    | Panic(index: nat) // the program stops reading that field

  const ALIASES: map<string, seq<string>> := map[
    "@hourly" := ["0", "*", "*", "*", "*"],
    "@daily" := ["0", "0", "*", "*", "*"],
    "@midnight" := ["0", "0", "*", "*", "*"],
    "@weekly" := ["0", "0", "*", "*", "0"],
    "@monthly" := ["0", "0", "1", "*", "*"],
    "@yearly" := ["0", "0", "1", "1", "*"],
    "@annually" := ["0", "0", "1", "1", "*"]]

  // The aliases stand for their expressions; anything else starting with @ is refused.
  function Expand(words: seq<string>): Result<seq<string>, CronError> {
    if |words| == 1 && words[0] in ALIASES then Ok(ALIASES[words[0]])
    else if words != [] && words[0] != "" && words[0][0] == '@' then
      Err(if words == ["@reboot"] then Reboot else UnknownAlias)
    else Ok(words)
  }

  ghost predicate WeekdaysRead(on: seq<bool>, field: string) {
    exists raw :: FieldReads(raw, field, 0, 7, DAY_NAMES) && on == if raw[7] then raw[0 := true] else raw
  }

  // The sets of an accepted expression: what its five fields name, Sunday as 0 or 7.
  ghost predicate ReadsAs(f: seq<string>, c: Schedule) {
    && |f| == 5
    && FieldReads(c.minutes, f[0], 0, 59, map[])
    && FieldReads(c.hours, f[1], 0, 23, map[])
    && FieldReads(c.days, f[2], 1, 31, map[])
    && FieldReads(c.months, f[3], 1, 12, MONTH_NAMES)
    && WeekdaysRead(c.weekdays, f[4])
    && (c.anyDom <==> f[2] == "*") && (c.anyDow <==> f[4] == "*")
  }

  // The bounds of each field and the names it knows.
  datatype Bounds = Bounds(lo: nat, hi: nat, names: map<string, nat>)

  function BoundsOf(i: nat): (b: Bounds)
    requires i < 5
    ensures b.lo <= b.hi < 100 && NamesWithin(b.names, b.lo, b.hi)
  {
    NamesAreWithin();
    match i
    case 0 => Bounds(0, 59, map[])
    case 1 => Bounds(0, 23, map[])
    case 2 => Bounds(1, 31, map[])
    case 3 => Bounds(1, 12, MONTH_NAMES)
    case 4 => Bounds(0, 7, DAY_NAMES)
  }

  ghost predicate ParsesAt(f: seq<string>, i: nat)
    requires i < 5 == |f|
  {
    var b := BoundsOf(i);
    Parses(f[i], b.lo, b.hi, b.names)
  }

  // Every field of the expression can be read.
  ghost predicate Accepts(f: seq<string>)
    requires |f| == 5
  {
    ParsesUpTo(f, 5)
  }

  ghost predicate ParsesUpTo(f: seq<string>, n: nat)
    requires n <= 5 == |f|
  {
    forall k :: 0 <= k < n ==> ParsesAt(f, k)
  }

  // The field and the error of the first that cannot.
  ghost predicate ExpressionFails(f: seq<string>, i: nat, e: FieldError)
    requires |f| == 5
  {
    && i < 5 && ParsesUpTo(f, i)
    && FailsAt(f, i, e)
  }

  // The program stops on the expression: the first field that does not parse panics.
  ghost predicate Stops(f: seq<string>) {
    |f| == 5 && exists i :: 0 <= i < 5 && StopsAt(f, i)
  }

  ghost predicate StopsAt(f: seq<string>, i: nat)
    requires i < 5 == |f|
  {
    && ParsesUpTo(f, i)
    && var b := BoundsOf(i); Panics(f[i], b.lo, b.hi, b.names)
  }

  /** An expression fails in one field and in one way, not when it is accepted, and with a panic exactly
      when the program stops on it. */
  lemma OneExpressionFailure(f: seq<string>, i: nat, e: FieldError)
    requires |f| == 5 && ExpressionFails(f, i, e)
    ensures !Accepts(f) && (e == IndexPanic <==> Stops(f))
    ensures forall j, x :: ExpressionFails(f, j, x) ==> j == i && x == e
  {
    var b := BoundsOf(i);
    OneFailure(f[i], b.lo, b.hi, b.names, e);
    assert !ParsesAt(f, i);
    assert e == IndexPanic ==> StopsAt(f, i);
    forall j: nat, x | ExpressionFails(f, j, x)
      ensures j == i && x == e
    {
      var c := BoundsOf(j);
      OneFailure(f[j], c.lo, c.hi, c.names, x);
      assert !ParsesAt(f, j);
    }
    if j :| 0 <= j < 5 && StopsAt(f, j) {
      PanicIsAFailure(f, j);
    }
  }

  lemma PanicIsAFailure(f: seq<string>, j: nat)
    requires j < 5 == |f| && StopsAt(f, j)
    ensures ExpressionFails(f, j, IndexPanic)
  {
    var c := BoundsOf(j);
    var parts := Split(f[j], ',');
    var k :| 0 <= k < |parts| && AllRead(parts[..k], c.lo, c.hi, c.names)
        && PartOverruns(parts[k], c.lo, c.hi, c.names);
    assert PartFails(parts[k], c.lo, c.hi, c.names, IndexPanic);
  }

  ghost predicate IsErrorOf(f: seq<string>, error: CronError)
    requires |f| == 5
  {
    exists i, e :: ExpressionFails(f, i, e) && error == Failure(i, e)
  }

  lemma ErrorIsExact(f: seq<string>, error: CronError)
    requires |f| == 5 && IsErrorOf(f, error)
    ensures !Accepts(f) && (error.Panic? <==> Stops(f)) && (error.Panic? || error.BadField?)
    ensures forall i, e :: error == Failure(i, e) <==> ExpressionFails(f, i, e)
  {
    var i, e :| ExpressionFails(f, i, e) && error == Failure(i, e);
    OneExpressionFailure(f, i, e);
  }

  lemma AcceptedDoesNotFail(f: seq<string>)
    requires |f| == 5 && Accepts(f)
    ensures !Stops(f) && forall i, e :: !ExpressionFails(f, i, e)
  {
    forall i, e | ExpressionFails(f, i, e)
      ensures false
    {
      OneExpressionFailure(f, i, e);
    }
    if j :| 0 <= j < 5 && StopsAt(f, j) {
      PanicIsAFailure(f, j);
    }
  }

  function Failure(i: nat, e: FieldError): CronError {
    if e.IndexPanic? then Panic(i) else BadField(i, e)
  }

  lemma OneSet(a: seq<bool>, b: seq<bool>, field: string, lo: nat, hi: nat, names: map<string, nat>)
    requires FieldReads(a, field, lo, hi, names) && FieldReads(b, field, lo, hi, names)
    ensures a == b
  {
    forall v | 0 <= v < hi + 1
      ensures a[v] == b[v]
    {
    }
  }

  /** An expression has one reading. */
  lemma OneReading(f: seq<string>, c: Schedule, d: Schedule)
    requires ReadsAs(f, c) && ReadsAs(f, d)
    ensures c == d
  {
    OneSet(c.minutes, d.minutes, f[0], 0, 59, map[]);
    OneSet(c.hours, d.hours, f[1], 0, 23, map[]);
    OneSet(c.days, d.days, f[2], 1, 31, map[]);
    OneSet(c.months, d.months, f[3], 1, 12, MONTH_NAMES);
    OneWeek(f[4], c.weekdays, d.weekdays);
  }

  lemma OneWeek(field: string, a: seq<bool>, b: seq<bool>)
    requires WeekdaysRead(a, field) && WeekdaysRead(b, field)
    ensures a == b
  {
    var x :| FieldReads(x, field, 0, 7, DAY_NAMES) && a == if x[7] then x[0 := true] else x;
    var y :| FieldReads(y, field, 0, 7, DAY_NAMES) && b == if y[7] then y[0 := true] else y;
    OneSet(x, y, field, 0, 7, DAY_NAMES);
  }

  /** Cron: the schedule of an expression, refused when a search from now finds nothing.
      words are the expression's words (strings.Fields). */
  method New(words: seq<string>, z: Zone, now: int) returns (r: Result<Schedule, CronError>)
    ensures r.Ok? ==> Expand(words).Ok? && ReadsAs(Expand(words).value, r.value) && Filled(r.value)
    ensures r.Ok? ==> !NothingWithin(r.value, z, now)
    ensures Expand(words).Err? ==> r == Err(Expand(words).error)
    ensures Expand(words).Ok? ==> (r == Err(FieldCount) <==> |Expand(words).value| != 5)
    ensures Expand(words).Ok? && |Expand(words).value| == 5 ==>
              (forall i, e :: r == Err(Failure(i, e)) <==> ExpressionFails(Expand(words).value, i, e))
    ensures r.Err? && r.error.Panic? <==> Expand(words).Ok? && Stops(Expand(words).value)
    ensures Expand(words).Ok? ==> (r == Err(NeverDue) <==> RefusedAsNever(Expand(words).value, z, now))
  {
    if Expand(words).Err? {
      return Err(Expand(words).error);
    }
    var f := Expand(words).value;
    if |f| != 5 {
      return Err(FieldCount);
    }
    r := ReadExpression(f);
    if r.Err? {
      ErrorIsExact(f, r.error);
    } else {
      AcceptedDoesNotFail(f);
      var first := Next(r.value, z, now);
      RefusedByItsReading(f, r.value, z, now);
      if first.None? {
        return Err(NeverDue);
      }
    }
  }

  // The expression can be read and its schedule has nothing due.
  ghost predicate RefusedAsNever(f: seq<string>, z: Zone, now: int) {
    |f| == 5 && Accepts(f) && exists c: Schedule :: ReadsAs(f, c) && Filled(c) && NothingWithin(c, z, now)
  }

  lemma RefusedByItsReading(f: seq<string>, c: Schedule, z: Zone, now: int)
    requires |f| == 5 && Accepts(f) && ReadsAs(f, c) && Filled(c)
    ensures RefusedAsNever(f, z, now) <==> NothingWithin(c, z, now)
  {
    forall d: Schedule | ReadsAs(f, d)
      ensures c == d
    {
      OneReading(f, c, d);
    }
  }

  lemma NamesAreWithin()
    ensures NamesWithin(MONTH_NAMES, 1, 12) && NamesWithin(DAY_NAMES, 0, 7)
  {
  }

  // The field at i, within its own bounds.
  method ReadAt(f: seq<string>, i: nat) returns (r: Result<seq<bool>, FieldError>)
    requires i < 5 == |f| && ParsesUpTo(f, i)
    ensures r.Err? ==> IsErrorOf(f, Failure(i, r.error)) && !Accepts(f)
    ensures r.Ok? ==> SetAt(f, i, r.value) && ParsesUpTo(f, i + 1)
  {
    var b := BoundsOf(i);
    r := ReadField(f[i], b.lo, b.hi, b.names);
    if r.Err? {
      FailsFirst(f, i, r.error);
    }
  }

  ghost predicate FailsAt(f: seq<string>, i: nat, e: FieldError)
    requires i < 5 == |f|
  {
    var b := BoundsOf(i);
    FieldFails(f[i], b.lo, b.hi, b.names, e)
  }

  ghost predicate SetAt(f: seq<string>, i: nat, on: seq<bool>)
    requires i < 5 == |f|
  {
    var b := BoundsOf(i);
    FieldReads(on, f[i], b.lo, b.hi, b.names) && Inhabited(on, b.hi)
  }

  // Sunday is 0 and 7.
  function SundayEitherWay(on: seq<bool>): seq<bool>
    requires |on| == 8
  {
    if on[7] then on[0 := true] else on
  }

  lemma FailsFirst(f: seq<string>, i: nat, e: FieldError)
    requires i < 5 == |f| && FailsAt(f, i, e) && ParsesUpTo(f, i)
    ensures IsErrorOf(f, Failure(i, e)) && !Accepts(f)
  {
    assert ExpressionFails(f, i, e);
    OneExpressionFailure(f, i, e);
  }

  method ReadExpression(f: seq<string>) returns (r: Result<Schedule, CronError>)
    requires |f| == 5
    ensures r.Ok? <==> Accepts(f)
    ensures r.Ok? ==> ReadsAs(f, r.value) && Filled(r.value)
    ensures r.Err? ==> IsErrorOf(f, r.error)
  {
    var minutes := ReadAt(f, 0);
    if minutes.Err? { return Err(Failure(0, minutes.error)); }
    var hours := ReadAt(f, 1);
    if hours.Err? { return Err(Failure(1, hours.error)); }
    var days := ReadAt(f, 2);
    if days.Err? { return Err(Failure(2, days.error)); }
    var months := ReadAt(f, 3);
    if months.Err? { return Err(Failure(3, months.error)); }
    var weekdays := ReadAt(f, 4);
    if weekdays.Err? { return Err(Failure(4, weekdays.error)); }
    Assembled(f, minutes.value, hours.value, days.value, months.value, weekdays.value);
    return Ok(Fields(minutes.value, hours.value, days.value, months.value, SundayEitherWay(weekdays.value),
        f[2] == "*", f[4] == "*"));
  }

  lemma Assembled(f: seq<string>, minutes: seq<bool>, hours: seq<bool>, days: seq<bool>, months: seq<bool>,
      raw: seq<bool>)
    requires |f| == 5 && SetAt(f, 0, minutes) && SetAt(f, 1, hours) && SetAt(f, 2, days) && SetAt(f, 3, months)
        && SetAt(f, 4, raw)
    ensures |raw| == 8 && |minutes| == 60 && |hours| == 24 && |days| == 32 && |months| == 13
    ensures var c: Schedule := Fields(minutes, hours, days, months, SundayEitherWay(raw), f[2] == "*", f[4] == "*");
            ReadsAs(f, c) && Filled(c)
  {
    var c: Schedule := Fields(minutes, hours, days, months, SundayEitherWay(raw), f[2] == "*", f[4] == "*");
    WeekdaysAreRead(f[4], raw);
    Inhabitants(c);
  }

  lemma WeekdaysAreRead(field: string, raw: seq<bool>)
    requires FieldReads(raw, field, 0, 7, DAY_NAMES) && Inhabited(raw, 7)
    ensures WeekdaysRead(SundayEitherWay(raw), field) && Inhabited(SundayEitherWay(raw), 6)
  {
    if raw[7] {
      assert SundayEitherWay(raw)[0];
    }
  }

  lemma Inhabitants(c: Schedule)
    requires Inhabited(c.minutes, 59) && Inhabited(c.hours, 23) && Inhabited(c.weekdays, 6)
    ensures Filled(c)
  {
  }

  // The notation of one part: "*", "5", "1-5", each with an optional "/step".
  datatype Item = Star | One(v: nat) | Span(from: nat, to: nat)

  datatype Part = Part(item: Item, step: Option<nat>)

  function ShowItem(i: Item): string {
    match i
    case Star => "*"
    case One(v) => Digits(v)
    case Span(from, to) => Digits(from) + "-" + Digits(to)
  }

  function Show(p: Part): string {
    ShowItem(p.item) + match p.step case None => "" case Some(n) => "/" + Digits(n)
  }

  predicate Sensible(p: Part, lo: nat, hi: nat) {
    && (p.step.Some? ==> 1 <= p.step.value <= MAX_INT)
    && match p.item
       case Star => true
       case One(v) => lo <= v <= hi
       case Span(from, to) => lo <= from <= to <= hi
  }

  // What a part means: a single value with a step other than 1 runs on to the field's end.
  function Meaning(p: Part, lo: nat, hi: nat): Range {
    var step := if p.step.Some? then p.step.value else 1;
    match p.item
    case Star => Range(lo, hi, step)
    case One(v) => Range(v, if step == 1 then v else hi, step)
    case Span(from, to) => Range(from, to, step)
  }

  ghost predicate NoDigitNames(names: map<string, nat>) {
    forall k :: k in names ==> k != "" && !IsDigit(k[0])
  }

  lemma NumbersRead(v: nat, lo: nat, hi: nat, names: map<string, nat>)
    requires NoDigitNames(names) && lo <= v <= hi < 100
    ensures CronValue(Digits(v), lo, hi, names) == Ok(v)
  {
    ParseFormat(v);
    assert FormatInt(v) == Digits(v);
    assert IsDigit(Digits(v)[0]);
    assert Lower(Digits(v))[0] == Digits(v)[0];
  }

  lemma DigitsAreNoMarks(n: nat)
    ensures '-' !in Digits(n) && '/' !in Digits(n) && ',' !in Digits(n) && Digits(n) != "*"
  {
    assert Digits(n)[0] in Digits(n);
  }

  lemma SpanRoundTrip(from: nat, to: nat, step: nat, lo: nat, hi: nat, names: map<string, nat>)
    requires NoDigitNames(names) && lo <= from <= to <= hi < 100
    ensures ItemRange(Digits(from) + "-" + Digits(to), step, lo, hi, names) == Ok(Range(from, to, step))
  {
    var a, b := Digits(from), Digits(to);
    var s := a + ['-'] + b;
    DigitsAreNoMarks(from);
    NumbersRead(from, lo, hi, names);
    NumbersRead(to, lo, hi, names);
    IndexOfFirst(a, '-', b);
    assert s[..|a|] == a && s[|a| + 1..] == b;
    assert s[|a|] == '-';
    assert a + "-" + b == s;
  }

  lemma ItemRoundTrip(p: Part, lo: nat, hi: nat, names: map<string, nat>)
    requires NoDigitNames(names) && lo <= hi < 100 && Sensible(p, lo, hi)
    ensures '/' !in ShowItem(p.item) && ',' !in ShowItem(p.item)
    ensures ItemRange(ShowItem(p.item), Meaning(p, lo, hi).step, lo, hi, names) == Ok(Meaning(p, lo, hi))
  {
    match p.item
    case Star =>
    case One(v) =>
      NumbersRead(v, lo, hi, names);
      DigitsAreNoMarks(v);
    case Span(from, to) =>
      SpanRoundTrip(from, to, Meaning(p, lo, hi).step, lo, hi, names);
      DigitsAreNoMarks(from);
      DigitsAreNoMarks(to);
  }

  lemma ShowRoundTrip(p: Part)
    requires '/' !in ShowItem(p.item) && ',' !in ShowItem(p.item) && (p.step.Some? ==> 1 <= p.step.value <= MAX_INT)
    ensures ',' !in Show(p)
    ensures PartStep(Show(p)) == Ok(if p.step.Some? then p.step.value else 1)
    ensures Show(p)[..IndexOf(Show(p), '/')] == ShowItem(p.item)
  {
    var item := ShowItem(p.item);
    if p.step.None? {
      assert Show(p) == item && item[..|item|] == item;
      assert IndexOf(item, '/') == |item|;
    } else {
      assert Show(p) == item + "/" + Digits(p.step.value);
      StepRoundTrip(item, p.step.value);
      DigitsAreNoMarks(p.step.value);
    }
  }

  lemma PartRoundTrip(p: Part, lo: nat, hi: nat, names: map<string, nat>)
    requires NoDigitNames(names) && lo <= hi < 100 && Sensible(p, lo, hi)
    ensures ',' !in Show(p)
    ensures PartRange(Show(p), lo, hi, names) == Ok(Meaning(p, lo, hi))
  {
    ItemRoundTrip(p, lo, hi, names);
    ShowRoundTrip(p);
  }

  lemma StepRoundTrip(item: string, n: nat)
    requires '/' !in item && 1 <= n <= MAX_INT
    ensures PartStep(item + "/" + Digits(n)) == Ok(n)
    ensures (item + "/" + Digits(n))[..IndexOf(item + "/" + Digits(n), '/')] == item
  {
    var s := item + ['/'] + Digits(n);
    ParseFormat(n);
    IndexOfFirst(item, '/', Digits(n));
    assert s[..|item|] == item && s[|item| + 1..] == Digits(n);
    assert item + "/" + Digits(n) == s;
  }

  function ShowAll(ps: seq<Part>): (shown: seq<string>)
    ensures |shown| == |ps| && forall i :: 0 <= i < |ps| ==> shown[i] == Show(ps[i])
  {
    seq(|ps|, i requires 0 <= i < |ps| => Show(ps[i]))
  }

  /** A field written from its parts reads back as exactly the values the parts mean. */
  lemma FieldRoundTrip(ps: seq<Part>, lo: nat, hi: nat, names: map<string, nat>, v: int)
    requires |ps| > 0 && NoDigitNames(names) && lo <= hi < 100
    requires forall p :: p in ps ==> Sensible(p, lo, hi)
    ensures Names(Join(ShowAll(ps), ','), lo, hi, names, v) <==> exists p :: p in ps && Selects(Meaning(p, lo, hi), v)
  {
    var shown := ShowAll(ps);
    forall i | 0 <= i < |ps|
      ensures ',' !in shown[i] && PartRange(shown[i], lo, hi, names) == Ok(Meaning(ps[i], lo, hi))
    {
      PartRoundTrip(ps[i], lo, hi, names);
    }
    SplitJoin(shown, ',');
    if p :| p in shown && PartSelects(p, lo, hi, names, v) {
      var i :| 0 <= i < |ps| && shown[i] == p;
      assert Selects(Meaning(ps[i], lo, hi), v);
    }
    if p :| p in ps && Selects(Meaning(p, lo, hi), v) {
      var i :| 0 <= i < |ps| && ps[i] == p;
      assert PartSelects(shown[i], lo, hi, names, v);
    }
  }

  /** A single value with a step is read as a panic exactly when their sum passes the largest integer. */
  lemma HugeStepPanics(v: nat, n: nat, lo: nat, hi: nat, names: map<string, nat>)
    requires NoDigitNames(names) && lo <= v <= hi < 100 && 1 <= n <= MAX_INT
    ensures Panics(Show(Part(One(v), Some(n))), lo, hi, names) <==> v + n > MAX_INT
  {
    var p := Part(One(v), Some(n));
    PartRoundTrip(p, lo, hi, names);
    SplitJoin([Show(p)], ',');
    OnePartPanics(Show(p), lo, hi, names);
  }

  lemma OnePartPanics(field: string, lo: nat, hi: nat, names: map<string, nat>)
    requires field != "" && Split(field, ',') == [field]
    ensures Panics(field, lo, hi, names) <==> PartOverruns(field, lo, hi, names)
  {
    assert [field][0] == field && [field][..0] == [];
  }

  /** With 9 and the largest integer, "9/9223372036854775807" in the minutes field, the program stops
      whatever the other fields are. */
  lemma HugeStepStops(f: seq<string>, n: nat)
    requires |f| == 5 && n == MAX_INT && f[0] == "9/" + FormatInt(n)
    ensures Panics(f[0], 0, 59, map[]) && Stops(f)
  {
    var p := Part(One(9), Some(n));
    assert Digits(9) == "9" && Show(p) == Digits(9) + ("/" + Digits(n)) == f[0];
    HugeStepPanics(9, n, 0, 59, map[]);
    assert BoundsOf(0) == Bounds(0, 59, map[]) && StopsAt(f, 0);
  }

  // ---- Words, Sundays and aliases ----

  // A word of the field's names, in any case, that no mark of the notation splits.
  predicate IsWord(w: string, names: map<string, nat>) {
    Lower(w) in names && w != "*" && '-' !in w && '/' !in w
  }

  lemma NoMark(s: string, c: char)
    requires c !in s
    ensures IndexOf(s, c) == |s| && s[..|s|] == s
  {
  }

  /** A word reads as its number, and two with a dash as the numbers from the one to the other. */
  lemma WordsRead(a: string, b: string, lo: nat, hi: nat, names: map<string, nat>)
    requires IsWord(a, names) && IsWord(b, names) && names[Lower(a)] <= names[Lower(b)]
    ensures PartRange(a, lo, hi, names) == Ok(Range(names[Lower(a)], names[Lower(a)], 1))
    ensures PartRange(a + "-" + b, lo, hi, names) == Ok(Range(names[Lower(a)], names[Lower(b)], 1))
  {
    var span := a + ['-'] + b;
    NoMark(a, '-');
    NoMark(a, '/');
    NoMark(span, '/');
    IndexOfFirst(a, '-', b);
    assert span[..|a|] == a && span[|a| + 1..] == b && a + "-" + b == span;
  }

  /** Sunday is 0 and 7; every other day is its number. */
  lemma SundayIsZeroOrSeven(f: seq<string>, c: Schedule, d: nat)
    requires ReadsAs(f, c) && d < 7
    ensures c.weekdays[d] <==> Names(f[4], 0, 7, DAY_NAMES, d) || (d == 0 && Names(f[4], 0, 7, DAY_NAMES, 7))
  {
    var raw :| FieldReads(raw, f[4], 0, 7, DAY_NAMES) && c.weekdays == if raw[7] then raw[0 := true] else raw;
  }

  lemma NamesHaveNoDigits()
    ensures NoDigitNames(map[]) && NoDigitNames(MONTH_NAMES) && NoDigitNames(DAY_NAMES)
  {
  }

  lemma OneNumber(n: nat, lo: nat, hi: nat, names: map<string, nat>, v: int)
    requires NoDigitNames(names) && lo <= n <= hi < 100 && n < 10
    ensures Names(Digits(n), lo, hi, names, v) <==> v == n
  {
    var p := Part(One(n), None);
    FieldRoundTrip([p], lo, hi, names, v);
    assert Show(p) == Digits(n) + "" == Digits(n);
    assert ShowAll([p]) == [Digits(n)];
    assert p in [p] && (Selects(Meaning(p, lo, hi), v) <==> v == n);
  }

  lemma Star(lo: nat, hi: nat, names: map<string, nat>, v: int)
    requires NoDigitNames(names) && lo <= hi < 100
    ensures Names("*", lo, hi, names, v) <==> lo <= v <= hi
  {
    var p := Part(Item.Star, None);
    FieldRoundTrip([p], lo, hi, names, v);
    assert Show(p) == "*" + "" == "*";
    assert ShowAll([p]) == ["*"];
    assert p in [p] && (Selects(Meaning(p, lo, hi), v) <==> lo <= v <= hi);
  }

  lemma NumberSet(on: seq<bool>, n: nat, lo: nat, hi: nat, names: map<string, nat>)
    requires NoDigitNames(names) && lo <= n <= hi < 100 && n < 10 && FieldReads(on, Digits(n), lo, hi, names)
    ensures forall v :: 0 <= v <= hi ==> (on[v] <==> v == n)
  {
    forall v | 0 <= v <= hi
      ensures on[v] <==> v == n
    {
      OneNumber(n, lo, hi, names, v);
    }
  }

  lemma StarSet(on: seq<bool>, lo: nat, hi: nat, names: map<string, nat>)
    requires NoDigitNames(names) && lo <= hi < 100 && FieldReads(on, "*", lo, hi, names)
    ensures forall v :: lo <= v <= hi ==> on[v]
  {
    forall v | lo <= v <= hi
      ensures on[v]
    {
      Star(lo, hi, names, v);
    }
  }

  // n and no other value.
  predicate OnlyAt(on: seq<bool>, n: nat) {
    forall v :: 0 <= v < |on| ==> (on[v] <==> v == n)
  }

  predicate Everywhere(on: seq<bool>, lo: nat) {
    forall v :: lo <= v < |on| ==> on[v]
  }

  /** The aliases: every hour at minute 0; every day at midnight; Sundays, the first of a month and the first
      of January at midnight. */
  lemma AliasesMean(word: string, c: Schedule)
    requires word in ALIASES && ReadsAs(ALIASES[word], c)
    ensures OnlyAt(c.minutes, 0)
    ensures word == "@hourly" ==> Everywhere(c.hours, 0)
    ensures word != "@hourly" ==> OnlyAt(c.hours, 0)
    ensures word == "@yearly" || word == "@annually" ==> OnlyAt(c.months, 1)
    ensures word != "@yearly" && word != "@annually" ==> Everywhere(c.months, 1)
    ensures word == "@monthly" || word == "@yearly" || word == "@annually" ==> !c.anyDom && OnlyAt(c.days, 1)
    ensures word != "@monthly" && word != "@yearly" && word != "@annually" ==> c.anyDom
    ensures word == "@weekly" ==> !c.anyDow && OnlyAt(c.weekdays[..7], 0)
    ensures word != "@weekly" ==> c.anyDow
  {
    var f := ALIASES[word];
    assert f[0] == "0" && (word == "@hourly" <==> f[1] == "*") && (word != "@hourly" ==> f[1] == "0");
    SetOf(c.minutes, f[0], 0, 59, map[]);
    SetOf(c.hours, f[1], 0, 23, map[]);
    SetOf(c.days, f[2], 1, 31, map[]);
    SetOf(c.months, f[3], 1, 12, MONTH_NAMES);
    if word == "@weekly" {
      OnSundays(f[4], c.weekdays);
    }
  }

  lemma SetOf(on: seq<bool>, field: string, lo: nat, hi: nat, names: map<string, nat>)
    requires lo <= 1 <= hi < 100 && FieldReads(on, field, lo, hi, names) && names in {map[], MONTH_NAMES, DAY_NAMES}
    ensures field == "*" ==> Everywhere(on, lo)
    ensures field == "0" && lo == 0 ==> OnlyAt(on, 0)
    ensures field == "1" ==> OnlyAt(on, 1)
  {
    NamesHaveNoDigits();
    if field == "*" {
      StarSet(on, lo, hi, names);
    } else if field == "0" && lo == 0 {
      assert Digits(0) == "0";
      NumberSet(on, 0, lo, hi, names);
    } else if field == "1" {
      assert Digits(1) == "1";
      NumberSet(on, 1, lo, hi, names);
    }
  }

  lemma OnSundays(field: string, on: seq<bool>)
    requires field == "0" && WeekdaysRead(on, field)
    ensures |on| == 8 && OnlyAt(on[..7], 0)
  {
    var raw :| FieldReads(raw, field, 0, 7, DAY_NAMES) && on == if raw[7] then raw[0 := true] else raw;
    SetOf(raw, field, 0, 7, DAY_NAMES);
  }
}
