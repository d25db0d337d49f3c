/** The history of one vehicle, thinned to a number of points that a chart can draw. */
module History {
  import opened Prelude
  import opened Ordering
  import opened Samples

  datatype Reading = Reading(id: SampleId, vehicle: VehicleId, recordedAt: int, metrics: Metrics)

  type Table = seq<Reading>

  ghost predicate UniqueReadings(table: Table) {
    forall i, j :: 0 <= i < j < |table| ==> table[i].id != table[j].id
  }

  function OrderKey(r: Reading): Key {
    (r.recordedAt, r.id)
  }

  datatype Request = Request(vehicle: VehicleId, start: int, end: int, maxPoints: int)

  predicate Matches(request: Request, r: Reading) {
    r.vehicle == request.vehicle && request.start <= r.recordedAt <= request.end
  }

  /** The readings asked for, oldest first. */
  function Matching(table: Table, request: Request): seq<Reading> {
    Sort(OrderKey, Filter((r: Reading) => Matches(request, r), table))
  }

  function CeilDiv(n: nat, m: nat): (q: nat)
    requires m > 0
  {
    (n + m - 1) / m
  }

  function Stride(count: nat, maxPoints: nat): (s: nat)
    requires maxPoints > 0
    ensures s >= 1
  {
    if CeilDiv(count, maxPoints) > 1 then CeilDiv(count, maxPoints) else 1
  }

  // ------------------------------------------------------------------ the query

  // row_number() - 1 over the order, kept where it is a multiple of the stride.
  function SampledIds(ordered: seq<Reading>, stride: nat): set<SampleId>
    requires stride > 0
  {
    set i | 0 <= i < |ordered| && i % stride == 0 :: ordered[i].id
  }

  method GetHistory(table: Table, request: Request) returns (points: Result<seq<Reading>>)
    requires request.maxPoints >= 1 && UniqueReadings(table)
    ensures request.start >= request.end ==> points == Error("start must be earlier than end")
    ensures request.start < request.end ==>
      points.Ok? && IsThinned(Matching(table, request), request.maxPoints, points.value)
    ensures points.Ok? ==> Chronological(points.value) && |points.value| <= request.maxPoints + 1
    ensures points.Ok? ==> forall p :: p in points.value ==> p in table && Asked(request, p)
  {
    if request.start >= request.end { return Error("start must be earlier than end"); }
    var ordered := Matching(table, request);
    var count := |ordered|;
    var stride := Stride(count, request.maxPoints);
    var sampled := SampledIds(ordered, stride);
    var selected := Sort(OrderKey, Filter((r: Reading) => r.id in sampled, table));
    SelectedIsEveryNth(table, request, stride);
    MatchingIsStrict(table, request);
    LastIsAppended(ordered, request.maxPoints);
    if count > 0 {
      var last := ordered[count - 1];
      if selected == [] || selected[|selected| - 1].id != last.id {
        selected := selected + [last];
      }
    }
    PointsAreAsked(table, request, selected);
    points := Ok(selected);
  }

  // ------------------------------------------------------------------ the reference

  function EveryNth(ordered: seq<Reading>, stride: nat): (r: seq<Reading>)
    requires stride > 0
    ensures |r| == CeilDiv(|ordered|, stride)
  {
    seq(CeilDiv(|ordered|, stride), k requires 0 <= k < CeilDiv(|ordered|, stride) =>
      MultipleInRange(k, |ordered|, stride);
      ordered[k * stride])
  }

  lemma MultipleInRange(k: nat, n: nat, stride: nat)
    requires stride > 0
    ensures k < CeilDiv(n, stride) <==> k * stride < n
  {
    var q := CeilDiv(n, stride);
    assert q * stride < n + stride && n <= q * stride;
    if k < q { Multiply(k + 1, q, stride); } else { Multiply(q, k, stride); }
  }

  lemma Multiply(a: nat, b: nat, m: nat)
    requires a <= b
    ensures a * m <= b * m
    ensures (a + 1) * m == a * m + m
  {}

  /** Where the k-th point stands among the ordered readings. */
  function Ordinal(k: nat, count: nat, stride: nat): int {
    if k * stride < count then k * stride else count - 1
  }

  /** Every stride-th reading from the first, and the last one. */
  ghost predicate IsThinned(ordered: seq<Reading>, maxPoints: nat, points: seq<Reading>)
    requires maxPoints > 0
  {
    var count, stride := |ordered|, Stride(|ordered|, maxPoints);
    && (count == 0 ==> points == [])
    && (count > 0 ==> |points| == CeilDiv(count - 1, stride) + 1)
    && (forall k :: 0 <= k < |points| ==>
          0 <= Ordinal(k, count, stride) < count && points[k] == ordered[Ordinal(k, count, stride)])
  }

  // ------------------------------------------------------------------ the query meets the reference

  lemma {:induction false} FilterDistinct(keep: Reading -> bool, table: Table)
    requires UniqueReadings(table)
    ensures UniqueReadings(Filter(keep, table))
  {
    if table != [] {
      assert forall i :: 0 <= i < |table[1..]| ==> table[1..][i] == table[i + 1];
      FilterDistinct(keep, table[1..]);
      FilterMembers(keep, table[1..]);
      var rest := Filter(keep, table[1..]);
      forall j | 0 <= j < |rest| ensures rest[j].id != table[0].id {
        assert rest[j] in rest && rest[j] in table[1..];
      }
    }
  }

  lemma FilterSorts(keep: Reading -> bool, table: Table)
    requires UniqueReadings(table)
    ensures StrictlySorted(OrderKey, Sort(OrderKey, Filter(keep, table)))
    ensures forall r :: r in Sort(OrderKey, Filter(keep, table)) <==> r in table && keep(r)
  {
    FilterDistinct(keep, table);
    SortStrict(OrderKey, Filter(keep, table));
    SortMembers(OrderKey, Filter(keep, table));
    FilterMembers(keep, table);
  }

  lemma MatchingIsStrict(table: Table, request: Request)
    requires UniqueReadings(table)
    ensures StrictlySorted(OrderKey, Matching(table, request))
    ensures forall r :: r in Matching(table, request) <==> r in table && Matches(request, r)
    ensures UniqueReadings(Matching(table, request))
  {
    FilterSorts((r: Reading) => Matches(request, r), table);
    var m := Matching(table, request);
    forall i, j | 0 <= i < j < |m| ensures m[i].id != m[j].id {
      SameReading(table, m[i], m[j]);
      assert Below(OrderKey(m[i]), OrderKey(m[j]));
    }
  }

  lemma SameReading(table: Table, a: Reading, b: Reading)
    requires UniqueReadings(table) && a in table && b in table
    ensures a.id == b.id ==> a == b
  {
    var i :| 0 <= i < |table| && table[i] == a;
    var j :| 0 <= j < |table| && table[j] == b;
  }

  lemma BelowIsStrict(a: Key, b: Key)
    ensures Below(a, b) ==> a != b && !Below(b, a)
  {}

  /** Two strictly ordered lists with the same elements are the same list. */
  lemma {:induction false} OrderedListsAgree(a: seq<Reading>, b: seq<Reading>)
    requires StrictlySorted(OrderKey, a) && StrictlySorted(OrderKey, b)
    requires forall r :: r in a <==> r in b
    ensures a == b
  {
    BothEmpty(a, b);
    if a != [] {
      FirstsAgree(a, b);
      RestMembers(a);
      RestMembers(b);
      OrderedListsAgree(a[1..], b[1..]);
      assert a == [a[0]] + a[1..] && b == [b[0]] + b[1..];
    }
  }

  lemma BothEmpty(a: seq<Reading>, b: seq<Reading>)
    requires forall r :: r in a <==> r in b
    ensures a == [] <==> b == []
  {
    if a != [] { assert a[0] in b; }
    if b != [] { assert b[0] in a; }
  }

  lemma FirstsAgree(a: seq<Reading>, b: seq<Reading>)
    requires StrictlySorted(OrderKey, a) && StrictlySorted(OrderKey, b) && a != [] && b != []
    requires forall r :: r in a <==> r in b
    ensures a[0] == b[0]
  {
    assert a[0] in b && b[0] in a;
    var i :| 0 <= i < |b| && b[i] == a[0];
    var j :| 0 <= j < |a| && a[j] == b[0];
    if i > 0 && j > 0 {
      assert Below(OrderKey(b[0]), OrderKey(b[i])) && Below(OrderKey(a[0]), OrderKey(a[j]));
      BelowIsStrict(OrderKey(b[0]), OrderKey(a[0]));
    }
  }

  lemma RestMembers(a: seq<Reading>)
    requires StrictlySorted(OrderKey, a) && a != []
    ensures StrictlySorted(OrderKey, a[1..])
    ensures forall r :: r in a[1..] <==> r in a && r != a[0]
  {
    forall r ensures r in a[1..] <==> r in a && r != a[0] {
      if r in a[1..] {
        var i :| 0 <= i < |a[1..]| && a[1..][i] == r;
        assert Below(OrderKey(a[0]), OrderKey(a[i + 1]));
      }
    }
  }

  lemma EveryNthIsStrict(ordered: seq<Reading>, stride: nat)
    requires stride > 0 && StrictlySorted(OrderKey, ordered)
    ensures StrictlySorted(OrderKey, EveryNth(ordered, stride))
  {
    var points := EveryNth(ordered, stride);
    forall i, j | 0 <= i < j < |points| ensures Below(OrderKey(points[i]), OrderKey(points[j])) {
      MultipleInRange(j, |ordered|, stride);
      Multiply(i + 1, j, stride);
      Multiply(i, i, stride);
    }
  }

  lemma EveryNthIsSampled(ordered: seq<Reading>, stride: nat, k: nat)
    requires stride > 0 && k < |EveryNth(ordered, stride)|
    ensures EveryNth(ordered, stride)[k] in ordered
    ensures EveryNth(ordered, stride)[k].id in SampledIds(ordered, stride)
  {
    MultipleInRange(k, |ordered|, stride);
    MultipleHasNoRemainder(k, stride);
  }

  lemma SampledIsEveryNth(ordered: seq<Reading>, stride: nat, r: Reading)
    requires stride > 0 && UniqueReadings(ordered) && r in ordered && r.id in SampledIds(ordered, stride)
    ensures r in EveryNth(ordered, stride)
  {
    var i :| 0 <= i < |ordered| && i % stride == 0 && ordered[i].id == r.id;
    SameReading(ordered, ordered[i], r);
    var k := i / stride;
    assert k * stride == i;
    MultipleInRange(k, |ordered|, stride);
    assert EveryNth(ordered, stride)[k] == r;
  }

  lemma EveryNthMembers(ordered: seq<Reading>, stride: nat)
    requires stride > 0 && UniqueReadings(ordered) && StrictlySorted(OrderKey, ordered)
    ensures StrictlySorted(OrderKey, EveryNth(ordered, stride))
    ensures forall r :: r in EveryNth(ordered, stride) <==> r in ordered && r.id in SampledIds(ordered, stride)
  {
    EveryNthIsStrict(ordered, stride);
    var points := EveryNth(ordered, stride);
    forall r ensures r in points <==> r in ordered && r.id in SampledIds(ordered, stride) {
      if r in points {
        var k :| 0 <= k < |points| && points[k] == r;
        EveryNthIsSampled(ordered, stride, k);
      } else if r in ordered && r.id in SampledIds(ordered, stride) {
        SampledIsEveryNth(ordered, stride, r);
      }
    }
  }

  lemma MultipleHasNoRemainder(k: nat, m: nat)
    requires m > 0
    ensures (k * m) % m == 0
  {
    var q := (k * m) / m;
    assert k * m == q * m + (k * m) % m;
    GrowsWith(q, k, m);
    GrowsWith(k, q, m);
  }

  lemma GrowsWith(a: nat, b: nat, m: nat)
    ensures a < b ==> a * m + m <= b * m
  {
    if a < b { Multiply(a + 1, b, m); Multiply(a, a, m); }
  }

  lemma SelectedIsEveryNth(table: Table, request: Request, stride: nat)
    requires UniqueReadings(table) && stride > 0
    ensures var ordered := Matching(table, request);
      var sampled := SampledIds(ordered, stride);
      Sort(OrderKey, Filter((r: Reading) => r.id in sampled, table)) == EveryNth(ordered, stride)
  {
    var ordered := Matching(table, request);
    var sampled := SampledIds(ordered, stride);
    var selected := Sort(OrderKey, Filter((r: Reading) => r.id in sampled, table));
    MatchingIsStrict(table, request);
    FilterSorts((r: Reading) => r.id in sampled, table);
    EveryNthMembers(ordered, stride);
    forall r ensures r in selected <==> r in EveryNth(ordered, stride) {
      if r in table && r.id in sampled {
        var i :| 0 <= i < |ordered| && i % stride == 0 && ordered[i].id == r.id;
        SameReading(table, ordered[i], r);
      }
    }
    OrderedListsAgree(selected, EveryNth(ordered, stride));
  }

  /** Whether the last reading is among the selected ones already. */
  lemma LastOfEveryNth(ordered: seq<Reading>, stride: nat)
    requires stride > 0 && UniqueReadings(ordered)
    ensures ordered != [] ==>
      var points := EveryNth(ordered, stride);
      && points != []
      && (points[|points| - 1].id == ordered[|ordered| - 1].id <==> |points| == CeilDiv(|ordered| - 1, stride) + 1)
      && CeilDiv(|ordered| - 1, stride) <= |points| <= CeilDiv(|ordered| - 1, stride) + 1
  {
    if ordered != [] {
      var n, q := |ordered|, CeilDiv(|ordered|, stride);
      MultipleInRange(0, n, stride);
      MultipleInRange(q - 1, n, stride);
      MultipleInRange(q, n, stride);
      MultipleInRange(q - 1, n - 1, stride);
      MultipleInRange(q, n - 1, stride);
      if q > 1 { MultipleInRange(q - 2, n - 1, stride); Multiply(q - 2, q - 1, stride); }
    }
  }

  lemma EveryNthOrdinals(ordered: seq<Reading>, stride: nat)
    requires stride > 0
    ensures var points := EveryNth(ordered, stride);
      && (forall k :: 0 <= k < |points| ==>
            0 <= Ordinal(k, |ordered|, stride) < |ordered| && points[k] == ordered[Ordinal(k, |ordered|, stride)])
      && Ordinal(|points|, |ordered|, stride) == |ordered| - 1
  {
    var points := EveryNth(ordered, stride);
    forall k | 0 <= k < |points|
      ensures 0 <= Ordinal(k, |ordered|, stride) < |ordered| && points[k] == ordered[Ordinal(k, |ordered|, stride)]
    {
      MultipleInRange(k, |ordered|, stride);
    }
    MultipleInRange(|points|, |ordered|, stride);
  }

  lemma LastIsAppended(ordered: seq<Reading>, maxPoints: nat)
    requires maxPoints > 0 && UniqueReadings(ordered)
    ensures var points := EveryNth(ordered, Stride(|ordered|, maxPoints));
      if ordered == [] then IsThinned(ordered, maxPoints, points)
      else
        && points != []
        && IsThinned(ordered, maxPoints,
             if points[|points| - 1].id == ordered[|ordered| - 1].id then points
             else points + [ordered[|ordered| - 1]])
  {
    LastOfEveryNth(ordered, Stride(|ordered|, maxPoints));
    EveryNthOrdinals(ordered, Stride(|ordered|, maxPoints));
  }

  // ------------------------------------------------------------------ what thinning promises

  lemma CeilOfCeil(n: nat, m: nat)
    requires n > 0 && m > 0
    ensures CeilDiv(n, CeilDiv(n, m)) <= m
  {
    var q := CeilDiv(n, m);
    assert n <= q * m;
    MultipleInRange(m, n, q);
    assert m * q == q * m;
  }

  /** At most one point more than asked for, however many readings there are. */
  lemma {:induction false} ThinnedFits(ordered: seq<Reading>, maxPoints: nat, points: seq<Reading>)
    requires maxPoints > 0 && IsThinned(ordered, maxPoints, points)
    ensures |points| <= maxPoints + 1
  {
    var n := |ordered|;
    if n > 0 {
      var stride := Stride(n, maxPoints);
      MultipleInRange(maxPoints, n - 1, stride);
      if CeilDiv(n, maxPoints) > 1 {
        CeilOfCeil(n, maxPoints);
        MultipleInRange(maxPoints, n, stride);
      } else {
        MultipleInRange(1, n, maxPoints);
      }
    }
  }

  /** The first and the last reading are always among the points. */
  lemma ThinnedKeepsEnds(ordered: seq<Reading>, maxPoints: nat, points: seq<Reading>)
    requires maxPoints > 0 && IsThinned(ordered, maxPoints, points) && ordered != []
    ensures points != [] && points[0] == ordered[0] && points[|points| - 1] == ordered[|ordered| - 1]
  {
    var stride := Stride(|ordered|, maxPoints);
    MultipleInRange(|points| - 1, |ordered| - 1, stride);
    assert Ordinal(0, |ordered|, stride) == 0;
    assert Ordinal(|points| - 1, |ordered|, stride) == |ordered| - 1;
  }

  /** Between two neighbouring points at least one reading's step and at most a stride is taken. */
  lemma {:induction false} ThinnedSkipsLittle(ordered: seq<Reading>, maxPoints: nat, points: seq<Reading>, k: nat)
    requires maxPoints > 0 && IsThinned(ordered, maxPoints, points) && k + 1 < |points|
    ensures var stride := Stride(|ordered|, maxPoints);
      1 <= Ordinal(k + 1, |ordered|, stride) - Ordinal(k, |ordered|, stride) <= stride
  {
    var stride := Stride(|ordered|, maxPoints);
    MultipleInRange(k, |ordered| - 1, stride);
    Multiply(k, k, stride);
  }

  lemma {:induction false} OrdinalsGrow(ordered: seq<Reading>, maxPoints: nat, points: seq<Reading>, i: nat, j: nat)
    requires maxPoints > 0 && IsThinned(ordered, maxPoints, points) && i < j < |points|
    ensures var stride := Stride(|ordered|, maxPoints);
      Ordinal(i, |ordered|, stride) < Ordinal(j, |ordered|, stride)
    decreases j
  {
    ThinnedSkipsLittle(ordered, maxPoints, points, j - 1);
    if i < j - 1 {
      OrdinalsGrow(ordered, maxPoints, points, i, j - 1);
    }
  }

  /** The points keep the strict order of time and id. */
  lemma ThinnedKeepsOrder(table: Table, request: Request, points: seq<Reading>)
    requires request.maxPoints > 0 && UniqueReadings(table)
    requires IsThinned(Matching(table, request), request.maxPoints, points)
    ensures StrictlySorted(OrderKey, points)
    ensures forall p :: p in points ==> p in table && Matches(request, p)
  {
    var ordered := Matching(table, request);
    MatchingIsStrict(table, request);
    forall i, j | 0 <= i < j < |points| ensures Below(OrderKey(points[i]), OrderKey(points[j])) {
      OrdinalsGrow(ordered, request.maxPoints, points, i, j);
    }
    forall p | p in points ensures p in ordered {
      var k :| 0 <= k < |points| && points[k] == p;
      assert ordered[Ordinal(k, |ordered|, Stride(|ordered|, request.maxPoints))] == p;
    }
  }

  /** When there are no more readings than points asked for, nothing is left out. */
  lemma {:induction false} FewReadingsAreKept(ordered: seq<Reading>, maxPoints: nat, points: seq<Reading>)
    requires maxPoints > 0 && IsThinned(ordered, maxPoints, points)
    ensures |ordered| <= maxPoints ==> points == ordered
  {
    MultipleInRange(1, |ordered|, maxPoints);
  }

  // ------------------------------------------------------------------ in rows of the table

  /** A row of this vehicle, recorded within the time asked for, both ends included. */
  predicate Asked(request: Request, r: Reading) {
    r.vehicle == request.vehicle && r.recordedAt >= request.start && r.recordedAt <= request.end
  }

  /** Recorded earlier, or at the same time and with the smaller id. */
  predicate Before(a: Reading, b: Reading) {
    a.recordedAt < b.recordedAt || (a.recordedAt == b.recordedAt && a.id < b.id)
  }

  function AskedRows(table: Table, request: Request): set<Reading> {
    set r | r in table && Asked(request, r)
  }

  function RowsBetween(table: Table, request: Request, a: Reading, b: Reading): set<Reading> {
    set r | r in table && Asked(request, r) && Before(a, r) && Before(r, b)
  }

  ghost predicate Chronological(s: seq<Reading>) {
    forall i, j :: 0 <= i < j < |s| ==> Before(s[i], s[j])
  }

  lemma MatchingInRows(table: Table, request: Request)
    requires UniqueReadings(table)
    ensures Chronological(Matching(table, request))
    ensures forall r :: r in Matching(table, request) <==> r in table && Asked(request, r)
  {
    MatchingIsStrict(table, request);
    var m := Matching(table, request);
    forall i, j | 0 <= i < j < |m| ensures Before(m[i], m[j]) {
      assert Below(OrderKey(m[i]), OrderKey(m[j]));
    }
  }

  /** The points are rows asked for, oldest first, at most one over the number; none only when there are none. */
  lemma PointsAreAsked(table: Table, request: Request, points: seq<Reading>)
    requires request.maxPoints > 0 && UniqueReadings(table)
    requires IsThinned(Matching(table, request), request.maxPoints, points)
    ensures Chronological(points) && |points| <= request.maxPoints + 1
    ensures forall p :: p in points ==> p in table && Asked(request, p)
    ensures points == [] <==> AskedRows(table, request) == {}
  {
    var ordered := Matching(table, request);
    ThinnedKeepsOrder(table, request, points);
    ThinnedFits(ordered, request.maxPoints, points);
    MatchingInRows(table, request);
    forall i, j | 0 <= i < j < |points| ensures Before(points[i], points[j]) {
      assert Below(OrderKey(points[i]), OrderKey(points[j]));
    }
    if ordered == [] {
      forall r ensures r !in AskedRows(table, request) { assert r !in ordered; }
    } else {
      ThinnedKeepsEnds(ordered, request.maxPoints, points);
      assert ordered[0] in AskedRows(table, request);
    }
  }

  /** No row asked for is older than the first point or newer than the last. */
  lemma EndsAreKept(table: Table, request: Request, points: seq<Reading>, r: Reading)
    requires request.maxPoints > 0 && UniqueReadings(table)
    requires IsThinned(Matching(table, request), request.maxPoints, points)
    requires r in table && Asked(request, r)
    ensures points != [] && !Before(r, points[0]) && !Before(points[|points| - 1], r)
  {
    var ordered := Matching(table, request);
    MatchingInRows(table, request);
    assert r in ordered;
    ThinnedKeepsEnds(ordered, request.maxPoints, points);
    var i :| 0 <= i < |ordered| && ordered[i] == r;
    assert i > 0 ==> Before(ordered[0], ordered[i]);
    assert i < |ordered| - 1 ==> Before(ordered[i], ordered[|ordered| - 1]);
  }

  function Span(ordered: seq<Reading>, p: int, q: int): set<Reading>
    requires -1 <= p && q <= |ordered|
  {
    set i | p < i < q :: ordered[i]
  }

  lemma {:induction false} SpanSize(ordered: seq<Reading>, p: int, q: int)
    requires Chronological(ordered) && -1 <= p < q <= |ordered|
    ensures |Span(ordered, p, q)| == q - p - 1
    decreases q
  {
    if p + 1 == q {
      assert Span(ordered, p, q) == {};
    } else {
      SpanSize(ordered, p, q - 1);
      assert Span(ordered, p, q) == Span(ordered, p, q - 1) + {ordered[q - 1]};
      assert forall i :: p < i < q - 1 ==> Before(ordered[i], ordered[q - 1]);
      assert ordered[q - 1] !in Span(ordered, p, q - 1);
    }
  }

  lemma RowsAreSpan(table: Table, request: Request, p: nat, q: nat)
    requires UniqueReadings(table) && p < q < |Matching(table, request)|
    ensures var ordered := Matching(table, request);
      && |RowsBetween(table, request, ordered[p], ordered[q])| == q - p - 1
      && |AskedRows(table, request)| == |ordered|
  {
    var ordered := Matching(table, request);
    MatchingInRows(table, request);
    SpanSize(ordered, p, q);
    SpanSize(ordered, -1, |ordered|);
    forall r ensures r in RowsBetween(table, request, ordered[p], ordered[q]) <==> r in Span(ordered, p, q) {
      if r in RowsBetween(table, request, ordered[p], ordered[q]) {
        assert r in ordered;
        var i :| 0 <= i < |ordered| && ordered[i] == r;
      }
    }
    assert RowsBetween(table, request, ordered[p], ordered[q]) == Span(ordered, p, q);
    assert AskedRows(table, request) == Span(ordered, -1, |ordered|);
  }

  lemma StrideIsSmallest(count: nat, maxPoints: nat)
    requires maxPoints > 0
    ensures Stride(count, maxPoints) == 1 || (Stride(count, maxPoints) - 1) * maxPoints < count
  {
    var q := CeilDiv(count, maxPoints);
    if q > 1 { MultipleInRange(q - 1, count, maxPoints); }
  }

  lemma NeighboursStandApart(ordered: seq<Reading>, maxPoints: nat, points: seq<Reading>, k: nat)
    requires maxPoints > 0 && IsThinned(ordered, maxPoints, points) && k + 1 < |points|
    ensures var stride := Stride(|ordered|, maxPoints);
      && 0 <= Ordinal(k, |ordered|, stride) < Ordinal(k + 1, |ordered|, stride) < |ordered|
      && Ordinal(k + 1, |ordered|, stride) - Ordinal(k, |ordered|, stride) <= stride
      && (k + 2 < |points| ==> Ordinal(k + 1, |ordered|, stride) - Ordinal(k, |ordered|, stride) == stride)
  {
    var stride := Stride(|ordered|, maxPoints);
    ThinnedSkipsLittle(ordered, maxPoints, points, k);
    MultipleInRange(k, |ordered| - 1, stride);
    Multiply(k, k, stride);
    if k + 2 < |points| { MultipleInRange(k + 1, |ordered| - 1, stride); }
  }

  /**
   * As little as possible is left out, and evenly: between neighbouring points lies the same number
   * of rows, before the last point at most that, and to skip one row fewer would make more steps than
   * points were asked for.
   */
  lemma GapsAreEvenAndSmall(table: Table, request: Request, points: seq<Reading>, k: nat)
    requires request.maxPoints > 0 && UniqueReadings(table)
    requires IsThinned(Matching(table, request), request.maxPoints, points) && k + 1 < |points|
    ensures var skipped := |RowsBetween(table, request, points[k], points[k + 1])|;
      && (skipped == 0 || skipped * request.maxPoints < |AskedRows(table, request)|)
      && (k + 2 < |points| ==> |RowsBetween(table, request, points[0], points[1])| == skipped)
      && skipped <= |RowsBetween(table, request, points[0], points[1])|
  {
    var ordered, m := Matching(table, request), request.maxPoints;
    var stride := Stride(|ordered|, m);
    NeighboursStandApart(ordered, m, points, 0);
    NeighboursStandApart(ordered, m, points, k);
    RowsAreSpan(table, request, Ordinal(0, |ordered|, stride), Ordinal(1, |ordered|, stride));
    RowsAreSpan(table, request, Ordinal(k, |ordered|, stride), Ordinal(k + 1, |ordered|, stride));
    StrideIsSmallest(|ordered|, m);
    var skipped := Ordinal(k + 1, |ordered|, stride) - Ordinal(k, |ordered|, stride) - 1;
    Multiply(skipped, stride - 1, m);
  }
}
