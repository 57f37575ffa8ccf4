/** Model-affinity reordering of a page of queued jobs, and the aging book that keeps it fair. */
module Affinity {
  import opened AffinityOrder

  // The flush of one segment.

  /** The rows of the segment by key, and the keys in the order in which they were first seen. */
  method GroupByPriority(segment: seq<Row>) returns (keys: seq<int>, byPriority: map<int, seq<Row>>)
    ensures forall i, j | 0 <= i < j < |keys| :: keys[i] != keys[j]
    ensures forall k :: k in keys <==> k in byPriority
    ensures forall r | r in segment :: -r.priority in byPriority
    ensures forall k | k in byPriority :: byPriority[k] == Group(segment, k)
  {
    keys, byPriority := [], map[];
    var i := 0;
    while i < |segment|
      invariant 0 <= i <= |segment|
      invariant forall k :: k in keys <==> k in byPriority
      invariant forall a, b | 0 <= a < b < |keys| :: keys[a] != keys[b]
      invariant Grouping(segment[..i], byPriority)
    {
      var key := -segment[i].priority;
      GroupingStep(segment, i, byPriority);
      if key !in byPriority {
        keys := keys + [key];
        byPriority := byPriority[key := []];
      }
      byPriority := byPriority[key := byPriority[key] + [segment[i]]];
      i := i + 1;
    }
    assert segment[..i] == segment;
    forall r | r in segment ensures -r.priority in byPriority {
      GroupElements(segment, -r.priority);
    }
  }

  ghost predicate Grouping(segment: seq<Row>, byPriority: map<int, seq<Row>>) {
    forall k :: Group(segment, k) == if k in byPriority then byPriority[k] else []
  }

  lemma GroupingStep(segment: seq<Row>, i: nat, byPriority: map<int, seq<Row>>)
    requires i < |segment| && Grouping(segment[..i], byPriority)
    ensures var key := -segment[i].priority;
            Grouping(segment[..i + 1], byPriority[key := (if key in byPriority then byPriority[key] else []) + [segment[i]]])
  {
    assert segment[..i + 1] == segment[..i] + [segment[i]];
    forall k ensures Group(segment[..i + 1], k) == if k == -segment[i].priority then Group(segment[..i], k) + [segment[i]] else Group(segment[..i], k) {
      GroupSnoc(segment[..i], segment[i], k);
    }
  }

  /** `sorted` on the keys of a dictionary. */
  function InsertKey(key: int, keys: seq<int>): seq<int> {
    if keys == [] || key <= keys[0] then [key] + keys else [keys[0]] + InsertKey(key, keys[1..])
  }

  function SortKeys(keys: seq<int>): seq<int> {
    if keys == [] then [] else InsertKey(keys[0], SortKeys(keys[1..]))
  }

  ghost predicate Increasing(keys: seq<int>) {
    forall i, j | 0 <= i < j < |keys| :: keys[i] < keys[j]
  }

  lemma {:induction false} InsertKeySorted(key: int, keys: seq<int>)
    requires key !in keys && Increasing(keys)
    ensures Increasing(InsertKey(key, keys))
    ensures forall k :: k in InsertKey(key, keys) <==> k == key || k in keys
  {
    if keys != [] && key > keys[0] {
      InsertKeySorted(key, keys[1..]);
      var rest := InsertKey(key, keys[1..]);
      assert InsertKey(key, keys) == [keys[0]] + rest;
      forall j | 0 <= j < |rest| ensures keys[0] < rest[j] { assert rest[j] in rest; }
    }
  }

  lemma {:induction false} SortKeysSorted(keys: seq<int>)
    requires forall i, j | 0 <= i < j < |keys| :: keys[i] != keys[j]
    ensures Increasing(SortKeys(keys))
    ensures forall k :: k in SortKeys(keys) <==> k in keys
  {
    if keys != [] {
      SortKeysSorted(keys[1..]);
      InsertKeySorted(keys[0], SortKeys(keys[1..]));
    }
  }

  /** The groups of the keys from `order[i]` on are still to come, and hold all of `rest`. */
  ghost predicate Remaining(rest: seq<Row>, order: seq<int>, i: nat, byPriority: map<int, seq<Row>>) {
    && i <= |order|
    && (forall r | r in rest :: -r.priority in order[i..])
    && forall j | i <= j < |order| :: order[j] in byPriority && byPriority[order[j]] == Group(rest, order[j])
  }

  lemma FlushStep(c: Context, rest: seq<Row>, order: seq<int>, i: nat, byPriority: map<int, seq<Row>>) returns (next: seq<Row>)
    requires Increasing(order)
    requires i < |order| && Remaining(rest, order, i, byPriority)
    ensures Remaining(next, order, i + 1, byPriority)
    ensures Sort(Full(c), rest) == Sort(Grouped(c), byPriority[order[i]]) + Sort(Full(c), next)
  {
    LeastGroupFirst(c, rest, order[i]);
    GroupElements(rest, order[i]);
    next := Others(rest, order[i]);
    forall j | i < j < |order| ensures byPriority[order[j]] == Group(next, order[j]) {
      OthersKeepGroups(rest, order[i], order[j]);
    }
  }

  lemma Append(a: seq<Row>, b: seq<Row>, c: seq<Row>)
    ensures a + (b + c) == a + b + c
  {
  }

  /** Sorting each priority by itself and listing the priorities in order is one stable sort. */
  method Flush(c: Context, segment: seq<Row>) returns (sorted: seq<Row>)
    ensures sorted == Sort(Full(c), segment)
  {
    if segment == [] {
      return [];
    }
    var keys, byPriority := GroupByPriority(segment);
    var order := SortKeys(keys);
    SortKeysSorted(keys);
    sorted := [];
    ghost var rest, whole := segment, Sort(Full(c), segment);
    ghost var toSort := whole;
    var i := 0;
    assert order[0..] == order;
    assert forall j | 0 <= j < |order| :: order[j] in order;
    while i < |order|
      invariant 0 <= i <= |order|
      invariant Remaining(rest, order, i, byPriority)
      invariant toSort == Sort(Full(c), rest) && whole == sorted + toSort
    {
      var group := Sort(Grouped(c), byPriority[order[i]]);
      rest := FlushStep(c, rest, order, i, byPriority);
      toSort := Sort(Full(c), rest);
      Append(sorted, group, toSort);
      sorted := sorted + group;
      i := i + 1;
    }
    NothingRemains(rest, order, byPriority);
  }

  lemma NothingRemains(rest: seq<Row>, order: seq<int>, byPriority: map<int, seq<Row>>)
    requires Remaining(rest, order, |order|, byPriority)
    ensures rest == []
  {
    if rest != [] { Inhabited(rest); }
  }

  lemma Inhabited(s: seq<Row>)
    requires s != []
    ensures exists r :: r in s
  {
    assert s[0] in s;
  }

  // The whole page.

  /** Each stretch of unlabelled rows settled where it stands; `segment` is the open stretch before `rows`. */
  function Arranged(settle: seq<Row> -> seq<Row>, segment: seq<Row>, rows: seq<Row>): seq<Row>
    decreases |rows|
  {
    if rows == [] then settle(segment)
    else if rows[0].labelled then settle(segment) + [rows[0]] + Arranged(settle, [], rows[1..])
    else Arranged(settle, segment + [rows[0]], rows[1..])
  }

  function Settle(c: Context): seq<Row> -> seq<Row> {
    (segment: seq<Row>) => Sort(Full(c), segment)
  }

  function Reordered(c: Context, rows: seq<Row>): seq<Row> {
    if c.loaded == {} then rows else Arranged(Settle(c), [], rows)
  }

  method AffinityReorder(c: Context, rows: seq<Row>) returns (out: seq<Row>)
    ensures out == Reordered(c, rows)
  {
    if rows == [] {
      assert Reordered(c, []) == [];
      return [];
    }
    if c.loaded == {} {
      return rows;
    }
    out := [];
    var segment: seq<Row> := [];
    var i := 0;
    ghost var settle, whole := Settle(c), Arranged(Settle(c), [], rows);
    ghost var left := whole;
    assert rows[i..] == rows;
    while i < |rows|
      invariant 0 <= i <= |rows|
      invariant left == Arranged(settle, segment, rows[i..]) && whole == out + left
    {
      assert rows[i..][0] == rows[i] && rows[i..][1..] == rows[i + 1..];
      if rows[i].labelled {
        var sorted := Flush(c, segment);
        left := Arranged(settle, [], rows[i + 1..]);
        Reassociate(out, sorted, rows[i], left);
        out := out + sorted + [rows[i]];
        segment := [];
      } else {
        segment := segment + [rows[i]];
      }
      i := i + 1;
    }
    var sorted := Flush(c, segment);
    out := out + sorted;
  }

  lemma Reassociate(out: seq<Row>, sorted: seq<Row>, x: Row, left: seq<Row>)
    ensures out + (sorted + [x] + left) == out + sorted + [x] + left
  {
  }

  // What the arrangement means.

  /** Settling a segment rearranges it, and settling it again changes nothing. */
  ghost predicate Settles(settle: seq<Row> -> seq<Row>) {
    forall s :: multiset(settle(s)) == multiset(s) && |settle(s)| == |s| && settle(settle(s)) == settle(s)
  }

  lemma SettleSettles(c: Context)
    ensures Settles(Settle(c))
  {
    forall s: seq<Row>
      ensures var r := Settle(c)(s); multiset(r) == multiset(s) && |r| == |s| && Settle(c)(r) == r
    {
      SortSorts(Full(c), s);
      SortIdempotent(Full(c), Sort(Full(c), s));
    }
  }

  ghost predicate Unlabelled(s: seq<Row>) {
    forall i | 0 <= i < |s| :: !s[i].labelled
  }

  lemma SettledUnlabelled(settle: seq<Row> -> seq<Row>, s: seq<Row>)
    requires Settles(settle) && Unlabelled(s)
    ensures Unlabelled(settle(s))
  {
    forall i | 0 <= i < |settle(s)| ensures !settle(s)[i].labelled {
      assert settle(s)[i] in multiset(settle(s));
      assert settle(s)[i] in s;
    }
  }

  /** A maximal stretch of unlabelled rows. */
  ghost predicate IsSegment(rows: seq<Row>, from: nat, to: nat) {
    && from <= to <= |rows|
    && (forall k | from <= k < to :: !rows[k].labelled)
    && (from == 0 || rows[from - 1].labelled)
    && (to == |rows| || rows[to].labelled)
  }

  /** Labelled rows keep their places. */
  lemma LabelledRowsStay(c: Context, rows: seq<Row>)
    ensures |Reordered(c, rows)| == |rows|
    ensures forall i | 0 <= i < |rows| && rows[i].labelled :: Reordered(c, rows)[i] == rows[i]
  {
    SettleSettles(c);
    LabelledStay(Settle(c), [], rows);
  }

  lemma {:induction false} LabelledStay(settle: seq<Row> -> seq<Row>, segment: seq<Row>, rows: seq<Row>)
    requires Settles(settle)
    ensures |Arranged(settle, segment, rows)| == |segment| + |rows|
    ensures forall i | 0 <= i < |rows| && rows[i].labelled :: Arranged(settle, segment, rows)[|segment| + i] == rows[i]
    decreases |rows|
  {
    if rows != [] {
      LabelledStay(settle, if rows[0].labelled then [] else segment + [rows[0]], rows[1..]);
      assert forall i | 0 < i < |rows| :: rows[i] == rows[1..][i - 1];
    }
  }

  /** A labelled row splits the page: what stands before it and what stands after it do not meet. */
  lemma {:induction false} BarrierSplits(
      settle: seq<Row> -> seq<Row>, segment: seq<Row>, before: seq<Row>, barrier: Row, after: seq<Row>)
    requires barrier.labelled
    ensures Arranged(settle, segment, before + [barrier] + after) ==
            Arranged(settle, segment, before) + [barrier] + Arranged(settle, [], after)
    decreases |before|
  {
    var all := before + [barrier] + after;
    if before == [] {
      assert all[1..] == after;
    } else {
      assert all[0] == before[0] && all[1..] == before[1..] + [barrier] + after;
      if before[0].labelled {
        BarrierSplits(settle, [], before[1..], barrier, after);
        var front, back := Arranged(settle, [], before[1..]), [barrier] + Arranged(settle, [], after);
        Reassociate(settle(segment) + [before[0]], front, barrier, Arranged(settle, [], after));
      } else {
        BarrierSplits(settle, segment + [before[0]], before[1..], barrier, after);
      }
    }
  }

  lemma {:induction false} ArrangedPlain(settle: seq<Row> -> seq<Row>, segment: seq<Row>, more: seq<Row>)
    requires Unlabelled(more)
    ensures Arranged(settle, segment, more) == settle(segment + more)
    decreases |more|
  {
    if more == [] {
      assert segment + more == segment;
    } else {
      assert segment + more == segment + [more[0]] + more[1..];
      ArrangedPlain(settle, segment + [more[0]], more[1..]);
    }
  }

  lemma FirstSegmentSettled(settle: seq<Row> -> seq<Row>, rows: seq<Row>, n: nat)
    requires Settles(settle) && n <= |rows| && Unlabelled(rows[..n]) && (n < |rows| ==> rows[n].labelled)
    ensures |Arranged(settle, [], rows)| >= n && Arranged(settle, [], rows)[..n] == settle(rows[..n])
  {
    ArrangedPlain(settle, [], rows[..n]);
    assert [] + rows[..n] == rows[..n];
    if n < |rows| {
      assert rows == rows[..n] + [rows[n]] + rows[n + 1..];
      BarrierSplits(settle, [], rows[..n], rows[n], rows[n + 1..]);
    } else {
      assert rows[..n] == rows;
    }
  }

  /** Every segment is stably sorted in place, so nothing crosses a barrier. */
  lemma SegmentsAreSorted(c: Context, rows: seq<Row>, from: nat, to: nat)
    requires c.loaded != {} && IsSegment(rows, from, to)
    ensures |Reordered(c, rows)| == |rows|
    ensures Reordered(c, rows)[from..to] == Sort(Full(c), rows[from..to])
  {
    SettleSettles(c);
    LabelledStay(Settle(c), [], rows);
    SegmentSettled(Settle(c), rows, from, to);
  }

  lemma SegmentSettled(settle: seq<Row> -> seq<Row>, rows: seq<Row>, from: nat, to: nat)
    requires Settles(settle) && IsSegment(rows, from, to) && |Arranged(settle, [], rows)| == |rows|
    ensures Arranged(settle, [], rows)[from..to] == settle(rows[from..to])
  {
    var back := rows[from..];
    assert back[..to - from] == rows[from..to];
    FirstSegmentSettled(settle, back, to - from);
    if from > 0 {
      assert rows == rows[..from - 1] + [rows[from - 1]] + back;
      AfterBarrier(settle, rows[..from - 1], rows[from - 1], back, to - from);
    } else {
      assert back == rows;
    }
  }

  lemma AfterBarrier(settle: seq<Row> -> seq<Row>, before: seq<Row>, barrier: Row, back: seq<Row>, n: nat)
    requires Settles(settle) && barrier.labelled && n <= |back|
    ensures var out := Arranged(settle, [], before + [barrier] + back);
      && |out| == |before| + 1 + |back|
      && |Arranged(settle, [], back)| == |back|
      && out[|before| + 1..|before| + 1 + n] == Arranged(settle, [], back)[..n]
  {
    BarrierSplits(settle, [], before, barrier, back);
    LabelledStay(settle, [], before);
    LabelledStay(settle, [], back);
    Slice(Arranged(settle, [], before), barrier, Arranged(settle, [], back), n);
  }

  lemma Slice(front: seq<Row>, x: Row, back: seq<Row>, n: nat)
    requires n <= |back|
    ensures (front + [x] + back)[|front| + 1..|front| + 1 + n] == back[..n]
  {
  }

  /** No job is lost, and none is listed twice. */
  lemma ReorderPermutes(c: Context, rows: seq<Row>)
    ensures multiset(Reordered(c, rows)) == multiset(rows)
  {
    SettleSettles(c);
    ArrangedPermutes(Settle(c), [], rows);
  }

  lemma {:induction false} ArrangedPermutes(settle: seq<Row> -> seq<Row>, segment: seq<Row>, rows: seq<Row>)
    requires Settles(settle)
    ensures multiset(Arranged(settle, segment, rows)) == multiset(segment) + multiset(rows)
    decreases |rows|
  {
    if rows != [] {
      ArrangedPermutes(settle, if rows[0].labelled then [] else segment + [rows[0]], rows[1..]);
      assert rows == [rows[0]] + rows[1..];
    }
  }

  /** A second pass over the result, with the same aging book and models, changes nothing. */
  lemma ReorderIdempotent(c: Context, rows: seq<Row>)
    ensures Reordered(c, Reordered(c, rows)) == Reordered(c, rows)
  {
    SettleSettles(c);
    ArrangedIdempotent(Settle(c), [], rows);
  }

  lemma {:induction false} ArrangedIdempotent(settle: seq<Row> -> seq<Row>, segment: seq<Row>, rows: seq<Row>)
    requires Settles(settle) && Unlabelled(segment)
    ensures Arranged(settle, [], Arranged(settle, segment, rows)) == Arranged(settle, segment, rows)
    decreases |rows|
  {
    if rows == [] {
      SettledUnlabelled(settle, segment);
      ArrangedPlain(settle, [], settle(segment));
      assert [] + settle(segment) == settle(segment);
    } else if rows[0].labelled {
      SettledUnlabelled(settle, segment);
      ArrangedIdempotent(settle, [], rows[1..]);
      ArrangedPlain(settle, [], settle(segment));
      BarrierSplits(settle, [], settle(segment), rows[0], Arranged(settle, [], rows[1..]));
      assert [] + settle(segment) == settle(segment);
    } else {
      ArrangedIdempotent(settle, segment + [rows[0]], rows[1..]);
    }
  }

  /** Rows of one segment that tie on priority, age, residency and creation time keep the order they came in. */
  lemma ReorderStable(c: Context, rows: seq<Row>, from: nat, to: nat, tie: Row)
    requires c.loaded != {} && IsSegment(rows, from, to)
    ensures |Reordered(c, rows)| == |rows|
    ensures Ties(Full(c), Reordered(c, rows)[from..to], tie) == Ties(Full(c), rows[from..to], tie)
  {
    SegmentsAreSorted(c, rows, from, to);
    SortStable(Full(c), rows[from..to], tie);
  }

  /** Within a segment the result never puts a row before one that the full order puts strictly earlier. */
  lemma SegmentOrdered(c: Context, rows: seq<Row>, from: nat, to: nat, i: nat, j: nat)
    requires c.loaded != {} && IsSegment(rows, from, to) && from <= i < j < to
    ensures |Reordered(c, rows)| == |rows|
    ensures Le(Full(c), Reordered(c, rows)[i], Reordered(c, rows)[j])
  {
    SegmentsAreSorted(c, rows, from, to);
    SortSorts(Full(c), rows[from..to]);
    var part := Reordered(c, rows)[from..to];
    assert part[i - from] == Reordered(c, rows)[i] && part[j - from] == Reordered(c, rows)[j];
  }

  /** An aged job comes before every job of its segment and priority that is not aged, whatever is loaded. */
  lemma AgedGoesFirst(c: Context, rows: seq<Row>, from: nat, to: nat, i: nat, j: nat)
    requires c.loaded != {} && IsSegment(rows, from, to) && from <= i < to && from <= j < to
    requires |Reordered(c, rows)| == |rows|
    requires Aged(c, Reordered(c, rows)[i]) && !Aged(c, Reordered(c, rows)[j])
    requires Reordered(c, rows)[i].priority == Reordered(c, rows)[j].priority
    ensures i < j
  {
    if j < i { SegmentOrdered(c, rows, from, to, j, i); }
  }

  // The aging book.

  /** One poll: the unlabelled jobs it saw, and the jobs it started. */
  datatype Poll = Poll(queued: seq<string>, claimed: set<string>, now: real)


  class AgingBook {
    var skips: map<string, int>
    var firstSeen: map<string, real>

    constructor ()
      ensures skips == map[] && firstSeen == map[]
    {
      skips, firstSeen := map[], map[];
    }

    method Forget(claimed: set<string>)
      modifies this
      ensures skips == old(skips) - claimed && firstSeen == old(firstSeen) - claimed
    {
      var left := claimed;
      while left != {}
        invariant left <= claimed
        invariant skips == old(skips) - (claimed - left) && firstSeen == old(firstSeen) - (claimed - left)
      {
        var id :| id in left;
        skips := skips - {id};
        firstSeen := firstSeen - {id};
        left := left - {id};
      }
    }

    /** A claimed job leaves the book; every other job the poll saw is dated once and counted per sighting. */
    method NoteSkips(p: Poll)
      modifies this
      ensures Counted(old(skips), p, skips)
      ensures Dated(old(firstSeen), p, firstSeen)
    {
      Forget(p.claimed);
      var i := 0;
      while i < |p.queued|
        invariant 0 <= i <= |p.queued|
        invariant Counted(old(skips), p.(queued := p.queued[..i]), skips)
        invariant Dated(old(firstSeen), p.(queued := p.queued[..i]), firstSeen)
      {
        var id := p.queued[i];
        ghost var done, more := p.(queued := p.queued[..i]), p.(queued := p.queued[..i + 1]);
        assert more.queued == done.queued + [id];
        CountOnce(old(skips), done, skips, id);
        DateOnce(old(firstSeen), done, firstSeen, id);
        if id !in p.claimed {
          if id !in firstSeen {
            firstSeen := firstSeen[id := p.now];
          }
          skips := skips[id := Skips(skips, id) + 1];
        }
        i := i + 1;
      }
      assert p.queued[..i] == p.queued;
    }
  }

  /** What a poll does to the counts: a claimed job loses its entry, the others gain one per sighting. */
  ghost predicate Counted(before: map<string, int>, p: Poll, after: map<string, int>) {
    forall id ::
      && (id in after <==> id !in p.claimed && (id in before || id in p.queued))
      && (id in after ==> after[id] == Skips(before, id) + multiset(p.queued)[id])
  }

  /** What it does to the dates: the first sighting since the last claim stays. */
  ghost predicate Dated(before: map<string, real>, p: Poll, after: map<string, real>) {
    forall id ::
      && (id in after <==> id !in p.claimed && (id in before || id in p.queued))
      && (id in after ==> after[id] == SeenAt(before, id, p.now))
  }

  lemma CountOnce(before: map<string, int>, p: Poll, after: map<string, int>, id: string)
    requires Counted(before, p, after)
    ensures Counted(before, p.(queued := p.queued + [id]), if id in p.claimed then after else after[id := Skips(after, id) + 1])
  {
    assert id in p.queued <==> id in multiset(p.queued);
  }

  lemma DateOnce(before: map<string, real>, p: Poll, after: map<string, real>, id: string)
    requires Dated(before, p, after)
    ensures Dated(before, p.(queued := p.queued + [id]),
                  if id in p.claimed || id in after then after else after[id := p.now])
  {
  }

  /** The book before the first poll, and after each poll of a run. */
  ghost predicate BookRun(polls: seq<Poll>, skips: seq<map<string, int>>, firstSeen: seq<map<string, real>>) {
    && |skips| == |firstSeen| == |polls| + 1
    && skips[0] == map[] && firstSeen[0] == map[]
    && forall k | 0 <= k < |polls| :: Counted(skips[k], polls[k], skips[k + 1]) && Dated(firstSeen[k], polls[k], firstSeen[k + 1])
  }

  ghost predicate PassedOver(polls: seq<Poll>, since: nat, id: string) {
    forall k | since <= k < |polls| :: id in polls[k].queued && id !in polls[k].claimed
  }

  lemma {:induction false} SkipsGrow(
      polls: seq<Poll>, skips: seq<map<string, int>>, firstSeen: seq<map<string, real>>, since: nat, n: nat, id: string)
    requires BookRun(polls, skips, firstSeen) && PassedOver(polls, since, id) && n <= |polls|
    ensures Skips(skips[n], id) >= if n <= since then 0 else n - since
  {
    if n > 0 {
      SkipsGrow(polls, skips, firstSeen, since, n - 1, id);
      assert Counted(skips[n - 1], polls[n - 1], skips[n]);
      if n > since { assert id in multiset(polls[n - 1].queued); }
    }
  }

  lemma {:induction false} SeenDates(
      polls: seq<Poll>, skips: seq<map<string, int>>, firstSeen: seq<map<string, real>>, since: nat, n: nat, id: string)
    requires BookRun(polls, skips, firstSeen) && PassedOver(polls, since, id) && since < n <= |polls|
    requires since == 0 || id in polls[since - 1].claimed
    ensures id in firstSeen[n] && firstSeen[n][id] == polls[since].now
  {
    assert Dated(firstSeen[n - 1], polls[n - 1], firstSeen[n]);
    if since < n - 1 {
      SeenDates(polls, skips, firstSeen, since, n - 1, id);
    } else if since > 0 {
      assert Dated(firstSeen[since - 1], polls[since - 1], firstSeen[since]);
    }
  }

  /**
   * No starvation by affinity: once a job has been seen and passed over in `maxSkip` successive polls, or
   * `maxWait` has gone by since the first of an unbroken stretch of them, it is ahead of every job of its
   * segment and priority that is not aged too.
   */
  lemma PassedOverGoesFirst(
      c: Context, polls: seq<Poll>, skips: seq<map<string, int>>, firstSeen: seq<map<string, real>>, since: nat,
      rows: seq<Row>, from: nat, to: nat, i: nat, j: nat)
    requires BookRun(polls, skips, firstSeen) && c.skips == skips[|polls|] && c.firstSeen == firstSeen[|polls|]
    requires c.loaded != {} && IsSegment(rows, from, to) && from <= i < to && from <= j < to
    requires |Reordered(c, rows)| == |rows|
    requires since <= |polls| && PassedOver(polls, since, Reordered(c, rows)[i].id)
    requires
      || |polls| - since >= c.maxSkip
      || (&& since < |polls|
          && (since == 0 || Reordered(c, rows)[i].id in polls[since - 1].claimed)
          && c.now >= polls[since].now + c.maxWait)
    requires Reordered(c, rows)[i].priority == Reordered(c, rows)[j].priority && !Aged(c, Reordered(c, rows)[j])
    ensures i < j
  {
    var id := Reordered(c, rows)[i].id;
    if |polls| - since >= c.maxSkip {
      SkipsGrow(polls, skips, firstSeen, since, |polls|, id);
    } else {
      SeenDates(polls, skips, firstSeen, since, |polls|, id);
    }
    AgedGoesFirst(c, rows, from, to, i, j);
  }
}
