/** The order the affinity pass sorts by, and Python's stable `sorted` under it. */
module AffinityOrder {
  import opened IsoTime
  import opened Text

  datatype Row = Row(id: string, priority: int, createdAt: string, model: string, labelled: bool)

  datatype Context = Context(
    loaded: set<string>, now: real, skips: map<string, int>, firstSeen: map<string, real>, maxSkip: int, maxWait: real)

  function Skips(skips: map<string, int>, id: string): int {
    if id in skips then skips[id] else 0
  }

  function SeenAt(firstSeen: map<string, real>, id: string, now: real): real {
    if id in firstSeen then firstSeen[id] else now
  }

  predicate Aged(c: Context, row: Row) {
    Skips(c.skips, row.id) >= c.maxSkip || c.now - SeenAt(c.firstSeen, row.id, c.now) >= c.maxWait
  }

  /** The sort key of one priority's group, or the full key with descending priority in front of it. */
  datatype Key = Grouped(c: Context) | Full(c: Context)

  predicate Le(k: Key, a: Row, b: Row) {
    if k.Full? && a.priority != b.priority then a.priority > b.priority
    else if Aged(k.c, a) != Aged(k.c, b) then Aged(k.c, a)
    else if (a.model in k.c.loaded) != (b.model in k.c.loaded) then a.model in k.c.loaded
    else StrLe(a.createdAt, b.createdAt)
  }

  lemma LeTotal(k: Key, a: Row, b: Row)
    ensures Le(k, a, b) || Le(k, b, a)
  {
    StrLeTotal(a.createdAt, b.createdAt);
  }

  lemma LeTransitive(k: Key, x: Row, y: Row, z: Row)
    requires Le(k, x, y) && Le(k, y, z)
    ensures Le(k, x, z)
  {
    if StrLe(x.createdAt, y.createdAt) && StrLe(y.createdAt, z.createdAt) {
      StrLeTransitive(x.createdAt, y.createdAt, z.createdAt);
    }
  }

  /** Puts `x` before the first row that does not come strictly before it. */
  function Insert(k: Key, x: Row, s: seq<Row>): seq<Row> {
    if s == [] || Le(k, x, s[0]) then [x] + s else [s[0]] + Insert(k, x, s[1..])
  }

  function Sort(k: Key, s: seq<Row>): seq<Row> {
    if s == [] then [] else Insert(k, s[0], Sort(k, s[1..]))
  }

  ghost predicate Sorted(k: Key, s: seq<Row>) {
    forall i, j | 0 <= i < j < |s| :: Le(k, s[i], s[j])
  }

  lemma {:induction false} InsertElements(k: Key, x: Row, s: seq<Row>)
    ensures multiset(Insert(k, x, s)) == multiset(s) + multiset{x}
    ensures forall y :: y in Insert(k, x, s) <==> y == x || y in s
  {
    if s != [] && !Le(k, x, s[0]) {
      InsertElements(k, x, s[1..]);
      assert s == [s[0]] + s[1..];
    }
  }

  lemma {:induction false} InsertSorted(k: Key, x: Row, s: seq<Row>)
    requires Sorted(k, s)
    ensures Sorted(k, Insert(k, x, s))
  {
    if s == [] {
    } else if Le(k, x, s[0]) {
      forall i | 0 <= i < |s| ensures Le(k, x, s[i]) {
        if i > 0 { LeTransitive(k, x, s[0], s[i]); }
      }
    } else {
      InsertSorted(k, x, s[1..]);
      InsertElements(k, x, s[1..]);
      LeTotal(k, x, s[0]);
      var rest := Insert(k, x, s[1..]);
      forall i | 0 <= i < |rest| ensures Le(k, s[0], rest[i]) {
        assert rest[i] in rest;
      }
    }
  }

  /** The result is sorted, and a permutation. */
  lemma {:induction false} SortSorts(k: Key, s: seq<Row>)
    ensures Sorted(k, Sort(k, s))
    ensures multiset(Sort(k, s)) == multiset(s)
    ensures |Sort(k, s)| == |s|
    ensures forall y :: y in Sort(k, s) <==> y in s
  {
    if s != [] {
      SortSorts(k, s[1..]);
      InsertSorted(k, s[0], Sort(k, s[1..]));
      InsertElements(k, s[0], Sort(k, s[1..]));
      assert s == [s[0]] + s[1..];
      assert |Sort(k, s)| == |multiset(Sort(k, s))| == |multiset(s)|;
    }
  }

  /** Passed over in enough polls, or waiting long enough since it was first seen. */
  predicate PassedOver(c: Context, row: Row) {
    || c.maxSkip <= 0 || (row.id in c.skips && c.skips[row.id] >= c.maxSkip)
    || (if row.id in c.firstSeen then c.now >= c.firstSeen[row.id] + c.maxWait else c.maxWait <= 0.0)
  }

  lemma AgedIs(c: Context, row: Row)
    requires forall id | id in c.skips :: c.skips[id] >= 0
    ensures Aged(c, row) <==> PassedOver(c, row)
  {
  }

  /**
   * The sorted rows: higher priorities first; within one, rows passed over too long first; among the rest of one
   * kind, the loaded models first; and among those, the older first, as long as the dates are those of instants.
   */
  lemma SortedMeans(c: Context, s: seq<Row>, i: nat, j: nat)
    requires (forall id | id in c.skips :: c.skips[id] >= 0) && i < j < |Sort(Full(c), s)|
    ensures var a, b := Sort(Full(c), s)[i], Sort(Full(c), s)[j];
      && a.priority >= b.priority
      && (a.priority == b.priority && PassedOver(c, b) ==> PassedOver(c, a))
      && (a.priority == b.priority && PassedOver(c, a) == PassedOver(c, b) ==>
            && (b.model in c.loaded ==> a.model in c.loaded)
            && ((a.model in c.loaded <==> b.model in c.loaded) ==>
                  forall t: Instant, u: Instant | a.createdAt == Iso(t) && b.createdAt == Iso(u) :: t <= u))
  {
    SortSorts(Full(c), s);
    var a, b := Sort(Full(c), s)[i], Sort(Full(c), s)[j];
    assert Le(Full(c), a, b);
    AgedIs(c, a);
    AgedIs(c, b);
    forall t: Instant, u: Instant | a.createdAt == Iso(t) && b.createdAt == Iso(u) && StrLe(a.createdAt, b.createdAt) ensures t <= u {
      IsoOrder(t, u);
    }
  }

  /** Sorted rows are left as they are. */
  lemma {:induction false} SortIdempotent(k: Key, s: seq<Row>)
    requires Sorted(k, s)
    ensures Sort(k, s) == s
  {
    if s != [] {
      SortIdempotent(k, s[1..]);
      if |s| > 1 { assert Le(k, s[0], s[1]); }
    }
  }

  /** The rows that tie with `tie`, in order. */
  function Ties(k: Key, s: seq<Row>, tie: Row): seq<Row> {
    if s == [] then []
    else if Le(k, s[0], tie) && Le(k, tie, s[0]) then [s[0]] + Ties(k, s[1..], tie)
    else Ties(k, s[1..], tie)
  }

  /** Rows that tie with each other keep the order they came in. */
  lemma {:induction false} SortStable(k: Key, s: seq<Row>, tie: Row)
    ensures Ties(k, Sort(k, s), tie) == Ties(k, s, tie)
  {
    if s != [] {
      SortStable(k, s[1..], tie);
      InsertStable(k, s[0], Sort(k, s[1..]), tie);
      assert ([s[0]] + Sort(k, s[1..]))[1..] == Sort(k, s[1..]);
    }
  }

  lemma {:induction false} InsertStable(k: Key, x: Row, s: seq<Row>, tie: Row)
    ensures Ties(k, Insert(k, x, s), tie) == Ties(k, [x] + s, tie)
  {
    if s != [] && !Le(k, x, s[0]) {
      InsertStable(k, x, s[1..], tie);
      var rest := Insert(k, x, s[1..]);
      assert ([s[0]] + rest)[1..] == rest && ([x] + s)[1..] == s && ([x] + s[1..])[1..] == s[1..];
      if Le(k, x, tie) && Le(k, tie, s[0]) { LeTransitive(k, x, tie, s[0]); }
    }
  }

  /** The rows of one priority, negated as the source keys its groups, and the other rows. */
  function Group(s: seq<Row>, key: int): seq<Row> {
    if s == [] then [] else if -s[0].priority == key then [s[0]] + Group(s[1..], key) else Group(s[1..], key)
  }

  function Others(s: seq<Row>, key: int): seq<Row> {
    if s == [] then [] else if -s[0].priority == key then Others(s[1..], key) else [s[0]] + Others(s[1..], key)
  }

  lemma {:induction false} GroupElements(s: seq<Row>, key: int)
    ensures forall x :: x in Group(s, key) <==> x in s && -x.priority == key
    ensures forall x :: x in Others(s, key) <==> x in s && -x.priority != key
  {
    if s != [] { GroupElements(s[1..], key); }
  }

  lemma {:induction false} GroupSnoc(s: seq<Row>, x: Row, key: int)
    ensures Group(s + [x], key) == if -x.priority == key then Group(s, key) + [x] else Group(s, key)
  {
    if s != [] {
      assert (s + [x])[1..] == s[1..] + [x];
      GroupSnoc(s[1..], x, key);
    }
  }

  lemma GroupCons(x: Row, s: seq<Row>, key: int)
    ensures Group([x] + s, key) == if -x.priority == key then [x] + Group(s, key) else Group(s, key)
  {
    assert ([x] + s)[1..] == s;
  }

  lemma {:induction false} OthersKeepGroups(s: seq<Row>, key: int, other: int)
    requires key != other
    ensures Group(Others(s, key), other) == Group(s, other)
  {
    if s != [] {
      OthersKeepGroups(s[1..], key, other);
      if -s[0].priority != key { GroupCons(s[0], Others(s[1..], key), other); }
    }
  }

  /** The group of the least key, sorted by itself, comes first, and the other rows follow in their own order. */
  lemma {:induction false} LeastGroupFirst(c: Context, s: seq<Row>, key: int)
    requires forall r | r in s :: key <= -r.priority
    ensures Sort(Full(c), s) == Sort(Grouped(c), Group(s, key)) + Sort(Full(c), Others(s, key))
  {
    if s != [] {
      var x, rest := s[0], s[1..];
      LeastGroupFirst(c, rest, key);
      GroupElements(rest, key);
      SortSorts(Grouped(c), Group(rest, key));
      SortSorts(Full(c), Others(rest, key));
      var a, b := Sort(Grouped(c), Group(rest, key)), Sort(Full(c), Others(rest, key));
      assert b != [] ==> b[0] in b;
      InsertIntoParts(c, x, a, b, key);
      SortCons(Grouped(c), x, Group(rest, key));
      SortCons(Full(c), x, Others(rest, key));
    }
  }

  lemma SortCons(k: Key, x: Row, s: seq<Row>)
    ensures Sort(k, [x] + s) == Insert(k, x, Sort(k, s))
  {
    assert ([x] + s)[1..] == s;
  }

  lemma {:induction false} InsertIntoParts(c: Context, x: Row, a: seq<Row>, b: seq<Row>, key: int)
    requires key <= -x.priority && forall y | y in a :: -y.priority == key
    requires b == [] || key < -b[0].priority
    ensures Insert(Full(c), x, a + b) == if -x.priority == key then Insert(Grouped(c), x, a) + b else a + Insert(Full(c), x, b)
  {
    if a == [] {
      assert a + b == b;
    } else if Le(Full(c), x, a[0]) {
      assert [x] + (a + b) == [x] + a + b;
    } else {
      InsertIntoParts(c, x, a[1..], b, key);
      HeadAndRest(a, b);
      Regroup(a[0], Insert(Grouped(c), x, a[1..]), b);
      Regroup(a[0], a[1..], Insert(Full(c), x, b));
      assert [a[0]] + a[1..] == a;
    }
  }

  lemma HeadAndRest(a: seq<Row>, b: seq<Row>)
    requires a != []
    ensures (a + b)[0] == a[0] && (a + b)[1..] == a[1..] + b
  {
  }

  lemma Regroup(x: Row, a: seq<Row>, b: seq<Row>)
    ensures [x] + (a + b) == [x] + a + b
  {
  }
}
