/** Reserving model, session and tag slots and rate tokens for a job, all or nothing. */
module Reservations {
  import opened Jobs
  import opened TokenBuckets

  datatype Dims = Dims(model: string, session: string, tags: seq<string>)

  datatype Kind = Model | Session | Tag

  /** A PROCESSING row of the peer snapshot. */
  datatype PeerRow = PeerRow(id: string, dims: Dims)

  datatype Config = Config(modelSlots: map<string, int>, defaultModelSlots: Option<int>, sessionSlots: Option<int>,
                           tagSlots: map<string, int>, sessionRate: Option<real>, tagRates: map<string, real>)

  predicate Uses(d: Dims, kind: Kind, value: string) {
    match kind
    case Model => d.model == value
    case Session => d.session == value
    case Tag => value in d.tags
  }

  function LimitOf(c: Config, kind: Kind, value: string): Option<int> {
    match kind
    case Model => if value in c.modelSlots then Some(c.modelSlots[value]) else c.defaultModelSlots
    case Session => if value == "" then None else c.sessionSlots
    case Tag => if value in c.tagSlots then Some(c.tagSlots[value]) else None
  }

  /** The locally reserved jobs that use a value. */
  function Users(meta: map<string, Dims>, kind: Kind, value: string): set<string> {
    set j | j in meta && Uses(meta[j], kind, value)
  }

  function PeerCount(snapshot: seq<PeerRow>, meta: map<string, Dims>, kind: Kind, value: string): nat {
    if snapshot == [] then 0
    else
      var last := snapshot[|snapshot| - 1];
      PeerCount(snapshot[..|snapshot| - 1], meta, kind, value) + if last.id !in meta && Uses(last.dims, kind, value) then 1 else 0
  }

  /** `_dim_usage`: local plus peer jobs; a blank value counts nothing. */
  function Usage(meta: map<string, Dims>, snapshot: seq<PeerRow>, kind: Kind, value: string): nat {
    if value == "" then 0 else |Users(meta, kind, value)| + PeerCount(snapshot, meta, kind, value)
  }

  type Snapshots = (Kind, string) -> seq<PeerRow>

  /** One limit is not reached (`strict`), or not exceeded. Each count may see its own peer snapshot. */
  predicate Allows(c: Config, meta: map<string, Dims>, kind: Kind, value: string, peers: Snapshots, strict: bool) {
    var limit, usage := LimitOf(c, kind, value), Usage(meta, peers(kind, value), kind, value);
    limit.None? || if strict then usage < limit.value else usage <= limit.value
  }

  ghost predicate Fits(c: Config, meta: map<string, Dims>, d: Dims, peers: Snapshots, strict: bool) {
    forall kind, value | Uses(d, kind, value) :: Allows(c, meta, kind, value, peers, strict)
  }

  // The limits in plain terms.

  predicate Within(n: nat, limit: int, strict: bool) {
    n < limit || (!strict && n == limit)
  }

  /** The rows of a snapshot of jobs that are not reserved here. */
  function Foreign(snapshot: seq<PeerRow>, meta: map<string, Dims>): set<nat> {
    set i | 0 <= i < |snapshot| && snapshot[i].id !in meta
  }

  /** Jobs of the model here and elsewhere; a blank model counts none. */
  ghost predicate ModelFits(c: Config, meta: map<string, Dims>, model: string, snapshot: seq<PeerRow>, strict: bool) {
    var n := if model == "" then 0
             else |set j | j in meta && meta[j].model == model| + |set i | i in Foreign(snapshot, meta) && snapshot[i].dims.model == model|;
    && (model in c.modelSlots ==> Within(n, c.modelSlots[model], strict))
    && (model !in c.modelSlots && c.defaultModelSlots.Some? ==> Within(n, c.defaultModelSlots.value, strict))
  }

  ghost predicate SessionFits(c: Config, meta: map<string, Dims>, session: string, snapshot: seq<PeerRow>, strict: bool) {
    var n := |set j | j in meta && meta[j].session == session| + |set i | i in Foreign(snapshot, meta) && snapshot[i].dims.session == session|;
    session != "" && c.sessionSlots.Some? ==> Within(n, c.sessionSlots.value, strict)
  }

  ghost predicate TagFits(c: Config, meta: map<string, Dims>, tag: string, snapshot: seq<PeerRow>, strict: bool) {
    var n := if tag == "" then 0
             else |set j | j in meta && tag in meta[j].tags| + |set i | i in Foreign(snapshot, meta) && tag in snapshot[i].dims.tags|;
    tag in c.tagSlots ==> Within(n, c.tagSlots[tag], strict)
  }

  function PeersUsing(snapshot: seq<PeerRow>, meta: map<string, Dims>, kind: Kind, value: string): set<nat> {
    set i | i in Foreign(snapshot, meta) && Uses(snapshot[i].dims, kind, value)
  }

  lemma {:induction false} PeerCountMeaning(snapshot: seq<PeerRow>, meta: map<string, Dims>, kind: Kind, value: string)
    ensures PeerCount(snapshot, meta, kind, value) == |PeersUsing(snapshot, meta, kind, value)|
  {
    if snapshot != [] {
      PeerCountMeaning(snapshot[..|snapshot| - 1], meta, kind, value);
      LastPeer(snapshot, meta, kind, value);
    }
  }

  lemma LastPeer(snapshot: seq<PeerRow>, meta: map<string, Dims>, kind: Kind, value: string)
    requires snapshot != []
    ensures var n := |snapshot| - 1;
      |PeersUsing(snapshot, meta, kind, value)| ==
        |PeersUsing(snapshot[..n], meta, kind, value)| + if snapshot[n].id !in meta && Uses(snapshot[n].dims, kind, value) then 1 else 0
  {
    var n := |snapshot| - 1;
    var before, all := PeersUsing(snapshot[..n], meta, kind, value), PeersUsing(snapshot, meta, kind, value);
    forall i ensures i in all <==> i in before || (i == n && snapshot[n].id !in meta && Uses(snapshot[n].dims, kind, value)) {}
    if snapshot[n].id !in meta && Uses(snapshot[n].dims, kind, value) {
      assert all == before + {n};
    } else {
      assert all == before;
    }
  }

  /** The check is that of the job's model, its session and each of its tags, with every PROCESSING job counted once. */
  lemma FitsMeans(c: Config, meta: map<string, Dims>, d: Dims, peers: Snapshots, strict: bool)
    ensures Fits(c, meta, d, peers, strict) <==>
      && ModelFits(c, meta, d.model, peers(Model, d.model), strict)
      && SessionFits(c, meta, d.session, peers(Session, d.session), strict)
      && forall tag | tag in d.tags :: TagFits(c, meta, tag, peers(Tag, tag), strict)
  {
    ModelAllows(c, meta, d.model, peers, strict);
    SessionAllows(c, meta, d.session, peers, strict);
    forall tag | tag in d.tags ensures Allows(c, meta, Tag, tag, peers, strict) <==> TagFits(c, meta, tag, peers(Tag, tag), strict) {
      TagAllows(c, meta, tag, peers, strict);
    }
    assert Uses(d, Model, d.model) && Uses(d, Session, d.session) && forall tag | tag in d.tags :: Uses(d, Tag, tag);
  }

  lemma ModelAllows(c: Config, meta: map<string, Dims>, model: string, peers: Snapshots, strict: bool)
    ensures Allows(c, meta, Model, model, peers, strict) <==> ModelFits(c, meta, model, peers(Model, model), strict)
  {
    var snapshot := peers(Model, model);
    PeerCountMeaning(snapshot, meta, Model, model);
    assert Users(meta, Model, model) == set j | j in meta && meta[j].model == model;
    assert PeersUsing(snapshot, meta, Model, model) == set i | i in Foreign(snapshot, meta) && snapshot[i].dims.model == model;
  }

  lemma SessionAllows(c: Config, meta: map<string, Dims>, session: string, peers: Snapshots, strict: bool)
    ensures Allows(c, meta, Session, session, peers, strict) <==> SessionFits(c, meta, session, peers(Session, session), strict)
  {
    var snapshot := peers(Session, session);
    PeerCountMeaning(snapshot, meta, Session, session);
    assert Users(meta, Session, session) == set j | j in meta && meta[j].session == session;
    assert PeersUsing(snapshot, meta, Session, session) == set i | i in Foreign(snapshot, meta) && snapshot[i].dims.session == session;
  }

  lemma TagAllows(c: Config, meta: map<string, Dims>, tag: string, peers: Snapshots, strict: bool)
    ensures Allows(c, meta, Tag, tag, peers, strict) <==> TagFits(c, meta, tag, peers(Tag, tag), strict)
  {
    var snapshot := peers(Tag, tag);
    PeerCountMeaning(snapshot, meta, Tag, tag);
    assert Users(meta, Tag, tag) == set j | j in meta && tag in meta[j].tags;
    assert PeersUsing(snapshot, meta, Tag, tag) == set i | i in Foreign(snapshot, meta) && tag in snapshot[i].dims.tags;
  }

  /** Every limit on a value that is not blank holds for the local reservations. */
  ghost predicate Capped(c: Config, meta: map<string, Dims>) {
    forall kind, value | value != "" && LimitOf(c, kind, value).Some? && Users(meta, kind, value) != {} ::
      |Users(meta, kind, value)| <= LimitOf(c, kind, value).value
  }

  /** The limits of the job's own model, session and tags. */
  ghost predicate OwnLimitsHold(c: Config, meta: map<string, Dims>, d: Dims) {
    forall kind, value | value != "" && Uses(d, kind, value) && LimitOf(c, kind, value).Some? ::
      |Users(meta, kind, value)| <= LimitOf(c, kind, value).value
  }

  /** The caps in plain terms: every configured limit bounds the jobs reserved here. */
  lemma CapsMean(c: Config, meta: map<string, Dims>, j: string)
    requires Capped(c, meta) && j in meta
    ensures meta[j].model != "" ==>
              var n := |set k | k in meta && meta[k].model == meta[j].model|;
              && (meta[j].model in c.modelSlots ==> n <= c.modelSlots[meta[j].model])
              && (meta[j].model !in c.modelSlots && c.defaultModelSlots.Some? ==> n <= c.defaultModelSlots.value)
    ensures meta[j].session != "" && c.sessionSlots.Some? ==>
              |set k | k in meta && meta[k].session == meta[j].session| <= c.sessionSlots.value
    ensures forall tag | tag in meta[j].tags && tag != "" && tag in c.tagSlots ::
              |set k | k in meta && tag in meta[k].tags| <= c.tagSlots[tag]
  {
    var model, session := meta[j].model, meta[j].session;
    assert j in Users(meta, Model, model) && Users(meta, Model, model) == set k | k in meta && meta[k].model == model;
    assert j in Users(meta, Session, session) && Users(meta, Session, session) == set k | k in meta && meta[k].session == session;
    forall tag | tag in meta[j].tags && tag != "" && tag in c.tagSlots
      ensures |set k | k in meta && tag in meta[k].tags| <= c.tagSlots[tag]
    {
      TagCap(c, meta, j, tag);
    }
  }

  lemma TagCap(c: Config, meta: map<string, Dims>, j: string, tag: string)
    requires Capped(c, meta) && j in meta && tag in meta[j].tags && tag != "" && tag in c.tagSlots
    ensures |set k | k in meta && tag in meta[k].tags| <= c.tagSlots[tag]
  {
    assert j in Users(meta, Tag, tag) && LimitOf(c, Tag, tag) == Some(c.tagSlots[tag]);
    assert Users(meta, Tag, tag) == set k | k in meta && tag in meta[k].tags;
  }

  lemma ReservingKeepsCaps(c: Config, meta: map<string, Dims>, job: string, d: Dims)
    requires Capped(c, meta) && OwnLimitsHold(c, meta[job := d], d)
    ensures Capped(c, meta[job := d])
  {
    var after := meta[job := d];
    forall kind, value | value != "" && LimitOf(c, kind, value).Some? && Users(after, kind, value) != {}
      ensures |Users(after, kind, value)| <= LimitOf(c, kind, value).value
    {
      if !Uses(d, kind, value) {
        assert Users(after, kind, value) <= Users(meta, kind, value);
        FewerUsers(Users(after, kind, value), Users(meta, kind, value));
      }
    }
  }

  lemma FewerUsers(a: set<string>, b: set<string>)
    requires a <= b
    ensures |a| <= |b| && (a != {} ==> b != {})
  {
    assert b == a + (b - a);
  }

  lemma ReleasingKeepsCaps(c: Config, meta: map<string, Dims>, job: string)
    requires Capped(c, meta)
    ensures Capped(c, meta - {job})
  {
    forall kind, value | value != "" && LimitOf(c, kind, value).Some? && Users(meta - {job}, kind, value) != {}
      ensures |Users(meta - {job}, kind, value)| <= LimitOf(c, kind, value).value
    {
      FewerUsers(Users(meta - {job}, kind, value), Users(meta, kind, value));
    }
  }

  /** A monotone clock; every reading may be later than the one before. */
  class MonotonicClock {
    var now: real

    constructor ()
    {
      now := 0.0;
    }

    method Read() returns (t: real)
      modifies this
      ensures t == now && now >= old(now)
    {
      var step: real := *;
      if step > 0.0 {
        now := now + step;
      }
      t := now;
    }
  }

  /**
   * At its latest update the bucket is what refilling alone would have made of `before`, less `owed` tokens; and
   * what is left and what was taken together came from what was there or flowed in.
   */
  predicate OwesSince(before: Bucket, now: Bucket, owed: nat, time: real) {
    && before.Valid() && before.updated <= now.updated <= time && Owes(Refill(before, now.updated), now, owed)
    && now.tokens + owed as real <= before.tokens + Inflow(before.rate, before.updated, now.updated)
  }

  lemma OwesSinceNow(b: Bucket, time: real)
    requires b.Valid() && b.updated <= time
    ensures OwesSince(b, b, 0, time)
  {
    InflowAdds(b.rate, b.updated, b.updated, b.updated);
  }

  lemma OwesSinceRefill(before: Bucket, now: Bucket, owed: nat, time: real, t: real)
    requires OwesSince(before, now, owed, time) && time <= t
    ensures OwesSince(before, Refill(now, t), owed, t)
  {
    RefillTwice(before, now.updated, t);
    OwesAfterRefill(Refill(before, now.updated), now, owed, t);
    RefillGains(now, t);
    InflowAdds(before.rate, before.updated, now.updated, t);
  }

  lemma OwesSinceTake(before: Bucket, now: Bucket, owed: nat, time: real, t: real)
    requires OwesSince(before, now, owed, time) && time <= t
    ensures OwesSince(before, Take(now, t), if Refill(now, t).tokens >= 1.0 then owed + 1 else owed, t)
  {
    RefillTwice(before, now.updated, t);
    OwesAfterTake(Refill(before, now.updated), now, owed, t);
    OwesSinceRefill(before, now, owed, time, t);
  }

  lemma OwesSinceRefund(before: Bucket, now: Bucket, owed: nat, time: real, t: real)
    requires OwesSince(before, now, owed, time) && time <= t && owed > 0
    ensures OwesSince(before, Refund(now, t, 1.0), owed - 1, t)
  {
    RefillTwice(before, now.updated, t);
    OwesAfterRefund(Refill(before, now.updated), now, owed, t);
    OwesSinceRefill(before, now, owed, time, t);
  }

  /** `now` is `before` with tokens taken out of each bucket: as many as the key occurs in `charged`. */
  ghost predicate Charged(before: map<string, Bucket>, now: map<string, Bucket>, charged: multiset<string>, time: real) {
    && now.Keys == before.Keys
    && forall k | k in before :: OwesSince(before[k], now[k], charged[k], time)
  }

  lemma ChargedLater(before: map<string, Bucket>, now: map<string, Bucket>, charged: multiset<string>, time: real, t: real)
    requires Charged(before, now, charged, time) && time <= t
    ensures Charged(before, now, charged, t)
  {
    forall k | k in before ensures OwesSince(before[k], now[k], charged[k], t) {
      assert OwesSince(before[k], now[k], charged[k], time);
    }
  }

  /** One bucket changes, and with it the count of its key. */
  lemma ChargedAt(before: map<string, Bucket>, now: map<string, Bucket>, charged: multiset<string>, after: multiset<string>,
                  k: string, b: Bucket, t: real)
    requires Charged(before, now, charged, t) && k in before && OwesSince(before[k], b, after[k], t)
    requires forall x | x != k :: after[x] == charged[x]
    ensures Charged(before, now[k := b], after, t)
  {
    forall x | x in before ensures OwesSince(before[x], now[k := b][x], after[x], t) {
      if x != k { assert OwesSince(before[x], now[x], charged[x], t); }
    }
  }

  /** The bucket is as if only refilled, or full if it did not exist. */
  ghost predicate OnlyRefilled(before: map<string, Bucket>, now: map<string, Bucket>) {
    && before.Keys <= now.Keys
    && (forall k | k in before :: now[k] == Refill(before[k], now[k].updated) && before[k].updated <= now[k].updated)
    && (forall k | k in now && k !in before :: now[k].tokens == now[k].capacity)
  }

  ghost predicate Opened(before: map<string, Bucket>, now: map<string, Bucket>) {
    && before.Keys <= now.Keys
    && (forall k | k in before :: now[k] == before[k])
    && (forall k | k in now && k !in before :: now[k].tokens == now[k].capacity)
  }

  lemma NothingCharged(before: map<string, Bucket>, base: map<string, Bucket>, now: map<string, Bucket>, time: real)
    requires Opened(before, base) && Charged(base, now, multiset{}, time)
    ensures OnlyRefilled(before, now)
  {
    forall k | k in base ensures now[k] == Refill(base[k], now[k].updated) && base[k].updated <= now[k].updated {
      assert OwesSince(base[k], now[k], 0, time);
      OwesNothing(Refill(base[k], now[k].updated), now[k]);
      InflowAdds(base[k].rate, base[k].updated, now[k].updated, now[k].updated);
    }
  }

  function TagKeys(c: Config, tags: seq<string>): seq<(string, real)> {
    if tags == [] then []
    else (if tags[0] in c.tagRates then [("tag:" + tags[0], c.tagRates[tags[0]])] else []) + TagKeys(c, tags[1..])
  }

  /** The buckets a job draws on: its session's, then one per rated tag, repetitions included. */
  function RateKeys(c: Config, d: Dims): seq<(string, real)> {
    (if d.session != "" && c.sessionRate.Some? then [("session:" + d.session, c.sessionRate.value)] else [])
    + TagKeys(c, d.tags)
  }

  function Names(keys: seq<(string, real)>): seq<string> {
    seq(|keys|, i requires 0 <= i < |keys| => keys[i].0)
  }

  lemma NamesAreKnown(keys: seq<(string, real)>, known: set<string>)
    requires forall k | k in keys :: k.0 in known
    ensures forall n | n in Names(keys) :: n in known
  {
    forall n | n in Names(keys) ensures n in known {
      var i :| 0 <= i < |keys| && keys[i].0 == n;
      assert keys[i] in keys;
    }
  }

  /** How many tokens the keys ask of a bucket. */
  function Asked(keys: seq<(string, real)>, name: string): nat {
    multiset(Names(keys))[name]
  }

  lemma AskedAt(keys: seq<(string, real)>, i: nat)
    requires i < |keys|
    ensures Names(keys[..i + 1]) == Names(keys[..i]) + [keys[i].0]
    ensures Asked(keys[..i], keys[i].0) + 1 <= Asked(keys, keys[i].0)
  {
    var first, rest := Names(keys[..i]), Names(keys[i + 1..]);
    assert Names(keys) == first + [keys[i].0] + rest;
    assert multiset(Names(keys)) == multiset(first) + multiset{keys[i].0} + multiset(rest);
  }

  ghost predicate RatesOk(c: Config) {
    (c.sessionRate.Some? ==> c.sessionRate.value >= 0.0) && forall t | t in c.tagRates :: c.tagRates[t] >= 0.0
  }

  lemma {:induction false} TagKeysOk(c: Config, tags: seq<string>)
    requires RatesOk(c)
    ensures forall k | k in TagKeys(c, tags) :: k.1 >= 0.0
  {
    if tags != [] { TagKeysOk(c, tags[1..]); }
  }

  // What a job is charged, in plain terms.

  lemma TagsApart(a: string, b: string)
    ensures "tag:" + a == "tag:" + b ==> a == b
    ensures "tag:" + a != "session:" + b
  {
    assert ("tag:" + a)[4..] == a && ("tag:" + b)[4..] == b;
    assert ("tag:" + a)[0] == 't' && ("session:" + b)[0] == 's';
  }

  lemma SessionsApart(a: string, b: string)
    ensures "session:" + a == "session:" + b ==> a == b
  {
    assert ("session:" + a)[8..] == a && ("session:" + b)[8..] == b;
  }

  /** The key of a rated tag or session, and its rate per minute. */
  ghost predicate IsKey(c: Config, key: (string, real)) {
    || (exists t :: t in c.tagRates && key == ("tag:" + t, c.tagRates[t]))
    || (exists v :: c.sessionRate.Some? && key == ("session:" + v, c.sessionRate.value))
  }

  lemma NamesCons(key: (string, real), keys: seq<(string, real)>)
    ensures Names([key] + keys) == [key.0] + Names(keys)
    ensures multiset(Names([key] + keys)) == multiset{key.0} + multiset(Names(keys))
  {
    assert Names([key] + keys) == [key.0] + Names(keys);
  }

  lemma {:induction false} TagCharges(c: Config, tags: seq<string>)
    ensures forall key | key in TagKeys(c, tags) :: exists t :: t in tags && t in c.tagRates && key == ("tag:" + t, c.tagRates[t])
    ensures forall t | t in c.tagRates :: Asked(TagKeys(c, tags), "tag:" + t) == multiset(tags)[t]
    ensures forall v :: Asked(TagKeys(c, tags), "session:" + v) == 0
  {
    if tags != [] {
      var rest := TagKeys(c, tags[1..]);
      TagCharges(c, tags[1..]);
      assert tags == [tags[0]] + tags[1..];
      forall t ensures "tag:" + t == "tag:" + tags[0] ==> t == tags[0] { TagsApart(t, tags[0]); }
      forall v ensures "tag:" + tags[0] != "session:" + v { TagsApart(tags[0], v); }
      if tags[0] in c.tagRates {
        NamesCons(("tag:" + tags[0], c.tagRates[tags[0]]), rest);
      } else {
        assert [] + rest == rest;
      }
    }
  }

  /** A job draws one token from its session's bucket, if sessions are rated, and one from a rated tag's for each mention. */
  lemma RateKeysMean(c: Config, d: Dims)
    ensures forall key | key in RateKeys(c, d) ::
              || (d.session != "" && c.sessionRate.Some? && key == ("session:" + d.session, c.sessionRate.value))
              || exists t :: t in d.tags && t in c.tagRates && key == ("tag:" + t, c.tagRates[t])
    ensures d.session != "" && c.sessionRate.Some? ==> Asked(RateKeys(c, d), "session:" + d.session) == 1
    ensures forall t | t in c.tagRates :: Asked(RateKeys(c, d), "tag:" + t) == multiset(d.tags)[t]
  {
    TagCharges(c, d.tags);
    if d.session != "" && c.sessionRate.Some? {
      NamesCons(("session:" + d.session, c.sessionRate.value), TagKeys(c, d.tags));
      forall t ensures "tag:" + t != "session:" + d.session { TagsApart(t, d.session); }
    } else {
      assert [] + TagKeys(c, d.tags) == TagKeys(c, d.tags);
    }
  }

  lemma RateKeysAre(c: Config, d: Dims)
    ensures forall key | key in RateKeys(c, d) :: IsKey(c, key)
  {
    RateKeysMean(c, d);
  }

  /** What a bucket holds, or would hold when it is opened. */
  function Held(buckets: map<string, Bucket>, name: string, perMinute: real): real {
    if name in buckets then buckets[name].tokens else if perMinute > 6.0 then perMinute / 6.0 else 1.0
  }

  /** Every bucket the job draws on holds as many tokens as the job draws. */
  ghost predicate Affords(c: Config, d: Dims, buckets: map<string, Bucket>) {
    && (d.session != "" && c.sessionRate.Some? ==> Held(buckets, "session:" + d.session, c.sessionRate.value) >= 1.0)
    && forall t | t in d.tags && t in c.tagRates :: Held(buckets, "tag:" + t, c.tagRates[t]) >= multiset(d.tags)[t] as real
  }

  ghost predicate Covers(buckets: map<string, Bucket>, keys: seq<(string, real)>) {
    forall key | key in keys :: Asked(keys, key.0) as real <= Held(buckets, key.0, key.1)
  }

  lemma AffordsCovers(c: Config, d: Dims, buckets: map<string, Bucket>)
    requires Affords(c, d, buckets)
    ensures Covers(buckets, RateKeys(c, d))
  {
    RateKeysMean(c, d);
  }

  /** The table before any charge holds enough for all keys. */
  ghost predicate Enough(base: map<string, Bucket>, keys: seq<(string, real)>) {
    forall key | key in keys :: key.0 in base && Asked(keys, key.0) as real <= base[key.0].tokens
  }

  /** A bucket of its configured rate: ten seconds' worth of tokens at most, or one. */
  predicate Runs(b: Bucket, perMinute: real) {
    60.0 * b.rate == perMinute && b.capacity == if perMinute > 6.0 then perMinute / 6.0 else 1.0
  }

  /** What was opened was opened full, at the rate of a listed key. */
  ghost predicate OpenedFor(keys: seq<(string, real)>, before: map<string, Bucket>, now: map<string, Bucket>) {
    && Opened(before, now)
    && forall n | n in now && n !in before :: exists key :: key in keys && key.0 == n && Runs(now[n], key.1)
  }

  lemma CoveredOnceOpened(keys: seq<(string, real)>, before: map<string, Bucket>, base: map<string, Bucket>)
    requires Covers(before, keys) && OpenedFor(keys, before, base) && forall key | key in keys :: key.0 in base
    ensures Enough(base, keys)
  {
    forall key | key in keys ensures Asked(keys, key.0) as real <= base[key.0].tokens {
      if key.0 !in before {
        var other :| other in keys && other.0 == key.0 && Runs(base[key.0], other.1);
        assert Asked(keys, other.0) as real <= Held(before, other.0, other.1);
      }
    }
  }

  /** Every bucket has its configured rate. */
  ghost predicate Rated(c: Config, buckets: map<string, Bucket>) {
    && (forall t :: "tag:" + t in buckets ==> t in c.tagRates && Runs(buckets["tag:" + t], c.tagRates[t]))
    && (forall v :: "session:" + v in buckets ==> c.sessionRate.Some? && Runs(buckets["session:" + v], c.sessionRate.value))
  }

  lemma RatedOnceOpened(c: Config, keys: seq<(string, real)>, before: map<string, Bucket>, now: map<string, Bucket>)
    requires Rated(c, before) && OpenedFor(keys, before, now) && forall key | key in keys :: IsKey(c, key)
    ensures Rated(c, now)
  {
    forall t | "tag:" + t in now ensures t in c.tagRates && Runs(now["tag:" + t], c.tagRates[t]) {
      if "tag:" + t !in before {
        var key :| key in keys && key.0 == "tag:" + t && Runs(now["tag:" + t], key.1);
        assert IsKey(c, key);
        if u :| u in c.tagRates && key == ("tag:" + u, c.tagRates[u]) {
          TagsApart(t, u);
        } else {
          var v :| c.sessionRate.Some? && key == ("session:" + v, c.sessionRate.value);
          TagsApart(t, v);
          assert false;
        }
      }
    }
    forall v | "session:" + v in now ensures c.sessionRate.Some? && Runs(now["session:" + v], c.sessionRate.value) {
      if "session:" + v !in before {
        var key :| key in keys && key.0 == "session:" + v && Runs(now["session:" + v], key.1);
        assert IsKey(c, key);
        if u :| u in c.tagRates && key == ("tag:" + u, c.tagRates[u]) {
          TagsApart(u, v);
          assert false;
        }
      }
    }
  }

  lemma RatedBase(c: Config, base: map<string, Bucket>, now: map<string, Bucket>, charged: multiset<string>, time: real)
    requires Rated(c, now) && Charged(base, now, charged, time)
    ensures Rated(c, base)
  {
    forall n | n in now ensures now[n].rate == base[n].rate && now[n].capacity == base[n].capacity {
      assert OwesSince(base[n], now[n], charged[n], time);
    }
  }

  lemma RatedOnceCharged(c: Config, base: map<string, Bucket>, now: map<string, Bucket>, charged: multiset<string>, time: real)
    requires Rated(c, base) && Charged(base, now, charged, time)
    ensures Rated(c, now)
  {
    forall n | n in now ensures now[n].rate == base[n].rate && now[n].capacity == base[n].capacity {
      assert OwesSince(base[n], now[n], charged[n], time);
    }
  }

  /** After refilling, every bucket that held enough holds a token. */
  lemma AllAllowed(keys: seq<(string, real)>, base: map<string, Bucket>, now: map<string, Bucket>, time: real)
    requires Enough(base, keys) && Charged(base, now, multiset{}, time)
    ensures forall i | 0 <= i < |keys| :: keys[i].0 in now && now[keys[i].0].tokens >= 1.0
  {
    forall i | 0 <= i < |keys| ensures keys[i].0 in now && now[keys[i].0].tokens >= 1.0 {
      AskedAt(keys, i);
      assert keys[i] in keys;
      assert OwesSince(base[keys[i].0], now[keys[i].0], 0, time);
      OwesAtMost(base[keys[i].0], now[keys[i].0], 0, time);
    }
  }

  /** At least what it held, less what is owed. */
  lemma OwesAtMost(before: Bucket, now: Bucket, owed: nat, time: real)
    requires OwesSince(before, now, owed, time)
    ensures now.tokens >= before.tokens - owed as real
  {
    RefillGains(before, now.updated);
  }

  class FairShare {
    const config: Config
    const clock: MonotonicClock
    var meta: map<string, Dims>
    var buckets: map<string, Bucket>

    constructor (config: Config, clock: MonotonicClock)
      requires RatesOk(config)
      ensures Valid() && this.config == config && this.clock == clock && meta == map[] && buckets == map[]
      ensures Capped(config, meta)
    {
      this.config, this.clock, meta, buckets := config, clock, map[], map[];
    }

    ghost predicate Valid()
      reads this, clock
    {
      RatesOk(config) && Rated(config, buckets) && forall k | k in buckets :: buckets[k].Valid() && buckets[k].updated <= clock.now
    }

    method CheckSlots(d: Dims, peers: Snapshots, strict: bool) returns (ok: bool)
      ensures ok <==> Fits(config, meta, d, peers, strict)
    {
      if !Allows(config, meta, Model, d.model, peers, strict) || !Allows(config, meta, Session, d.session, peers, strict) {
        return false;
      }
      var i := 0;
      while i < |d.tags|
        invariant 0 <= i <= |d.tags|
        invariant forall k | 0 <= k < i :: Allows(config, meta, Tag, d.tags[k], peers, strict)
      {
        if !Allows(config, meta, Tag, d.tags[i], peers, strict) {
          return false;
        }
        i := i + 1;
      }
      return true;
    }

    /** Adding the job and then fitting its limits keeps every cap. */
    lemma FitsKeepsCaps(former: map<string, Dims>, job: string, d: Dims, peers: Snapshots)
      requires Capped(config, former) && meta == former[job := d] && Fits(config, meta, d, peers, false)
      ensures Capped(config, meta)
    {
      forall kind, value | value != "" && Uses(d, kind, value) && LimitOf(config, kind, value).Some?
        ensures |Users(meta, kind, value)| <= LimitOf(config, kind, value).value
      {
        assert Allows(config, meta, kind, value, peers, false);
      }
      ReservingKeepsCaps(config, former, job, d);
    }

    /** `_bucket`: a bucket that does not exist yet starts full. */
    method OpenBuckets(keys: seq<(string, real)>)
      requires Valid() && forall k | k in keys :: k.1 >= 0.0 && IsKey(config, k)
      modifies this`buckets, clock
      ensures Valid() && OpenedFor(keys, old(buckets), buckets)
      ensures forall k | k in keys :: k.0 in buckets
      ensures clock.now >= old(clock.now)
    {
      var i := 0;
      while i < |keys|
        invariant 0 <= i <= |keys| && OpenedFor(keys, old(buckets), buckets)
        invariant forall k | k in buckets :: buckets[k].Valid() && buckets[k].updated <= clock.now
        invariant forall k | 0 <= k < i :: keys[k].0 in buckets
        invariant clock.now >= old(clock.now)
      {
        var (key, rate) := keys[i];
        if key !in buckets {
          var t := clock.Read();
          assert keys[i] in keys && Runs(Full(rate, t), rate);
          buckets := buckets[key := Full(rate, t)];
        }
        i := i + 1;
      }
      RatedOnceOpened(config, keys, old(buckets), buckets);
    }

    /** `any(not b.would_allow() ...)`: refills the buckets it looks at and stops at the first dry one. */
    method AllWouldAllow(keys: seq<(string, real)>, ghost base: map<string, Bucket>) returns (ok: bool)
      requires Charged(base, buckets, multiset{}, clock.now)
      requires forall k | k in keys :: k.0 in buckets
      modifies this`buckets, clock
      ensures Charged(base, buckets, multiset{}, clock.now)
      ensures ok <==> forall i | 0 <= i < |keys| :: keys[i].0 in buckets && buckets[keys[i].0].tokens >= 1.0
    {
      var i := 0;
      while i < |keys|
        invariant 0 <= i <= |keys| && Charged(base, buckets, multiset{}, clock.now)
        invariant forall j | 0 <= j < i :: keys[j].0 in buckets && buckets[keys[j].0].tokens >= 1.0
      {
        var k := keys[i].0;
        assert keys[i] in keys;
        ghost var time, before := clock.now, buckets;
        var t := clock.Read();
        ChargedLater(base, before, multiset{}, time, t);
        OwesSinceRefill(base[k], before[k], 0, time, t);
        ChargedAt(base, before, multiset{}, multiset{}, k, Refill(before[k], t), t);
        RefillGains(before[k], t);
        buckets := buckets[k := Refill(buckets[k], t)];
        if buckets[k].tokens < 1.0 {
          return false;
        }
        i := i + 1;
      }
      return true;
    }

    /** Gives one token back to each listed bucket. */
    method RefundAll(taken: seq<string>, ghost base: map<string, Bucket>)
      requires Charged(base, buckets, multiset(taken), clock.now)
      requires forall k | k in taken :: k in buckets
      modifies this`buckets, clock
      ensures Charged(base, buckets, multiset{}, clock.now)
    {
      var i := 0;
      assert taken[0..] == taken;
      while i < |taken|
        invariant 0 <= i <= |taken| && Charged(base, buckets, multiset(taken[i..]), clock.now)
      {
        var k := taken[i];
        assert taken[i..] == [k] + taken[i + 1..];
        ghost var owed, time, before := multiset(taken[i..]), clock.now, buckets;
        var t := clock.Read();
        ChargedLater(base, before, owed, time, t);
        OwesSinceRefund(base[k], before[k], owed[k], time, t);
        ChargedAt(base, before, owed, multiset(taken[i + 1..]), k, Refund(before[k], t, 1.0), t);
        buckets := buckets[k := Refund(buckets[k], t, 1.0)];
        i := i + 1;
      }
      assert taken[i..] == [];
    }

    /** A bucket that held one token more than is owed gives one. */
    method TakeOne(k: string, ghost base: map<string, Bucket>, ghost owed: multiset<string>) returns (allowed: bool)
      requires Charged(base, buckets, owed, clock.now) && k in buckets
      modifies this`buckets, clock
      ensures Charged(base, buckets, if allowed then owed + multiset{k} else owed, clock.now)
      ensures base[k].tokens >= owed[k] as real + 1.0 ==> allowed
    {
      ghost var time, before := clock.now, buckets;
      var t := clock.Read();
      ChargedLater(base, before, owed, time, t);
      OwesSinceTake(base[k], before[k], owed[k], time, t);
      OwesSinceRefill(base[k], before[k], owed[k], time, t);
      OwesAtMost(base[k], Refill(before[k], t), owed[k], t);
      allowed := Refill(buckets[k], t).tokens >= 1.0;
      ChargedAt(base, before, owed, if allowed then owed + multiset{k} else owed, k, Take(before[k], t), t);
      buckets := buckets[k := Take(buckets[k], t)];
    }

    /** Takes a token from each bucket in turn; on the first failure all tokens taken are refunded. */
    method TakeAll(keys: seq<(string, real)>, ghost base: map<string, Bucket>) returns (ok: bool)
      requires Charged(base, buckets, multiset{}, clock.now)
      requires forall k | k in keys :: k.0 in buckets
      modifies this`buckets, clock
      ensures Charged(base, buckets, if ok then multiset(Names(keys)) else multiset{}, clock.now)
      ensures Enough(base, keys) ==> ok
    {
      var taken: seq<string> := [];
      var i := 0;
      while i < |keys|
        invariant 0 <= i <= |keys| && taken == Names(keys[..i])
        invariant forall k | k in taken :: k in buckets
        invariant Charged(base, buckets, multiset(taken), clock.now)
      {
        AskedAt(keys, i);
        assert keys[i] in keys;
        ok := TakeOne(keys[i].0, base, multiset(taken));
        if !ok {
          RefundAll(taken, base);
          return;
        }
        assert multiset(taken) + multiset{keys[i].0} == multiset(taken + [keys[i].0]);
        taken := taken + [keys[i].0];
        i := i + 1;
      }
      assert keys[..i] == keys;
      ok := true;
    }

    /** Checks all buckets, then charges all of them; `base` is the table once missing buckets are opened. */
    method ReserveRates(keys: seq<(string, real)>) returns (ok: bool, ghost base: map<string, Bucket>)
      requires Valid() && forall k | k in keys :: k.1 >= 0.0 && IsKey(config, k)
      modifies this`buckets, clock
      ensures OpenedFor(keys, old(buckets), base)
      ensures Charged(base, buckets, if ok then multiset(Names(keys)) else multiset{}, clock.now)
      ensures forall k | k in keys :: k.0 in buckets
      // Granted whenever each bucket holds what is asked of it.
      ensures Covers(old(buckets), keys) ==> ok
      ensures !ok ==> OnlyRefilled(old(buckets), buckets)
      ensures Valid()
    {
      OpenBuckets(keys);
      base := buckets;
      forall k | k in base ensures OwesSince(base[k], buckets[k], multiset{}[k], clock.now) {
        OwesSinceNow(base[k], clock.now);
      }
      ok := AllWouldAllow(keys, base);
      if Covers(old(buckets), keys) {
        CoveredOnceOpened(keys, old(buckets), base);
        AllAllowed(keys, base, buckets, clock.now);
      }
      if ok {
        ok := TakeAll(keys, base);
      }
      ghost var charged := if ok then multiset(Names(keys)) else multiset{};
      ChargedIsValid(base, buckets, charged, clock.now);
      RatedOnceCharged(config, base, buckets, charged, clock.now);
      if !ok { NothingCharged(old(buckets), base, buckets, clock.now); }
    }

    /** The rate side of a reservation that is backed out of after all. */
    method UnreserveRates(keys: seq<(string, real)>, ghost former: map<string, Bucket>, ghost base: map<string, Bucket>)
      requires RatesOk(config) && Rated(config, base) && Opened(former, base)
      requires Charged(base, buckets, multiset(Names(keys)), clock.now)
      requires forall k | k in keys :: k.0 in buckets
      modifies this`buckets, clock
      ensures OnlyRefilled(former, buckets) && Valid()
    {
      NamesAreKnown(keys, buckets.Keys);
      RefundAll(Names(keys), base);
      ChargedIsValid(base, buckets, multiset{}, clock.now);
      RatedOnceCharged(config, base, buckets, multiset{}, clock.now);
      NothingCharged(former, base, buckets, clock.now);
    }

    method ReleaseJobReservation(job: string)
      modifies this`meta
      ensures meta == old(meta) - {job}
      ensures Capped(config, old(meta)) ==> Capped(config, meta)
    {
      if Capped(config, meta) { ReleasingKeepsCaps(config, meta, job); }
      meta := meta - {job};
    }

    /**
     * Reserve everything or nothing. `peers` and `peersAgain` are whatever the store says about other workers
     * at each of the counts before and after the reservation; `base` holds the buckets before any charge.
     */
    method TryReserveJob(job: string, d: Dims, peers: Snapshots, peersAgain: Snapshots)
      returns (ok: bool, ghost base: map<string, Bucket>)
      requires Valid()
      modifies this`meta, this`buckets, clock
      // The local caps hold after every call if they held before it.
      ensures Capped(config, old(meta)) ==> Capped(config, meta)
      // It is granted only if its limits hold before and after the job is entered, and then whenever the buckets hold
      // enough, which without a rate they always do.
      ensures ok ==> Fits(config, old(meta), d, peers, true) && Fits(config, old(meta)[job := d], d, peersAgain, false)
      ensures && Fits(config, old(meta), d, peers, true) && Fits(config, old(meta)[job := d], d, peersAgain, false)
              && Affords(config, d, old(buckets))
              ==> ok
      // Success: the job is entered and every bucket it draws on is charged once for each mention.
      ensures ok ==> meta == old(meta)[job := d]
      ensures ok ==> OpenedFor(RateKeys(config, d), old(buckets), base) && Charged(base, buckets, multiset(Names(RateKeys(config, d))), clock.now)
      // Failure: no reservation remains, and every bucket is as if it had only been refilled.
      ensures !ok ==> meta == old(meta) || meta == old(meta) - {job}
      ensures !ok && job !in old(meta) ==> meta == old(meta)
      ensures !ok ==> OnlyRefilled(old(buckets), buckets)
      ensures Valid()
    {
      base := buckets;
      ok := CheckSlots(d, peers, true);
      if !ok {
        NothingTouched(buckets);
        return;
      }
      ok, base := ReserveFitting(job, d, peersAgain);
    }

    /** The part after the first check: the rates are charged, the job is entered, and both are undone if it does not fit. */
    method ReserveFitting(job: string, d: Dims, peersAgain: Snapshots) returns (ok: bool, ghost base: map<string, Bucket>)
      requires Valid()
      modifies this`meta, this`buckets, clock
      ensures Capped(config, old(meta)) ==> Capped(config, meta)
      ensures ok ==> Fits(config, old(meta)[job := d], d, peersAgain, false) && meta == old(meta)[job := d]
      ensures Fits(config, old(meta)[job := d], d, peersAgain, false) && Affords(config, d, old(buckets)) ==> ok
      ensures ok ==> OpenedFor(RateKeys(config, d), old(buckets), base) && Charged(base, buckets, multiset(Names(RateKeys(config, d))), clock.now)
      ensures !ok ==> (meta == old(meta) || meta == old(meta) - {job}) && OnlyRefilled(old(buckets), buckets)
      ensures Valid()
    {
      var keys := RateKeys(config, d);
      TagKeysOk(config, d.tags);
      RateKeysAre(config, d);
      if Affords(config, d, buckets) { AffordsCovers(config, d, buckets); }
      ok, base := ReserveRates(keys);
      if !ok { return; }
      ok := EnterOrBackOut(job, d, peersAgain);
      if !ok {
        RatedBase(config, base, buckets, multiset(Names(keys)), clock.now);
        UnreserveRates(keys, old(buckets), base);
      }
    }

    /** Enters the reservation, and drops it again if a limit turns out to be exceeded now. */
    method EnterOrBackOut(job: string, d: Dims, peers: Snapshots) returns (ok: bool)
      modifies this`meta
      ensures ok <==> Fits(config, old(meta)[job := d], d, peers, false)
      ensures meta == if ok then old(meta)[job := d] else old(meta) - {job}
      ensures Capped(config, old(meta)) ==> Capped(config, meta)
    {
      meta := meta[job := d];
      ok := CheckSlots(d, peers, false);
      if Capped(config, old(meta)) {
        if ok {
          FitsKeepsCaps(old(meta), job, d, peers);
        } else {
          ReleasingKeepsCaps(config, old(meta), job);
        }
      }
      if !ok {
        assert meta - {job} == old(meta) - {job};
        ReleaseJobReservation(job);
      }
    }
  }

  lemma ChargedIsValid(base: map<string, Bucket>, now: map<string, Bucket>, charged: multiset<string>, time: real)
    requires Charged(base, now, charged, time)
    ensures forall k | k in now :: now[k].Valid() && now[k].updated <= time
  {
    forall k | k in now ensures now[k].Valid() && now[k].updated <= time {
      assert OwesSince(base[k], now[k], charged[k], time);
    }
  }

  lemma NothingTouched(buckets: map<string, Bucket>)
    requires forall k | k in buckets :: buckets[k].Valid()
    ensures OnlyRefilled(buckets, buckets)
  {
  }

  // Rates over whole runs.

  /** What one call of `TryReserveJob` did to the buckets, as its contract has it. */
  datatype Call = Call(ok: bool, base: map<string, Bucket>, after: map<string, Bucket>, charged: multiset<string>, time: real)

  ghost predicate Reserves(before: map<string, Bucket>, c: Call) {
    if c.ok then Opened(before, c.base) && Charged(c.base, c.after, c.charged, c.time)
    else OnlyRefilled(before, c.after) && c.charged == multiset{} && forall k | k in c.after :: c.after[k].Valid() && c.after[k].updated <= c.time
  }

  ghost predicate Calls(before: map<string, Bucket>, calls: seq<Call>, t: real)
    decreases |calls|
  {
    calls == [] || (Reserves(before, calls[0]) && calls[0].time <= t && Calls(calls[0].after, calls[1..], t))
  }

  /** How many tokens of `k` the calls have charged, one for each mention by a job that got its reservation. */
  function Charges(calls: seq<Call>, k: string): nat {
    if calls == [] then 0 else calls[0].charged[k] + Charges(calls[1..], k)
  }

  lemma OneCallIsCovered(before: map<string, Bucket>, c: Call, k: string)
    requires Reserves(before, c) && k in before && before[k].Valid()
    ensures k in c.after && c.after[k].Valid() && before[k].updated <= c.after[k].updated <= c.time
    ensures c.after[k].rate == before[k].rate && c.after[k].capacity == before[k].capacity
    ensures c.after[k].tokens + c.charged[k] as real <=
            before[k].tokens + Inflow(before[k].rate, before[k].updated, c.after[k].updated)
  {
    if c.ok {
      assert OwesSince(c.base[k], c.after[k], c.charged[k], c.time);
    } else {
      RefillGains(before[k], c.after[k].updated);
    }
  }

  /**
   * The rate limit of job starts: the jobs that got their reservations since a bucket was last touched drew no more
   * tokens from it than it can hold and what has flowed in since, however many calls failed in between.
   */
  lemma {:induction false} ReservationsAreRateBounded(before: map<string, Bucket>, calls: seq<Call>, k: string, t: real)
    requires k in before && before[k].Valid() && before[k].updated <= t && Calls(before, calls, t)
    ensures Charges(calls, k) as real <= before[k].tokens + Inflow(before[k].rate, before[k].updated, t)
    ensures Charges(calls, k) as real <= before[k].capacity + Inflow(before[k].rate, before[k].updated, t)
    decreases |calls|
  {
    if calls == [] {
      InflowAdds(before[k].rate, before[k].updated, t, t);
    } else {
      OneCallIsCovered(before, calls[0], k);
      var b := calls[0].after[k];
      ReservationsAreRateBounded(calls[0].after, calls[1..], k, t);
      InflowAdds(before[k].rate, before[k].updated, b.updated, t);
    }
  }

  /** In particular the starts of jobs with a rated tag keep to the rate that is configured for it, in bursts of ten seconds' worth. */
  lemma TagRateHolds(c: Config, before: map<string, Bucket>, calls: seq<Call>, tag: string, t: real)
    requires tag in c.tagRates && Rated(c, before) && "tag:" + tag in before
    requires before["tag:" + tag].Valid() && before["tag:" + tag].updated <= t && Calls(before, calls, t)
    ensures var burst := if c.tagRates[tag] > 6.0 then c.tagRates[tag] / 6.0 else 1.0;
            Charges(calls, "tag:" + tag) as real <= burst + Inflow(c.tagRates[tag] / 60.0, before["tag:" + tag].updated, t)
  {
    ReservationsAreRateBounded(before, calls, "tag:" + tag, t);
    assert before["tag:" + tag].rate == c.tagRates[tag] / 60.0;
  }

  /** One call of the object is one such call of a run. */
  method Attempts(share: FairShare, job: string, d: Dims, peers: Snapshots, peersAgain: Snapshots) returns (ok: bool, ghost c: Call)
    requires share.Valid()
    modifies share`meta, share`buckets, share.clock
    ensures share.Valid() && c.ok == ok && c.after == share.buckets && c.time == share.clock.now
    ensures c.charged == if ok then multiset(Names(RateKeys(share.config, d))) else multiset{}
    ensures Reserves(old(share.buckets), c)
  {
    ghost var base;
    ok, base := share.TryReserveJob(job, d, peers, peersAgain);
    c := Call(ok, base, share.buckets, if ok then multiset(Names(RateKeys(share.config, d))) else multiset{}, share.clock.now);
  }
}
