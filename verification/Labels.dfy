/** Labelled groups: a job waits for every earlier-ranked peer of its group that exists. */
module Labels {
  import opened Jobs
  import opened Text

  datatype Peer = Peer(id: string, row: Row)

  datatype LabelVerdict = Ready | Wait | Blocked(peer: string, status: Status)

  /** The position of the first occurrence of `name` in the sequence, if it has one. */
  function Rank(name: string, sequence: seq<string>): (r: Option<nat>)
    ensures r.Some? ==> r.value < |sequence| && sequence[r.value] == name && name != ""
    ensures r.Some? ==> forall i | 0 <= i < r.value :: sequence[i] != name
    ensures r.None? ==> name == "" || name !in sequence
  {
    if name == "" || sequence == [] then None
    else if sequence[0] == name then Some(0)
    else
      var rest := Rank(name, sequence[1..]);
      if rest.Some? then Some(rest.value + 1) else None
  }

  /** The job is in a group, and its label has a rank in the job's own sequence. */
  function OwnRank(request: Request): Option<nat> {
    if request.labelGroup == "" then None else Rank(request.jobLabel, Cleaned(request.labelSequence))
  }

  /** Another job of the same group whose label comes strictly earlier in the job's own sequence. */
  predicate Earlier(request: Request, id: string, peer: Peer) {
    && peer.id != id
    && peer.row.request.labelGroup == request.labelGroup
    && OwnRank(request).Some?
    && var r := Rank(peer.row.request.jobLabel, Cleaned(request.labelSequence));
       r.Some? && r.value < OwnRank(request).value
  }

  predicate Pending(status: Status) {
    status.Queued? || status.Processing?
  }

  /** The test on one peer: another job of the group whose label has an earlier rank. */
  method ComesEarlier(request: Request, rank: nat, sequence: seq<string>, peer: Peer, id: string) returns (r: bool)
    requires OwnRank(request) == Some(rank) && sequence == Cleaned(request.labelSequence)
    ensures r <==> Earlier(request, id, peer)
  {
    if peer.id == id || peer.row.request.labelGroup != request.labelGroup {
      return false;
    }
    var other := Rank(peer.row.request.jobLabel, sequence);
    return other.Some? && other.value < rank;
  }

  /** The loop over the peers: the first dead one decides, and any unfinished one makes the job wait. */
  function Weigh(request: Request, peers: seq<Peer>, id: string, sawUnfinished: bool): LabelVerdict {
    if peers == [] then if sawUnfinished then Wait else Ready
    else
      var peer := peers[0];
      if !Earlier(request, id, peer) then Weigh(request, peers[1..], id, sawUnfinished)
      else if peer.row.status.Dead() then Blocked(peer.id, peer.row.status)
      else Weigh(request, peers[1..], id, sawUnfinished || Pending(peer.row.status))
  }

  lemma {:induction false} WeighMeaning(request: Request, peers: seq<Peer>, id: string, sawUnfinished: bool)
    ensures var v := Weigh(request, peers, id, sawUnfinished);
            && (v.Ready? <==> !sawUnfinished && forall p | p in peers && Earlier(request, id, p) :: p.row.status.Completed?)
            && (v.Blocked? <==> exists p :: p in peers && Earlier(request, id, p) && p.row.status.Dead())
            && (v.Blocked? ==> exists p :: p in peers && Earlier(request, id, p) && p.id == v.peer && p.row.status == v.status)
  {
    if peers != [] {
      var peer, rest := peers[0], peers[1..];
      assert forall p :: p in peers <==> p == peer || p in rest;
      WeighMeaning(request, rest, id, sawUnfinished || (Earlier(request, id, peer) && Pending(peer.row.status)));
    }
  }

  /** A job without a rank, or with the first one, has no earlier peers. */
  lemma NobodyEarlier(request: Request, peers: seq<Peer>, id: string)
    requires OwnRank(request).None? || OwnRank(request).value == 0
    ensures Weigh(request, peers, id, false) == Ready
  {
    WeighMeaning(request, peers, id, false);
  }

  /** The verdict depends on which earlier peers there are, never on the order in which they are listed. */
  method EvalLabelGroup(request: Request, peers: seq<Peer>, id: string) returns (v: LabelVerdict)
    ensures v.Ready? <==> forall p | p in peers && Earlier(request, id, p) :: p.row.status.Completed?
    ensures v.Blocked? <==> exists p :: p in peers && Earlier(request, id, p) && p.row.status.Dead()
    ensures v.Blocked? ==> exists p :: p in peers && Earlier(request, id, p) && p.id == v.peer && p.row.status == v.status
  {
    v := WeighPeers(request, peers, id);
    WeighMeaning(request, peers, id, false);
  }

  method WeighPeers(request: Request, peers: seq<Peer>, id: string) returns (v: LabelVerdict)
    ensures v == Weigh(request, peers, id, false)
  {
    var rank := OwnRank(request);
    if rank.None? || rank.value == 0 {
      NobodyEarlier(request, peers, id);
      return Ready;
    }
    var sequence := Cleaned(request.labelSequence);
    var sawUnfinished := false;
    var i := 0;
    assert peers[0..] == peers;
    while i < |peers|
      invariant 0 <= i <= |peers|
      invariant Weigh(request, peers, id, false) == Weigh(request, peers[i..], id, sawUnfinished)
    {
      var status := peers[i].row.status;
      assert peers[i..][0] == peers[i] && peers[i..][1..] == peers[i + 1..];
      var earlier := ComesEarlier(request, rank.value, sequence, peers[i], id);
      if earlier {
        if status.Failed? || status.Cancelled? {
          return Blocked(peers[i].id, status);
        }
        if status.Queued? || status.Processing? {
          sawUnfinished := true;
        }
      }
      i := i + 1;
    }
    return if sawUnfinished then Wait else Ready;
  }

  /** Every earlier-ranked peer in the table is COMPLETED. */
  ghost predicate LabelReady(rows: Rows, request: Request, id: string) {
    forall p | p in rows && Earlier(request, id, Peer(p, rows[p])) :: rows[p].status.Completed?
  }

  ghost predicate LabelLost(rows: Rows, request: Request, id: string) {
    exists p :: p in rows && Earlier(request, id, Peer(p, rows[p])) && rows[p].status.Dead()
  }

  /** The peers are the rows of the group, all of them. */
  ghost predicate ListsGroup(rows: Rows, group: string, peers: seq<Peer>) {
    && (forall p | p in peers :: p.id in rows && p.row == rows[p.id])
    && forall p | p in rows && rows[p].request.labelGroup == group :: Peer(p, rows[p]) in peers
  }

  /** The label gate, asked with the listing of the whole group; a listing that raises (`None`) opens it. */
  method EvalLabelSequence(request: Request, listing: Option<seq<Peer>>, id: string, ghost rows: Rows) returns (v: LabelVerdict)
    requires listing.Some? ==> ListsGroup(rows, request.labelGroup, listing.value)
    ensures v.Ready? <==> (listing.None? || LabelReady(rows, request, id))
    ensures v.Blocked? <==> (listing.Some? && LabelLost(rows, request, id))
  {
    if request.labelGroup == "" || listing.None? {
      return Ready;
    }
    v := EvalLabelGroup(request, listing.value, id);
    assert forall p | p in rows && Earlier(request, id, Peer(p, rows[p])) :: Peer(p, rows[p]) in listing.value;
    assert forall p | p in listing.value :: p == Peer(p.id, rows[p.id]);
  }

  /**
   * A group whose jobs share one sequence never deadlocks: with nothing PROCESSING, some QUEUED job of the
   * group is not told to wait. The search follows earlier and earlier ranks.
   */
  lemma {:induction false} GroupNeverDeadlocks(rows: Rows, group: string, id: string) returns (next: string)
    requires id in rows && rows[id].request.labelGroup == group && rows[id].status.Queued?
    requires forall p | p in rows && rows[p].request.labelGroup == group :: !rows[p].status.Processing?
    requires forall p | p in rows && rows[p].request.labelGroup == group ::
               rows[p].request.labelSequence == rows[id].request.labelSequence
    ensures next in rows && rows[next].request.labelGroup == group && rows[next].status.Queued?
    ensures LabelReady(rows, rows[next].request, next) || LabelLost(rows, rows[next].request, next)
    decreases if OwnRank(rows[id].request).Some? then OwnRank(rows[id].request).value else 0
  {
    if LabelReady(rows, rows[id].request, id) || LabelLost(rows, rows[id].request, id) {
      return id;
    }
    var p :| p in rows && Earlier(rows[id].request, id, Peer(p, rows[p])) && !rows[p].status.Completed?;
    next := GroupNeverDeadlocks(rows, group, p);
  }

  /** In a group ranked `first`, `second` a job with the first label comes before one with the second. */
  lemma FirstIsEarlier(request: Request, id: string, peer: Peer)
    requires request.labelGroup == peer.row.request.labelGroup != "" && peer.id != id
    requires request.labelSequence == ["first", "second"] && request.jobLabel == "second" && peer.row.request.jobLabel == "first"
    ensures Earlier(request, id, peer)
  {
    StripProjects("first");
    StripProjects("second");
    assert ["first", "second"][1..] == ["second"];
    assert Cleaned(["second"]) == ["second"];
    assert Cleaned(["first", "second"]) == ["first", "second"];
    assert Rank("second", ["first", "second"][1..]) == Some(0);
  }
}
