/**
 * Computational helpers of the cluster coordinator: turning communication
 * failures into error codes, placing shards on database servers round-robin,
 * scattering documents onto shards and merging the shards' answers back into
 * request order, filtering the headers forwarded to a shard, and telling
 * whether an update changes a document's shard keys.
 */
module ClusterHelpers {
  import opened Wrappers
  import opened Bytes
  import opened Json
  import opened ErrorCodes
  import opened Decimal

  // ---------------------------------------------------------------------
  // handleGeneralCommErrors
  // ---------------------------------------------------------------------

  /** The states of a cluster request (`CL_COMM_*`). */
  datatype CommStatus = Submitted | Sending | Sent | Timeout | Received | CommError | Dropped | BackendUnavailable

  /** The response a request holds: none (`nullptr`), an incomplete one, or a complete one. */
  datatype CommResponse = NoResponse | IncompleteResponse | CompleteResponse

  /**
   * `handleGeneralCommErrors`: only transport failures become errors; a
   * backend reported unavailable counts as a lost connection unless a
   * complete response came back.
   */
  function HandleGeneralCommErrors(status: CommStatus, response: CommResponse): (r: ErrorCode)
    ensures r in {NoError, ClusterTimeout, ClusterConnectionLost, ClusterBackendUnavailable}
    ensures r == NoError <==> !status.Timeout? && !status.CommError? && !status.BackendUnavailable?
    ensures r == ClusterTimeout <==> status.Timeout?
    ensures r == ClusterBackendUnavailable <==> status.BackendUnavailable? && response.CompleteResponse?
  {
    match status
    case Timeout => ClusterTimeout
    case CommError => ClusterConnectionLost
    case BackendUnavailable =>
      if response.NoResponse? then ClusterConnectionLost
      else if response.IncompleteResponse? then ClusterConnectionLost
      else ClusterBackendUnavailable
    case _ => NoError
  }

  // ---------------------------------------------------------------------
  // DistributeShardsEvenly
  // ---------------------------------------------------------------------

  /** No server id occurs twice. */
  predicate Distinct(servers: seq<string>)
  {
    forall a, b :: 0 <= a < b < |servers| ==> servers[a] != servers[b]
  }

  /** The id of the `i`-th new shard: `"s" + itoa(id + i)`, the sum taken as a uint64. */
  function ShardId(id: nat, i: nat): (r: string)
    ensures |r| >= 2 && r[0] == 's'
  {
    "s" + Itoa((id + i) % UINT64_LIMIT)
  }

  /** The shards created in one call get different ids. */
  lemma ShardIdInjective(id: nat, i: nat, k: nat)
    requires id < UINT64_LIMIT && i < UINT64_LIMIT && k < UINT64_LIMIT
    requires ShardId(id, i) == ShardId(id, k)
    ensures i == k
  {
    assert ShardId(id, i)[1..] == Itoa((id + i) % UINT64_LIMIT);
    assert ShardId(id, k)[1..] == Itoa((id + k) % UINT64_LIMIT);
    ItoaInjective((id + i) % UINT64_LIMIT, (id + k) % UINT64_LIMIT);
    assert (id + i) % UINT64_LIMIT == if id + i < UINT64_LIMIT then id + i else id + i - UINT64_LIMIT;
    assert (id + k) % UINT64_LIMIT == if id + k < UINT64_LIMIT then id + k else id + k - UINT64_LIMIT;
  }

  /** A replication factor of 0 means one copy on every server. */
  function EffectiveReplication(replicationFactor: nat, servers: nat): nat
  {
    if replicationFactor == 0 then servers else replicationFactor
  }

  /**
   * The servers of shard `i`: `count` of them, led by the `i`-th server
   * round-robin, followed by the servers the shared follower cursor yields
   * for this shard, every one a known server and no follower the leader.
   */
  predicate Placement(servers: seq<string>, count: nat, i: nat, ids: seq<string>)
    requires |servers| > 0
  {
    && |ids| == count
    && (count > 0 ==> ids[0] == servers[i % |servers|])
    && (count > 0 ==> TakesFollowers(servers, i % |servers|, FollowerCursor(|servers|, count - 1, i), ids))
    && (forall k :: 0 <= k < |ids| ==> ids[k] in servers)
    && (forall k :: 1 <= k < |ids| ==> ids[k] != ids[0])
    && Distinct(ids)
  }

  /** A cursor position `x` on a ring of `n` servers, one wrap-around at most. */
  function Wrap(x: nat, n: nat): (r: nat)
    requires x < 2 * n
    ensures r < n && (r == x || r == x - n)
  {
    if x >= n then x - n else x
  }

  /** The position the follower cursor at `cursor` yields: itself, or the next one when it is the leader's. */
  function FollowerPosition(n: nat, leaderIndex: nat, cursor: nat): (r: nat)
    requires leaderIndex < n && cursor < n
    ensures r < n
    ensures n >= 2 ==> r != leaderIndex
    ensures n >= 2 ==> (r == cursor <==> cursor != leaderIndex)
  {
    if cursor == leaderIndex then Wrap(cursor + 1, n) else cursor
  }

  /**
   * The positions of `count` followers taken one after the other by the
   * follower cursor from `start`, and where the cursor is left: each one
   * the cursor's position, skipping the leader's, and the cursor just past it.
   */
  function FollowerRun(n: nat, leaderIndex: nat, start: nat, count: nat): (r: (seq<nat>, nat))
    requires leaderIndex < n && start < n
    ensures |r.0| == count && r.1 < n
    ensures count == 0 ==> r.1 == start
    ensures count > 0 ==> r.0[count - 1] < n && r.1 == Wrap(r.0[count - 1] + 1, n)
    decreases count
  {
    if count == 0 then ([], start)
    else
      var before := FollowerRun(n, leaderIndex, start, count - 1);
      var p := FollowerPosition(n, leaderIndex, before.1);
      (before.0 + [p], Wrap(p + 1, n))
  }

  /** Every position of a run is a server's, and none the leader's once there are two servers. */
  lemma {:induction false} FollowerRunPositions(n: nat, leaderIndex: nat, start: nat, count: nat)
    requires leaderIndex < n && start < n
    ensures forall k :: 0 <= k < count ==> FollowerRun(n, leaderIndex, start, count).0[k] < n
    ensures n >= 2 ==> forall k :: 0 <= k < count ==> FollowerRun(n, leaderIndex, start, count).0[k] != leaderIndex
    decreases count
  {
    if count > 0 {
      FollowerRunPositions(n, leaderIndex, start, count - 1);
      var before := FollowerRun(n, leaderIndex, start, count - 1);
      var r := FollowerRun(n, leaderIndex, start, count);
      var p := FollowerPosition(n, leaderIndex, before.1);
      assert r.0 == before.0 + [p];
      forall k | 0 <= k < count
        ensures r.0[k] < n && (n >= 2 ==> r.0[k] != leaderIndex)
      {
        if k < count - 1 {
          assert r.0[k] == before.0[k];
        } else {
          assert r.0[k] == p;
        }
      }
    }
  }

  /**
   * The follower cursor before shard `i` when every shard has `followers`
   * followers: it starts at 0, and each shard's followers move it on, the
   * leader of shard `k` being server `k mod n`.
   */
  function FollowerCursor(n: nat, followers: nat, i: nat): (r: nat)
    requires n > 0
    ensures r < n
    ensures i == 0 ==> r == 0
    decreases i
  {
    if i == 0 then 0
    else FollowerRun(n, (i - 1) % n, FollowerCursor(n, followers, i - 1), followers).1
  }

  /** The servers of a shard are determined: leader and followers alike. */
  lemma PlacementDetermined(servers: seq<string>, count: nat, i: nat, a: seq<string>, b: seq<string>)
    requires |servers| > 0 && Placement(servers, count, i, a) && Placement(servers, count, i, b)
    ensures a == b
  {
    if count > 0 {
      var run := FollowerRun(|servers|, i % |servers|, FollowerCursor(|servers|, count - 1, i), count - 1);
      forall k | 0 <= k < count
        ensures a[k] == b[k]
      {
        if k > 0 {
          assert a[k] == servers[run.0[k - 1]] == b[k];
        }
      }
    }
  }

  /** The cursor after shard `i` is where that shard's followers leave it. */
  lemma FollowerCursorStep(n: nat, followers: nat, i: nat)
    requires n > 0
    ensures FollowerCursor(n, followers, i + 1) == FollowerRun(n, i % n, FollowerCursor(n, followers, i), followers).1
  {
    assert (i + 1) - 1 == i;
  }

  /** The followers of `ids` are the servers the follower cursor yields from `start`. */
  predicate TakesFollowers(servers: seq<string>, leaderIndex: nat, start: nat, ids: seq<string>)
    requires leaderIndex < |servers| && start < |servers| && |ids| > 0
  {
    TakenAt(servers, FollowerRun(|servers|, leaderIndex, start, |ids| - 1).0, ids)
  }

  /** The followers of `ids` are the servers at `positions`, in order. */
  predicate TakenAt(servers: seq<string>, positions: seq<nat>, ids: seq<string>)
  {
    && |ids| == |positions| + 1
    && (forall k :: 0 <= k < |positions| ==> positions[k] < |servers|)
    && (forall k :: 1 <= k < |ids| ==> ids[k] == servers[positions[k - 1]])
  }

  /** One more follower appends the cursor's next position to the run and moves the cursor past it. */
  lemma FollowerRunSnoc(n: nat, leaderIndex: nat, start: nat, count: nat)
    requires leaderIndex < n && start < n
    ensures var before := FollowerRun(n, leaderIndex, start, count);
      var p := FollowerPosition(n, leaderIndex, before.1);
      FollowerRun(n, leaderIndex, start, count + 1) == (before.0 + [p], Wrap(p + 1, n))
  {
    assert (count + 1) - 1 == count;
  }

  /** Servers taken at positions `positions` stay so when one more is taken at `p`. */
  lemma TakenAtSnoc(servers: seq<string>, positions: seq<nat>, ids: seq<string>, p: nat)
    requires TakenAt(servers, positions, ids) && p < |servers|
    ensures TakenAt(servers, positions + [p], ids + [servers[p]])
  {
    var ids' := ids + [servers[p]];
    var positions' := positions + [p];
    forall k | 1 <= k < |ids'|
      ensures ids'[k] == servers[positions'[k - 1]]
    {
      if k < |ids| {
        assert ids'[k] == ids[k] == servers[positions[k - 1]];
        assert positions'[k - 1] == positions[k - 1];
      } else {
        assert positions'[k - 1] == p;
      }
    }
  }

  /** Taking one more follower extends the run by the cursor's next position. */
  lemma TakesFollowersStep(servers: seq<string>, leaderIndex: nat, start: nat, ids: seq<string>, cursor: nat)
    requires leaderIndex < |servers| && start < |servers| && |ids| > 0
    requires TakesFollowers(servers, leaderIndex, start, ids)
    requires cursor == FollowerRun(|servers|, leaderIndex, start, |ids| - 1).1
    ensures var p := FollowerPosition(|servers|, leaderIndex, cursor);
      && TakesFollowers(servers, leaderIndex, start, ids + [servers[p]])
      && FollowerRun(|servers|, leaderIndex, start, |ids|).1 == Wrap(p + 1, |servers|)
  {
    var n := |servers|;
    var m := |ids| - 1;
    var p := FollowerPosition(n, leaderIndex, cursor);
    var before := FollowerRun(n, leaderIndex, start, m);
    FollowerRunSnoc(n, leaderIndex, start, m);
    TakenAtSnoc(servers, before.0, ids, p);
    assert |ids + [servers[p]]| - 1 == m + 1;
  }

  /**
   * The do/while of the source that picks a follower: servers are taken
   * from the follower cursor, which wraps around, until one differs from
   * the leader. With distinct servers and at least two of them the cursor
   * moves once, or twice when it first meets the leader.
   */
  method PickFollower(servers: seq<string>, leaderIndex: nat, followerIndex: nat)
    returns (candidate: string, nextFollower: nat)
    requires Distinct(servers) && 2 <= |servers|
    requires leaderIndex < |servers| && followerIndex < |servers|
    ensures candidate in servers && candidate != servers[leaderIndex] && nextFollower < |servers|
    ensures followerIndex != leaderIndex ==>
      candidate == servers[followerIndex] && nextFollower == Wrap(followerIndex + 1, |servers|)
    ensures followerIndex == leaderIndex ==>
      var second := Wrap(followerIndex + 1, |servers|);
      candidate == servers[second] && nextFollower == Wrap(second + 1, |servers|)
  {
    var n := |servers|;
    candidate := servers[followerIndex];
    nextFollower := followerIndex + 1;
    if nextFollower >= n {
      nextFollower := 0;
    }
    while candidate == servers[leaderIndex]
      invariant nextFollower < n
      invariant || (candidate == servers[followerIndex] && nextFollower == Wrap(followerIndex + 1, n))
                || (&& followerIndex == leaderIndex
                    && candidate == servers[Wrap(followerIndex + 1, n)]
                    && candidate != servers[leaderIndex]
                    && nextFollower == Wrap(Wrap(followerIndex + 1, n) + 1, n))
      decreases if candidate == servers[leaderIndex] then 1 else 0
    {
      assert followerIndex == leaderIndex;
      candidate := servers[nextFollower];
      nextFollower := nextFollower + 1;
      if nextFollower >= n {
        nextFollower := 0;
      }
    }
  }

  /**
   * `PickFollower` seen from where the follower cursor started this shard:
   * the follower taken sits at the next offset not the leader's.
   */
  method NextFollower(servers: seq<string>, leaderIndex: nat, start: nat, ghost leaderOffset: nat,
                      ghost moved: nat, cursor: nat)
    returns (candidate: string, nextCursor: nat, ghost offset: nat, ghost nowMoved: nat)
    requires Distinct(servers) && 2 <= |servers| && leaderIndex < |servers| && start < |servers|
    requires leaderOffset < |servers| && Wrap(start + leaderOffset, |servers|) == leaderIndex
    requires moved < |servers| && cursor == Wrap(start + moved, |servers|)
    requires moved == leaderOffset ==> moved + 1 < |servers|
    ensures offset == (if moved == leaderOffset then moved + 1 else moved) && offset != leaderOffset
    ensures nowMoved == offset + 1 && nowMoved <= |servers|
    ensures candidate == servers[Wrap(start + offset, |servers|)]
    ensures nextCursor == Wrap(start + nowMoved, |servers|)
    ensures var p := FollowerPosition(|servers|, leaderIndex, cursor);
      candidate == servers[p] && nextCursor == Wrap(p + 1, |servers|)
  {
    candidate, nextCursor := PickFollower(servers, leaderIndex, cursor);
    if moved == leaderOffset {
      offset, nowMoved := moved + 1, moved + 2;
    } else {
      offset, nowMoved := moved, moved + 1;
    }
  }

  /**
   * One shard's turn of the inner loop of `DistributeShardsEvenly`: the
   * leader from the leader cursor, then followers from the follower cursor,
   * never more replicas than servers. The followers are the positions the
   * follower cursor yields from where it started, skipping the leader's,
   * and the cursor is left just past the last of them. They sit at
   * increasing offsets from the cursor's start and never a full turn around
   * the ring: so no server is used twice.
   */
  method PickServers(servers: seq<string>, replicationFactor: nat, leaderIndex: nat, followerIndex: nat)
    returns (ids: seq<string>, nextLeader: nat, nextFollower: nat)
    requires Distinct(servers) && leaderIndex < |servers| && followerIndex < |servers|
    requires replicationFactor >= 1
    ensures |ids| == Min(replicationFactor, |servers|)
    ensures ids[0] == servers[leaderIndex]
    ensures forall k :: 0 <= k < |ids| ==> ids[k] in servers
    ensures forall k :: 1 <= k < |ids| ==> ids[k] != ids[0]
    ensures Distinct(ids)
    ensures nextLeader == (if leaderIndex + 1 >= |servers| then 0 else leaderIndex + 1)
    ensures TakesFollowers(servers, leaderIndex, followerIndex, ids)
    ensures nextFollower == FollowerRun(|servers|, leaderIndex, followerIndex, |ids| - 1).1
  {
    var n := |servers|;
    // the offset of the leader from where the follower cursor starts
    ghost var leaderOffset: nat := if leaderIndex >= followerIndex then leaderIndex - followerIndex
                                   else leaderIndex + n - followerIndex;
    assert Wrap(followerIndex + leaderOffset, n) == leaderIndex;
    // the offsets of the followers picked so far, and how far the cursor moved
    ghost var offsets: seq<nat> := [];
    ghost var moved: nat := 0;
    ids := [];
    nextLeader, nextFollower := leaderIndex, followerIndex;
    var j := 0;
    while j < replicationFactor
      invariant j <= n && j <= replicationFactor && |ids| == j
      invariant j == 0 ==> nextLeader == leaderIndex && nextFollower == followerIndex && offsets == [] && moved == 0
      invariant j > 0 ==> nextLeader == (if leaderIndex + 1 >= n then 0 else leaderIndex + 1)
      invariant j > 0 ==> Picked(servers, leaderIndex, followerIndex, leaderOffset, offsets, moved, ids, nextFollower)
    {
      if j >= n {
        break;
      }
      if |ids| == 0 {
        var candidate := servers[nextLeader];
        nextLeader := nextLeader + 1;
        if nextLeader >= n {
          nextLeader := 0;
        }
        ids := [candidate];
      } else {
        ids, nextFollower, offsets, moved :=
          TakeFollower(servers, leaderIndex, followerIndex, leaderOffset, offsets, moved, ids, nextFollower);
      }
      j := j + 1;
    }
    FollowersDistinct(servers, leaderIndex, followerIndex, leaderOffset, offsets, moved, ids);
  }

  /** What the servers picked so far satisfy, the leader first. */
  ghost predicate Picked(servers: seq<string>, leaderIndex: nat, start: nat, leaderOffset: nat,
                         offsets: seq<nat>, moved: nat, ids: seq<string>, cursor: nat)
    requires leaderIndex < |servers| && start < |servers|
  {
    && |ids| > 0 && ids[0] == servers[leaderIndex]
    && Tracked(servers, start, leaderOffset, offsets, moved, ids)
    && cursor == Wrap(start + moved, |servers|)
    && (forall k :: 0 <= k < |ids| ==> ids[k] in servers)
    && TakesFollowers(servers, leaderIndex, start, ids)
    && cursor == FollowerRun(|servers|, leaderIndex, start, |ids| - 1).1
  }

  /** One turn of the loop past the leader: the follower taken at the cursor. */
  method TakeFollower(servers: seq<string>, leaderIndex: nat, start: nat, ghost leaderOffset: nat,
                      ghost offsets: seq<nat>, ghost moved: nat, ids: seq<string>, cursor: nat)
    returns (ids': seq<string>, cursor': nat, ghost offsets': seq<nat>, ghost moved': nat)
    requires Distinct(servers) && leaderIndex < |servers| && start < |servers| && |ids| < |servers|
    requires leaderOffset < |servers| && Wrap(start + leaderOffset, |servers|) == leaderIndex
    requires Picked(servers, leaderIndex, start, leaderOffset, offsets, moved, ids, cursor)
    ensures |ids'| == |ids| + 1 && ids'[..|ids|] == ids
    ensures Picked(servers, leaderIndex, start, leaderOffset, offsets', moved', ids', cursor')
  {
    var candidate;
    ghost var offset, nowMoved;
    candidate, cursor', offset, nowMoved := NextFollower(servers, leaderIndex, start, leaderOffset, moved, cursor);
    TrackedStep(servers, start, leaderOffset, offsets, moved, ids, offset, nowMoved, candidate);
    TakesFollowersStep(servers, leaderIndex, start, ids, cursor);
    ids' := ids + [candidate];
    offsets', moved' := offsets + [offset], nowMoved;
  }

  /**
   * The followers of `ids` were taken at increasing offsets from the
   * follower cursor's start, none at the leader's offset, and the cursor has
   * moved once per follower plus once more if it passed the leader.
   */
  ghost predicate Tracked(servers: seq<string>, start: nat, leaderOffset: nat, offsets: seq<nat>, moved: nat,
                          ids: seq<string>)
    requires start < |servers|
  {
    && |ids| == |offsets| + 1
    && moved <= |servers|
    && moved == |offsets| + (if leaderOffset < moved then 1 else 0)
    && (forall k :: 0 <= k < |offsets| ==>
         && offsets[k] < moved && offsets[k] != leaderOffset
         && ids[k + 1] == servers[Wrap(start + offsets[k], |servers|)])
    && (forall a, b :: 0 <= a < b < |offsets| ==> offsets[a] < offsets[b])
  }

  lemma TrackedStep(servers: seq<string>, start: nat, leaderOffset: nat, offsets: seq<nat>, moved: nat,
                    ids: seq<string>, offset: nat, nowMoved: nat, candidate: string)
    requires start < |servers| && Tracked(servers, start, leaderOffset, offsets, moved, ids)
    requires offset == (if moved == leaderOffset then moved + 1 else moved) && offset != leaderOffset
    requires nowMoved == offset + 1 && nowMoved <= |servers|
    requires candidate == servers[Wrap(start + offset, |servers|)]
    ensures Tracked(servers, start, leaderOffset, offsets + [offset], nowMoved, ids + [candidate])
  {
    var offsets', ids' := offsets + [offset], ids + [candidate];
    forall k | 0 <= k < |offsets'|
      ensures offsets'[k] < nowMoved && offsets'[k] != leaderOffset
      ensures ids'[k + 1] == servers[Wrap(start + offsets'[k], |servers|)]
    {
      if k < |offsets| {
        assert offsets'[k] == offsets[k] && ids'[k + 1] == ids[k + 1];
      }
    }
  }

  /** Followers at distinct offsets short of a full turn, none at the leader's, are distinct servers. */
  lemma FollowersDistinct(servers: seq<string>, leaderIndex: nat, start: nat, leaderOffset: nat,
                          offsets: seq<nat>, moved: nat, ids: seq<string>)
    requires Distinct(servers) && leaderIndex < |servers| && start < |servers|
    requires leaderOffset < |servers| && Wrap(start + leaderOffset, |servers|) == leaderIndex
    requires Tracked(servers, start, leaderOffset, offsets, moved, ids) && ids[0] == servers[leaderIndex]
    ensures Distinct(ids)
    ensures forall k :: 1 <= k < |ids| ==> ids[k] != ids[0]
  {
    var n := |servers|;
    forall a, b | 0 <= a < b < |ids|
      ensures ids[a] != ids[b]
    {
      var pb := Wrap(start + offsets[b - 1], n);
      if a == 0 {
        assert pb != leaderIndex;
      } else {
        var pa := Wrap(start + offsets[a - 1], n);
        assert offsets[a - 1] < offsets[b - 1];
        assert pa != pb;
      }
    }
  }

  lemma {:induction false} MulAtLeast(d: nat, n: nat)
    requires d >= 1
    ensures d * n >= n
    decreases d
  {
    if d > 1 {
      MulAtLeast(d - 1, n);
      assert d * n == (d - 1) * n + n;
    }
  }

  lemma ModUnique(a: int, n: int, q: int, r: int)
    requires n > 0 && a >= 0 && a == q * n + r && 0 <= r < n
    ensures a % n == r
  {
    var q0, r0 := a / n, a % n;
    assert a == q0 * n + r0;
    assert (q - q0) * n == r0 - r;
    if q > q0 {
      MulAtLeast(q - q0, n);
    } else if q < q0 {
      assert (q0 - q) * n == r - r0;
      MulAtLeast(q0 - q, n);
    }
  }

  /** Advancing a wrapping cursor from `i mod n` gives `(i + 1) mod n`. */
  lemma ModSuccessor(i: nat, n: nat)
    requires n > 0
    ensures (i % n + 1) % n == (i + 1) % n
    ensures (if i % n + 1 >= n then 0 else i % n + 1) == (i + 1) % n
  {
    var q := i / n;
    assert i == q * n + i % n;
    if i % n + 1 < n {
      ModUnique(i + 1, n, q, i % n + 1);
      ModUnique(i % n + 1, n, 0, i % n + 1);
    } else {
      assert i + 1 == (q + 1) * n + 0;
      ModUnique(i + 1, n, q + 1, 0);
      ModUnique(n, n, 1, 0);
    }
  }

  /**
   * `DistributeShardsEvenly` on a given server list (already fetched and
   * shuffled) and a given unique id: an empty server list gives no shards;
   * otherwise every shard `i < numberOfShards` gets the id
   * `ShardId(id, i)` and `min(replicationFactor, n)` servers (all of them
   * for a factor of 0), led by server `i mod n`, with no follower equal to
   * the leader, and no other shards are made.
   */
  method DistributeShardsEvenly(numberOfShards: nat, replicationFactor: nat, dbServers: seq<string>, id: nat)
    returns (shards: map<string, seq<string>>)
    requires numberOfShards < UINT64_LIMIT && id < UINT64_LIMIT
    requires Distinct(dbServers)
    ensures dbServers == [] ==> shards == map[]
    ensures dbServers != [] ==> forall i :: 0 <= i < numberOfShards ==>
      && ShardId(id, i) in shards
      && Placement(dbServers, Min(EffectiveReplication(replicationFactor, |dbServers|), |dbServers|), i, shards[ShardId(id, i)])
    ensures forall s :: s in shards ==> exists i :: 0 <= i < numberOfShards && s == ShardId(id, i)
  {
    shards := map[];
    var n := |dbServers|;
    if n == 0 {
      return;
    }
    var rf := replicationFactor;
    if rf == 0 {
      rf := n;
    }
    var leaderIndex: nat, followerIndex: nat := 0, 0;
    var i := 0;
    while i < numberOfShards
      invariant i <= numberOfShards
      invariant leaderIndex == i % n && followerIndex == FollowerCursor(n, Min(rf, n) - 1, i)
      invariant AllPlaced(shards, dbServers, Min(rf, n), id, i)
      invariant OnlyShardsBelow(shards, id, i)
    {
      shards, leaderIndex, followerIndex := PlaceNextShard(dbServers, rf, id, i, shards, leaderIndex, followerIndex);
      i := i + 1;
    }
  }

  /** One turn of the outer loop: shard `i` gets its servers and is stored under its id. */
  method PlaceNextShard(servers: seq<string>, rf: nat, id: nat, i: nat, shards: map<string, seq<string>>,
                        leaderIndex: nat, followerIndex: nat)
    returns (shards': map<string, seq<string>>, leaderIndex': nat, followerIndex': nat)
    requires Distinct(servers) && |servers| > 0 && rf >= 1 && id < UINT64_LIMIT && i < UINT64_LIMIT
    requires leaderIndex == i % |servers| && followerIndex == FollowerCursor(|servers|, Min(rf, |servers|) - 1, i)
    requires AllPlaced(shards, servers, Min(rf, |servers|), id, i) && OnlyShardsBelow(shards, id, i)
    ensures leaderIndex' == (i + 1) % |servers|
    ensures followerIndex' == FollowerCursor(|servers|, Min(rf, |servers|) - 1, i + 1)
    ensures AllPlaced(shards', servers, Min(rf, |servers|), id, i + 1) && OnlyShardsBelow(shards', id, i + 1)
  {
    var serverIds;
    serverIds, leaderIndex', followerIndex' := PickShardServers(servers, rf, i, leaderIndex, followerIndex);
    var shardId := ShardId(id, i);
    PlaceShard(shards, servers, Min(rf, |servers|), id, i, serverIds);
    shards' := shards;
    if shardId !in shards {
      shards' := shards[shardId := serverIds];
    }
  }

  /** The servers of shard `i`, picked from the cursors it expects, and the cursors shard `i + 1` expects. */
  method PickShardServers(servers: seq<string>, rf: nat, i: nat, leaderIndex: nat, followerIndex: nat)
    returns (serverIds: seq<string>, leaderIndex': nat, followerIndex': nat)
    requires Distinct(servers) && |servers| > 0 && rf >= 1
    requires leaderIndex == i % |servers| && followerIndex == FollowerCursor(|servers|, Min(rf, |servers|) - 1, i)
    ensures Placement(servers, Min(rf, |servers|), i, serverIds)
    ensures leaderIndex' == (i + 1) % |servers|
    ensures followerIndex' == FollowerCursor(|servers|, Min(rf, |servers|) - 1, i + 1)
  {
    serverIds, leaderIndex', followerIndex' := PickServers(servers, rf, leaderIndex, followerIndex);
    PickedPlacement(servers, Min(rf, |servers|), i, leaderIndex, followerIndex, serverIds, leaderIndex', followerIndex');
  }

  /** The servers picked for shard `i` from the cursors it expects are its placement, and the cursor moves on to shard `i + 1`. */
  lemma PickedPlacement(servers: seq<string>, count: nat, i: nat, leaderIndex: nat, start: nat, ids: seq<string>,
                        nextLeader: nat, next: nat)
    requires |servers| > 0 && 1 <= count
    requires leaderIndex == i % |servers| && start == FollowerCursor(|servers|, count - 1, i)
    requires |ids| == count && ids[0] == servers[leaderIndex]
    requires forall k :: 0 <= k < |ids| ==> ids[k] in servers
    requires forall k :: 1 <= k < |ids| ==> ids[k] != ids[0]
    requires Distinct(ids)
    requires TakesFollowers(servers, leaderIndex, start, ids)
    requires nextLeader == (if leaderIndex + 1 >= |servers| then 0 else leaderIndex + 1)
    requires next == FollowerRun(|servers|, leaderIndex, start, |ids| - 1).1
    ensures Placement(servers, count, i, ids)
    ensures nextLeader == (i + 1) % |servers|
    ensures next == FollowerCursor(|servers|, count - 1, i + 1)
  {
    ModSuccessor(i, |servers|);
    FollowerCursorStep(|servers|, count - 1, i);
  }

  /** Shards `0 .. count - 1` are in the map, each placed as promised. */
  ghost predicate AllPlaced(shards: map<string, seq<string>>, servers: seq<string>, replicas: nat, id: nat, count: nat)
    requires |servers| > 0
  {
    forall k :: 0 <= k < count ==> ShardId(id, k) in shards && Placement(servers, replicas, k, shards[ShardId(id, k)])
  }

  /** The map holds no shard but those numbered below `count`. */
  ghost predicate OnlyShardsBelow(shards: map<string, seq<string>>, id: nat, count: nat)
  {
    forall s :: s in shards ==> exists k :: 0 <= k < count && s == ShardId(id, k)
  }

  /** Adding shard `i` under its fresh id extends what was placed by one shard. */
  lemma PlaceShard(shards: map<string, seq<string>>, servers: seq<string>, replicas: nat, id: nat, i: nat, ids: seq<string>)
    requires |servers| > 0 && id < UINT64_LIMIT && i < UINT64_LIMIT
    requires AllPlaced(shards, servers, replicas, id, i) && OnlyShardsBelow(shards, id, i)
    requires Placement(servers, replicas, i, ids)
    ensures ShardId(id, i) !in shards
    ensures AllPlaced(shards[ShardId(id, i) := ids], servers, replicas, id, i + 1)
    ensures OnlyShardsBelow(shards[ShardId(id, i) := ids], id, i + 1)
  {
    if ShardId(id, i) in shards {
      var k :| 0 <= k < i && ShardId(id, i) == ShardId(id, k);
      ShardIdInjective(id, k, i);
    }
    var m := shards[ShardId(id, i) := ids];
    forall k | 0 <= k < i + 1
      ensures ShardId(id, k) in m && Placement(servers, replicas, k, m[ShardId(id, k)])
    {
      if k < i && ShardId(id, k) == ShardId(id, i) {
        ShardIdInjective(id, k, i);
      }
    }
  }

  // ---------------------------------------------------------------------
  // distributeBabyOnShards: the shard map and its reverse mapping
  // ---------------------------------------------------------------------

  /**
   * The reverse mapping holds one `(shard, position)` entry per document, in
   * the order the documents came, and each entry points at that document in
   * the shard map.
   */
  ghost predicate Scattered<T>(shardMap: map<string, seq<T>>, reverseMapping: seq<(string, nat)>, docs: seq<T>)
  {
    && |reverseMapping| == |docs|
    && forall k :: 0 <= k < |reverseMapping| ==>
      && reverseMapping[k].0 in shardMap
      && reverseMapping[k].1 < |shardMap[reverseMapping[k].0]|
      && shardMap[reverseMapping[k].0][reverseMapping[k].1] == docs[k]
  }

  /**
   * Appending a document to its shard: a new shard starts a list of one,
   * a known shard's list grows at its end, and the reverse mapping records
   * where the document went.
   */
  function AddToShard<T>(shardMap: map<string, seq<T>>, reverseMapping: seq<(string, nat)>, shard: string, value: T)
    : (r: (map<string, seq<T>>, seq<(string, nat)>))
    ensures r.0.Keys == shardMap.Keys + {shard}
    ensures forall s :: s in shardMap && s != shard ==> r.0[s] == shardMap[s]
    ensures r.0[shard] == (if shard in shardMap then shardMap[shard] else []) + [value]
    ensures r.1 == reverseMapping + [(shard, |r.0[shard]| - 1)]
  {
    if shard !in shardMap then (shardMap[shard := [value]], reverseMapping + [(shard, 0)])
    else (shardMap[shard := shardMap[shard] + [value]], reverseMapping + [(shard, |shardMap[shard]|)])
  }

  /** Appending a document keeps every earlier entry pointing at its document. */
  lemma AddToShardKeepsScattered<T>(shardMap: map<string, seq<T>>, reverseMapping: seq<(string, nat)>, docs: seq<T>, shard: string, value: T)
    requires Scattered(shardMap, reverseMapping, docs)
    ensures var (m, rm) := AddToShard(shardMap, reverseMapping, shard, value);
      Scattered(m, rm, docs + [value])
  {
    var (m, rm) := AddToShard(shardMap, reverseMapping, shard, value);
    forall k | 0 <= k < |rm|
      ensures rm[k].0 in m && rm[k].1 < |m[rm[k].0]| && m[rm[k].0][rm[k].1] == (docs + [value])[k]
    {
      if k < |reverseMapping| {
        assert rm[k] == reverseMapping[k];
      }
    }
  }

  /** The shard map and reverse mapping a coordinator fills while it scatters a request. */
  class ShardScatter<T> {
    var shardMap: map<string, seq<T>>
    var reverseMapping: seq<(string, nat)>
    /** The documents scattered so far, in order. */
    ghost var documents: seq<T>

    ghost predicate Valid()
      reads this
    {
      Scattered(shardMap, reverseMapping, documents)
    }

    constructor ()
      ensures Valid() && shardMap == map[] && reverseMapping == [] && documents == []
    {
      shardMap := map[];
      reverseMapping := [];
      documents := [];
    }

    /** The shared tail of both `distributeBabyOnShards` overloads. */
    method Add(shard: string, value: T)
      requires Valid()
      modifies this
      ensures Valid()
      ensures (shardMap, reverseMapping) == AddToShard(old(shardMap), old(reverseMapping), shard, value)
      ensures documents == old(documents) + [value]
    {
      AddToShardKeepsScattered(shardMap, reverseMapping, documents, shard, value);
      if shard !in shardMap {
        shardMap := shardMap[shard := [value]];
        reverseMapping := reverseMapping + [(shard, 0)];
      } else {
        shardMap := shardMap[shard := shardMap[shard] + [value]];
        reverseMapping := reverseMapping + [(shard, |shardMap[shard]| - 1)];
      }
      documents := documents + [value];
    }
  }

  /** What `getResponsibleShard` reports for a document. */
  datatype ShardLookup = ShardLookup(error: ErrorCode, shard: string, usesDefaultShardingAttributes: bool)

  /** `StaticStrings::KeyString`. */
  const KEY_ATTRIBUTE: string := "_key"

  /** The document the shard is looked up for: a bare string is taken as a `_key`. */
  function LookupDocument(value: Json): Json
  {
    if value.JString? then JObject(map[KEY_ATTRIBUTE := value]) else value
  }

  /**
   * The first `distributeBabyOnShards` overload: a missing collection
   * becomes "shard gone", any other lookup error is returned as it is and
   * leaves the maps alone, and a located document is appended to its shard.
   */
  method DistributeBabyOnShards(scatter: ShardScatter<Json>, value: Json, responsibleShard: Json -> ShardLookup)
    returns (error: ErrorCode)
    requires scatter.Valid()
    modifies scatter
    ensures scatter.Valid()
    ensures var found := responsibleShard(LookupDocument(value));
      error == (if found.error == DataSourceNotFound then ClusterShardGone else found.error)
    ensures error == NoError ==>
      && (scatter.shardMap, scatter.reverseMapping)
         == AddToShard(old(scatter.shardMap), old(scatter.reverseMapping), responsibleShard(LookupDocument(value)).shard, value)
      && scatter.documents == old(scatter.documents) + [value]
    ensures error != NoError ==> unchanged(scatter)
  {
    var found := responsibleShard(LookupDocument(value));
    if found.error == DataSourceNotFound {
      return ClusterShardGone;
    }
    if found.error != NoError {
      return found.error;
    }
    scatter.Add(found.shard, value);
    return NoError;
  }

  /** The collaborators the key-generating overload consults. */
  datatype KeyedEnv = KeyedEnv(
    firstShard: string,                                      // the collection's first shard
    validateSmartJoin: Json -> ErrorCode,                    // validateSmartJoinAttribute
    generatedKey: string,                                    // what the key generator hands out next
    responsibleShard: (Json, Option<string>) -> ShardLookup, // with the generated key, if one was made
    allowUserKeys: bool)

  /** Where the key-generating overload puts a document, with its key, or why it refuses it. */
  datatype KeyedPlacement = Placed(shard: string, key: string) | Refused(error: ErrorCode)

  /**
   * The decisions of the second `distributeBabyOnShards` overload. A
   * non-object goes to the first shard as if its key were the user's; an
   * object failing the smart-join check is refused; an object without
   * `_key` gets a generated key; a missing collection is "shard gone"; and a
   * user-given key is refused unless restoring, or unless the collection
   * shards by `_key` alone and allows user keys.
   */
  function KeyedPlacementOf(value: Json, isRestore: bool, env: KeyedEnv): (r: KeyedPlacement)
  {
    if !value.JObject? then Placed(env.firstShard, "")
    else if env.validateSmartJoin(value) != NoError then Refused(env.validateSmartJoin(value))
    else
      var userSpecifiedKey := KEY_ATTRIBUTE in value.members;
      var key := if userSpecifiedKey then "" else env.generatedKey;
      var found := env.responsibleShard(value, if userSpecifiedKey then None else Some(key));
      if found.error == DataSourceNotFound then Refused(ClusterShardGone)
      else if userSpecifiedKey && (!found.usesDefaultShardingAttributes || !env.allowUserKeys) && !isRestore
      then Refused(ClusterMustNotSpecifyKey)
      else Placed(found.shard, key)
  }

  /**
   * An object placed by the key-generating overload carries the generated
   * key exactly when it had none of its own, and keeps a key of its own only
   * when restoring or when the collection shards by `_key` with user keys
   * allowed.
   */
  lemma KeyedPlacementKeys(value: Json, isRestore: bool, env: KeyedEnv)
    requires value.JObject? && KeyedPlacementOf(value, isRestore, env).Placed?
    ensures KEY_ATTRIBUTE !in value.members ==> KeyedPlacementOf(value, isRestore, env).key == env.generatedKey
    ensures KEY_ATTRIBUTE in value.members ==>
      && KeyedPlacementOf(value, isRestore, env).key == ""
      && (isRestore || (env.allowUserKeys && env.responsibleShard(value, None).usesDefaultShardingAttributes))
  {
  }

  /** Refusals always carry an error. */
  lemma KeyedRefusalsAreErrors(value: Json, isRestore: bool, env: KeyedEnv)
    requires KeyedPlacementOf(value, isRestore, env).Refused?
    ensures KeyedPlacementOf(value, isRestore, env).error != NoError
  {
  }

  /**
   * The second `distributeBabyOnShards` overload: a placed document is
   * appended with its key to its shard, a refused one leaves the maps alone.
   */
  method DistributeKeyedBabyOnShards(scatter: ShardScatter<(Json, string)>, value: Json, isRestore: bool, env: KeyedEnv)
    returns (error: ErrorCode)
    requires scatter.Valid()
    modifies scatter
    ensures scatter.Valid()
    ensures match KeyedPlacementOf(value, isRestore, env)
      case Refused(e) => error == e && unchanged(scatter)
      case Placed(shard, key) =>
        && error == NoError
        && (scatter.shardMap, scatter.reverseMapping)
           == AddToShard(old(scatter.shardMap), old(scatter.reverseMapping), shard, (value, key))
        && scatter.documents == old(scatter.documents) + [(value, key)]
  {
    var shardId: string;
    var userSpecifiedKey := false;
    var key := "";
    if !value.JObject? {
      shardId := env.firstShard;
      userSpecifiedKey := true;
    } else {
      var r := env.validateSmartJoin(value);
      if r != NoError {
        return r;
      }
      var keySlice := Member(value, KEY_ATTRIBUTE);
      if keySlice.None? {
        key := env.generatedKey;
      } else {
        userSpecifiedKey := true;
      }
      var found := if userSpecifiedKey then env.responsibleShard(value, None)
                   else env.responsibleShard(value, Some(key));
      if found.error == DataSourceNotFound {
        return ClusterShardGone;
      }
      if userSpecifiedKey && (!found.usesDefaultShardingAttributes || !env.allowUserKeys) && !isRestore {
        return ClusterMustNotSpecifyKey;
      }
      shardId := found.shard;
    }
    scatter.Add(shardId, (value, key));
    return NoError;
  }

  // ---------------------------------------------------------------------
  // mergeResults
  // ---------------------------------------------------------------------

  /** An answer `{"error": true, ...}` (`StaticStrings::Error`). */
  predicate IsErrorAnswer(answer: Json)
  {
    Member(answer, "error") == Some(JBool(true))
  }

  /**
   * How merging ends: the merged body, the error a shard reported (its
   * `errorNum`, None when that is not a number, and its `errorMessage` when
   * that is a string), or an answer that is no array long enough.
   */
  datatype MergeOutcome =
    | Merged(body: seq<Json>)
    | ShardFailed(errorNum: Option<int>, message: Option<Bytes>)
    | Malformed

  /** The error a shard's error answer is rethrown with. */
  function ErrorOf(answer: Json): (r: MergeOutcome)
    ensures r.ShardFailed?
    ensures r.message == StringMember(answer, "errorMessage")
  {
    var num := match Member(answer, "errorNum") case Some(JNumber(x)) => Some(x) case _ => None;
    ShardFailed(num, StringMember(answer, "errorMessage"))
  }

  /** Every entry of the reverse mapping finds a shard answer that is a long enough array. */
  predicate Answerable(reverseMapping: seq<(string, nat)>, answers: map<string, Json>)
    requires forall k :: 0 <= k < |reverseMapping| ==> reverseMapping[k].0 in answers
  {
    forall k :: 0 <= k < |reverseMapping| ==>
      && !IsErrorAnswer(answers[reverseMapping[k].0])
      && answers[reverseMapping[k].0].JArray?
      && reverseMapping[k].1 < |answers[reverseMapping[k].0].items|
  }

  /**
   * `mergeResults`: the body taken entry by entry of the reverse mapping,
   * each from its shard's answer at its position; the first shard error met
   * is rethrown.
   */
  function Merge(reverseMapping: seq<(string, nat)>, answers: map<string, Json>): (r: MergeOutcome)
    requires forall k :: 0 <= k < |reverseMapping| ==> reverseMapping[k].0 in answers
    ensures r.Merged? <==> Answerable(reverseMapping, answers)
    ensures r.Merged? ==> |r.body| == |reverseMapping| && forall k :: 0 <= k < |reverseMapping| ==>
      r.body[k] == answers[reverseMapping[k].0].items[reverseMapping[k].1]
    ensures r.ShardFailed? ==> exists k :: 0 <= k < |reverseMapping| && IsErrorAnswer(answers[reverseMapping[k].0])
    decreases |reverseMapping|
  {
    if reverseMapping == [] then Merged([])
    else
      var answer := answers[reverseMapping[0].0];
      if IsErrorAnswer(answer) then ErrorOf(answer)
      else if !answer.JArray? || reverseMapping[0].1 >= |answer.items| then Malformed
      else
        match Merge(reverseMapping[1..], answers)
        case Merged(rest) => Merged([answer.items[reverseMapping[0].1]] + rest)
        case failed =>
          assert forall k :: 1 <= k < |reverseMapping| ==> reverseMapping[1..][k - 1] == reverseMapping[k];
          failed
  }

  /** The outcome of merging a tail, after a merged head. */
  function Then(head: seq<Json>, tail: MergeOutcome): MergeOutcome
  {
    if tail.Merged? then Merged(head + tail.body) else tail
  }

  /** Merging from entry `k` on: entry `k`'s answer decides, then the rest is merged. */
  lemma MergeFrom(reverseMapping: seq<(string, nat)>, answers: map<string, Json>, k: nat)
    requires forall j :: 0 <= j < |reverseMapping| ==> reverseMapping[j].0 in answers
    requires k < |reverseMapping|
    ensures var answer := answers[reverseMapping[k].0];
      Merge(reverseMapping[k..], answers) ==
        if IsErrorAnswer(answer) then ErrorOf(answer)
        else if !answer.JArray? || reverseMapping[k].1 >= |answer.items| then Malformed
        else Then([answer.items[reverseMapping[k].1]], Merge(reverseMapping[k + 1..], answers))
  {
    assert reverseMapping[k..][0] == reverseMapping[k] && reverseMapping[k..][1..] == reverseMapping[k + 1..];
  }

  lemma ThenThen(head: seq<Json>, x: Json, tail: MergeOutcome)
    ensures Then(head, Then([x], tail)) == Then(head + [x], tail)
  {
    if tail.Merged? {
      assert head + ([x] + tail.body) == (head + [x]) + tail.body;
    }
  }

  /** `mergeResults` with its loop over the reverse mapping. */
  method MergeResults(reverseMapping: seq<(string, nat)>, answers: map<string, Json>) returns (r: MergeOutcome)
    requires forall k :: 0 <= k < |reverseMapping| ==> reverseMapping[k].0 in answers
    ensures r == Merge(reverseMapping, answers)
  {
    var body := [];
    var k := 0;
    assert reverseMapping[0..] == reverseMapping;
    while k < |reverseMapping|
      invariant k <= |reverseMapping|
      invariant Merge(reverseMapping, answers) == Then(body, Merge(reverseMapping[k..], answers))
    {
      MergeFrom(reverseMapping, answers, k);
      var answer := answers[reverseMapping[k].0];
      if IsErrorAnswer(answer) {
        return ErrorOf(answer);
      }
      if !answer.JArray? || reverseMapping[k].1 >= |answer.items| {
        return Malformed;
      }
      var item := answer.items[reverseMapping[k].1];
      ThenThen(body, item, Merge(reverseMapping[k + 1..], answers));
      body := body + [item];
      k := k + 1;
    }
    assert reverseMapping[k..] == [];
    return Merged(body);
  }

  /** The answers of a shard: one per document it was sent, in order. */
  function Respond(respond: Json -> Json, docs: seq<Json>): (r: seq<Json>)
    ensures |r| == |docs| && forall k :: 0 <= k < |docs| ==> r[k] == respond(docs[k])
  {
    seq(|docs|, k requires 0 <= k < |docs| => respond(docs[k]))
  }

  /**
   * Scattering then merging restores the request order: when every shard
   * answers with one result per document it was sent, the merged body holds
   * each document's result at that document's place in the request.
   */
  lemma MergeRestoresOrder(shardMap: map<string, seq<Json>>, reverseMapping: seq<(string, nat)>, docs: seq<Json>,
                           answers: map<string, Json>, respond: Json -> Json)
    requires Scattered(shardMap, reverseMapping, docs)
    requires forall s :: s in shardMap ==> s in answers && answers[s] == JArray(Respond(respond, shardMap[s]))
    ensures forall k :: 0 <= k < |reverseMapping| ==> reverseMapping[k].0 in answers
    ensures Merge(reverseMapping, answers) == Merged(Respond(respond, docs))
  {
    var r := Merge(reverseMapping, answers);
    assert Answerable(reverseMapping, answers);
    assert r.body == Respond(respond, docs);
  }

  // ---------------------------------------------------------------------
  // mergeResultsAllShards
  // ---------------------------------------------------------------------

  /** The number of `TRI_ERROR_ARANGO_DOCUMENT_NOT_FOUND`. */
  const DOCUMENT_NOT_FOUND_NUM: int := 1202

  /** The answer `{"error": true, "errorNum": 1202}` a shard gives for a document it does not hold. */
  const NOT_FOUND: Json := JObject(map["error" := JBool(true), "errorNum" := JNumber(DOCUMENT_NOT_FOUND_NUM)])

  /** Every shard answered with an array of at least `count` results. */
  predicate Covers(results: seq<Json>, count: nat)
  {
    forall q :: 0 <= q < |results| ==> results[q].JArray? && count <= |results[q].items|
  }

  /**
   * The result for document `index`: the first shard's answer that is not
   * NOT_FOUND, or NOT_FOUND when every shard said so.
   */
  function FirstFound(results: seq<Json>, index: nat): (r: Json)
    requires Covers(results, index + 1)
    ensures r == NOT_FOUND <==> forall q :: 0 <= q < |results| ==> results[q].items[index] == NOT_FOUND
    decreases |results|
  {
    if results == [] then NOT_FOUND
    else if results[0].items[index] != NOT_FOUND then results[0].items[index]
    else
      var r := FirstFound(results[1..], index);
      assert forall q :: 1 <= q < |results| ==> results[1..][q - 1] == results[q];
      r
  }

  /** The answer of the first shard that has the document is the one taken. */
  lemma {:induction false} FirstFoundAt(results: seq<Json>, index: nat, q: nat)
    requires Covers(results, index + 1) && q < |results|
    requires forall p :: 0 <= p < q ==> results[p].items[index] == NOT_FOUND
    requires results[q].items[index] != NOT_FOUND
    ensures FirstFound(results, index) == results[q].items[index]
    decreases q
  {
    if q > 0 {
      assert forall p :: 0 <= p < q - 1 ==> results[1..][p] == results[p + 1];
      FirstFoundAt(results[1..], index, q - 1);
    }
  }

  /** How many of the first `count` documents no shard had. */
  function NotFoundCount(results: seq<Json>, count: nat): (r: nat)
    requires Covers(results, count)
    ensures r <= count
  {
    if count == 0 then 0
    else NotFoundCount(results, count - 1) + (if FirstFound(results, count - 1) == NOT_FOUND then 1 else 0)
  }

  /** Whether some shard had document `index`. */
  predicate FoundSomewhere(results: seq<Json>, index: nat)
    requires Covers(results, index + 1)
  {
    FirstFound(results, index) != NOT_FOUND
  }

  /** No document is counted missing exactly when some shard had each of them. */
  lemma {:induction false} NotFoundCountZero(results: seq<Json>, count: nat)
    requires Covers(results, count)
    ensures NotFoundCount(results, count) == 0 <==> forall k :: 0 <= k < count ==> FoundSomewhere(results, k)
  {
    if count > 0 {
      assert Covers(results, count - 1);
      NotFoundCountZero(results, count - 1);
      assert NotFoundCount(results, count)
        == NotFoundCount(results, count - 1) + (if FoundSomewhere(results, count - 1) then 0 else 1);
    }
  }

  /** Every document is counted missing exactly when no shard had any of them. */
  lemma {:induction false} NotFoundCountAll(results: seq<Json>, count: nat)
    requires Covers(results, count)
    ensures NotFoundCount(results, count) == count <==> forall k :: 0 <= k < count ==> !FoundSomewhere(results, k)
  {
    if count > 0 {
      assert Covers(results, count - 1);
      NotFoundCountAll(results, count - 1);
      assert NotFoundCount(results, count)
        == NotFoundCount(results, count - 1) + (if FoundSomewhere(results, count - 1) then 0 else 1);
    }
  }

  /** The inner loop of `mergeResultsAllShards`: the shards' answers for one document, in turn. */
  method ScanShards(results: seq<Json>, index: nat) returns (oneRes: Json, foundRes: bool)
    requires Covers(results, index + 1)
    ensures foundRes == FoundSomewhere(results, index)
    ensures foundRes ==> oneRes == FirstFound(results, index)
  {
    oneRes := NOT_FOUND;
    foundRes := false;
    var q := 0;
    while q < |results|
      invariant q <= |results|
      invariant forall p :: 0 <= p < q ==> results[p].items[index] == NOT_FOUND
    {
      oneRes := results[q].items[index];
      if oneRes != NOT_FOUND {
        FirstFoundAt(results, index, q);
        foundRes := true;
        break;
      }
      q := q + 1;
    }
  }

  /**
   * `mergeResultsAllShards`: for every expected document the first shard
   * answer that is not NOT_FOUND, else NOT_FOUND; the number of documents no
   * shard had goes into the error counter under NOT_FOUND, and only when it
   * is positive, every other count staying as it was.
   */
  method MergeResultsAllShards(results: seq<Json>, errorCounter: map<int, nat>, expectedResults: nat)
    returns (body: seq<Json>, counter: map<int, nat>)
    requires DOCUMENT_NOT_FOUND_NUM !in errorCounter
    requires Covers(results, expectedResults)
    ensures |body| == expectedResults
    ensures forall k :: 0 <= k < expectedResults ==> body[k] == FirstFound(results, k)
    ensures var missing := NotFoundCount(results, expectedResults);
      counter == if missing > 0 then errorCounter[DOCUMENT_NOT_FOUND_NUM := missing] else errorCounter
  {
    var realNotFound := 0;
    body := [];
    var index := 0;
    while index < expectedResults
      invariant index <= expectedResults && |body| == index
      invariant forall k :: 0 <= k < index ==> body[k] == FirstFound(results, k)
      invariant realNotFound == NotFoundCount(results, index)
    {
      var oneRes, foundRes := ScanShards(results, index);
      if foundRes {
        body := body + [oneRes];
      } else {
        body := body + [NOT_FOUND];
        realNotFound := realNotFound + 1;
      }
      index := index + 1;
    }
    counter := errorCounter;
    if realNotFound > 0 {
      counter := counter[DOCUMENT_NOT_FOUND_NUM := realNotFound];
    }
  }

  // ---------------------------------------------------------------------
  // getForwardableRequestHeaders
  // ---------------------------------------------------------------------

  /** `StaticStrings::HLCHeader`. */
  const HLC_HEADER: string := "x-arango-hlc"
  /** `StaticStrings::ErrorCodes`. */
  const ERROR_CODES_HEADER: string := "x-arango-error-codes"
  const CONTENT_LENGTH: string := "content-length"
  const CORS_PREFIX: string := "access-control"

  /** A header forwarded to the shards: none of the hop, auth and CORS headers. */
  predicate Forwardable(key: string)
  {
    && key !in {"x-arango-async", "authorization", CONTENT_LENGTH, "connection", "expect",
                "host", "origin", HLC_HEADER, ERROR_CODES_HEADER}
    && !(|key| >= |CORS_PREFIX| && key[..|CORS_PREFIX|] == CORS_PREFIX)
  }

  /**
   * `getForwardableRequestHeaders`: every forwardable header with its value,
   * no other header, and `content-length` set to the request's content
   * length.
   */
  method GetForwardableRequestHeaders(headers: map<string, string>, contentLength: nat)
    returns (result: map<string, string>)
    ensures CONTENT_LENGTH in result && result[CONTENT_LENGTH] == Itoa(contentLength)
    ensures forall key :: key in headers && Forwardable(key) ==> key in result && result[key] == headers[key]
    ensures forall key :: key in result && key != CONTENT_LENGTH ==> key in headers && Forwardable(key)
    ensures forall key :: key in result && key != CONTENT_LENGTH ==>
      && key != "authorization" && key != HLC_HEADER && key != ERROR_CODES_HEADER
      && !(|key| >= |CORS_PREFIX| && key[..|CORS_PREFIX|] == CORS_PREFIX)
  {
    result := map[];
    var rest := headers.Keys;
    while rest != {}
      invariant rest <= headers.Keys
      invariant forall key :: key in headers && key !in rest && Forwardable(key) ==> key in result && result[key] == headers[key]
      invariant forall key :: key in result ==> key in headers && key !in rest && Forwardable(key)
      decreases |rest|
    {
      var key :| key in rest;
      if Forwardable(key) {
        result := result[key := headers[key]];
      }
      rest := rest - {key};
    }
    result := result[CONTENT_LENGTH := Itoa(contentLength)];
  }

  // ---------------------------------------------------------------------
  // shardKeysChanged
  // ---------------------------------------------------------------------

  /**
   * Shard key `key` compares differently in the new document than in the
   * old: `_key` never counts, a key a patch leaves out is unchanged, and a
   * missing key otherwise reads as null.
   */
  predicate ShardKeyChanged(oldValue: Json, newValue: Json, key: string, isPatch: bool, compare: (Json, Json) -> int)
  {
    && key != KEY_ATTRIBUTE
    && !(Member(newValue, key).None? && isPatch)
    && compare(Member(newValue, key).GetOr(JNull), Member(oldValue, key).GetOr(JNull)) != 0
  }

  /** Two non-objects, or some shard key changed. */
  predicate ShardKeysDiffer(oldValue: Json, newValue: Json, shardKeys: seq<string>, isPatch: bool,
                            compare: (Json, Json) -> int)
  {
    || !oldValue.JObject?
    || !newValue.JObject?
    || exists i :: 0 <= i < |shardKeys| && ShardKeyChanged(oldValue, newValue, shardKeys[i], isPatch, compare)
  }

  /** `shardKeysChanged` with its loop over the shard keys. */
  method ShardKeysChanged(oldValue: Json, newValue: Json, shardKeys: seq<string>, isPatch: bool,
                          compare: (Json, Json) -> int)
    returns (changed: bool)
    ensures changed == ShardKeysDiffer(oldValue, newValue, shardKeys, isPatch, compare)
  {
    if !oldValue.JObject? || !newValue.JObject? {
      return true;
    }
    var i := 0;
    while i < |shardKeys|
      invariant i <= |shardKeys|
      invariant forall k :: 0 <= k < i ==> !ShardKeyChanged(oldValue, newValue, shardKeys[k], isPatch, compare)
    {
      if shardKeys[i] == KEY_ATTRIBUTE {
        i := i + 1;
        continue;
      }
      var n := Member(newValue, shardKeys[i]);
      if n.None? && isPatch {
        i := i + 1;
        continue;
      }
      var o := Member(oldValue, shardKeys[i]);
      if o.None? {
        o := Some(JNull);
      }
      if n.None? {
        n := Some(JNull);
      }
      if compare(n.value, o.value) != 0 {
        return true;
      }
      i := i + 1;
    }
    return false;
  }

  /** Storing a document again as it was never changes its shard keys. */
  lemma SameDocumentKeepsShardKeys(value: Json, shardKeys: seq<string>, isPatch: bool, compare: (Json, Json) -> int)
    requires value.JObject?
    requires forall x :: compare(x, x) == 0
    ensures !ShardKeysDiffer(value, value, shardKeys, isPatch, compare)
  {
  }

  /** A patch that mentions no shard key never changes the shard keys. */
  lemma PatchWithoutShardKeys(oldValue: Json, patch: Json, shardKeys: seq<string>, compare: (Json, Json) -> int)
    requires oldValue.JObject? && patch.JObject?
    requires forall i :: 0 <= i < |shardKeys| ==> shardKeys[i] !in patch.members
    ensures !ShardKeysDiffer(oldValue, patch, shardKeys, true, compare)
  {
  }

  /** A replacement that drops a shard key the old document had changes it, unless it was null. */
  lemma ReplaceDroppingShardKey(oldValue: Json, newValue: Json, shardKeys: seq<string>, i: nat,
                                compare: (Json, Json) -> int)
    requires oldValue.JObject? && newValue.JObject? && i < |shardKeys|
    requires shardKeys[i] != KEY_ATTRIBUTE && shardKeys[i] in oldValue.members && shardKeys[i] !in newValue.members
    requires compare(JNull, oldValue.members[shardKeys[i]]) != 0
    ensures ShardKeysDiffer(oldValue, newValue, shardKeys, false, compare)
  {
    assert ShardKeyChanged(oldValue, newValue, shardKeys[i], false, compare);
  }
}
