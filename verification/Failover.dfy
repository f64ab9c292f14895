/** Health checking and one-way failover of shards, driven by arbitrary ping outcomes and promotion
    replies, and the router that reads the result. */
module Failover {
  import Ring
  import Hash

  datatype Health = UP | DOWN
  datatype NodeRole = PRIMARY | REPLICA

  datatype ShardNode = ShardNode(address: string, health: Health, misses: int)

  datatype Shard = Shard(id: string, primary: ShardNode, hasReplica: bool, replica: ShardNode,
                         activeAddress: string, failedOver: bool)

  /** A shard as it is read from the configuration; an empty replica address means none. */
  function NewShard(id: string, primary: string, replica: string): Shard {
    Shard(id, ShardNode(primary, UP, 0), replica != "", ShardNode(replica, UP, 0), primary, false)
  }

  function RecordPing(node: ShardNode, success: bool, maxMissed: int): ShardNode {
    if success then node.(misses := 0, health := UP)
    else
      var missed := node.(misses := node.misses + 1);
      if missed.misses >= maxMissed then missed.(health := DOWN) else missed
  }

  /** The outside world during one check of a shard: two ping outcomes, and whether the replica would
      answer +OK to the promotion if it were asked. */
  datatype Round = Round(primaryUp: bool, replicaUp: bool, accepts: bool)

  function Promote(s: Shard): Shard { s.(activeAddress := s.replica.address, failedOver := true) }

  function CheckShard(s: Shard, r: Round, maxMissed: int): Shard {
    var pinged := s.(primary := RecordPing(s.primary, r.primaryUp, maxMissed));
    if s.hasReplica then ReplicaChecked(pinged, r, maxMissed) else pinged
  }

  function ReplicaChecked(s: Shard, r: Round, maxMissed: int): Shard {
    var both := s.(replica := RecordPing(s.replica, r.replicaUp, maxMissed));
    if both.primary.health == DOWN && both.replica.health == UP && !both.failedOver && r.accepts
    then Promote(both) else both
  }

  function After(s: Shard, rounds: seq<Round>, maxMissed: int): Shard {
    if rounds == [] then s
    else CheckShard(After(s, rounds[..|rounds| - 1], maxMissed), rounds[|rounds| - 1], maxMissed)
  }

  // ---------------------------------------------------------------- the failure detector

  /** The number of consecutive failures that marks a node down; the program's comparison makes
      every setting below one behave like one. */
  function Threshold(maxMissed: int): (n: nat)
    ensures n >= 1
  {
    if maxMissed < 1 then 1 else maxMissed
  }

  predicate LastFailed(pings: seq<bool>, n: nat) {
    n <= |pings| && forall i :: |pings| - n <= i < |pings| ==> !pings[i]
  }

  function PrimaryPings(rounds: seq<Round>): (pings: seq<bool>)
    ensures |pings| == |rounds|
  {
    seq(|rounds|, i requires 0 <= i < |rounds| => rounds[i].primaryUp)
  }

  function ReplicaPings(rounds: seq<Round>): (pings: seq<bool>)
    ensures |pings| == |rounds|
  {
    seq(|rounds|, i requires 0 <= i < |rounds| => rounds[i].replicaUp)
  }

  /** The node's counter and health say exactly how its ping history ends. */
  ghost predicate Detects(node: ShardNode, pings: seq<bool>, maxMissed: int) {
    && 0 <= node.misses <= |pings|
    && LastFailed(pings, node.misses)
    && (node.misses < |pings| ==> pings[|pings| - 1 - node.misses])
    && (node.health == DOWN <==> node.misses >= Threshold(maxMissed))
  }

  lemma DetectsStep(node: ShardNode, pings: seq<bool>, up: bool, maxMissed: int)
    requires Detects(node, pings, maxMissed)
    ensures Detects(RecordPing(node, up, maxMissed), pings + [up], maxMissed)
  {
  }

  lemma DetectsMeansDown(node: ShardNode, pings: seq<bool>, maxMissed: int)
    requires Detects(node, pings, maxMissed)
    ensures node.health == DOWN <==> LastFailed(pings, Threshold(maxMissed))
  {
    if node.misses < |pings| { assert pings[|pings| - 1 - node.misses]; }
  }

  lemma {:induction false} DetectsAlways(id: string, primary: string, replica: string, rounds: seq<Round>,
                                         maxMissed: int)
    ensures var s := After(NewShard(id, primary, replica), rounds, maxMissed);
            && Detects(s.primary, PrimaryPings(rounds), maxMissed)
            && (s.hasReplica ==> Detects(s.replica, ReplicaPings(rounds), maxMissed))
            && s.hasReplica == (replica != "")
            && s.primary.address == primary && s.replica.address == replica && s.id == id
  {
    if rounds != [] {
      var init, last := rounds[..|rounds| - 1], rounds[|rounds| - 1];
      DetectsAlways(id, primary, replica, init, maxMissed);
      var s := After(NewShard(id, primary, replica), init, maxMissed);
      PingsStep(init, last);
      assert rounds == init + [last];
      DetectsStep(s.primary, PrimaryPings(init), last.primaryUp, maxMissed);
      if s.hasReplica { DetectsStep(s.replica, ReplicaPings(init), last.replicaUp, maxMissed); }
    }
  }

  lemma PingsStep(init: seq<Round>, last: Round)
    ensures PrimaryPings(init + [last]) == PrimaryPings(init) + [last.primaryUp]
    ensures ReplicaPings(init + [last]) == ReplicaPings(init) + [last.replicaUp]
  {
  }

  /** Failure detector exactness: after any history, a node is DOWN if and only if its last pings,
      as many as the threshold says, all failed. */
  lemma DownIffLastPingsFailed(id: string, primary: string, replica: string, rounds: seq<Round>, maxMissed: int)
    ensures var s := After(NewShard(id, primary, replica), rounds, maxMissed);
            && (s.primary.health == DOWN <==> LastFailed(PrimaryPings(rounds), Threshold(maxMissed)))
            && (replica != "" ==>
                  (s.replica.health == DOWN <==> LastFailed(ReplicaPings(rounds), Threshold(maxMissed))))
  {
    DetectsAlways(id, primary, replica, rounds, maxMissed);
    var s := After(NewShard(id, primary, replica), rounds, maxMissed);
    DetectsMeansDown(s.primary, PrimaryPings(rounds), maxMissed);
    if replica != "" { DetectsMeansDown(s.replica, ReplicaPings(rounds), maxMissed); }
  }

  // ---------------------------------------------------------------- the failover latch

  /** Round `i` is one in which failover is due: the primary's last pings have all failed, the
      replica's have not, and the replica accepts the promotion. Says nothing about the machine. */
  ghost predicate PromotionDue(rounds: seq<Round>, i: nat, maxMissed: int)
    requires i < |rounds|
  {
    && LastFailed(PrimaryPings(rounds[..i + 1]), Threshold(maxMissed))
    && !LastFailed(ReplicaPings(rounds[..i + 1]), Threshold(maxMissed))
    && rounds[i].accepts
  }

  /** Some round of these has the primary down, the replica up and the promotion accepted. */
  ghost predicate EverDue(rounds: seq<Round>, maxMissed: int) {
    exists j :: 0 <= j < |rounds| && PromotionDue(rounds, j, maxMissed)
  }

  /** The shard has failed over if and only if some round so far was due, so it does so in the first
      such round and never before; the active address is the replica's from then on, and the
      primary's until then. */
  lemma {:induction false} FailedOverIffPromotionWasDue(id: string, primary: string, replica: string,
                                                        rounds: seq<Round>, maxMissed: int)
    ensures var s := After(NewShard(id, primary, replica), rounds, maxMissed);
            && (s.failedOver <==> replica != "" && EverDue(rounds, maxMissed))
            && s.activeAddress == (if s.failedOver then replica else primary)
  {
    if rounds != [] {
      var n := |rounds| - 1;
      var init := rounds[..n];
      FailedOverIffPromotionWasDue(id, primary, replica, init, maxMissed);
      DownIffLastPingsFailed(id, primary, replica, rounds, maxMissed);
      DetectsAlways(id, primary, replica, init, maxMissed);
      DueStep(rounds, maxMissed);
    }
  }

  /** Whether some round was due, one round at a time. */
  lemma DueStep(rounds: seq<Round>, maxMissed: int)
    requires rounds != []
    ensures EverDue(rounds, maxMissed)
            <==> EverDue(rounds[..|rounds| - 1], maxMissed) || PromotionDue(rounds, |rounds| - 1, maxMissed)
    ensures rounds[..|rounds|] == rounds
  {
    var n := |rounds| - 1;
    forall i | 0 <= i < n ensures PromotionDue(rounds, i, maxMissed) <==> PromotionDue(rounds[..n], i, maxMissed) {
      assert rounds[..i + 1] == rounds[..n][..i + 1];
    }
  }

  /** The latch: a failover is never undone, so the active address changes at most once. */
  lemma {:induction false} FailoverIsOneWay(s: Shard, rounds: seq<Round>, i: nat, maxMissed: int)
    requires i <= |rounds|
    requires After(s, rounds[..i], maxMissed).failedOver
    ensures After(s, rounds, maxMissed).failedOver
    ensures After(s, rounds, maxMissed).activeAddress == After(s, rounds[..i], maxMissed).activeAddress
    decreases |rounds|
  {
    if i < |rounds| {
      assert rounds[..|rounds| - 1][..i] == rounds[..i];
      FailoverIsOneWay(s, rounds[..|rounds| - 1], i, maxMissed);
    } else {
      assert rounds[..i] == rounds;
    }
  }

  // ---------------------------------------------------------------- what NODES reports

  datatype NodeInfo = NodeInfo(shardId: string, role: NodeRole, address: string, health: Health, active: bool)

  function Report(s: Shard): seq<NodeInfo> {
    [NodeInfo(s.id, PRIMARY, s.primary.address, s.primary.health, s.activeAddress == s.primary.address)]
    + (if s.hasReplica
       then [NodeInfo(s.id, REPLICA, s.replica.address, s.replica.health, s.activeAddress == s.replica.address)]
       else [])
  }

  function ActiveCount(infos: seq<NodeInfo>): nat {
    if infos == [] then 0 else (if infos[0].active then 1 else 0) + ActiveCount(infos[1..])
  }

  lemma CountUpToTwo(a: NodeInfo, b: NodeInfo)
    ensures ActiveCount([a]) == if a.active then 1 else 0
    ensures ActiveCount([a, b]) == (if a.active then 1 else 0) + (if b.active then 1 else 0)
  {
    assert [a, b][1..] == [b] && [a][1..] == [] && [b][1..] == [];
  }

  /** In every reachable state exactly one node of a shard is reported ACTIVE, if and only if the two
      configured addresses differ; otherwise both are. */
  lemma ExactlyOneActive(id: string, primary: string, replica: string, rounds: seq<Round>, maxMissed: int)
    ensures var s := After(NewShard(id, primary, replica), rounds, maxMissed);
            ActiveCount(Report(s)) == 1 <==> primary != replica || replica == ""
  {
    FailedOverIffPromotionWasDue(id, primary, replica, rounds, maxMissed);
    DetectsAlways(id, primary, replica, rounds, maxMissed);
    var s := After(NewShard(id, primary, replica), rounds, maxMissed);
    var infos := Report(s);
    CountUpToTwo(infos[0], infos[|infos| - 1]);
    assert infos == if s.hasReplica then [infos[0], infos[1]] else [infos[0]];
  }

  /** What NODES reports of a node that has answered these pings and serves its shard or not. */
  ghost predicate Reports(info: NodeInfo, id: string, role: NodeRole, address: string, pings: seq<bool>,
                          serving: string, maxMissed: int)
  {
    && info.shardId == id && info.role == role && info.address == address
    && (info.health == DOWN <==> LastFailed(pings, Threshold(maxMissed)))
    && (info.active <==> address == serving)
  }

  /** In every reachable state the report lists the primary and then the replica, if there is one, each with its
      own address, DOWN if and only if its own last pings failed, and ACTIVE if and only if its address is the
      one that serves the shard: the replica's once a promotion was due, and the primary's until then. */
  lemma ReportIsTrue(id: string, primary: string, replica: string, rounds: seq<Round>, maxMissed: int)
    ensures var infos := Report(After(NewShard(id, primary, replica), rounds, maxMissed));
            var serving := if replica != "" && EverDue(rounds, maxMissed) then replica else primary;
            && |infos| == (if replica == "" then 1 else 2)
            && Reports(infos[0], id, PRIMARY, primary, PrimaryPings(rounds), serving, maxMissed)
            && (replica != "" ==>
                  Reports(infos[1], id, REPLICA, replica, ReplicaPings(rounds), serving, maxMissed))
  {
    FailedOverIffPromotionWasDue(id, primary, replica, rounds, maxMissed);
    DetectsAlways(id, primary, replica, rounds, maxMissed);
    DownIffLastPingsFailed(id, primary, replica, rounds, maxMissed);
  }

  // ---------------------------------------------------------------- the topology object

  /** Index of the first shard with this id, or |shards|. */
  function IndexOf(shards: seq<Shard>, id: string): (i: nat)
    ensures i <= |shards|
    ensures forall j :: 0 <= j < i ==> shards[j].id != id
    ensures i < |shards| ==> shards[i].id == id
  {
    if shards == [] || shards[0].id == id then 0 else 1 + IndexOf(shards[1..], id)
  }

  class ShardTopology {
    var shards: seq<Shard>

    constructor (shards: seq<Shard>)
      ensures this.shards == shards
    {
      this.shards := shards;
    }

    /** The search loop shared by all accessors. */
    method FindShard(id: string) returns (i: nat)
      ensures i == IndexOf(shards, id)
    {
      i := 0;
      while i < |shards|
        invariant i <= |shards|
        invariant forall j :: 0 <= j < i ==> shards[j].id != id
      {
        if shards[i].id == id {
          break;
        }
        i := i + 1;
      }
    }

    method RecordPingResult(id: string, role: NodeRole, success: bool, maxMissed: int)
      modifies this
      ensures var was, i := old(shards), IndexOf(old(shards), id);
              shards == if i == |was| then was
                        else if role == PRIMARY
                        then was[i := was[i].(primary := RecordPing(was[i].primary, success, maxMissed))]
                        else was[i := was[i].(replica := RecordPing(was[i].replica, success, maxMissed))]
    {
      var i := FindShard(id);
      if i == |shards| {
        return;
      }
      var shard := shards[i];
      var node := if role == PRIMARY then shard.primary else shard.replica;
      if success {
        node := node.(misses := 0, health := UP);
      } else {
        node := node.(misses := node.misses + 1);
        if node.misses >= maxMissed {
          node := node.(health := DOWN);
        }
      }
      shards := shards[i := if role == PRIMARY then shard.(primary := node) else shard.(replica := node)];
    }

    /** Refuses when there is nothing to promote or the latch is already set. */
    method PromoteReplica(id: string) returns (promoted: bool)
      modifies this
      ensures var i := IndexOf(old(shards), id);
              && promoted == (i < |old(shards)| && old(shards)[i].hasReplica && !old(shards)[i].failedOver)
              && shards == if promoted then old(shards)[i := Promote(old(shards)[i])] else old(shards)
    {
      var i := FindShard(id);
      if i == |shards| || !shards[i].hasReplica || shards[i].failedOver {
        return false;
      }
      shards := shards[i := shards[i].(activeAddress := shards[i].replica.address, failedOver := true)];
      return true;
    }

    method HealthOf(id: string, role: NodeRole) returns (health: Health)
      ensures var i := IndexOf(shards, id);
              health == if i == |shards| then DOWN
                        else if role == PRIMARY then shards[i].primary.health else shards[i].replica.health
    {
      var i := FindShard(id);
      if i == |shards| {
        return DOWN;
      }
      return if role == PRIMARY then shards[i].primary.health else shards[i].replica.health;
    }

    method ActiveAddressFor(id: string) returns (address: string)
      ensures address == ActiveAddress(shards, id)
    {
      var i := FindShard(id);
      return if i == |shards| then "" else shards[i].activeAddress;
    }

    /** `HealthChecker::checkShard`: the steps of one check in the program's order, one lock
        acquisition at a time. Other shards are not touched. */
    method CheckOne(id: string, r: Round, maxMissed: int)
      modifies this
      ensures var i := IndexOf(old(shards), id);
              shards == if i == |old(shards)| then old(shards)
                        else old(shards)[i := CheckShard(old(shards)[i], r, maxMissed)]
    {
      RecordPingResult(id, PRIMARY, r.primaryUp, maxMissed);
      SameIndex(old(shards), shards, id);
      var afterPrimary := HealthOf(id, PRIMARY);
      var i := FindShard(id);
      if i < |shards| && shards[i].hasReplica {
        CheckReplica(id, r, afterPrimary, maxMissed);
      }
    }

    /** The second half of a check, for a shard that has a replica. */
    method CheckReplica(id: string, r: Round, afterPrimary: Health, maxMissed: int)
      requires var i := IndexOf(shards, id);
               i < |shards| && shards[i].hasReplica && afterPrimary == shards[i].primary.health
      modifies this
      ensures var was, i := old(shards), IndexOf(old(shards), id);
              shards == was[i := ReplicaChecked(was[i], r, maxMissed)]
    {
      RecordPingResult(id, REPLICA, r.replicaUp, maxMissed);
      SameIndex(old(shards), shards, id);
      var i := FindShard(id);
      var afterReplica := HealthOf(id, REPLICA);
      if afterPrimary != DOWN || afterReplica != UP || shards[i].failedOver {
        return;
      }
      if r.accepts {
        var _ := PromoteReplica(id);
      }
    }

    /** One pass of the health checker: one check per configured id, in order. */
    method CheckAll(rounds: seq<Round>, maxMissed: int)
      requires |rounds| == |shards|
      modifies this
      ensures shards == Pass(old(shards), Ids(old(shards)), rounds, maxMissed)
    {
      var ids := Ids(shards);
      for k := 0 to |ids|
        invariant shards == Pass(old(shards), ids[..k], rounds[..k], maxMissed)
      {
        assert ids[..k + 1][..k] == ids[..k] && rounds[..k + 1][..k] == rounds[..k];
        CheckOne(ids[k], rounds[k], maxMissed);
      }
      assert ids[..|ids|] == ids && rounds[..|ids|] == rounds;
    }
  }

  /** Checks of these ids, one after another; each looks its id up. */
  function Pass(shards: seq<Shard>, ids: seq<string>, rounds: seq<Round>, maxMissed: int): seq<Shard>
    requires |ids| == |rounds|
  {
    if ids == [] then shards
    else
      var n := |ids| - 1;
      var before := Pass(shards, ids[..n], rounds[..n], maxMissed);
      var i := IndexOf(before, ids[n]);
      if i == |before| then before else before[i := CheckShard(before[i], rounds[n], maxMissed)]
  }

  /** The rounds of a pass that concern one id. */
  function RoundsOf(ids: seq<string>, rounds: seq<Round>, id: string): seq<Round>
    requires |ids| == |rounds|
  {
    if ids == [] then []
    else
      var n := |ids| - 1;
      RoundsOf(ids[..n], rounds[..n], id) + (if ids[n] == id then [rounds[n]] else [])
  }

  lemma {:induction false} PassKeepsIds(shards: seq<Shard>, ids: seq<string>, rounds: seq<Round>, maxMissed: int)
    requires |ids| == |rounds|
    ensures |Pass(shards, ids, rounds, maxMissed)| == |shards|
    ensures forall i :: 0 <= i < |shards| ==> Pass(shards, ids, rounds, maxMissed)[i].id == shards[i].id
  {
    if ids != [] { PassKeepsIds(shards, ids[..|ids| - 1], rounds[..|ids| - 1], maxMissed); }
  }

  /** What a pass does to each shard. The first shard of an id gets every round of that id; a shard whose id
      another one before it has as well is never checked. */
  lemma {:induction false} PassOfEachShard(shards: seq<Shard>, ids: seq<string>, rounds: seq<Round>, i: nat,
                                           maxMissed: int)
    requires |ids| == |rounds| && i < |shards|
    ensures |Pass(shards, ids, rounds, maxMissed)| == |shards|
    ensures Pass(shards, ids, rounds, maxMissed)[i]
            == if IndexOf(shards, shards[i].id) < i then shards[i]
               else After(shards[i], RoundsOf(ids, rounds, shards[i].id), maxMissed)
  {
    PassKeepsIds(shards, ids, rounds, maxMissed);
    if ids != [] {
      var n := |ids| - 1;
      var before := Pass(shards, ids[..n], rounds[..n], maxMissed);
      PassOfEachShard(shards, ids[..n], rounds[..n], i, maxMissed);
      PassKeepsIds(shards, ids[..n], rounds[..n], maxMissed);
      SameIndex(shards, before, ids[n]);
      var so := RoundsOf(ids[..n], rounds[..n], shards[i].id);
      AfterSnoc(shards[i], so, rounds[n], maxMissed);
      assert RoundsOf(ids, rounds, shards[i].id) == if ids[n] == shards[i].id then so + [rounds[n]] else so;
    }
  }

  lemma AfterSnoc(s: Shard, rounds: seq<Round>, r: Round, maxMissed: int)
    ensures After(s, rounds + [r], maxMissed) == CheckShard(After(s, rounds, maxMissed), r, maxMissed)
  {
    assert (rounds + [r])[..|rounds|] == rounds;
  }

  predicate DistinctIds(shards: seq<Shard>) {
    forall i, j :: 0 <= i < j < |shards| ==> shards[i].id != shards[j].id
  }

  /** With distinct ids every shard is checked exactly once in a pass. */
  lemma EveryShardOnce(was: seq<Shard>, rounds: seq<Round>, i: nat, maxMissed: int)
    requires DistinctIds(was) && |rounds| == |was| && i < |was|
    ensures |Pass(was, Ids(was), rounds, maxMissed)| == |was|
    ensures Pass(was, Ids(was), rounds, maxMissed)[i] == CheckShard(was[i], rounds[i], maxMissed)
  {
    PassOfEachShard(was, Ids(was), rounds, i, maxMissed);
    OneRound(was, rounds, i, |was|);
    assert Ids(was)[..|was|] == Ids(was) && rounds[..|was|] == rounds;
    assert [rounds[i]][..0] == [];
    assert After(was[i], [rounds[i]], maxMissed) == CheckShard(After(was[i], [], maxMissed), rounds[i], maxMissed);
  }

  lemma {:induction false} OneRound(was: seq<Shard>, rounds: seq<Round>, i: nat, n: nat)
    requires DistinctIds(was) && |rounds| == |was| && i < |was| && n <= |was|
    ensures RoundsOf(Ids(was)[..n], rounds[..n], was[i].id) == if i < n then [rounds[i]] else []
  {
    if n > 0 {
      OneRound(was, rounds, i, n - 1);
      assert Ids(was)[..n][..n - 1] == Ids(was)[..n - 1] && rounds[..n][..n - 1] == rounds[..n - 1];
    }
  }

  function ActiveAddress(shards: seq<Shard>, id: string): string {
    var i := IndexOf(shards, id);
    if i == |shards| then "" else shards[i].activeAddress
  }

  /** The position of an id does not depend on anything but the ids. */
  lemma SameIndex(a: seq<Shard>, b: seq<Shard>, id: string)
    requires |a| == |b| && forall i :: 0 <= i < |a| ==> a[i].id == b[i].id
    ensures IndexOf(a, id) == IndexOf(b, id)
  {
    var i, j := IndexOf(a, id), IndexOf(b, id);
    assert i < |a| ==> b[i].id == id;
    assert j < |b| ==> a[j].id == id;
  }

  // ---------------------------------------------------------------- routing

  /** Where the router sends a key: the ring picks the shard, the topology picks the node. */
  ghost function AddressFor(ring: Ring.Ring, shards: seq<Shard>, key: string): string
    requires Ring.OnRing(ring)
  {
    ActiveAddress(shards, Ring.Owner(ring, Hash.Position(key)))
  }

  function Ids(shards: seq<Shard>): seq<string> {
    seq(|shards|, i requires 0 <= i < |shards| => shards[i].id)
  }

  predicate FreshShards(shards: seq<Shard>) {
    forall i :: 0 <= i < |shards| ==>
      shards[i] == NewShard(shards[i].id, shards[i].primary.address, shards[i].replica.address)
  }

  lemma ActiveAfterPass(shards: seq<Shard>, ids: seq<string>, rounds: seq<Round>, id: string, maxMissed: int)
    requires FreshShards(shards) && |ids| == |rounds| && IndexOf(shards, id) < |shards|
    ensures var s := shards[IndexOf(shards, id)];
            ActiveAddress(Pass(shards, ids, rounds, maxMissed), id)
            == if s.replica.address != "" && EverDue(RoundsOf(ids, rounds, id), maxMissed)
               then s.replica.address else s.primary.address
  {
    var i := IndexOf(shards, id);
    var s := shards[i];
    PassKeepsIds(shards, ids, rounds, maxMissed);
    SameIndex(shards, Pass(shards, ids, rounds, maxMissed), id);
    PassOfEachShard(shards, ids, rounds, i, maxMissed);
    FailedOverIffPromotionWasDue(s.id, s.primary.address, s.replica.address, RoundsOf(ids, rounds, id), maxMissed);
  }

  /** Routing under failover. After any checks of any ids, starting from the configuration, a key is served by
      the shard that the ring gave it at the beginning: by its replica if it has one and some round of that
      shard was due for promotion, and otherwise by its primary. */
  lemma RouteFollowsFailover(shards: seq<Shard>, n: nat, ids: seq<string>, rounds: seq<Round>, maxMissed: int,
                             key: string)
    requires shards != [] && n > 0 && FreshShards(shards) && |ids| == |rounds|
    ensures var ring := Ring.Build(Ids(shards), n);
            && Ring.OnRing(ring)
            && var owner := Ring.Owner(ring, Hash.Position(key));
               var i := IndexOf(shards, owner);
               && i < |shards|
               && AddressFor(ring, Pass(shards, ids, rounds, maxMissed), key)
                  == if shards[i].replica.address != "" && EverDue(RoundsOf(ids, rounds, owner), maxMissed)
                     then shards[i].replica.address else shards[i].primary.address
  {
    Ring.OwnerIsAShard(Ids(shards), n, Hash.Position(key));
    var owner := Ring.Owner(Ring.Build(Ids(shards), n), Hash.Position(key));
    var j :| 0 <= j < |shards| && Ids(shards)[j] == owner;
    ActiveAfterPass(shards, ids, rounds, owner, maxMissed);
  }
}
