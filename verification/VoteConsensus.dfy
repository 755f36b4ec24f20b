/** cluster_bft_consensus.py: collecting votes for one threat hash, and what a confirmed threat
    says about the rest of the cluster. The socket and the clock are a sequence of poll results;
    the window closes where the sequence ends. */
module VoteConsensus {
  import opened Basics

  /** One turn of the polling loop: nothing to read, a datagram that does not parse, or a claim
      (the message type is not looked at). */
  datatype Poll = Quiet | Malformed | Claim(peerId: int, peerHash: string)

  /** The ids that count as voters for the target: the node itself and, within range, every id
      that claimed the target hash. */
  function Voters(self: nat, n: nat, target: string, polls: seq<Poll>): (v: set<nat>)
    requires self < n
    ensures self in v && forall i :: i in v ==> i < n
  {
    if |polls| == 0 then {self}
    else Voters(self, n, target, polls[..|polls| - 1]) + VoteOf(n, target, polls[|polls| - 1])
  }

  function VoteOf(n: nat, target: string, poll: Poll): (v: set<nat>)
    ensures |v| <= 1
  {
    if poll.Claim? && 0 <= poll.peerId < n && poll.peerHash == target then {poll.peerId} else {}
  }

  function Quorum(f: nat): nat { 2 * f + 1 }

  predicate Confirms(self: nat, n: nat, f: nat, target: string, polls: seq<Poll>)
    requires self < n
  {
    |Voters(self, n, target, polls)| >= Quorum(f)
  }

  lemma {:induction false} InVoters(self: nat, n: nat, target: string, polls: seq<Poll>, i: nat)
    requires self < n && i < n
    ensures i in Voters(self, n, target, polls) <==> i == self || Claim(i, target) in polls
  {
    if |polls| > 0 {
      var k := |polls| - 1;
      InVoters(self, n, target, polls[..k], i);
      assert polls == polls[..k] + [polls[k]];
    }
  }

  lemma {:induction false} VotersGrow(self: nat, n: nat, target: string, polls: seq<Poll>, k: nat)
    requires self < n && k <= |polls|
    ensures Voters(self, n, target, polls[..k]) <= Voters(self, n, target, polls)
    decreases |polls|
  {
    if k == |polls| {
      assert polls[..k] == polls;
    } else {
      VotersGrow(self, n, target, polls[..|polls| - 1], k);
      assert polls[..|polls| - 1][..k] == polls[..k];
    }
  }

  lemma SubsetSize(a: set<nat>, b: set<nat>)
    requires a <= b
    ensures |a| <= |b|
  {
    assert b == a + (b - a);
  }

  lemma AddOne(v: set<nat>, more: set<nat>)
    requires |more| <= 1
    ensures |v + more| == |v| + if more <= v then 0 else 1
  {
    assert v + more == v + (more - v);
    if !(more <= v) { SubsetSize(more - v, more); assert |more - v| > 0; }
  }

  function Upto(n: nat): (s: set<nat>)
    ensures |s| == n && forall i: nat :: i in s <==> i < n
  {
    if n == 0 then {} else Upto(n - 1) + {n - 1}
  }

  // ---- the engine ----

  class Engine {
    const nodeId: nat
    const N: nat
    const f: nat
    const voteLedger: array<int>

    ghost predicate Valid() {
      nodeId < N && N >= 3 * f + 1 && voteLedger.Length == N
    }

    constructor (nodeId: nat, n: nat, f: nat)
      requires nodeId < n && n >= 3 * f + 1
      ensures Valid() && this.nodeId == nodeId && N == n && this.f == f && fresh(voteLedger)
    {
      this.nodeId := nodeId;
      N := n;
      this.f := f;
      voteLedger := new int[n](_ => 0);
    }

    /** The ledger marks exactly the ids in v. */
    ghost predicate Marks(v: set<nat>)
      requires Valid()
      reads voteLedger
    {
      forall i: nat :: i < N ==> (voteLedger[i] == 0 || voteLedger[i] == 1) && (voteLedger[i] == 1 <==> i in v)
    }

    /** True exactly when 2f+1 distinct ids voted for the target within the window, whether or not
        the loop stopped early; the ledger marks the voters counted. */
    method AwaitConsensus(targetHash: string, polls: seq<Poll>) returns (confirmed: bool, ghost consumed: nat)
      requires Valid()
      modifies voteLedger
      ensures confirmed <==> Confirms(nodeId, N, f, targetHash, polls)
      ensures consumed <= |polls| && Marks(Voters(nodeId, N, targetHash, polls[..consumed]))
      ensures consumed < |polls| ==> confirmed
    {
      for i := 0 to N
        invariant forall k :: 0 <= k < i ==> voteLedger[k] == 0
      {
        voteLedger[i] := 0;
      }
      voteLedger[nodeId] := 1;
      var votesCollected := 1;
      for i := 0 to |polls|
        invariant Marks(Voters(nodeId, N, targetHash, polls[..i]))
        invariant votesCollected == |Voters(nodeId, N, targetHash, polls[..i])|
      {
        if votesCollected >= Quorum(f) {
          VotersGrow(nodeId, N, targetHash, polls, i);
          SubsetSize(Voters(nodeId, N, targetHash, polls[..i]), Voters(nodeId, N, targetHash, polls));
          return true, i;
        }
        assert polls[..i + 1][..i] == polls[..i];
        AddOne(Voters(nodeId, N, targetHash, polls[..i]), VoteOf(N, targetHash, polls[i]));
        if polls[i].Claim? {
          var peerId := polls[i].peerId;
          if 0 <= peerId < N && voteLedger[peerId] == 0 {
            if polls[i].peerHash == targetHash {
              voteLedger[peerId] := 1;
              votesCollected := votesCollected + 1;
            }
          }
        }
      }
      assert polls[..|polls|] == polls;
      return votesCollected >= Quorum(f), |polls|;
    }
  }

  /** The constructor's guard: None where it raises. */
  method Open(nodeId: nat, n: nat, f: nat) returns (engine: Option<Engine>)
    requires nodeId < n
    ensures engine.Some? <==> n >= 3 * f + 1
    ensures engine.Some? ==> engine.value.Valid() && engine.value.nodeId == nodeId && engine.value.N == n && engine.value.f == f
  {
    if n < 3 * f + 1 { return None; }
    var e := new Engine(nodeId, n, f);
    engine := Some(e);
  }

  // ---- what a confirmation is worth ----

  /** At least f + 1 of the voters are outside any f faulty ids. */
  lemma HonestSupport(self: nat, n: nat, f: nat, target: string, polls: seq<Poll>, faulty: set<nat>)
    requires self < n && Confirms(self, n, f, target, polls) && |faulty| <= f
    ensures |Voters(self, n, target, polls) - faulty| >= f + 1
  {
    var v := Voters(self, n, target, polls);
    assert v == (v - faulty) + (v * faulty);
    SubsetSize(v * faulty, faulty);
  }

  /** Every id outside `faulty` claims one hash this round, and claims under its name are its own. */
  ghost predicate Consistent(claim: map<nat, string>, faulty: set<nat>, self: nat, n: nat, target: string, polls: seq<Poll>)
    requires self < n
  {
    (self !in faulty ==> self in claim && claim[self] == target)
    && forall i: nat, h: string :: i < n && i !in faulty && Claim(i, h) in polls ==> i in claim && claim[i] == h
  }

  /** Two nodes confirm, h and g, in one round with at most f faulty ids. */
  ghost predicate Split(n: nat, f: nat, faulty: set<nat>, claim: map<nat, string>, p: nat, q: nat, h: string, g: string, ps: seq<Poll>, qs: seq<Poll>) {
    p < n && q < n && |faulty| <= f
    && Consistent(claim, faulty, p, n, h, ps) && Consistent(claim, faulty, q, n, g, qs)
    && Confirms(p, n, f, h, ps) && Confirms(q, n, f, g, qs)
  }

  /** Two nodes that confirm in the same round confirm the same hash. */
  ghost predicate Agreement(n: nat, f: nat) {
    forall faulty: set<nat>, claim: map<nat, string>, p: nat, q: nat, h: string, g: string, ps: seq<Poll>, qs: seq<Poll> ::
      Split(n, f, faulty, claim, p, q, h, g, ps, qs) ==> h == g
  }

  /** Two quorums out of 3f + 1 share an id outside any f. */
  lemma QuorumsMeet(n: nat, f: nat, v: set<nat>, w: set<nat>, faulty: set<nat>) returns (j: nat)
    requires n <= 3 * f + 1 && v <= Upto(n) && w <= Upto(n) && |v| >= Quorum(f) && |w| >= Quorum(f) && |faulty| <= f
    ensures j in v && j in w && j !in faulty
  {
    SubsetSize(v + w, Upto(n));
    var both := v * w;
    assert |v + w| + |both| == |v| + |w|;
    assert both == (both - faulty) + (both * faulty);
    SubsetSize(both * faulty, faulty);
    assert |both - faulty| > 0;
    j :| j in both - faulty;
  }

  lemma ExactClustersAgree(n: nat, f: nat, faulty: set<nat>, claim: map<nat, string>, p: nat, q: nat, h: string, g: string, ps: seq<Poll>, qs: seq<Poll>)
    requires n <= 3 * f + 1 && Split(n, f, faulty, claim, p, q, h, g, ps, qs)
    ensures h == g
  {
    var j := QuorumsMeet(n, f, Voters(p, n, h, ps), Voters(q, n, g, qs), faulty);
    InVoters(p, n, h, ps, j);
    InVoters(q, n, g, qs, j);
  }

  /** The ids below f are faulty and vote for both; ids up to 2f stand for "a", the rest for "b". */
  function Side(f: nat, i: nat): string { if i <= 2 * f then "a" else "b" }

  function Heard(n: nat, f: nat, lie: string): (polls: seq<Poll>)
    ensures |polls| == n && forall i :: 0 <= i < n ==> polls[i] == Claim(i, if i < f then lie else Side(f, i))
  {
    seq(n, i requires 0 <= i < n => Claim(i, if i < f then lie else Side(f, i)))
  }

  function Claims(n: nat, f: nat): map<nat, string> { map i: nat | i in Upto(n) :: Side(f, i) }

  lemma HeardIsConsistent(n: nat, f: nat, self: nat, lie: string)
    requires f <= self < n && Side(f, self) == lie
    ensures Consistent(Claims(n, f), Upto(f), self, n, lie, Heard(n, f, lie))
  {
  }

  lemma OneSideConfirms(n: nat, f: nat)
    requires n >= 3 * f + 2
    ensures Confirms(f, n, f, "a", Heard(n, f, "a"))
  {
    var polls := Heard(n, f, "a");
    forall i: nat | i < 2 * f + 1 ensures i in Voters(f, n, "a", polls) {
      assert polls[i] == Claim(i, "a");
      InVoters(f, n, "a", polls, i);
    }
    SubsetSize(Upto(2 * f + 1), Voters(f, n, "a", polls));
  }

  lemma OtherSideConfirms(n: nat, f: nat)
    requires n >= 3 * f + 2
    ensures Confirms(2 * f + 1, n, f, "b", Heard(n, f, "b"))
  {
    var polls, self := Heard(n, f, "b"), 2 * f + 1;
    var w := Upto(f) + (Upto(3 * f + 2) - Upto(2 * f + 1));
    SplitSize(f);
    forall i: nat | i in w ensures i in Voters(self, n, "b", polls) {
      assert polls[i] == Claim(i, "b");
      InVoters(self, n, "b", polls, i);
    }
    SubsetSize(w, Voters(self, n, "b", polls));
  }

  lemma SplitSize(f: nat)
    ensures |Upto(f) + (Upto(3 * f + 2) - Upto(2 * f + 1))| == 2 * f + 1
  {
    var rest := Upto(3 * f + 2) - Upto(2 * f + 1);
    assert Upto(3 * f + 2) == Upto(2 * f + 1) + rest;
    assert Upto(f) !! rest;
  }

  /** With a node to spare, f faulty ids that vote both ways split the cluster. */
  lemma SpareNodeSplits(n: nat, f: nat)
    requires n >= 3 * f + 2
    ensures !Agreement(n, f)
  {
    hide Confirms, Consistent, Heard;
    HeardIsConsistent(n, f, f, "a");
    HeardIsConsistent(n, f, 2 * f + 1, "b");
    OneSideConfirms(n, f);
    OtherSideConfirms(n, f);
    assert Split(n, f, Upto(f), Claims(n, f), f, 2 * f + 1, "a", "b", Heard(n, f, "a"), Heard(n, f, "b"));
    assert "a"[0] != "b"[0];
  }

  /** The constructor admits n >= 3f + 1, but the fixed quorum of 2f + 1 gives agreement for
      n = 3f + 1 alone. */
  lemma AgreementExactly(n: nat, f: nat)
    requires n >= 3 * f + 1
    ensures Agreement(n, f) <==> n == 3 * f + 1
  {
    if n == 3 * f + 1 {
      forall faulty: set<nat>, claim: map<nat, string>, p: nat, q: nat, h: string, g: string, ps: seq<Poll>, qs: seq<Poll> |
        Split(n, f, faulty, claim, p, q, h, g, ps, qs)
        ensures h == g
      {
        ExactClustersAgree(n, f, faulty, claim, p, q, h, g, ps, qs);
      }
    } else {
      SpareNodeSplits(n, f);
    }
  }
}
