/** A replicated, hash-chained log: quorum-guarded proposals, and catch-up by deltas that may be lost, repeated or
    reordered. */
module Replica {
  import opened Options
  import opened Events
  import opened Strings

  type Hasher = string -> string

  /** A logged change. The payload is its canonical text; the acknowledgement count is not hashed. */
  datatype Mutation = Mutation(sequenceId: int, fence: int, payload: string, commitHash: string, acks: int)

  datatype PeerStatus = Active | Degraded | Unreachable

  datatype ReplicaError = QuorumUnavailable(got: nat, needed: nat) | StaleDelta(sequence: int)

  const GENESIS := "GENESIS"

  // ------------------------------------------------------------- the hash chain

  function Content(sequenceId: int, fence: int, prev: string, payload: string): string {
    Digits(sequenceId) + ":" + (Digits(fence) + ":" + (prev + ":" + payload))
  }

  function PrevHash(log: seq<Mutation>): string {
    if log == [] then GENESIS else log[|log| - 1].commitHash
  }

  /** The text entry i of a log is hashed from. */
  function ContentAt(log: seq<Mutation>, i: nat): string
    requires i < |log|
  {
    Content(log[i].sequenceId, log[i].fence, PrevHash(log[..i]), log[i].payload)
  }

  predicate Chained(sha: Hasher, log: seq<Mutation>) {
    forall i: nat | i < |log| :: log[i].sequenceId == i + 1 && log[i].commitHash == sha(ContentAt(log, i))
  }

  lemma ChainedAppend(sha: Hasher, log: seq<Mutation>, m: Mutation)
    requires Chained(sha, log)
    ensures Chained(sha, log + [m]) <==>
            m.sequenceId == |log| + 1 && m.commitHash == sha(Content(m.sequenceId, m.fence, PrevHash(log), m.payload))
  {
    var longer := log + [m];
    assert longer[..|log|] == log;
    forall i: nat | i < |log| ensures ContentAt(longer, i) == ContentAt(log, i) {
      assert longer[..i] == log[..i];
    }
    if Chained(sha, longer) {
      assert longer[|log|] == m && longer[|log|].commitHash == sha(ContentAt(longer, |log|));
    }
  }

  lemma {:induction false} DigitsClean(n: int)
    ensures ':' !in Digits(n) && Digits(n) != []
    ensures n < 0 <==> Digits(n)[0] == '-'
    decreases if n < 0 then 1 else 0, if n < 0 then -n else n
  {
    if n < 0 {
      DigitsClean(-n);
    } else if n >= 10 {
      DigitsClean(n / 10);
    }
  }

  lemma SameDigits(a: int, b: int)
    requires Digits(a) == Digits(b)
    ensures a == b
  {
    DigitsClean(a);
    DigitsClean(b);
    if a >= 0 && b >= 0 {
      DigitsInjective(a, b);
    } else if a < 0 && b < 0 {
      assert Digits(a)[1..] == Digits(-a) && Digits(b)[1..] == Digits(-b);
      DigitsInjective(-a, -b);
    }
  }

  /** The hashed text fixes what went into it, as long as hashes hold no colon. */
  lemma ContentInjective(s: int, f: int, prev: string, p: string, s': int, f': int, prev': string, p': string)
    requires Content(s, f, prev, p) == Content(s', f', prev', p') && ':' !in prev && ':' !in prev'
    ensures s == s' && f == f' && prev == prev' && p == p'
  {
    DigitsClean(s);
    DigitsClean(s');
    DigitsClean(f);
    DigitsClean(f');
    var rest, rest' := prev + ":" + p, prev' + ":" + p';
    assert Digits(s) + ":" + (Digits(f) + ":" + rest) == Digits(s') + ":" + (Digits(f') + ":" + rest');
    SplitAtColon(Digits(s), Digits(s'), Digits(f) + ":" + rest, Digits(f') + ":" + rest');
    SplitAtColon(Digits(f), Digits(f'), rest, rest');
    SplitAtColon(prev, prev', p, p');
    SameDigits(s, s');
    SameDigits(f, f');
  }

  ghost predicate HashesHoldNoColon(sha: Hasher) {
    forall x: string :: ':' !in sha(x)
  }

  /** No text hashed for one log collides with a different text hashed for the other. */
  predicate CollisionFree(sha: Hasher, a: seq<Mutation>, b: seq<Mutation>) {
    forall i: nat, j: nat | i < |a| && j < |b| && sha(ContentAt(a, i)) == sha(ContentAt(b, j)) ::
      ContentAt(a, i) == ContentAt(b, j)
  }

  /** Everything of an entry that its hash covers. */
  function Hashed(m: Mutation): (int, int, string, string) {
    (m.sequenceId, m.fence, m.payload, m.commitHash)
  }

  lemma PrevHashClean(sha: Hasher, log: seq<Mutation>, n: nat)
    requires Chained(sha, log) && HashesHoldNoColon(sha) && n <= |log|
    ensures ':' !in PrevHash(log[..n])
  {
    if n > 0 {
      assert log[..n][n - 1] == log[n - 1] && log[n - 1].commitHash == sha(ContentAt(log, n - 1));
    }
  }

  /** Entries with equal hashes have equal content, and follow entries with equal hashes. */
  lemma SameEntry(sha: Hasher, a: seq<Mutation>, i: nat, b: seq<Mutation>, j: nat)
    requires Chained(sha, a) && Chained(sha, b) && HashesHoldNoColon(sha) && CollisionFree(sha, a, b)
    requires i < |a| && j < |b| && a[i].commitHash == b[j].commitHash
    ensures i == j && Hashed(a[i]) == Hashed(b[j]) && PrevHash(a[..i]) == PrevHash(b[..j])
  {
    assert sha(ContentAt(a, i)) == sha(ContentAt(b, j));
    PrevHashClean(sha, a, i);
    PrevHashClean(sha, b, j);
    ContentInjective(a[i].sequenceId, a[i].fence, PrevHash(a[..i]), a[i].payload,
                     b[j].sequenceId, b[j].fence, PrevHash(b[..j]), b[j].payload);
  }

  lemma {:induction false} SameUpTo(sha: Hasher, a: seq<Mutation>, b: seq<Mutation>, n: nat)
    requires Chained(sha, a) && Chained(sha, b) && HashesHoldNoColon(sha) && CollisionFree(sha, a, b)
    requires n <= |a| && n <= |b| && (n > 0 ==> a[n - 1].commitHash == b[n - 1].commitHash)
    ensures forall i: nat | i < n :: Hashed(a[i]) == Hashed(b[i])
  {
    hide Chained, CollisionFree, HashesHoldNoColon;
    if n > 0 {
      SameEntry(sha, a, n - 1, b, n - 1);
      SameUpTo(sha, a, b, n - 1);
    }
  }

  /** Two valid chains that end in the same commit hash are the same log. */
  lemma LastHashFixesLog(sha: Hasher, a: seq<Mutation>, b: seq<Mutation>)
    requires Chained(sha, a) && Chained(sha, b) && HashesHoldNoColon(sha) && CollisionFree(sha, a, b)
    requires a != [] && b != [] && a[|a| - 1].commitHash == b[|b| - 1].commitHash
    ensures |a| == |b| && forall i: nat | i < |a| :: Hashed(a[i]) == Hashed(b[i])
  {
    SameEntry(sha, a, |a| - 1, b, |b| - 1);
    SameUpTo(sha, a, b, |a|);
  }

  // ------------------------------------------------------------- catching up

  /** What becomes of a log that is handed deltas, and the delta it stopped at, if any. */
  datatype Outcome = Outcome(log: seq<Mutation>, refused: Option<Mutation>)

  predicate Acceptable(sha: Hasher, log: seq<Mutation>, d: Mutation) {
    && (log == [] || log[|log| - 1].fence <= d.fence)
    && d.commitHash == sha(Content(d.sequenceId, d.fence, PrevHash(log), d.payload))
  }

  function Absorb(sha: Hasher, log: seq<Mutation>, deltas: seq<Mutation>): Outcome
    decreases |deltas|
  {
    if deltas == [] then Outcome(log, None)
    else if deltas[0].sequenceId != |log| + 1 then Absorb(sha, log, deltas[1..])
    else if Acceptable(sha, log, deltas[0]) then Absorb(sha, log + [deltas[0]], deltas[1..])
    else Outcome(log, Some(deltas[0]))
  }

  /** A log absorbs whatever deltas it is sent without breaking its chain or losing an entry. */
  lemma {:induction false} AbsorbKeepsChain(sha: Hasher, log: seq<Mutation>, deltas: seq<Mutation>)
    requires Chained(sha, log)
    ensures Chained(sha, Absorb(sha, log, deltas).log) && log <= Absorb(sha, log, deltas).log
    decreases |deltas|
  {
    if deltas != [] {
      ChainedAppend(sha, log, deltas[0]);
      if deltas[0].sequenceId == |log| + 1 && Acceptable(sha, log, deltas[0]) {
        AbsorbKeepsChain(sha, log + [deltas[0]], deltas[1..]);
      } else if deltas[0].sequenceId != |log| + 1 {
        AbsorbKeepsChain(sha, log, deltas[1..]);
      }
    }
  }

  predicate DrawnFrom(deltas: seq<Mutation>, leader: seq<Mutation>) {
    forall d | d in deltas :: d in leader
  }

  /** The fence of entry n is lower than the one before. */
  predicate FenceDrops(leader: seq<Mutation>, n: nat) {
    0 < n < |leader| && leader[n].fence < leader[n - 1].fence
  }

  lemma NextEntry(sha: Hasher, leader: seq<Mutation>, n: nat, d: Mutation)
    requires Chained(sha, leader) && n <= |leader| && d in leader && d.sequenceId == n + 1
    ensures n < |leader| && d == leader[n]
    ensures Acceptable(sha, leader[..n], d) <==> !FenceDrops(leader, n)
  {
    var i :| 0 <= i < |leader| && leader[i] == d;
    assert leader[i].sequenceId == i + 1;
    assert d.commitHash == sha(ContentAt(leader, n));
    if n > 0 {
      assert leader[..n][n - 1] == leader[n - 1];
    }
  }

  /** The log is the leader's up to some entry from n on, and was not stopped before a drop of the fence. */
  predicate Follows(leader: seq<Mutation>, n: nat, log: seq<Mutation>) {
    && n <= |log| <= |leader| && log == leader[..|log|]
    && (forall k: nat | n <= k < |log| :: !FenceDrops(leader, k))
  }

  /** From any selection of a leader's entries, in any order and number, a follower takes no more than the
      leader's own continuation; it refuses one only where the leader's fence drops. */
  lemma {:induction false} FollowerIsPrefix(sha: Hasher, leader: seq<Mutation>, n: nat, deltas: seq<Mutation>)
    requires Chained(sha, leader) && n <= |leader| && DrawnFrom(deltas, leader)
    ensures var r := Absorb(sha, leader[..n], deltas);
            Follows(leader, n, r.log) && (r.refused.Some? ==> FenceDrops(leader, |r.log|))
    decreases |deltas|
  {
    hide Chained, FenceDrops, Acceptable;
    if deltas != [] {
      var d := deltas[0];
      assert d in deltas && |leader[..n]| == n;
      if d.sequenceId != n + 1 {
        FollowerIsPrefix(sha, leader, n, deltas[1..]);
      } else {
        NextEntry(sha, leader, n, d);
        if Acceptable(sha, leader[..n], d) {
          assert leader[..n] + [d] == leader[..n + 1];
          FollowerIsPrefix(sha, leader, n + 1, deltas[1..]);
        }
      }
    }
  }

  /** The state of a follower after a run of batches. */
  function AbsorbAll(sha: Hasher, log: seq<Mutation>, batches: seq<seq<Mutation>>): seq<Mutation>
    decreases |batches|
  {
    if batches == [] then log else AbsorbAll(sha, Absorb(sha, log, batches[0]).log, batches[1..])
  }

  /** Over a whole run, whatever the network does and however often a batch is refused, a follower that starts as
      a prefix of the leader stays one, and never passes a drop of the fence. */
  lemma {:induction false} FollowerStaysPrefix(sha: Hasher, leader: seq<Mutation>, n: nat, batches: seq<seq<Mutation>>)
    requires Chained(sha, leader) && n <= |leader| && forall b | b in batches :: DrawnFrom(b, leader)
    ensures Follows(leader, n, AbsorbAll(sha, leader[..n], batches))
    decreases |batches|
  {
    if batches != [] {
      assert batches[0] in batches;
      FollowerIsPrefix(sha, leader, n, batches[0]);
      FollowerStaysPrefix(sha, leader, |Absorb(sha, leader[..n], batches[0]).log|, batches[1..]);
    }
  }

  predicate NoDrop(leader: seq<Mutation>, n: nat) {
    forall k: nat | n <= k < |leader| :: !FenceDrops(leader, k)
  }

  lemma DropSplits(leader: seq<Mutation>, n: nat)
    requires n < |leader|
    ensures NoDrop(leader, n) <==> !FenceDrops(leader, n) && NoDrop(leader, n + 1)
  {
    hide FenceDrops;
  }

  /** Full catch-up delivers the rest of the leader's log, and makes the logs equal exactly if no fence drops in
      it. Proposals do not look at fences, so a leader can make a log that nobody can follow. */
  lemma {:induction false} CatchUpCompletes(sha: Hasher, leader: seq<Mutation>, n: nat)
    requires Chained(sha, leader) && n <= |leader|
    ensures var r := Absorb(sha, leader[..n], leader[n..]);
            && (r.log == leader <==> NoDrop(leader, n))
            && (r.refused.None? <==> r.log == leader)
    decreases |leader| - n
  {
    hide Chained, FenceDrops, Absorb, NoDrop;
    if n < |leader| {
      CatchUpStep(sha, leader, n);
      DropSplits(leader, n);
      if !FenceDrops(leader, n) {
        CatchUpCompletes(sha, leader, n + 1);
      }
    } else {
      CaughtUp(sha, leader);
    }
  }

  lemma CaughtUp(sha: Hasher, leader: seq<Mutation>)
    ensures leader[..|leader|] == leader && leader[|leader|..] == [] && NoDrop(leader, |leader|)
    ensures Absorb(sha, leader, []) == Outcome(leader, None)
  {
  }

  /** The batch holds what the follower misses, in order, at the given places, among whatever else. */
  predicate DeliversAt(batch: seq<Mutation>, leader: seq<Mutation>, n: nat, places: seq<nat>) {
    && |places| == |leader| - n
    && (forall i: nat | i < |places| :: places[i] < |batch| && batch[places[i]] == leader[n + i])
    && (forall i: nat, j: nat | i < j < |places| :: places[i] < places[j])
  }

  ghost predicate Delivers(batch: seq<Mutation>, leader: seq<Mutation>, n: nat) {
    exists places :: DeliversAt(batch, leader, n, places)
  }

  /** Entries of the leader's log, or ones with numbers the follower has. */
  predicate OldOrLeaders(batch: seq<Mutation>, leader: seq<Mutation>, n: nat) {
    forall d | d in batch :: d in leader || d.sequenceId <= n
  }

  function Down(i: nat): nat {
    if i == 0 then 0 else i - 1
  }

  function Earlier(places: seq<nat>): seq<nat> {
    seq(|places|, i requires 0 <= i < |places| => Down(places[i]))
  }

  function Up(i: nat): nat {
    i + 1
  }

  function Later(places: seq<nat>): seq<nat> {
    seq(|places|, i requires 0 <= i < |places| => Up(places[i]))
  }

  /** Places behind the first entry of the batch are places in the rest of it. */
  lemma PlacesInRest(batch: seq<Mutation>, leader: seq<Mutation>, n: nat, places: seq<nat>)
    requires batch != [] && n <= |leader| && DeliversAt(batch, leader, n, places) && forall p | p in places :: p >= 1
    ensures DeliversAt(batch[1..], leader, n, Earlier(places))
  {
    var q := Earlier(places);
    forall i: nat | i < |q| ensures q[i] < |batch[1..]| && batch[1..][q[i]] == leader[n + i] {
      assert places[i] in places;
      assert q[i] == places[i] - 1 && batch[places[i]] == leader[n + i];
    }
    forall i: nat, j: nat | i < j < |q| ensures q[i] < q[j] {
      assert places[i] in places && places[i] < places[j];
    }
  }

  lemma PlacesInWhole(batch: seq<Mutation>, leader: seq<Mutation>, n: nat, places: seq<nat>)
    requires batch != [] && n <= |leader| && DeliversAt(batch[1..], leader, n, places)
    ensures DeliversAt(batch, leader, n, Later(places)) && forall p | p in Later(places) :: p >= 1
  {
    var q := Later(places);
    forall i: nat | i < |q| ensures q[i] < |batch| && batch[q[i]] == leader[n + i] {
      assert q[i] == places[i] + 1 && batch[1..][places[i]] == leader[n + i];
    }
    forall i: nat, j: nat | i < j < |q| ensures q[i] < q[j] {
      assert places[i] < places[j];
    }
  }

  lemma FirstPlace(batch: seq<Mutation>, leader: seq<Mutation>, n: nat, places: seq<nat>)
    requires n < |leader| && DeliversAt(batch, leader, n, places)
    ensures places != [] && places[0] < |batch| && batch[places[0]] == leader[n]
    ensures DeliversAt(batch, leader, n + 1, places[1..])
    ensures forall p | p in places[1..] :: p >= 1
    ensures places[0] != 0 ==> forall p | p in places :: p >= 1
  {
    var tail := places[1..];
    assert batch[places[0]] == leader[n + 0];
    forall i: nat | i < |tail| ensures tail[i] < |batch| && batch[tail[i]] == leader[n + 1 + i] && tail[i] > places[0] {
      assert batch[places[i + 1]] == leader[n + (i + 1)] && places[0] < places[i + 1];
    }
    assert places == [places[0]] + tail;
  }

  lemma PlaceFirst(batch: seq<Mutation>, leader: seq<Mutation>, n: nat, tail: seq<nat>)
    requires batch != [] && n < |leader| && batch[0] == leader[n] && DeliversAt(batch, leader, n + 1, tail)
    requires forall p | p in tail :: p >= 1
    ensures DeliversAt(batch, leader, n, [0] + tail)
  {
    var places := [0] + tail;
    forall i: nat | i < |places| ensures places[i] < |batch| && batch[places[i]] == leader[n + i] {
      assert i > 0 ==> batch[tail[i - 1]] == leader[n + 1 + (i - 1)];
    }
    forall i: nat, j: nat | i < j < |places| ensures places[i] < places[j] {
      assert tail[j - 1] in tail && (i > 0 ==> tail[i - 1] < tail[j - 1]);
    }
  }

  lemma DeliversRest(batch: seq<Mutation>, leader: seq<Mutation>, n: nat)
    requires batch != [] && n < |leader|
    ensures batch[0] == leader[n] ==> (Delivers(batch, leader, n) <==> Delivers(batch[1..], leader, n + 1))
    ensures batch[0] != leader[n] ==> (Delivers(batch, leader, n) <==> Delivers(batch[1..], leader, n))
  {
    hide DeliversAt, Earlier, Later;
    if Delivers(batch, leader, n) {
      var places :| DeliversAt(batch, leader, n, places);
      FirstPlace(batch, leader, n, places);
      if batch[0] == leader[n] {
        PlacesInRest(batch, leader, n + 1, places[1..]);
      } else {
        PlacesInRest(batch, leader, n, places);
      }
    }
    if batch[0] == leader[n] && Delivers(batch[1..], leader, n + 1) {
      var tail :| DeliversAt(batch[1..], leader, n + 1, tail);
      PlacesInWhole(batch, leader, n + 1, tail);
      PlaceFirst(batch, leader, n, Later(tail));
    }
    if batch[0] != leader[n] && Delivers(batch[1..], leader, n) {
      var same :| DeliversAt(batch[1..], leader, n, same);
      PlacesInWhole(batch, leader, n, same);
    }
  }

  lemma DeliversNothing(batch: seq<Mutation>, leader: seq<Mutation>)
    ensures Delivers(batch, leader, |leader|)
    ensures batch == [] ==> forall n: nat | n < |leader| :: !Delivers(batch, leader, n)
  {
    assert DeliversAt(batch, leader, |leader|, []);
    forall n: nat, places | n < |leader| && DeliversAt([], leader, n, places) ensures false {
      PlaceInBatch([], leader, n, places);
    }
  }

  lemma PlaceInBatch(batch: seq<Mutation>, leader: seq<Mutation>, n: nat, places: seq<nat>)
    requires n < |leader| && DeliversAt(batch, leader, n, places)
    ensures batch != []
  {
    assert places[0] < |batch|;
  }

  /** A batch of the leader's entries and repeated ones, in any order and number, brings the follower level with the
      leader exactly if it holds everything missing in order and no fence drops in what was missing. */
  lemma {:induction false} BatchCatchesUp(sha: Hasher, leader: seq<Mutation>, n: nat, batch: seq<Mutation>)
    requires Chained(sha, leader) && n <= |leader| && OldOrLeaders(batch, leader, n)
    ensures Absorb(sha, leader[..n], batch).log == leader <==> Delivers(batch, leader, n) && NoDrop(leader, n)
    decreases |batch|
  {
    hide Chained, Acceptable, Delivers, NoDrop;
    if batch == [] || n == |leader| {
      NothingMissing(sha, leader, n, batch);
    } else {
      var d := batch[0];
      assert d in batch;
      NumberFixesEntry(sha, leader, n, d);
      DeliversRest(batch, leader, n);
      DropSplits(leader, n);
      assert |leader[..n]| == n && leader[..n] != leader;
      if d.sequenceId != n + 1 {
        BatchCatchesUp(sha, leader, n, batch[1..]);
      } else {
        NextEntry(sha, leader, n, d);
        if Acceptable(sha, leader[..n], d) {
          assert leader[..n] + [d] == leader[..n + 1];
          BatchCatchesUp(sha, leader, n + 1, batch[1..]);
        }
      }
    }
  }

  lemma {:induction false} NothingMissing(sha: Hasher, leader: seq<Mutation>, n: nat, batch: seq<Mutation>)
    requires Chained(sha, leader) && n <= |leader| && OldOrLeaders(batch, leader, n) && (batch == [] || n == |leader|)
    ensures Absorb(sha, leader[..n], batch).log == leader[..n]
    ensures Absorb(sha, leader[..n], batch).log == leader <==> Delivers(batch, leader, n) && NoDrop(leader, n)
    decreases |batch|
  {
    hide Delivers, Acceptable, Chained;
    DeliversNothing(batch, leader);
    assert leader[..|leader|] == leader && |leader[..n]| == n;
    if batch != [] {
      assert batch[0] in batch;
      NumberFixesEntry(sha, leader, n, batch[0]);
      NothingMissing(sha, leader, n, batch[1..]);
    }
  }

  lemma NumberFixesEntry(sha: Hasher, leader: seq<Mutation>, n: nat, d: Mutation)
    requires Chained(sha, leader) && n <= |leader| && (d in leader || d.sequenceId <= n)
    ensures d.sequenceId == n + 1 ==> n < |leader| && d in leader && d == leader[n]
    ensures d.sequenceId != n + 1 && n < |leader| ==> d != leader[n]
  {
    if d.sequenceId == n + 1 {
      NextEntry(sha, leader, n, d);
    }
  }

  /** Catching up from a number behind the follower's: what it has already is skipped, and the rest completes it. */
  lemma OverlapCatchesUp(sha: Hasher, leader: seq<Mutation>, m: nat, n: nat)
    requires Chained(sha, leader) && m <= n <= |leader|
    ensures Absorb(sha, leader[..n], leader[m..]).log == leader <==> NoDrop(leader, n)
  {
    var batch := leader[m..];
    assert forall d | d in batch :: d in leader;
    var places := seq(|leader| - n, i requires 0 <= i < |leader| - n => n - m + i);
    assert DeliversAt(batch, leader, n, places);
    BatchCatchesUp(sha, leader, n, batch);
  }

  lemma CatchUpStep(sha: Hasher, leader: seq<Mutation>, n: nat)
    requires Chained(sha, leader) && n < |leader|
    ensures Absorb(sha, leader[..n], leader[n..]) ==
            if FenceDrops(leader, n) then Outcome(leader[..n], Some(leader[n]))
            else Absorb(sha, leader[..n + 1], leader[n + 1..])
    ensures leader[..n] != leader
  {
    assert leader[n].sequenceId == n + 1;
    NextEntry(sha, leader, n, leader[n]);
    hide Chained, FenceDrops, Acceptable;
    var rest := leader[n..];
    assert rest[0] == leader[n] && rest[1..] == leader[n + 1..] && leader[..n] + [leader[n]] == leader[..n + 1];
    assert |leader[..n]| == n;
  }

  lemma TextAssociates(s: string, f: string, prev: string, payload: string)
    ensures s + ":" + (f + ":" + (prev + ":" + payload)) == s + ":" + f + ":" + prev + ":" + payload
  {
  }

  // ------------------------------------------------------------- quorums

  function Quorum(peers: nat): nat {
    (1 + peers) / 2 + 1
  }

  /** A quorum is the smallest majority of the local node and its peers. */
  lemma QuorumIsLeast(peers: nat)
    ensures 2 * Quorum(peers) > 1 + peers >= 2 * (Quorum(peers) - 1)
  {
  }

  /** Any two quorums of the same cluster share a node. */
  lemma QuorumsMeet(cluster: set<Id>, peers: nat, a: set<Id>, b: set<Id>)
    requires |cluster| <= 1 + peers && a <= cluster && b <= cluster
    requires |a| >= Quorum(peers) && |b| >= Quorum(peers)
    ensures a * b != {}
  {
    if a * b == {} {
      assert |a + b| == |a| + |b|;
      Subset(a + b, cluster);
    }
  }

  /** The nodes of the cluster that a list of acknowledgements names. */
  function Voters(cluster: set<Id>, acks: seq<Id>): set<Id> {
    Elements(acks) * cluster
  }

  /** How many entries of the list name no node of the cluster, or one named before. */
  function Wasted(cluster: set<Id>, acks: seq<Id>): nat {
    if acks == [] then 0
    else
      var init, last := acks[..|acks| - 1], acks[|acks| - 1];
      Wasted(cluster, init) + if last !in cluster || last in init then 1 else 0
  }

  lemma {:induction false} VotersAndWasted(cluster: set<Id>, acks: seq<Id>)
    ensures |Voters(cluster, acks)| + Wasted(cluster, acks) == |acks|
  {
    if acks == [] {
      assert Voters(cluster, acks) == {};
    } else {
      hide Voters;
      var init, last := acks[..|acks| - 1], acks[|acks| - 1];
      VotersAndWasted(cluster, init);
      VotersNext(cluster, init, last);
      assert init + [last] == acks;
      assert Wasted(cluster, acks) == Wasted(cluster, init) + if last !in cluster || last in init then 1 else 0;
      if last in cluster && last in init {
        assert Voters(cluster, init) + {last} == Voters(cluster, init);
      }
    }
  }

  lemma VotersNext(cluster: set<Id>, acks: seq<Id>, x: Id)
    ensures x in Voters(cluster, acks) <==> x in cluster && x in acks
    ensures Voters(cluster, acks + [x]) == Voters(cluster, acks) + (if x in cluster then {x} else {})
  {
    var longer := acks + [x];
    forall y ensures y in Voters(cluster, longer) <==> y in Voters(cluster, acks) || (y == x && x in cluster) {
      assert y in longer <==> y in acks || y == x;
    }
  }

  lemma {:induction false} NothingWasted(cluster: set<Id>, acks: seq<Id>)
    ensures Wasted(cluster, acks) == 0 <==> Distinct(acks) && Elements(acks) <= cluster
  {
    if acks != [] {
      var n := |acks| - 1;
      var init := acks[..n];
      NothingWasted(cluster, init);
      ElementsNext(acks, n);
      assert acks[..n + 1] == acks;
      assert acks[n] in acks;
      if acks[n] in init {
        var i :| 0 <= i < n && init[i] == acks[n];
        assert acks[i] == acks[n];
      }
      assert Distinct(acks) ==> forall i, j | 0 <= i < j < n :: acks[i] == init[i] && acks[j] == init[j];
      forall i, j | Distinct(init) && acks[n] !in init && 0 <= i < j < |acks| ensures acks[i] != acks[j] {
        assert acks[i] == init[i] && acks[i] in init;
      }
    }
  }

  /** A counted list of acknowledgements comes from a quorum of nodes exactly if it wastes no more entries than it has
      beyond the quorum; a list of just the quorum's length, exactly if no node is named twice and none is unknown. */
  lemma CountedIsQuorum(cluster: set<Id>, peers: nat, acks: seq<Id>)
    requires |acks| >= Quorum(peers)
    ensures |Voters(cluster, acks)| >= Quorum(peers) <==> Wasted(cluster, acks) <= |acks| - Quorum(peers)
    ensures |acks| == Quorum(peers) ==>
              (|Voters(cluster, acks)| >= Quorum(peers) <==> Distinct(acks) && Elements(acks) <= cluster)
  {
    VotersAndWasted(cluster, acks);
    NothingWasted(cluster, acks);
  }

  /** However often one node acknowledges, it is one node: a quorum only of a cluster without peers. */
  lemma OneVoiceCounted(cluster: set<Id>, peers: nat, node: Id, n: nat)
    requires node in cluster && n >= Quorum(peers)
    ensures |Voters(cluster, seq(n, _ => node))| >= Quorum(peers) <==> peers == 0
  {
    var acks := seq(n, _ => node);
    assert acks[0] == node;
    assert Voters(cluster, acks) == {node};
  }

  function ActivePeers(peers: map<Id, PeerStatus>): set<Id> {
    set p | p in peers && peers[p] == Active
  }

  lemma SliceGrows(log: seq<Mutation>, start: nat, i: nat)
    requires start <= i < |log|
    ensures log[start..i + 1] == log[start..i] + [log[i]]
  {
  }

  class ReplicaCoordinator {
    const sha: Hasher
    const nodeId: Id
    var peers: map<Id, PeerStatus>
    var log: seq<Mutation>
    var currentSequence: int

    predicate Valid()
      reads this
    {
      Chained(sha, log) && currentSequence == |log|
    }

    constructor (nodeId: Id, sha: Hasher)
      ensures Valid() && this.sha == sha && this.nodeId == nodeId && log == [] && peers == map[]
    {
      this.sha, this.nodeId := sha, nodeId;
      peers, log, currentSequence := map[], [], 0;
    }

    function Cluster(): set<Id>
      reads this
    {
      peers.Keys + {nodeId}
    }

    /** Two lists of acknowledgements that waste no more entries than they can spare have a node of the cluster in
        common. */
    lemma AcksMeet(a: seq<Id>, b: seq<Id>)
      requires |a| >= Quorum(|peers|) + Wasted(Cluster(), a) && |b| >= Quorum(|peers|) + Wasted(Cluster(), b)
      ensures exists n :: n in a && n in b && n in Cluster()
    {
      CountedIsQuorum(Cluster(), |peers|, a);
      CountedIsQuorum(Cluster(), |peers|, b);
      assert |peers.Keys| == |peers|;
      QuorumsMeet(Cluster(), |peers|, Voters(Cluster(), a), Voters(Cluster(), b));
      var n :| n in Voters(Cluster(), a) * Voters(Cluster(), b);
    }

    method RegisterPeer(peer: Id)
      requires Valid()
      modifies this`peers
      ensures Valid() && peers == old(peers)[peer := Active]
    {
      peers := peers[peer := Active];
    }

    method SetPeerStatus(peer: Id, status: PeerStatus)
      requires Valid()
      modifies this`peers
      ensures Valid() && peers == if peer in old(peers) then old(peers)[peer := status] else old(peers)
    {
      if peer in peers {
        peers := peers[peer := status];
      }
    }

    /** A proposal is committed exactly if enough nodes are active and enough have acknowledged it; it then extends
        the chain by one entry, and otherwise changes nothing. */
    method ProposeMutation(payload: string, fence: int, ackNodes: Option<seq<Id>>) returns (r: Result<Mutation, ReplicaError>)
      requires Valid()
      modifies this`log, this`currentSequence
      ensures Valid()
      ensures var active := 1 + |ActivePeers(peers)|;
              r.Ok? <==> active >= Quorum(|peers|) && (ackNodes.Some? ==> |ackNodes.value| >= Quorum(|peers|))
      ensures r.Ok? ==> log == old(log) + [r.value] && r.value.payload == payload && r.value.fence == fence
      ensures r.Ok? ==> r.value.acks == if ackNodes.Some? then |ackNodes.value| else 1 + |ActivePeers(peers)|
      ensures r.Err? ==> log == old(log) && r.error.QuorumUnavailable? && r.error.got < r.error.needed == Quorum(|peers|)
      ensures r.Ok? <==>
                && 2 * (1 + |set p | p in peers && peers[p] == Active|) > 1 + |peers|
                && (ackNodes.Some? ==> 2 * |ackNodes.value| > 1 + |peers|)
      ensures r.Ok? ==>
                && r.value.sequenceId == |old(log)| + 1
                && r.value.commitHash == sha(Digits(|old(log)| + 1) + ":" + Digits(fence) + ":"
                                             + (if old(log) == [] then "GENESIS" else old(log)[|old(log)| - 1].commitHash)
                                             + ":" + payload)
      ensures r.Ok? && ackNodes.Some? ==>
                (|Voters(Cluster(), ackNodes.value)| >= Quorum(|peers|)
                 <==> Wasted(Cluster(), ackNodes.value) <= |ackNodes.value| - Quorum(|peers|))
    {
      var quorum, active := Quorum(|peers|), 1 + |ActivePeers(peers)|;
      QuorumIsLeast(|peers|);
      if active < quorum {
        return Err(QuorumUnavailable(active, quorum));
      }
      var next := currentSequence + 1;
      var prev := if log != [] then log[|log| - 1].commitHash else GENESIS;
      var hash := sha(Content(next, fence, prev, payload));
      var acks := if ackNodes.Some? then |ackNodes.value| else active;
      if acks < quorum {
        return Err(QuorumUnavailable(acks, quorum));
      }
      TextAssociates(Digits(next), Digits(fence), prev, payload);
      var m := Mutation(next, fence, payload, hash, acks);
      ChainedAppend(sha, log, m);
      if ackNodes.Some? {
        CountedIsQuorum(Cluster(), |peers|, ackNodes.value);
      }
      log := log + [m];
      currentSequence := next;
      return Ok(m);
    }

    /** The entries after a sequence number: for a valid log, a suffix. */
    method GetDeltaCatchup(from: int) returns (deltas: seq<Mutation>)
      requires Valid()
      ensures deltas == if from <= 0 then log else if from >= |log| then [] else log[from..]
    {
      deltas := [];
      ghost var start := if from <= 0 then 0 else if from >= |log| then |log| else from;
      assert forall i: nat | i < |log| :: log[i].sequenceId == i + 1;
      hide Chained;
      for i := 0 to |log|
        invariant deltas == if i <= start then [] else log[start..i]
      {
        if log[i].sequenceId > from {
          SliceGrows(log, start, i);
          deltas := deltas + [log[i]];
        }
      }
    }

    /** Entries taken before a refusal are kept. */
    method ApplyDeltas(deltas: seq<Mutation>) returns (r: Result<nat, ReplicaError>)
      requires Valid()
      modifies this`log, this`currentSequence
      ensures Valid()
      ensures var o := Absorb(sha, old(log), deltas);
              && log == o.log
              && r == match o.refused
                 case None => Ok(|log| - |old(log)|)
                 case Some(d) => Err(StaleDelta(d.sequenceId))
    {
      var count := 0;
      assert deltas[0..] == deltas;
      for i := 0 to |deltas|
        invariant Valid() && |log| == |old(log)| + count
        invariant Absorb(sha, old(log), deltas) == Absorb(sha, log, deltas[i..])
      {
        var d := deltas[i];
        assert deltas[i..][0] == d && deltas[i..][1..] == deltas[i + 1..];
        if d.sequenceId != currentSequence + 1 {
          continue;
        }
        var prev := if log != [] then log[|log| - 1].commitHash else GENESIS;
        if log != [] && d.fence < log[|log| - 1].fence {
          return Err(StaleDelta(d.sequenceId));
        }
        if sha(Content(d.sequenceId, d.fence, prev, d.payload)) != d.commitHash {
          return Err(StaleDelta(d.sequenceId));
        }
        ChainedAppend(sha, log, d);
        log := log + [d];
        currentSequence := d.sequenceId;
        count := count + 1;
      }
      return Ok(count);
    }
  }
}
