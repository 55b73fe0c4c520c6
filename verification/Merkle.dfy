/** Merkle trees with duplicate-last padding: inclusion proofs and what an accepted proof binds. */
module Merkle {
  import opened Options

  type Hash = string

  const DIGEST_LENGTH := 64

  /** The digest function, from text to hexadecimal text. */
  type Hasher = string -> Hash

  datatype Step = Step(direction: string, sibling: Hash)

  datatype ProofError = IndexOutOfBounds

  ghost predicate HasWidth(sha: Hasher) {
    forall s: string :: |sha(s)| == DIGEST_LENGTH
  }

  predicate Digests(s: seq<Hash>) {
    forall h | h in s :: |h| == DIGEST_LENGTH
  }

  /** No two of the texts collide. Nothing is assumed of any other text. */
  predicate CollisionFree(sha: Hasher, texts: set<string>) {
    forall x, y | x in texts && y in texts && sha(x) == sha(y) :: x == y
  }

  lemma FewerTexts(sha: Hasher, some: set<string>, texts: set<string>)
    requires some <= texts && CollisionFree(sha, texts)
    ensures CollisionFree(sha, some)
  {
  }

  // ------------------------------------------------------------- the tree

  function Partner(level: seq<Hash>, i: nat): Hash
    requires i < |level|
  {
    if i + 1 < |level| then level[i + 1] else level[i]
  }

  function PairText(level: seq<Hash>, j: nat): string
    requires 2 * j < |level|
  {
    level[2 * j] + Partner(level, 2 * j)
  }

  function NextLevel(sha: Hasher, level: seq<Hash>): (next: seq<Hash>)
    ensures |next| == (|level| + 1) / 2
  {
    seq((|level| + 1) / 2, j requires 0 <= j < (|level| + 1) / 2 => sha(PairText(level, j)))
  }

  lemma NextAt(sha: Hasher, level: seq<Hash>, j: nat)
    requires j < (|level| + 1) / 2
    ensures 2 * j < |level| && NextLevel(sha, level)[j] == sha(PairText(level, j))
  {
  }

  function Levels(sha: Hasher, level: seq<Hash>): (levels: seq<seq<Hash>>)
    ensures levels != [] && levels[0] == level
    decreases |level|
  {
    if |level| <= 1 then [level] else [level] + Levels(sha, NextLevel(sha, level))
  }

  function TreeLevels(sha: Hasher, leaves: seq<Hash>): seq<seq<Hash>> {
    if leaves == [] then [[sha("")]] else Levels(sha, leaves)
  }

  function Root(sha: Hasher, level: seq<Hash>): Hash
    decreases |level|
  {
    if level == [] then sha("") else if |level| == 1 then level[0] else Root(sha, NextLevel(sha, level))
  }

  lemma {:induction false} RootIsTop(sha: Hasher, level: seq<Hash>)
    requires level != []
    ensures var levels := Levels(sha, level); levels[|levels| - 1] == [Root(sha, level)]
    decreases |level|
  {
    if |level| > 1 {
      RootIsTop(sha, NextLevel(sha, level));
    }
  }

  function Height(n: nat): nat {
    if n <= 1 then 0 else 1 + Height((n + 1) / 2)
  }

  function Pow2(k: nat): nat {
    if k == 0 then 1 else 2 * Pow2(k - 1)
  }

  /** The height is the binary logarithm of the number of leaves, rounded up. */
  lemma {:induction false} HeightIsLog(n: nat)
    requires n >= 1
    ensures n <= Pow2(Height(n))
    ensures n > 1 ==> Pow2(Height(n) - 1) < n
  {
    if n > 1 {
      HeightIsLog((n + 1) / 2);
    }
  }

  // ------------------------------------------------------------- proofs

  function ProofStep(level: seq<Hash>, i: nat): Step
    requires i < |level|
  {
    if i % 2 == 1 then Step("left", level[i - 1]) else Step("right", Partner(level, i))
  }

  function Proof(sha: Hasher, level: seq<Hash>, i: nat): seq<Step>
    requires i < |level|
    decreases |level|
  {
    if |level| == 1 then [] else [ProofStep(level, i)] + Proof(sha, NextLevel(sha, level), i / 2)
  }

  function StepText(curr: Hash, s: Step): Option<string> {
    if s.direction == "left" then Some(s.sibling + curr)
    else if s.direction == "right" then Some(curr + s.sibling)
    else None
  }

  /** The hash a proof leads to from curr, unless a direction is malformed. */
  function Climb(sha: Hasher, curr: Hash, proof: seq<Step>): Option<Hash>
    decreases |proof|
  {
    if proof == [] then Some(curr)
    else if StepText(curr, proof[0]).None? then None
    else Climb(sha, sha(StepText(curr, proof[0]).value), proof[1..])
  }

  predicate Accepts(sha: Hasher, leaf: Hash, proof: seq<Step>, root: Hash) {
    Climb(sha, leaf, proof) == Some(root)
  }

  lemma ClimbOne(sha: Hasher, curr: Hash, s: Step, rest: seq<Step>)
    requires StepText(curr, s).Some?
    ensures Climb(sha, curr, [s] + rest) == Climb(sha, sha(StepText(curr, s).value), rest)
  {
    assert ([s] + rest)[1..] == rest;
  }

  lemma StepPairs(level: seq<Hash>, i: nat)
    requires i < |level|
    ensures i / 2 < (|level| + 1) / 2 && StepText(level[i], ProofStep(level, i)) == Some(PairText(level, i / 2))
  {
    assert i % 2 == 1 ==> 2 * (i / 2) == i - 1;
    assert i % 2 == 0 ==> 2 * (i / 2) == i;
  }

  /** Every leaf's generated proof is accepted, and is as long as the tree is high. */
  lemma {:induction false} ProofsVerify(sha: Hasher, level: seq<Hash>, i: nat)
    requires i < |level|
    ensures Accepts(sha, level[i], Proof(sha, level, i), Root(sha, level))
    ensures |Proof(sha, level, i)| == Height(|level|)
    decreases |level|
  {
    hide NextLevel, StepText, ProofStep, Climb;
    if |level| == 1 {
      ClimbNone(sha, level[i]);
    } else {
      var next := NextLevel(sha, level);
      StepPairs(level, i);
      NextAt(sha, level, i / 2);
      ProofsVerify(sha, next, i / 2);
      ClimbOne(sha, level[i], ProofStep(level, i), Proof(sha, next, i / 2));
    }
  }

  lemma ClimbNone(sha: Hasher, curr: Hash)
    ensures Climb(sha, curr, []) == Some(curr)
  {
  }

  // ------------------------------------------------------------- soundness

  /** The texts hashed above a level when the tree is built. */
  function TreeTexts(sha: Hasher, level: seq<Hash>): set<string>
    decreases |level|
  {
    if |level| <= 1 then {}
    else (set j: nat | j < (|level| + 1) / 2 :: PairText(level, j)) + TreeTexts(sha, NextLevel(sha, level))
  }

  /** The texts hashed when a proof is checked. */
  function ClimbTexts(sha: Hasher, curr: Hash, proof: seq<Step>): set<string>
    decreases |proof|
  {
    if proof == [] || StepText(curr, proof[0]).None? then {}
    else
      var text := StepText(curr, proof[0]).value;
      {text} + ClimbTexts(sha, sha(text), proof[1..])
  }

  predicate ProofDigests(proof: seq<Step>) {
    forall s | s in proof :: |s.sibling| == DIGEST_LENGTH
  }

  /** The leaf of n that the directions of a proof lead back to; a step into the padding leads to the last. */
  function Position(n: nat, proof: seq<Step>): nat
    decreases |proof|
  {
    if proof == [] then 0
    else
      var j := Position((n + 1) / 2, proof[1..]);
      if proof[0].direction == "left" && 2 * j + 1 < n then 2 * j + 1 else 2 * j
  }

  lemma {:induction false} PositionInRange(n: nat, proof: seq<Step>)
    requires n >= 1 && |proof| == Height(n)
    ensures Position(n, proof) < n
    decreases |proof|
  {
    if proof != [] {
      PositionInRange((n + 1) / 2, proof[1..]);
    }
  }

  lemma NextLevelDigests(sha: Hasher, level: seq<Hash>)
    requires HasWidth(sha)
    ensures Digests(NextLevel(sha, level))
  {
    var next := NextLevel(sha, level);
    forall h | h in next ensures |h| == DIGEST_LENGTH {
      var j :| 0 <= j < |next| && next[j] == h;
      NextAt(sha, level, j);
    }
  }

  lemma SplitsAlike(a: string, b: string, c: string, d: string)
    requires a + b == c + d && |a| == |c|
    ensures a == c && b == d
  {
    assert a == (a + b)[..|a|] && b == (a + b)[|a|..];
    assert c == (c + d)[..|c|] && d == (c + d)[|c|..];
  }

  lemma NextText(sha: Hasher, level: seq<Hash>, j: nat)
    requires |level| > 1 && j < (|level| + 1) / 2
    ensures 2 * j < |level| && PairText(level, j) in TreeTexts(sha, level)
    ensures NextLevel(sha, level)[j] == sha(PairText(level, j))
  {
  }

  lemma TextsAbove(sha: Hasher, level: seq<Hash>)
    requires |level| > 1
    ensures TreeTexts(sha, NextLevel(sha, level)) <= TreeTexts(sha, level)
  {
  }

  /** An accepted proof of the tree's height, made of digests, is a proof of the leaf its directions point to. */
  lemma {:induction false} AcceptedIsLeaf(sha: Hasher, level: seq<Hash>, leaf: Hash, proof: seq<Step>)
    requires HasWidth(sha) && level != [] && Digests(level) && |leaf| == DIGEST_LENGTH && ProofDigests(proof)
    requires |proof| == Height(|level|) && Accepts(sha, leaf, proof, Root(sha, level))
    requires CollisionFree(sha, TreeTexts(sha, level) + ClimbTexts(sha, leaf, proof))
    ensures Position(|level|, proof) < |level| && leaf == level[Position(|level|, proof)]
    decreases |level|
  {
    hide NextLevel, TreeTexts;
    PositionInRange(|level|, proof);
    if |level| > 1 {
      var next, rest, s := NextLevel(sha, level), proof[1..], proof[0];
      var text := StepText(leaf, s).value;
      var j := Position(|next|, rest);
      NextLevelDigests(sha, level);
      TextsAbove(sha, level);
      assert s in proof && |s.sibling| == DIGEST_LENGTH;
      assert text in ClimbTexts(sha, leaf, proof) && ClimbTexts(sha, sha(text), rest) <= ClimbTexts(sha, leaf, proof);
      FewerTexts(sha, TreeTexts(sha, next) + ClimbTexts(sha, sha(text), rest),
                 TreeTexts(sha, level) + ClimbTexts(sha, leaf, proof));
      AcceptedIsLeaf(sha, next, sha(text), rest);
      NextText(sha, level, j);
      assert PairText(level, j) == text;
      assert level[2 * j] in level && Partner(level, 2 * j) in level;
      if s.direction == "left" {
        SplitsAlike(s.sibling, leaf, level[2 * j], Partner(level, 2 * j));
      } else {
        SplitsAlike(leaf, s.sibling, level[2 * j], Partner(level, 2 * j));
      }
    }
  }

  // ------------------------------------------------------------- inner levels

  /** The level k steps above the given one. */
  function LevelAt(sha: Hasher, level: seq<Hash>, k: nat): seq<Hash>
    requires k <= Height(|level|)
    decreases k
  {
    if k == 0 then level else LevelAt(sha, NextLevel(sha, level), k - 1)
  }

  lemma {:induction false} LevelAtFacts(sha: Hasher, level: seq<Hash>, k: nat)
    requires HasWidth(sha) && level != [] && Digests(level) && k <= Height(|level|)
    ensures var l := LevelAt(sha, level, k);
            && l != [] && Digests(l) && Height(|l|) == Height(|level|) - k
            && Root(sha, l) == Root(sha, level) && TreeTexts(sha, l) <= TreeTexts(sha, level)
    decreases k
  {
    hide NextLevel, TreeTexts, HasWidth, Digests;
    if k > 0 {
      NextLevelDigests(sha, level);
      TextsAbove(sha, level);
      LevelAtFacts(sha, NextLevel(sha, level), k - 1);
    }
  }

  /** An accepted proof of any length up to the tree's height, made of digests, is a proof of the node that its
      directions point to on the level that far below the root. Only the full height singles out leaves. */
  lemma AcceptedIsNode(sha: Hasher, leaves: seq<Hash>, node: Hash, proof: seq<Step>)
    requires HasWidth(sha) && leaves != [] && Digests(leaves) && |node| == DIGEST_LENGTH && ProofDigests(proof)
    requires |proof| <= Height(|leaves|) && Accepts(sha, node, proof, Root(sha, leaves))
    requires CollisionFree(sha, TreeTexts(sha, leaves) + ClimbTexts(sha, node, proof))
    ensures var level := LevelAt(sha, leaves, Height(|leaves|) - |proof|);
            Position(|level|, proof) < |level| && node == level[Position(|level|, proof)]
  {
    hide HasWidth, TreeTexts, ClimbTexts, Accepts, ProofDigests, CollisionFree, Position, LevelAt, Digests;
    var level := LevelAt(sha, leaves, Height(|leaves|) - |proof|);
    LevelAtFacts(sha, leaves, Height(|leaves|) - |proof|);
    FewerTexts(sha, TreeTexts(sha, level) + ClimbTexts(sha, node, proof),
               TreeTexts(sha, leaves) + ClimbTexts(sha, node, proof));
    AcceptedIsLeaf(sha, level, node, proof);
  }

  /** Every node of every level has such a proof. */
  lemma NodesVerify(sha: Hasher, leaves: seq<Hash>, k: nat, j: nat)
    requires HasWidth(sha) && leaves != [] && Digests(leaves) && k <= Height(|leaves|)
    requires j < |LevelAt(sha, leaves, k)|
    ensures var level := LevelAt(sha, leaves, k);
            && Accepts(sha, level[j], Proof(sha, level, j), Root(sha, leaves))
            && |Proof(sha, level, j)| == Height(|leaves|) - k
  {
    hide HasWidth, TreeTexts, Digests;
    LevelAtFacts(sha, leaves, k);
    ProofsVerify(sha, LevelAt(sha, leaves, k), j);
  }

  // ------------------------------------------------------------- what a root fixes

  /** The leaf of n that stands at place i of the full tree: the padding repeats the last node of a level. */
  function Place(n: nat, i: nat): nat {
    if n <= 1 then 0
    else
      var j := Place((n + 1) / 2, i / 2);
      if i % 2 == 1 && 2 * j + 1 < n then 2 * j + 1 else 2 * j
  }

  lemma {:induction false} PlaceInRange(n: nat, i: nat)
    requires n >= 1
    ensures Place(n, i) < n
  {
    if n > 1 {
      PlaceInRange((n + 1) / 2, i / 2);
    }
  }

  lemma {:induction false} PlaceOfLeaf(n: nat, i: nat)
    requires i < n
    ensures Place(n, i) == i && i < Pow2(Height(n))
  {
    if n > 1 {
      PlaceOfLeaf((n + 1) / 2, i / 2);
    }
  }

  /** The leaves with all padding written out. */
  function Full(level: seq<Hash>): seq<Hash>
    requires level != []
  {
    PlaceIsIndex(|level|);
    seq(Pow2(Height(|level|)), i requires 0 <= i < Pow2(Height(|level|)) => level[Place(|level|, i)])
  }

  lemma PlaceIsIndex(n: nat)
    requires n >= 1
    ensures forall i: nat :: Place(n, i) < n
  {
    forall i: nat ensures Place(n, i) < n {
      PlaceInRange(n, i);
    }
  }

  lemma FullAt(level: seq<Hash>, i: nat)
    requires level != [] && i < Pow2(Height(|level|))
    ensures |Full(level)| == Pow2(Height(|level|)) && Place(|level|, i) < |level|
    ensures Full(level)[i] == level[Place(|level|, i)]
  {
    PlaceIsIndex(|level|);
  }

  lemma Places(n: nat, i: nat)
    requires n > 1
    ensures Place(n, 2 * i) == 2 * Place((n + 1) / 2, i)
    ensures Place(n, 2 * i + 1) ==
            if 2 * Place((n + 1) / 2, i) + 1 < n then 2 * Place((n + 1) / 2, i) + 1 else 2 * Place((n + 1) / 2, i)
  {
    hide Place;
    Halves(i);
    PlaceStep(n, 2 * i);
    PlaceStep(n, 2 * i + 1);
  }

  lemma Halves(i: nat)
    ensures (2 * i) / 2 == i && (2 * i) % 2 == 0 && (2 * i + 1) / 2 == i && (2 * i + 1) % 2 == 1
  {
  }

  lemma PlaceStep(n: nat, i: nat)
    requires n > 1
    ensures Place(n, i) == var j := Place((n + 1) / 2, i / 2); if i % 2 == 1 && 2 * j + 1 < n then 2 * j + 1 else 2 * j
  {
  }

  /** Written out, the next level hashes the pairs of this one. */
  lemma FullAbove(sha: Hasher, level: seq<Hash>, i: nat)
    requires |level| > 1 && i < Pow2(Height((|level| + 1) / 2))
    ensures |Full(level)| == 2 * Pow2(Height((|level| + 1) / 2)) && |Full(NextLevel(sha, level))| * 2 == |Full(level)|
    ensures Full(level)[2 * i] in level && Full(level)[2 * i + 1] in level
    ensures Full(level)[2 * i] + Full(level)[2 * i + 1] in TreeTexts(sha, level)
    ensures Full(NextLevel(sha, level))[i] == sha(Full(level)[2 * i] + Full(level)[2 * i + 1])
  {
    hide NextLevel, TreeTexts, Full, Place;
    var j, m := Place((|level| + 1) / 2, i), (|level| + 1) / 2;
    assert Pow2(Height(|level|)) == 2 * Pow2(Height(m));
    hide Pow2, Height;
    FullAt(NextLevel(sha, level), i);
    FullAt(level, 2 * i);
    FullAt(level, 2 * i + 1);
    Places(|level|, i);
    NextText(sha, level, j);
  }

  lemma {:induction false} FullFixesRoot(sha: Hasher, a: seq<Hash>, b: seq<Hash>)
    requires a != [] && b != [] && Height(|a|) == Height(|b|) && Full(a) == Full(b)
    ensures Root(sha, a) == Root(sha, b)
    decreases |a|
  {
    hide NextLevel, Full;
    if |a| == 1 {
      FullAt(a, 0);
      FullAt(b, 0);
    } else {
      var nextA, nextB := NextLevel(sha, a), NextLevel(sha, b);
      FullSize(nextA);
      FullSize(nextB);
      forall i: nat | i < Pow2(Height(|nextA|)) ensures Full(nextA)[i] == Full(nextB)[i] {
        FullAbove(sha, a, i);
        FullAbove(sha, b, i);
      }
      FullFixesRoot(sha, nextA, nextB);
    }
  }

  lemma FullSize(level: seq<Hash>)
    requires level != []
    ensures |Full(level)| == Pow2(Height(|level|))
  {
  }

  /** If the next levels pad to the same list, so do these. */
  lemma FullBelow(sha: Hasher, a: seq<Hash>, b: seq<Hash>)
    requires |a| > 1 && |b| > 1 && Digests(a) && Digests(b) && Height(|a|) == Height(|b|)
    requires CollisionFree(sha, TreeTexts(sha, a) + TreeTexts(sha, b))
    requires Full(NextLevel(sha, a)) == Full(NextLevel(sha, b))
    ensures Full(a) == Full(b)
  {
    hide NextLevel, Full, TreeTexts, CollisionFree, Digests;
    FullSize(a);
    FullSize(b);
    assert Pow2(Height(|a|)) == 2 * Pow2(Height((|a| + 1) / 2));
    hide Pow2, Height;
    forall k: nat | k < |Full(a)| ensures Full(a)[k] == Full(b)[k] {
      SamePair(sha, a, b, k / 2);
      assert k == 2 * (k / 2) || k == 2 * (k / 2) + 1;
    }
  }

  lemma SamePair(sha: Hasher, a: seq<Hash>, b: seq<Hash>, i: nat)
    requires |a| > 1 && |b| > 1 && Digests(a) && Digests(b) && Height(|a|) == Height(|b|)
    requires CollisionFree(sha, TreeTexts(sha, a) + TreeTexts(sha, b))
    requires Full(NextLevel(sha, a)) == Full(NextLevel(sha, b)) && i < Pow2(Height((|a| + 1) / 2))
    ensures |Full(a)| == |Full(b)| == 2 * Pow2(Height((|a| + 1) / 2))
    ensures Full(a)[2 * i] == Full(b)[2 * i] && Full(a)[2 * i + 1] == Full(b)[2 * i + 1]
  {
    hide NextLevel, Full, TreeTexts, Pow2;
    assert Height((|a| + 1) / 2) == Height((|b| + 1) / 2);
    hide Height;
    FullAbove(sha, a, i);
    FullAbove(sha, b, i);
    SplitsAlike(Full(a)[2 * i], Full(a)[2 * i + 1], Full(b)[2 * i], Full(b)[2 * i + 1]);
  }

  lemma {:induction false} RootFixesFull(sha: Hasher, a: seq<Hash>, b: seq<Hash>)
    requires HasWidth(sha) && a != [] && b != [] && Digests(a) && Digests(b) && Height(|a|) == Height(|b|)
    requires CollisionFree(sha, TreeTexts(sha, a) + TreeTexts(sha, b))
    ensures Root(sha, a) == Root(sha, b) ==> Full(a) == Full(b)
    decreases |a|
  {
    hide NextLevel, Full, TreeTexts, HasWidth, Digests, CollisionFree;
    if |a| == 1 {
      FullSize(a);
      FullSize(b);
      FullAt(a, 0);
      FullAt(b, 0);
    } else {
      var nextA, nextB := NextLevel(sha, a), NextLevel(sha, b);
      NextLevelDigests(sha, a);
      NextLevelDigests(sha, b);
      TextsAbove(sha, a);
      TextsAbove(sha, b);
      FewerTexts(sha, TreeTexts(sha, nextA) + TreeTexts(sha, nextB), TreeTexts(sha, a) + TreeTexts(sha, b));
      RootFixesFull(sha, nextA, nextB);
      if Full(nextA) == Full(nextB) {
        FullBelow(sha, a, b);
      }
    }
  }

  /** The lowest level of a tree: its leaves, or the digest of nothing where there is no leaf. */
  function Bottom(sha: Hasher, leaves: seq<Hash>): (low: seq<Hash>)
    ensures low != []
  {
    if leaves == [] then [sha("")] else leaves
  }

  /** The lower list, with its padding written out, is the level of the higher list's tree that lies as high, with its
      padding written out. */
  predicate PadsToLevel(sha: Hasher, low: seq<Hash>, high: seq<Hash>) {
    && low != [] && Height(|low|) <= Height(|high|)
    && var level := LevelAt(sha, high, Height(|high|) - Height(|low|));
    && level != [] && Full(low) == Full(level)
  }

  lemma NonEmptyRootsMeet(sha: Hasher, a: seq<Hash>, b: seq<Hash>)
    requires HasWidth(sha) && a != [] && b != [] && Digests(a) && Digests(b) && Height(|a|) <= Height(|b|)
    requires CollisionFree(sha, TreeTexts(sha, a) + TreeTexts(sha, b))
    ensures Root(sha, a) == Root(sha, b) <==> PadsToLevel(sha, a, b)
    ensures Height(|a|) == Height(|b|) ==> (PadsToLevel(sha, a, b) <==> Full(a) == Full(b))
  {
    hide HasWidth, TreeTexts, Full, CollisionFree, Root, Height, Digests;
    var level := LevelAt(sha, b, Height(|b|) - Height(|a|));
    LevelAtFacts(sha, b, Height(|b|) - Height(|a|));
    FewerTexts(sha, TreeTexts(sha, a) + TreeTexts(sha, level), TreeTexts(sha, a) + TreeTexts(sha, b));
    RootFixesFull(sha, a, level);
    if Full(a) == Full(level) {
      FullFixesRoot(sha, a, level);
    }
  }

  /** When two lists of digests share a root, exactly, with the digest of nothing standing for the empty list. Lists of
      one height share it if and only if they pad to the same list. */
  lemma RootsMeetExactly(sha: Hasher, a: seq<Hash>, b: seq<Hash>)
    requires HasWidth(sha) && Digests(a) && Digests(b) && Height(|a|) <= Height(|b|)
    requires CollisionFree(sha, TreeTexts(sha, a) + TreeTexts(sha, b))
    ensures Root(sha, a) == Root(sha, b) <==> PadsToLevel(sha, Bottom(sha, a), Bottom(sha, b))
    ensures Height(|a|) == Height(|b|) ==>
              (Root(sha, a) == Root(sha, b) <==> Full(Bottom(sha, a)) == Full(Bottom(sha, b)))
  {
    hide *;
    BottomFacts(sha, a);
    BottomFacts(sha, b);
    NonEmptyRootsMeet(sha, Bottom(sha, a), Bottom(sha, b));
  }

  lemma BottomFacts(sha: Hasher, leaves: seq<Hash>)
    requires HasWidth(sha) && Digests(leaves)
    ensures var low := Bottom(sha, leaves);
            && low != [] && Digests(low) && Height(|low|) == Height(|leaves|) && Root(sha, low) == Root(sha, leaves)
            && TreeTexts(sha, low) == TreeTexts(sha, leaves)
  {
  }

  /** Above a single leaf, the root is hashed from two digests. */
  lemma {:induction false} RootIsHashed(sha: Hasher, level: seq<Hash>) returns (text: string)
    requires HasWidth(sha) && |level| > 1 && Digests(level)
    ensures text in TreeTexts(sha, level) && |text| == 2 * DIGEST_LENGTH && Root(sha, level) == sha(text)
    decreases |level|
  {
    hide TreeTexts, NextLevel;
    var next := NextLevel(sha, level);
    if |level| == 2 {
      text := PairText(level, 0);
      NextText(sha, level, 0);
    } else {
      NextLevelDigests(sha, level);
      TextsAbove(sha, level);
      text := RootIsHashed(sha, next);
    }
  }

  /** The empty list of leaves shares its root with one other list of digests: the single digest of nothing. */
  lemma EmptyRootExactly(sha: Hasher, leaves: seq<Hash>)
    requires HasWidth(sha) && Digests(leaves) && CollisionFree(sha, TreeTexts(sha, leaves) + {""})
    ensures Root(sha, leaves) == Root(sha, []) <==> leaves == [] || leaves == [sha("")]
  {
    if |leaves| > 1 {
      var text := RootIsHashed(sha, leaves);
      assert text in TreeTexts(sha, leaves) + {""} && "" in TreeTexts(sha, leaves) + {""};
    }
  }

  /** A proof made of digests is accepted against the root of no leaves only for the digest of nothing, and only if it
      is empty. */
  lemma EmptyTreeAccepts(sha: Hasher, leaf: Hash, proof: seq<Step>)
    requires HasWidth(sha) && |leaf| == DIGEST_LENGTH && ProofDigests(proof)
    requires CollisionFree(sha, ClimbTexts(sha, leaf, proof) + {""})
    ensures Accepts(sha, leaf, proof, Root(sha, [])) <==> proof == [] && leaf == sha("")
  {
    if proof != [] && Climb(sha, leaf, proof).Some? {
      var text := ClimbIsHashed(sha, leaf, proof);
      assert text in ClimbTexts(sha, leaf, proof) + {""} && "" in ClimbTexts(sha, leaf, proof) + {""};
    }
  }

  lemma {:induction false} ClimbIsHashed(sha: Hasher, leaf: Hash, proof: seq<Step>) returns (text: string)
    requires HasWidth(sha) && |leaf| == DIGEST_LENGTH && ProofDigests(proof)
    requires proof != [] && Climb(sha, leaf, proof).Some?
    ensures text in ClimbTexts(sha, leaf, proof) && |text| == 2 * DIGEST_LENGTH
    ensures Climb(sha, leaf, proof) == Some(sha(text))
    decreases |proof|
  {
    var s := proof[0];
    assert s in proof;
    text := StepText(leaf, s).value;
    if |proof| > 1 {
      assert forall t | t in proof[1..] :: t in proof;
      text := ClimbIsHashed(sha, sha(text), proof[1..]);
    }
  }

  /** Two lists of equally many digests with the same root are the same list. */
  lemma RootBindsLeaves(sha: Hasher, a: seq<Hash>, b: seq<Hash>)
    requires HasWidth(sha) && Digests(a) && Digests(b) && |a| == |b| && Root(sha, a) == Root(sha, b)
    requires CollisionFree(sha, TreeTexts(sha, a) + TreeTexts(sha, b))
    ensures a == b
  {
    hide HasWidth, TreeTexts, Full;
    if a != [] {
      RootFixesFull(sha, a, b);
      forall i: nat | i < |a| ensures a[i] == b[i] {
        PlaceOfLeaf(|a|, i);
        FullAt(a, i);
        FullAt(b, i);
      }
    }
  }

  /** Without the count, the root does not fix the list: writing out all padding never changes it. */
  lemma PaddingIsInvisible(sha: Hasher, leaves: seq<Hash>)
    requires leaves != []
    ensures Full(leaves) != [] && Root(sha, Full(leaves)) == Root(sha, leaves)
  {
    hide Full;
    var full, h := Full(leaves), Height(|leaves|);
    FullSize(leaves);
    HeightOfPower(h);
    FullSize(full);
    forall i: nat | i < Pow2(h) ensures Full(full)[i] == full[i] {
      PlaceOfLeaf(Pow2(h), i);
      FullAt(full, i);
    }
    FullFixesRoot(sha, full, leaves);
  }

  lemma {:induction false} HeightOfPower(h: nat)
    ensures Pow2(h) >= 1 && Height(Pow2(h)) == h
  {
    if h > 0 {
      HeightOfPower(h - 1);
    }
  }

  // ------------------------------------------------------------- the tree from the top

  lemma PairsOfHalves(sha: Hasher, a: seq<Hash>, b: seq<Hash>)
    requires |a| % 2 == 0 && |b| % 2 == 0
    ensures NextLevel(sha, a + b) == NextLevel(sha, a) + NextLevel(sha, b)
  {
    var whole, parts := NextLevel(sha, a + b), NextLevel(sha, a) + NextLevel(sha, b);
    forall j: nat | j < |whole| ensures whole[j] == parts[j] {
      NextAt(sha, a + b, j);
      if 2 * j < |a| {
        NextAt(sha, a, j);
      } else {
        NextAt(sha, b, j - |a| / 2);
      }
    }
  }

  /** The root of a full tree is the hash of the roots of its halves, the left one first; a single leaf is its own root.
      With PaddingIsInvisible this fixes the root of every tree. */
  lemma {:induction false} RootFromTheTop(sha: Hasher, a: seq<Hash>, b: seq<Hash>, h: nat)
    requires |a| == |b| == Pow2(h)
    ensures Root(sha, a + b) == sha(Root(sha, a) + Root(sha, b))
    decreases h
  {
    hide NextLevel;
    if h == 0 {
      NextAt(sha, a + b, 0);
      assert NextLevel(sha, a + b) == [sha(a[0] + b[0])];
    } else {
      assert |a| == 2 * Pow2(h - 1) && Pow2(h - 1) >= 1 by { HeightOfPower(h - 1); }
      PairsOfHalves(sha, a, b);
      RootFromTheTop(sha, NextLevel(sha, a), NextLevel(sha, b), h - 1);
    }
  }

  // ------------------------------------------------------------- what the width is for

  /** Without the digest width, the two halves of a hashed text may be divided anywhere. */
  lemma OtherSplitAccepted(sha: Hasher, a: Hash, b: Hash, k: nat)
    requires k <= |a|
    ensures Accepts(sha, a[..k], [Step("right", a[k..] + b)], Root(sha, [a, b]))
  {
    assert a[..k] + (a[k..] + b) == a + b;
    var next := NextLevel(sha, [a, b]);
    assert next[0] == sha(PairText([a, b], 0));
    assert [Step("right", a[k..] + b)][1..] == [];
  }

  // ------------------------------------------------------------- the algorithms

  method VerifyInclusionProof(sha: Hasher, leaf: Hash, proof: seq<Step>, root: Hash) returns (ok: bool)
    ensures ok <==> Accepts(sha, leaf, proof, root)
  {
    var curr := leaf;
    assert proof[0..] == proof;
    for i := 0 to |proof|
      invariant Climb(sha, leaf, proof) == Climb(sha, curr, proof[i..])
    {
      var s := proof[i];
      assert proof[i..][1..] == proof[i + 1..];
      if s.direction == "left" {
        curr := sha(s.sibling + curr);
      } else if s.direction == "right" {
        curr := sha(curr + s.sibling);
      } else {
        return false;
      }
    }
    return curr == root;
  }

  /** A built tree: its leaves and, bottom up, the levels above them. */
  class MerkleTree {
    const sha: Hasher
    const leaves: seq<Hash>
    var levels: seq<seq<Hash>>

    predicate Valid()
      reads this
    {
      levels == TreeLevels(sha, leaves)
    }

    constructor (sha: Hasher, leaves: seq<Hash>)
      ensures Valid() && this.sha == sha && this.leaves == leaves
    {
      this.sha, this.leaves := sha, leaves;
      levels := [];
      new;
      BuildTree();
    }

    method BuildTree()
      requires levels == []
      modifies this
      ensures Valid()
    {
      hide NextLevel, Levels;
      if leaves == [] {
        levels := [[sha("")]];
        return;
      }
      var current := leaves;
      levels := levels + [current];
      ghost var below: seq<seq<Hash>> := [];
      assert [] + Levels(sha, leaves) == Levels(sha, leaves);
      while |current| > 1
        invariant levels == below + [current] && current != []
        invariant Levels(sha, leaves) == below + Levels(sha, current)
        decreases |current|
      {
        var next := HashPairs(current);
        LevelsStep(sha, below, current);
        below := levels;
        levels := levels + [next];
        current := next;
      }
      LevelsStep(sha, below, current);
    }

    method HashPairs(current: seq<Hash>) returns (next: seq<Hash>)
      ensures next == NextLevel(sha, current)
    {
      next := [];
      var i := 0;
      while i < |current|
        invariant i == 2 * |next| && i <= |current| + 1
        invariant forall j: nat | j < |next| :: next[j] == sha(PairText(current, j))
      {
        var left := current[i];
        var right := if i + 1 < |current| then current[i + 1] else left;
        next := next + [sha(left + right)];
        i := i + 2;
      }
    }

    method TreeRoot() returns (root: Hash)
      requires Valid()
      ensures root == Root(sha, leaves)
    {
      if leaves != [] {
        RootIsTop(sha, leaves);
      }
      return levels[|levels| - 1][0];
    }

    method GenerateProof(index: int) returns (r: Result<seq<Step>, ProofError>)
      requires Valid()
      ensures r == if 0 <= index < |leaves| then Ok(Proof(sha, leaves, index)) else Err(IndexOutOfBounds)
    {
      if index < 0 || index >= |leaves| {
        return Err(IndexOutOfBounds);
      }
      hide NextLevel, Levels, Proof;
      var proof, i := [], index;
      assert levels[0..] == levels && [] + Proof(sha, leaves, index) == Proof(sha, leaves, index);
      for l := 0 to |levels| - 1
        invariant levels[l..] == Levels(sha, levels[l])
        invariant 0 <= i < |levels[l]|
        invariant Proof(sha, leaves, index) == proof + Proof(sha, levels[l], i)
      {
        var level := levels[l];
        LevelAbove(sha, levels, l);
        ProofAppend(sha, level, i, proof);
        var isRight := i % 2 == 1;
        var sibling := if isRight then i - 1 else i + 1;
        var hash := if sibling < |level| then level[sibling] else level[i];
        proof := proof + [Step(if isRight then "left" else "right", hash)];
        i := i / 2;
      }
      LevelTop(sha, levels);
      ProofEnd(sha, levels[|levels| - 1], i, proof);
      return Ok(proof);
    }
  }

  lemma LevelsStep(sha: Hasher, below: seq<seq<Hash>>, current: seq<Hash>)
    ensures below + Levels(sha, current) ==
            if |current| <= 1 then below + [current] else (below + [current]) + Levels(sha, NextLevel(sha, current))
  {
  }

  lemma LevelAbove(sha: Hasher, levels: seq<seq<Hash>>, l: nat)
    requires l + 1 < |levels| && levels[l..] == Levels(sha, levels[l])
    ensures |levels[l]| > 1 && levels[l + 1] == NextLevel(sha, levels[l])
    ensures levels[l + 1..] == Levels(sha, levels[l + 1])
  {
    hide NextLevel;
    var rest := levels[l..];
    assert rest[1..] == levels[l + 1..] && rest[1] == levels[l + 1];
    assert |rest| >= 2 && |levels[l]| > 1;
    assert rest == [levels[l]] + Levels(sha, NextLevel(sha, levels[l]));
    assert rest[1..] == Levels(sha, NextLevel(sha, levels[l]));
  }

  lemma LevelTop(sha: Hasher, levels: seq<seq<Hash>>)
    requires levels != []
    requires levels[|levels| - 1..] == Levels(sha, levels[|levels| - 1])
    ensures |levels[|levels| - 1]| <= 1
  {
    hide NextLevel;
    assert |Levels(sha, levels[|levels| - 1])| == 1;
  }

  lemma ProofAppend(sha: Hasher, level: seq<Hash>, i: nat, proof: seq<Step>)
    requires i < |level| && |level| > 1
    ensures i / 2 < |NextLevel(sha, level)|
    ensures proof + Proof(sha, level, i) == (proof + [ProofStep(level, i)]) + Proof(sha, NextLevel(sha, level), i / 2)
  {
    hide NextLevel, ProofStep;
    var s, rest := ProofStep(level, i), Proof(sha, NextLevel(sha, level), i / 2);
    assert Proof(sha, level, i) == [s] + rest;
    hide Proof;
    assert proof + ([s] + rest) == (proof + [s]) + rest;
  }

  lemma ProofEnd(sha: Hasher, level: seq<Hash>, i: nat, proof: seq<Step>)
    requires i < |level| && |level| == 1
    ensures proof + Proof(sha, level, i) == proof
  {
  }
}
