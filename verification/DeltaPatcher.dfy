/** Incremental patches: a greedy chunk-matching diff, and the guarded replay of its operations. */
module DeltaPatcher {
  import opened Options
  import opened Bytes

  datatype Op = Copy(offset: int, length: int) | Insert(data: seq<Byte>) | Unknown(name: string)

  datatype Patch = Patch(baseHash: string, baseSize: nat, targetHash: string, targetSize: nat, chunkSize: int,
                         ops: seq<Op>)

  datatype ApplyError = BaseFileMismatch | InvalidPatch | TargetCorrupt

  // ------------------------------------------------------------- replay

  /** A slice bound as Python resolves it: negative bounds count from the end, all are clamped. */
  function Bound(i: int, n: nat): nat {
    if i < 0 then (if i + n < 0 then 0 else i + n) else if i > n then n else i
  }

  function Slice(s: seq<Byte>, from: int, to: int): seq<Byte> {
    var a, b := Bound(from, |s|), Bound(to, |s|);
    if a <= b then s[a..b] else []
  }

  /** A slice within the bytes is the stretch between its bounds; a negative bound counts from the end; beyond either end
      a bound stands for that end. */
  lemma SliceIsStretch(s: seq<Byte>, from: int, to: int)
    ensures 0 <= from <= to <= |s| ==> Slice(s, from, to) == s[from..to]
    ensures 0 <= to < from ==> Slice(s, from, to) == []
    ensures -|s| <= from < 0 ==> Slice(s, from, to) == Slice(s, |s| + from, to)
    ensures -|s| <= to < 0 ==> Slice(s, from, to) == Slice(s, from, |s| + to)
    ensures from < -|s| ==> Slice(s, from, to) == Slice(s, 0, to)
    ensures to < -|s| ==> Slice(s, from, to) == Slice(s, from, 0)
    ensures from > |s| ==> Slice(s, from, to) == Slice(s, |s|, to)
    ensures to > |s| ==> Slice(s, from, to) == Slice(s, from, |s|)
  {
  }

  function Output(base: seq<Byte>, op: Op): seq<Byte>
    requires !op.Unknown?
  {
    match op
    case Copy(offset, length) => Slice(base, offset, offset + length)
    case Insert(data) => data
  }

  predicate AllKnown(ops: seq<Op>) {
    forall op | op in ops :: !op.Unknown?
  }

  /** What the operations write, in order. */
  function Replay(base: seq<Byte>, ops: seq<Op>): seq<Byte>
    requires AllKnown(ops)
  {
    if ops == [] then [] else Replay(base, ops[..|ops| - 1]) + Output(base, ops[|ops| - 1])
  }

  /** What applying a patch to a base leaves in the target file, or why the file is left alone. */
  function Applied(hash: seq<Byte> -> string, base: seq<Byte>, p: Patch): Result<seq<Byte>, ApplyError> {
    if hash(base) != p.baseHash then Err(BaseFileMismatch)
    else if !AllKnown(p.ops) then Err(InvalidPatch)
    else if hash(Replay(base, p.ops)) != p.targetHash then Err(TargetCorrupt)
    else Ok(Replay(base, p.ops))
  }

  /** A patch names its base and its target by their hashes alone. Whatever its operations have become, and
      whatever base it is applied to, a success means: this base, and this target. */
  lemma SuccessMeansTarget(hash: seq<Byte> -> string, base: seq<Byte>, target: seq<Byte>, other: seq<Byte>, p: Patch)
    requires p.baseHash == hash(base) && p.targetHash == hash(target)
    requires Applied(hash, other, p).Ok?
    requires hash(other) == hash(base) ==> other == base
    requires var out := Applied(hash, other, p).value; hash(out) == hash(target) ==> out == target
    ensures other == base && Applied(hash, other, p) == Ok(target)
  {
  }

  method ApplyPatch(hash: seq<Byte> -> string, base: seq<Byte>, p: Patch) returns (r: Result<seq<Byte>, ApplyError>)
    ensures r == Applied(hash, base, p)
  {
    if hash(base) != p.baseHash {
      return Err(BaseFileMismatch);
    }
    var out := [];
    for i := 0 to |p.ops|
      invariant AllKnown(p.ops[..i]) && out == Replay(base, p.ops[..i])
    {
      assert p.ops[..i + 1] == p.ops[..i] + [p.ops[i]];
      if p.ops[i].Unknown? {
        return Err(InvalidPatch);
      }
      ReplayAppend(base, p.ops[..i], p.ops[i]);
      out := out + Output(base, p.ops[i]);
    }
    assert p.ops[..|p.ops|] == p.ops;
    if hash(out) != p.targetHash {
      return Err(TargetCorrupt);
    }
    return Ok(out);
  }

  lemma ReplayAppend(base: seq<Byte>, ops: seq<Op>, op: Op)
    requires AllKnown(ops) && !op.Unknown?
    ensures AllKnown(ops + [op]) && Replay(base, ops + [op]) == Replay(base, ops) + Output(base, op)
  {
    assert (ops + [op])[..|ops|] == ops;
  }

  // ------------------------------------------------------------- what a created patch looks like

  predicate CopyInside(base: seq<Byte>, op: Op) {
    op.Copy? ==> 0 <= op.offset && 0 < op.length && op.offset + op.length <= |base|
  }

  predicate NoAdjacentInserts(ops: seq<Op>) {
    forall i: nat | i + 1 < |ops| :: !(ops[i].Insert? && ops[i + 1].Insert?)
  }

  function Length(base: seq<Byte>, op: Op): int {
    match op
    case Copy(_, length) => length
    case Insert(data) => |data|
    case Unknown(_) => 0
  }

  function TotalLength(base: seq<Byte>, ops: seq<Op>): int {
    if ops == [] then 0 else TotalLength(base, ops[..|ops| - 1]) + Length(base, ops[|ops| - 1])
  }

  /** The COPY that writes the target from position pos on cannot be made longer. */
  predicate RightMaximal(base: seq<Byte>, target: seq<Byte>, pos: int, op: Op) {
    op.Copy? && 0 <= pos && 0 <= op.offset && 0 <= op.length ==>
      || pos + op.length >= |target| || op.offset + op.length >= |base|
      || target[pos + op.length] != base[op.offset + op.length]
  }

  // ------------------------------------------------------------- the chunk index

  function Step(chunk: int): (s: nat)
    ensures s >= 1
  {
    if chunk >= 2 then chunk / 2 else 1
  }

  /** The base offsets whose chunks are indexed, from offset i on. */
  function Probes(n: nat, chunk: int, i: nat): seq<nat>
    decreases n - chunk - i
  {
    if i + chunk > n then [] else [i] + Probes(n, chunk, i + Step(chunk))
  }

  function ChunkAt(s: seq<Byte>, chunk: int, o: nat): seq<Byte> {
    Slice(s, o, o + chunk)
  }

  /** The chunks of base by the first probed offset they are found at, from offset i on. */
  function IndexFrom(base: seq<Byte>, chunk: int, i: nat, index: map<seq<Byte>, nat>): map<seq<Byte>, nat>
    decreases |base| - chunk - i
  {
    if i + chunk > |base| then index
    else
      var c := ChunkAt(base, chunk, i);
      IndexFrom(base, chunk, i + Step(chunk), if c in index then index else index[c := i])
  }

  function Index(base: seq<Byte>, chunk: int): map<seq<Byte>, nat> {
    IndexFrom(base, chunk, 0, map[])
  }

  predicate EntryOk(base: seq<Byte>, chunk: int, index: map<seq<Byte>, nat>, done: seq<nat>, c: seq<Byte>)
    requires c in index
  {
    index[c] in done && ChunkAt(base, chunk, index[c]) == c
  }

  /** The chunk at offset o is indexed, by o or an earlier offset. */
  predicate FoundBy(base: seq<Byte>, chunk: int, index: map<seq<Byte>, nat>, o: nat) {
    ChunkAt(base, chunk, o) in index && index[ChunkAt(base, chunk, o)] <= o
  }

  /** The index knows exactly the chunks at the given offsets, each by the first of them that holds it. */
  predicate IndexOf(base: seq<Byte>, chunk: int, index: map<seq<Byte>, nat>, done: seq<nat>) {
    && (forall c | c in index :: EntryOk(base, chunk, index, done, c))
    && (forall o | o in done :: FoundBy(base, chunk, index, o))
  }

  /** Indexing the chunk at the next offset. */
  lemma IndexStep(base: seq<Byte>, chunk: int, index: map<seq<Byte>, nat>, done: seq<nat>, i: nat)
    requires IndexOf(base, chunk, index, done) && forall o | o in done :: o < i
    ensures var c := ChunkAt(base, chunk, i);
            IndexOf(base, chunk, if c in index then index else index[c := i], done + [i])
  {
    hide ChunkAt;
    var x := ChunkAt(base, chunk, i);
    var next := if x in index then index else index[x := i];
    forall c | c in next ensures EntryOk(base, chunk, next, done + [i], c) {
      assert c in index ==> EntryOk(base, chunk, index, done, c);
    }
    forall o | o in done + [i] ensures FoundBy(base, chunk, next, o) {
      if o in done {
        assert FoundBy(base, chunk, index, o);
      } else {
        assert x in index ==> EntryOk(base, chunk, index, done, x);
      }
    }
  }

  lemma {:induction false} IndexComplete(base: seq<Byte>, chunk: int, i: nat, index: map<seq<Byte>, nat>, done: seq<nat>)
    requires IndexOf(base, chunk, index, done) && forall o | o in done :: o < i
    requires done + Probes(|base|, chunk, i) == Probes(|base|, chunk, 0)
    ensures IndexOf(base, chunk, IndexFrom(base, chunk, i, index), Probes(|base|, chunk, 0))
    decreases |base| - chunk - i
  {
    hide IndexOf, ChunkAt;
    if i + chunk > |base| {
      assert done + [] == done;
    } else {
      var c := ChunkAt(base, chunk, i);
      IndexStep(base, chunk, index, done, i);
      ProbesStep(|base|, chunk, i, done);
      IndexComplete(base, chunk, i + Step(chunk), if c in index then index else index[c := i], done + [i]);
    }
  }

  lemma ProbesStep(n: nat, chunk: int, i: nat, done: seq<nat>)
    requires i + chunk <= n
    ensures done + Probes(n, chunk, i) == (done + [i]) + Probes(n, chunk, i + Step(chunk))
  {
    var rest := Probes(n, chunk, i + Step(chunk));
    assert Probes(n, chunk, i) == [i] + rest;
    hide Probes;
    assert done + ([i] + rest) == (done + [i]) + rest;
  }

  lemma {:induction false} ProbesFit(n: nat, chunk: int, i: nat)
    ensures forall o | o in Probes(n, chunk, i) :: o + chunk <= n
    decreases n - chunk - i
  {
    if i + chunk <= n {
      ProbesFit(n, chunk, i + Step(chunk));
    }
  }

  /** What the index holds, for every chunk size. */
  lemma IndexMeaning(base: seq<Byte>, chunk: int)
    ensures IndexOf(base, chunk, Index(base, chunk), Probes(|base|, chunk, 0))
  {
    hide ChunkAt, Probes;
    assert [] + Probes(|base|, chunk, 0) == Probes(|base|, chunk, 0);
    IndexComplete(base, chunk, 0, map[], []);
  }

  lemma OneStep(x: nat, s: nat)
    requires s >= 1
    ensures x % s == 0 && x > 0 ==> x >= s
    ensures x >= s ==> (x - s) % s == x % s
  {
    if x >= s {
      var q := (x - s) / s;
      assert x - s == q * s + (x - s) % s;
      assert x == (q + 1) * s + (x - s) % s;
      ModUnique(x, s, q + 1, (x - s) % s);
    } else if x > 0 {
      ModUnique(x, s, 0, x);
    }
  }

  lemma Distributes(a: int, b: int, s: int)
    ensures (a - b) * s == a * s - b * s
  {
  }

  lemma AtLeast(k: int, s: int)
    requires k >= 1 && s >= 1
    ensures k * s >= s
  {
  }

  /** Quotient and remainder are unique. */
  lemma DivisionUnique(s: int, p: int, r: int, q: int, m: int)
    requires s >= 1 && p * s + r == q * s + m && 0 <= r < s && 0 <= m < s
    ensures p == q && r == m
  {
    Distributes(p, q, s);
    Distributes(q, p, s);
    if p > q {
      AtLeast(p - q, s);
    } else if q > p {
      AtLeast(q - p, s);
    }
  }

  lemma ModUnique(x: nat, s: nat, q: nat, m: nat)
    requires s >= 1 && x == q * s + m && m < s
    ensures x % s == m && x / s == q
  {
    assert x == x / s * s + x % s;
    DivisionUnique(s, x / s, x % s, q, m);
  }

  lemma {:induction false} ProbesFrom(n: nat, chunk: int, i: nat, o: nat)
    ensures o in Probes(n, chunk, i) <==> o >= i && o + chunk <= n && (o - i) % Step(chunk) == 0
    decreases n - chunk - i
  {
    hide Step;
    if i + chunk <= n {
      var rest := Probes(n, chunk, i + Step(chunk));
      assert Probes(n, chunk, i) == [i] + rest;
      ProbesFrom(n, chunk, i + Step(chunk), o);
      if o >= i {
        OneStep(o - i, Step(chunk));
      }
    }
  }

  /** The base is probed exactly at the multiples of half a chunk at which a whole chunk fits. */
  lemma ProbesExactly(n: nat, chunk: int, o: nat)
    ensures o in Probes(n, chunk, 0) <==> o + chunk <= n && o % (if chunk >= 2 then chunk / 2 else 1) == 0
  {
    ProbesFrom(n, chunk, 0, o);
  }

  method IndexChunks(base: seq<Byte>, chunk: int) returns (index: map<seq<Byte>, nat>)
    ensures index == Index(base, chunk)
  {
    hide ChunkAt;
    index := map[];
    if |base| >= chunk {
      var i := 0;
      while i + chunk <= |base|
        invariant Index(base, chunk) == IndexFrom(base, chunk, i, index)
        decreases |base| - chunk - i
      {
        var c := ChunkAt(base, chunk, i);
        if c !in index {
          index := index[c := i];
        }
        i := i + Step(chunk);
      }
    }
  }

  // ------------------------------------------------------------- the scan

  /** The target holds an indexed chunk at position q. */
  predicate MatchAt(base: seq<Byte>, target: seq<Byte>, chunk: int, q: nat) {
    |ChunkAt(target, chunk, q)| == chunk && ChunkAt(target, chunk, q) in Index(base, chunk)
  }

  lemma SliceAt(s: seq<Byte>, chunk: int, o: nat)
    requires 0 <= chunk && o <= |s|
    ensures |ChunkAt(s, chunk, o)| == chunk <==> o + chunk <= |s|
    ensures o + chunk <= |s| ==> ChunkAt(s, chunk, o) == s[o..o + chunk]
  {
  }

  lemma MatchFits(base: seq<Byte>, target: seq<Byte>, chunk: int, pos: nat)
    requires pos <= |target| && MatchAt(base, target, chunk, pos)
    ensures var off := Index(base, chunk)[ChunkAt(target, chunk, pos)];
            && 0 <= chunk && pos + chunk <= |target| && off + chunk <= |base|
            && target[pos..pos + chunk] == base[off..off + chunk]
  {
    hide ChunkAt, Probes, Index;
    var c := ChunkAt(target, chunk, pos);
    IndexMeaning(base, chunk);
    assert EntryOk(base, chunk, Index(base, chunk), Probes(|base|, chunk, 0), c);
    ProbesFit(|base|, chunk, 0);
    SliceAt(target, chunk, pos);
    SliceAt(base, chunk, Index(base, chunk)[c]);
  }

  /** How far a match of length n at target position pos and base offset off extends to the right. */
  function Extended(base: seq<Byte>, target: seq<Byte>, pos: nat, off: nat, n: nat): (m: nat)
    requires pos + n <= |target| && off + n <= |base|
    ensures m >= n && pos + m <= |target| && off + m <= |base|
    decreases |target| - (pos + n)
  {
    if pos + n < |target| && off + n < |base| && target[pos + n] == base[off + n]
    then Extended(base, target, pos, off, n + 1)
    else n
  }

  lemma {:induction false} ExtendedMatches(base: seq<Byte>, target: seq<Byte>, pos: nat, off: nat, n: nat)
    requires pos + n <= |target| && off + n <= |base| && target[pos..pos + n] == base[off..off + n]
    ensures var m := Extended(base, target, pos, off, n);
            && target[pos..pos + m] == base[off..off + m]
            && (pos + m == |target| || off + m == |base| || target[pos + m] != base[off + m])
    decreases |target| - (pos + n)
  {
    if pos + n < |target| && off + n < |base| && target[pos + n] == base[off + n] {
      assert target[pos..pos + (n + 1)] == target[pos..pos + n] + [target[pos + n]];
      assert base[off..off + (n + 1)] == base[off..off + n] + [base[off + n]];
      ExtendedMatches(base, target, pos, off, n + 1);
    }
  }

  /** The position at which the scan looks after position pos. */
  function Next(base: seq<Byte>, target: seq<Byte>, chunk: int, pos: nat): (next: nat)
    requires pos < |target|
    ensures pos <= next <= |target|
  {
    if MatchAt(base, target, chunk, pos) then
      MatchFits(base, target, chunk, pos);
      pos + Extended(base, target, pos, Index(base, chunk)[ChunkAt(target, chunk, pos)], chunk)
    else pos + 1
  }

  /** The next multiple of s at or after an offset. */
  lemma NextMultiple(off: nat, s: nat) returns (k: nat)
    requires s >= 1
    ensures k < s && (off + k) % s == 0
  {
    var m := off % s;
    assert off == off / s * s + m;
    if m == 0 {
      k := 0;
    } else {
      k := s - m;
      assert off + k == (off / s + 1) * s + 0;
      ModUnique(off + k, s, off / s + 1, 0);
    }
  }

  /** Wherever the target repeats the base for one and a half chunks, the scan finds a match within half a chunk. */
  lemma LongRunIsFound(base: seq<Byte>, target: seq<Byte>, chunk: int, pos: nat, off: nat, n: nat)
    requires chunk >= 2 && pos + n <= |target| && off + n <= |base| && target[pos..pos + n] == base[off..off + n]
    requires n >= chunk + chunk / 2 - 1
    ensures exists q: nat :: pos <= q < pos + chunk / 2 && MatchAt(base, target, chunk, q)
  {
    var k := NextMultiple(off, chunk / 2);
    hide Index, ChunkAt;
    assert k + chunk <= n;
    SameWithin(target, pos, base, off, n, k, chunk);
    ChunkIsFound(base, chunk, off + k);
    SliceAt(target, chunk, pos + k);
    assert MatchAt(base, target, chunk, pos + k);
  }

  lemma SliceOfSlice(a: seq<Byte>, i: nat, n: nat, k: nat, c: nat)
    requires i + n <= |a| && k + c <= n
    ensures a[i..i + n][k..k + c] == a[i + k..i + k + c]
  {
    var u, v := a[i..i + n][k..k + c], a[i + k..i + k + c];
    forall x: nat | x < c ensures u[x] == v[x] {
      assert u[x] == a[i..i + n][k + x];
    }
  }

  lemma SameWithin(a: seq<Byte>, i: nat, b: seq<Byte>, j: nat, n: nat, k: nat, c: nat)
    requires i + n <= |a| && j + n <= |b| && a[i..i + n] == b[j..j + n] && k + c <= n
    ensures a[i + k..i + k + c] == b[j + k..j + k + c]
  {
    SliceOfSlice(a, i, n, k, c);
    SliceOfSlice(b, j, n, k, c);
  }

  lemma ChunkIsFound(base: seq<Byte>, chunk: nat, o: nat)
    requires chunk >= 2 && o + chunk <= |base| && o % (chunk / 2) == 0
    ensures base[o..o + chunk] in Index(base, chunk)
  {
    ProbesExactly(|base|, chunk, o);
    IndexMeaning(base, chunk);
    hide Index, Probes;
    assert FoundBy(base, chunk, Index(base, chunk), o);
    SliceAt(base, chunk, o);
  }

  lemma EmptyChunkFirst(base: seq<Byte>)
    ensures [] in Index(base, 0) && Index(base, 0)[[]] == 0
  {
    IndexMeaning(base, 0);
    hide Index;
    assert 0 in Probes(|base|, 0, 0);
    assert FoundBy(base, 0, Index(base, 0), 0) && ChunkAt(base, 0, 0) == [];
  }

  /** With chunk size 0 the empty chunk matches at base offset 0 everywhere, so the scan stays where it is exactly
      if the base does not start with the byte there. */
  lemma ZeroChunkStalls(base: seq<Byte>, target: seq<Byte>, pos: nat)
    requires pos < |target|
    ensures Next(base, target, 0, pos) == pos <==> base == [] || base[0] != target[pos]
  {
    EmptyChunkFirst(base);
    hide Index;
    assert ChunkAt(target, 0, pos) == [];
  }

  lemma NextAdvances(base: seq<Byte>, target: seq<Byte>, chunk: int, pos: nat)
    requires pos < |target| && chunk != 0
    ensures Next(base, target, chunk, pos) > pos
  {
    hide Index, ChunkAt;
    if MatchAt(base, target, chunk, pos) {
      MatchFits(base, target, chunk, pos);
    }
  }

  /** The scan gets ahead at every position of every pair of files exactly if the chunk size is not 0. The
      constructor asks for 8 or more; the command line assigns any number afterwards. */
  lemma ScanAdvances(chunk: int)
    ensures (forall base, target, pos: nat | pos < |target| :: Next(base, target, chunk, pos) > pos) <==> chunk != 0
  {
    if chunk != 0 {
      forall base, target, pos: nat | pos < |target| ensures Next(base, target, chunk, pos) > pos {
        NextAdvances(base, target, chunk, pos);
      }
    } else {
      ZeroChunkStalls([1], [2], 0);
      assert Next([1], [2], 0, 0) == 0;
    }
  }

  /** The scan from pos on reaches the end of the target instead of staying at a position for ever. */
  predicate ScanEnds(base: seq<Byte>, target: seq<Byte>, chunk: int, pos: nat)
    requires pos <= |target|
    decreases |target| - pos
  {
    pos == |target|
    || (Next(base, target, chunk, pos) > pos && ScanEnds(base, target, chunk, Next(base, target, chunk, pos)))
  }

  lemma {:induction false} NonZeroEnds(base: seq<Byte>, target: seq<Byte>, chunk: int, pos: nat)
    requires pos <= |target| && chunk != 0
    ensures ScanEnds(base, target, chunk, pos)
    decreases |target| - pos
  {
    hide Next;
    if pos < |target| {
      NextAdvances(base, target, chunk, pos);
      NonZeroEnds(base, target, chunk, Next(base, target, chunk, pos));
    }
  }

  /** The diff ends on every pair of files exactly if the chunk size is not 0. */
  lemma ScanAlwaysEnds(chunk: int)
    ensures (forall base, target :: ScanEnds(base, target, chunk, 0)) <==> chunk != 0
  {
    if chunk != 0 {
      forall base, target ensures ScanEnds(base, target, chunk, 0) {
        NonZeroEnds(base, target, chunk, 0);
      }
    } else {
      ZeroChunkStalls([1], [2], 0);
      assert !ScanEnds([1], [2], 0, 0);
    }
  }

  // ------------------------------------------------------------- the diff

  /** No position an INSERT writes starts an indexed chunk. */
  predicate InsertNeeded(base: seq<Byte>, target: seq<Byte>, chunk: int, pos: int, op: Op) {
    op.Insert? && 0 <= pos ==> NoMatchWithin(base, target, chunk, pos, pos + |op.data|)
  }

  predicate NoMatchWithin(base: seq<Byte>, target: seq<Byte>, chunk: int, from: nat, to: nat) {
    forall q: nat | from <= q < to :: !MatchAt(base, target, chunk, q)
  }

  /** A COPY starts where the index finds the chunk of the target it begins to write. */
  predicate CopyFound(base: seq<Byte>, target: seq<Byte>, chunk: int, pos: int, op: Op) {
    op.Copy? && 0 <= pos ==>
      MatchAt(base, target, chunk, pos) && op.offset == Index(base, chunk)[ChunkAt(target, chunk, pos)]
  }

  predicate OpOk(base: seq<Byte>, target: seq<Byte>, chunk: int, pos: int, op: Op) {
    && !op.Unknown? && CopyInside(base, op)
    && (op.Copy? ==> op.length >= chunk)
    && (op.Insert? ==> op.data != [])
    && InsertNeeded(base, target, chunk, pos, op)
    && CopyFound(base, target, chunk, pos, op)
    && RightMaximal(base, target, pos, op)
  }

  /** Every operation of a created patch, at the position of the target it writes. */
  predicate WellMade(base: seq<Byte>, target: seq<Byte>, chunk: int, ops: seq<Op>) {
    forall i: nat | i < |ops| :: OpOk(base, target, chunk, TotalLength(base, ops[..i]), ops[i])
  }

  /** The operations so far, with what is pending, write the target up to pos. */
  predicate Progress(base: seq<Byte>, target: seq<Byte>, chunk: int, ops: seq<Op>, pending: seq<Byte>, pos: nat) {
    && pos <= |target|
    && WellMade(base, target, chunk, ops) && AllKnown(ops) && NoAdjacentInserts(ops)
    && Replay(base, ops) + pending == target[..pos]
    && TotalLength(base, ops) + |pending| == pos
    && (pending != [] ==> ops == [] || ops[|ops| - 1].Copy?)
    && NoMatchWithin(base, target, chunk, pos - |pending|, pos)
  }

  lemma AppendKeepsMade(base: seq<Byte>, target: seq<Byte>, chunk: int, ops: seq<Op>, op: Op)
    requires WellMade(base, target, chunk, ops) && OpOk(base, target, chunk, TotalLength(base, ops), op)
    ensures WellMade(base, target, chunk, ops + [op])
  {
    hide OpOk, TotalLength;
    var longer := ops + [op];
    forall i: nat | i < |longer| ensures OpOk(base, target, chunk, TotalLength(base, longer[..i]), longer[i]) {
      if i < |ops| {
        assert longer[..i] == ops[..i];
      } else {
        assert longer[..i] == ops;
      }
    }
  }

  lemma AppendKeepsOrder(ops: seq<Op>, op: Op)
    requires NoAdjacentInserts(ops) && (op.Insert? ==> ops == [] || ops[|ops| - 1].Copy?)
    ensures NoAdjacentInserts(ops + [op])
  {
  }

  lemma AppendTotal(base: seq<Byte>, ops: seq<Op>, op: Op)
    ensures TotalLength(base, ops + [op]) == TotalLength(base, ops) + Length(base, op)
  {
    assert (ops + [op])[..|ops|] == ops;
  }

  /** Appending a well-made operation. */
  lemma AppendOp(base: seq<Byte>, target: seq<Byte>, chunk: int, ops: seq<Op>, op: Op)
    requires WellMade(base, target, chunk, ops) && AllKnown(ops) && NoAdjacentInserts(ops)
    requires OpOk(base, target, chunk, TotalLength(base, ops), op)
    requires op.Insert? ==> ops == [] || ops[|ops| - 1].Copy?
    ensures WellMade(base, target, chunk, ops + [op]) && AllKnown(ops + [op]) && NoAdjacentInserts(ops + [op])
    ensures Replay(base, ops + [op]) == Replay(base, ops) + Output(base, op)
    ensures TotalLength(base, ops + [op]) == TotalLength(base, ops) + Length(base, op)
  {
    assert !op.Unknown?;
    hide WellMade, OpOk, NoAdjacentInserts, TotalLength, Replay, Output, Length, AllKnown;
    ReplayAppend(base, ops, op);
    AppendKeepsMade(base, target, chunk, ops, op);
    AppendKeepsOrder(ops, op);
    AppendTotal(base, ops, op);
  }

  /** So no INSERT of a created patch writes the first half chunk of such a run. */
  lemma LongRunsAreCopied(base: seq<Byte>, target: seq<Byte>, chunk: int, ops: seq<Op>, i: nat, pos: nat, off: nat,
                          n: nat)
    requires chunk >= 2 && WellMade(base, target, chunk, ops) && i < |ops| && ops[i].Insert?
    requires pos + n <= |target| && off + n <= |base| && target[pos..pos + n] == base[off..off + n]
    requires n >= chunk + chunk / 2 - 1
    ensures !(0 <= TotalLength(base, ops[..i]) <= pos
              && pos + chunk / 2 <= TotalLength(base, ops[..i]) + |ops[i].data|)
  {
    LongRunIsFound(base, target, chunk, pos, off, n);
    assert OpOk(base, target, chunk, TotalLength(base, ops[..i]), ops[i]);
    hide MatchAt, TotalLength;
  }

  /** Turns the pending bytes into an INSERT. */
  method FlushInsert(base: seq<Byte>, target: seq<Byte>, chunk: int, ops: seq<Op>, pending: seq<Byte>, pos: nat)
    returns (ops': seq<Op>)
    requires Progress(base, target, chunk, ops, pending, pos)
    ensures Progress(base, target, chunk, ops', [], pos)
    ensures pending == [] ==> ops' == ops
  {
    hide WellMade, NoAdjacentInserts, MatchAt, TotalLength, Replay;
    if pending == [] {
      return ops;
    }
    AppendOp(base, target, chunk, ops, Insert(pending));
    ops' := ops + [Insert(pending)];
    assert Replay(base, ops') + [] == Replay(base, ops) + pending;
  }

  lemma PendingStep(base: seq<Byte>, target: seq<Byte>, chunk: int, ops: seq<Op>, pending: seq<Byte>, pos: nat)
    requires Progress(base, target, chunk, ops, pending, pos) && pos < |target| && !MatchAt(base, target, chunk, pos)
    requires pending == [] ==> ops == [] || ops[|ops| - 1].Copy?
    ensures Progress(base, target, chunk, ops, pending + [target[pos]], pos + 1)
  {
    hide WellMade, NoAdjacentInserts, TotalLength, Replay, MatchAt;
    assert target[..pos + 1] == target[..pos] + [target[pos]];
    assert Replay(base, ops) + (pending + [target[pos]]) == (Replay(base, ops) + pending) + [target[pos]];
  }

  lemma CopyOutput(base: seq<Byte>, off: nat)
    ensures forall n: nat | off + n <= |base| :: Output(base, Copy(off, n)) == base[off..off + n]
  {
  }

  /** Copies the longest match from the base offset the index gives for the chunk at pos. */
  method EmitCopy(base: seq<Byte>, target: seq<Byte>, chunk: int, ops: seq<Op>, pos: nat, off: nat)
    returns (ops': seq<Op>, n: nat)
    requires Progress(base, target, chunk, ops, [], pos) && pos < |target|
    requires MatchAt(base, target, chunk, pos) && off == Index(base, chunk)[ChunkAt(target, chunk, pos)]
    requires Next(base, target, chunk, pos) > pos
    ensures pos + n == Next(base, target, chunk, pos) && Progress(base, target, chunk, ops', [], pos + n)
    ensures ops' != [] && ops'[|ops'| - 1].Copy?
  {
    hide WellMade, NoAdjacentInserts, TotalLength, Extended, Index, MatchAt, ChunkAt, Replay, Output;
    CopyOutput(base, off);
    MatchFits(base, target, chunk, pos);
    n := ExtendMatch(base, target, pos, off, chunk);
    ExtendedMatches(base, target, pos, off, chunk);
    assert Replay(base, ops) + [] == Replay(base, ops);
    AppendOp(base, target, chunk, ops, Copy(off, n));
    ops' := ops + [Copy(off, n)];
    assert target[..pos + n] == target[..pos] + target[pos..pos + n];
    assert Replay(base, ops') + [] == target[..pos + n];
  }

  /** The fast path for identical contents. */
  method IdenticalPatch(hash: seq<Byte> -> string, base: seq<Byte>, chunk: int) returns (p: Patch)
    ensures p == Patch(hash(base), |base|, hash(base), |base|, chunk, if base == [] then [] else [Copy(0, |base|)])
    ensures AllKnown(p.ops) && Replay(base, p.ops) == base
    ensures TotalLength(base, p.ops) == |base| && NoAdjacentInserts(p.ops)
  {
    var ops := if |base| > 0 then [Copy(0, |base|)] else [];
    assert |base| > 0 ==> ops == [] + [Copy(0, |base|)] && AllKnown([]) && ops[..0] == [];
    assert |base| > 0 ==> Replay(base, []) == [] && Slice(base, 0, |base|) == base;
    return Patch(hash(base), |base|, hash(base), |base|, chunk, ops);
  }

  /** The patch from base to target, whenever the scan ends. Applying it to base gives target; every COPY lies
      inside base, and unless the files are equal it starts at the first indexed offset of its chunk, is at least
      one chunk long and cannot be extended; no two INSERTs are adjacent, and none covers the start of an indexed
      chunk; the lengths add up to the size of the target. */
  method CreatePatch(hash: seq<Byte> -> string, base: seq<Byte>, target: seq<Byte>, chunk: int) returns (p: Patch)
    requires base == target || ScanEnds(base, target, chunk, 0)
    ensures p.baseHash == hash(base) && p.targetHash == hash(target)
    ensures p.baseSize == |base| && p.targetSize == |target| && p.chunkSize == chunk
    ensures AllKnown(p.ops) && Replay(base, p.ops) == target && Applied(hash, base, p) == Ok(target)
    ensures TotalLength(base, p.ops) == |target| && NoAdjacentInserts(p.ops)
    ensures if base == target then p.ops == (if base == [] then [] else [Copy(0, |base|)])
            else WellMade(base, target, chunk, p.ops)
  {
    if base == target {
      p := IdenticalPatch(hash, base, chunk);
      return;
    }
    hide Progress, ScanEnds;
    var ops := Diff(base, target, chunk);
    ProgressEnd(base, target, chunk, ops);
    return Patch(hash(base), |base|, hash(target), |target|, chunk, ops);
  }

  /** The greedy scan of the target: a COPY where an indexed chunk starts, a pending byte elsewhere. */
  method Diff(base: seq<Byte>, target: seq<Byte>, chunk: int) returns (ops: seq<Op>)
    requires ScanEnds(base, target, chunk, 0)
    ensures Progress(base, target, chunk, ops, [], |target|)
  {
    hide Progress, Index, ChunkAt;
    var index := IndexChunks(base, chunk);
    var pending: seq<Byte>, pos := [], 0;
    ops := [];
    ProgressStart(base, target, chunk);
    while pos < |target|
      invariant pos <= |target| && Progress(base, target, chunk, ops, pending, pos)
      invariant ops == [] || ops[|ops| - 1].Copy?
      invariant ScanEnds(base, target, chunk, pos)
      decreases |target| - pos
    {
      var block := ChunkAt(target, chunk, pos);
      if |block| == chunk && block in index {
        ops := FlushInsert(base, target, chunk, ops, pending, pos);
        pending := [];
        var n;
        ops, n := EmitCopy(base, target, chunk, ops, pos, index[block]);
        pos := pos + n;
      } else {
        PendingStep(base, target, chunk, ops, pending, pos);
        pending := pending + [target[pos]];
        pos := pos + 1;
      }
    }
    ops := FlushInsert(base, target, chunk, ops, pending, pos);
  }

  lemma ProgressStart(base: seq<Byte>, target: seq<Byte>, chunk: int)
    ensures Progress(base, target, chunk, [], [], 0)
  {
  }

  lemma ProgressEnd(base: seq<Byte>, target: seq<Byte>, chunk: int, ops: seq<Op>)
    requires Progress(base, target, chunk, ops, [], |target|)
    ensures WellMade(base, target, chunk, ops) && AllKnown(ops) && NoAdjacentInserts(ops)
    ensures Replay(base, ops) == target && TotalLength(base, ops) == |target|
  {
    hide WellMade, NoAdjacentInserts, TotalLength, Replay, NoMatchWithin;
    assert Replay(base, ops) + [] == Replay(base, ops) && target[..|target|] == target;
  }

  method ExtendMatch(base: seq<Byte>, target: seq<Byte>, pos: nat, off: nat, chunk: nat) returns (n: nat)
    requires pos + chunk <= |target| && off + chunk <= |base|
    ensures n == Extended(base, target, pos, off, chunk)
  {
    n := chunk;
    while pos + n < |target| && off + n < |base| && target[pos + n] == base[off + n]
      invariant pos + n <= |target| && off + n <= |base|
      invariant Extended(base, target, pos, off, chunk) == Extended(base, target, pos, off, n)
    {
      n := n + 1;
    }
  }
}
