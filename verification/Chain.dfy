/** The hash chain over stored rows: encoding, decoding and verification. */
module Chain {
  import opened Options
  import opened Events
  import opened Records

  const GENESIS_HASH: Digest := "0000000000000000000000000000000000000000000000000000000000000000"
  const SCHEMA_VERSION := 1

  /** Stored payload bytes: the canonical encoding of a payload, or any other bytes, which may or may not
      decode to a payload. */
  datatype PayloadText = Canonical(payload: Payload) | OtherText(raw: string, meaning: Option<Payload>)

  datatype KindText = Known(kind: Kind) | Unknown(name: string)

  /** One stored row; nothing about it is trusted. */
  datatype Row = Row(
    seqNo: int, eventId: string, schema: int, kind: KindText, taskId: Option<Id>, attempt: Option<int>,
    dispatchId: Option<Id>, workerId: Option<Id>, resultId: Option<Id>, dedupeKey: Option<string>, time: string,
    text: PayloadText, prevHash: Digest, hash: Digest)

  /** What a row's hash is computed over: every column but the hash, with the key as the decoded event has it. */
  datatype Material = Material(
    schema: int, seqNo: int, eventId: string, kind: Kind, taskId: Option<Id>, attempt: Option<int>,
    dispatchId: Option<Id>, workerId: Option<Id>, resultId: Option<Id>, dedupeKey: Option<string>, time: string,
    text: PayloadText, prevHash: Digest)

  function Parse(t: PayloadText): Option<Payload> {
    match t
    case Canonical(p) => Some(p)
    case OtherText(_, m) => m
  }

  predicate StampValid(s: Stamp) {
    IsId(s.eventId) && s.time != "" && s.time[|s.time| - 1] == 'Z'
  }

  function ToRow(s: Sealed): Row {
    var e := s.event;
    Row(s.seqNo, s.stamp.eventId, SCHEMA_VERSION, Known(e.kind), e.taskId, e.attempt, e.dispatchId, e.workerId,
        e.resultId, e.dedupeKey, s.stamp.time, Canonical(e.payload), s.prevHash, s.hash)
  }

  /** The event a row decodes to, unless it is malformed. An absent key becomes the default key. */
  function FromRow(r: Row): Option<Sealed> {
    var p := Parse(r.text);
    if r.kind.Unknown? || p.None? || r.schema != SCHEMA_VERSION || !StampValid(Stamp(r.eventId, r.time)) then None
    else
      var e := EventData(r.kind.kind, r.taskId, r.attempt, r.dispatchId, r.workerId, r.resultId, p.value,
                         r.dedupeKey).WithKey();
      if e.Valid() then Some(Sealed(r.seqNo, e, Stamp(r.eventId, r.time), r.prevHash, r.hash)) else None
  }

  function MaterialOf(s: Sealed, text: PayloadText): Material {
    var e := s.event;
    Material(SCHEMA_VERSION, s.seqNo, s.stamp.eventId, e.kind, e.taskId, e.attempt, e.dispatchId, e.workerId,
             e.resultId, e.dedupeKey, s.stamp.time, text, s.prevHash)
  }

  /** The event as the journal stores it after a chain ending in prevHash. */
  function Seal(hash: Material -> Digest, e: Event, stamp: Stamp, seqNo: int, prevHash: Digest): Sealed {
    var unhashed := Sealed(seqNo, e, stamp, prevHash, "");
    unhashed.(hash := hash(MaterialOf(unhashed, Canonical(e.payload))))
  }

  // ------------------------------------------------------------- verification

  datatype Defect = SequenceGap | BrokenLink | InvalidEvent | HashMismatch

  function RowDefect(hash: Material -> Digest, r: Row, expected: int, prevHash: Digest): Option<Defect> {
    var s := FromRow(r);
    if r.seqNo != expected then Some(SequenceGap)
    else if r.prevHash != prevHash then Some(BrokenLink)
    else if s.None? then Some(InvalidEvent)
    else if hash(MaterialOf(s.value, r.text)) != r.hash then Some(HashMismatch)
    else None
  }

  /** A defect is the first thing that is wrong with a row. */
  lemma DefectMeans(hash: Material -> Digest, r: Row, expected: int, prevHash: Digest)
    ensures match RowDefect(hash, r, expected, prevHash)
            case None =>
              && r.seqNo == expected && r.prevHash == prevHash && FromRow(r).Some?
              && hash(MaterialOf(FromRow(r).value, r.text)) == r.hash
            case Some(SequenceGap) => r.seqNo != expected
            case Some(BrokenLink) => r.seqNo == expected && r.prevHash != prevHash
            case Some(InvalidEvent) => r.seqNo == expected && r.prevHash == prevHash && FromRow(r).None?
            case Some(HashMismatch) =>
              && r.seqNo == expected && r.prevHash == prevHash && FromRow(r).Some?
              && hash(MaterialOf(FromRow(r).value, r.text)) != r.hash
  {
    hide FromRow, MaterialOf;
  }

  /** The rows that decode: the known schema and kind, a payload, an identifier, a time in UTC, and a valid event. */
  lemma DecodesExactly(r: Row)
    ensures FromRow(r).Some? <==>
              && r.schema == 1 && r.kind.Known? && Parse(r.text).Some?
              && 1 <= |r.eventId| <= 200 && (exists day :: r.time == day + "Z")
              && WellFormed(EventData(r.kind.kind, r.taskId, r.attempt, r.dispatchId, r.workerId, r.resultId,
                                      Parse(r.text).value, r.dedupeKey).WithKey())
  {
    if r.time != "" {
      assert r.time == r.time[..|r.time| - 1] + [r.time[|r.time| - 1]];
    }
    forall day | r.time == day + "Z" ensures r.time[|r.time| - 1] == 'Z' {
    }
    if r.kind.Known? && Parse(r.text).Some? {
      ValidExactly(EventData(r.kind.kind, r.taskId, r.attempt, r.dispatchId, r.workerId, r.resultId,
                             Parse(r.text).value, r.dedupeKey).WithKey());
    }
    hide WellFormed, EventData.Valid;
  }

  /** The hash a row at position i must link to. */
  function LinkBefore(rows: seq<Row>, i: nat): Digest
    requires i <= |rows|
  {
    if i == 0 then GENESIS_HASH else rows[i - 1].hash
  }

  predicate RowOk(hash: Material -> Digest, rows: seq<Row>, i: nat)
    requires i < |rows|
  {
    RowDefect(hash, rows[i], i + 1, LinkBefore(rows, i)).None?
  }

  predicate ChainOk(hash: Material -> Digest, rows: seq<Row>) {
    forall i: nat | i < |rows| :: RowOk(hash, rows, i)
  }

  lemma FirstRowLinksToZeros(hash: Material -> Digest, rows: seq<Row>)
    requires rows != [] && RowOk(hash, rows, 0)
    ensures rows[0].prevHash == "0000000000000000000000000000000000000000000000000000000000000000"
  {
    hide FromRow, MaterialOf;
  }

  datatype ChainReport = ChainReport(ok: bool, count: nat, headSeq: int, headHash: Digest,
                                     firstBad: Option<int>, reason: Option<Defect>)

  /** Recomputes every hash from the stored rows: accepts exactly the intact chains, and otherwise reports
      the first row that breaks, with the intact part before it. */
  method VerifyChain(hash: Material -> Digest, rows: seq<Row>) returns (r: ChainReport)
    ensures r.ok <==> ChainOk(hash, rows)
    ensures r.count <= |rows| && r.headSeq == r.count && r.headHash == LinkBefore(rows, r.count)
    ensures ChainOk(hash, rows[..r.count])
    ensures r.ok ==> r.count == |rows| && r.firstBad.None? && r.reason.None?
    ensures !r.ok ==> r.count < |rows| && !RowOk(hash, rows, r.count)
                      && r.firstBad == Some(rows[r.count].seqNo)
                      && r.reason == RowDefect(hash, rows[r.count], r.count + 1, LinkBefore(rows, r.count))
  {
    hide FromRow, MaterialOf, RowDefect;
    var expected, prevHash, count := 1, GENESIS_HASH, 0;
    while count < |rows|
      invariant 0 <= count <= |rows| && expected == count + 1 && prevHash == LinkBefore(rows, count)
      invariant forall i: nat | i < count :: RowOk(hash, rows, i)
      invariant ChainOk(hash, rows[..count])
    {
      var defect := RowDefect(hash, rows[count], expected, prevHash);
      if defect.Some? {
        assert !RowOk(hash, rows, count);
        return ChainReport(false, count, expected - 1, prevHash, Some(rows[count].seqNo), defect);
      }
      assert RowOk(hash, rows, count);
      ghost var longer := rows[..count + 1];
      assert forall i: nat | i <= count :: RowOk(hash, rows, i) ==> RowOk(hash, longer, i);
      prevHash, expected, count := rows[count].hash, expected + 1, count + 1;
    }
    assert rows[..count] == rows;
    return ChainReport(true, count, expected - 1, prevHash, None, None);
  }

  // ------------------------------------------------------------- tamper evidence

  predicate RowHashes(r: Row, m: Material) {
    FromRow(r).Some? && m == MaterialOf(FromRow(r).value, r.text)
  }

  /** No two of the hashed rows collide, and none hashes to the genesis value. */
  ghost predicate CollisionFree(hash: Material -> Digest, a: seq<Row>, b: seq<Row>) {
    && (forall r, q, m, n | r in a && q in b && RowHashes(r, m) && RowHashes(q, n) && hash(m) == hash(n) :: m == n)
    && (forall r, m | r in a && RowHashes(r, m) :: hash(m) != GENESIS_HASH)
    && (forall r, m | r in b && RowHashes(r, m) :: hash(m) != GENESIS_HASH)
  }

  /** The events of a chain, as far as they decode. */
  function Decoded(rows: seq<Row>): seq<Option<Sealed>> {
    seq(|rows|, i requires 0 <= i < |rows| => FromRow(rows[i]))
  }

  /** One link: rows with equal hashes at the same head decode to the same event and continue alike. */
  lemma SameHashSameRow(hash: Material -> Digest, a: seq<Row>, b: seq<Row>, i: nat, j: nat)
    requires ChainOk(hash, a) && ChainOk(hash, b) && CollisionFree(hash, a, b)
    requires i < |a| && j < |b| && a[i].hash == b[j].hash
    ensures i == j && FromRow(a[i]) == FromRow(b[j]) && LinkBefore(a, i) == LinkBefore(b, j)
  {
    assert RowOk(hash, a, i) && RowOk(hash, b, j);
    var m := MaterialOf(FromRow(a[i]).value, a[i].text);
    var n := MaterialOf(FromRow(b[j]).value, b[j].text);
    assert RowHashes(a[i], m) && RowHashes(b[j], n);
    assert a[i] in a && b[j] in b;
    assert m == n;
  }

  lemma {:induction false} PrefixesAgree(hash: Material -> Digest, a: seq<Row>, b: seq<Row>, i: nat, j: nat)
    requires ChainOk(hash, a) && ChainOk(hash, b) && CollisionFree(hash, a, b)
    requires i <= |a| && j <= |b| && LinkBefore(a, i) == LinkBefore(b, j)
    ensures i == j && forall k: nat | k < i :: FromRow(a[k]) == FromRow(b[k])
  {
    if i == 0 && j > 0 {
      assert RowOk(hash, b, j - 1) && b[j - 1] in b;
      assert RowHashes(b[j - 1], MaterialOf(FromRow(b[j - 1]).value, b[j - 1].text));
    } else if j == 0 && i > 0 {
      assert RowOk(hash, a, i - 1) && a[i - 1] in a;
      assert RowHashes(a[i - 1], MaterialOf(FromRow(a[i - 1]).value, a[i - 1].text));
    } else if i > 0 {
      SameHashSameRow(hash, a, b, i - 1, j - 1);
      PrefixesAgree(hash, a, b, i - 1, j - 1);
    }
  }

  /** Two intact chains with the same head hash decode to the same events: any altered, dropped, inserted or
      reordered event under an unchanged head breaks the chain. */
  lemma TamperEvidence(hash: Material -> Digest, a: seq<Row>, b: seq<Row>)
    requires CollisionFree(hash, a, b)
    requires LinkBefore(a, |a|) == LinkBefore(b, |b|)
    requires ChainOk(hash, a)
    ensures ChainOk(hash, b) ==> Decoded(a) == Decoded(b)
  {
    if ChainOk(hash, b) {
      PrefixesAgree(hash, a, b, |a|, |b|);
    }
  }

  /** The rows are the same, but where one holds NULL the other may hold the key the event has by default. */
  predicate SameButDefaultKey(r: Row, q: Row) {
    || r == q
    || (r.dedupeKey.None? && FromRow(r).Some? && q == r.(dedupeKey := FromRow(r).value.event.dedupeKey))
    || (q.dedupeKey.None? && FromRow(q).Some? && r == q.(dedupeKey := FromRow(q).value.event.dedupeKey))
  }

  predicate SameRowsButDefaultKeys(a: seq<Row>, b: seq<Row>) {
    |a| == |b| && forall k: nat | k < |a| :: SameButDefaultKey(a[k], b[k])
  }

  lemma EqualHashesLeaveTheKey(hash: Material -> Digest, a: seq<Row>, b: seq<Row>, k: nat)
    requires ChainOk(hash, a) && ChainOk(hash, b) && CollisionFree(hash, a, b)
    requires k < |a| && k < |b| && a[k].hash == b[k].hash
    ensures SameButDefaultKey(a[k], b[k])
  {
    SameHashSameRow(hash, a, b, k, k);
    var r, q := a[k], b[k];
    assert RowOk(hash, a, k) && RowOk(hash, b, k);
    assert RowHashes(r, MaterialOf(FromRow(r).value, r.text)) && RowHashes(q, MaterialOf(FromRow(q).value, q.text));
    assert r in a && q in b;
    assert r.(dedupeKey := None) == q.(dedupeKey := None);
  }

  lemma {:induction false} PrefixesShareRows(hash: Material -> Digest, a: seq<Row>, b: seq<Row>, n: nat)
    requires ChainOk(hash, a) && ChainOk(hash, b) && CollisionFree(hash, a, b)
    requires n <= |a| && n <= |b| && LinkBefore(a, n) == LinkBefore(b, n)
    ensures forall k: nat | k < n :: SameButDefaultKey(a[k], b[k])
  {
    hide ChainOk, CollisionFree, SameButDefaultKey;
    if n > 0 {
      EqualHashesLeaveTheKey(hash, a, b, n - 1);
      SameHashSameRow(hash, a, b, n - 1, n - 1);
      PrefixesShareRows(hash, a, b, n - 1);
    }
  }

  lemma DefaultKeyDecodesAlike(r: Row, q: Row)
    requires SameButDefaultKey(r, q)
    ensures FromRow(r) == FromRow(q)
    ensures forall hash: Material -> Digest, n: int, prev :: RowDefect(hash, r, n, prev) == RowDefect(hash, q, n, prev)
    ensures r.hash == q.hash
  {
  }

  /** What an intact chain fixes of its raw rows, exactly: other rows make an intact chain with the same head if
      and only if they are these rows, except that NULL may stand for the default key. */
  lemma ChainFixesRows(hash: Material -> Digest, a: seq<Row>, b: seq<Row>)
    requires CollisionFree(hash, a, b) && ChainOk(hash, a)
    ensures ChainOk(hash, b) && LinkBefore(a, |a|) == LinkBefore(b, |b|) <==> SameRowsButDefaultKeys(a, b)
  {
    if ChainOk(hash, b) && LinkBefore(a, |a|) == LinkBefore(b, |b|) {
      PrefixesAgree(hash, a, b, |a|, |b|);
      PrefixesShareRows(hash, a, b, |a|);
    }
    if SameRowsButDefaultKeys(a, b) {
      DefaultKeysKeepChain(hash, a, b);
    }
  }

  lemma DefaultKeysKeepChain(hash: Material -> Digest, a: seq<Row>, b: seq<Row>)
    requires ChainOk(hash, a) && SameRowsButDefaultKeys(a, b)
    ensures ChainOk(hash, b) && LinkBefore(a, |a|) == LinkBefore(b, |b|)
  {
    hide RowDefect, FromRow, SameButDefaultKey;
    forall k: nat | k < |a| ensures a[k].hash == b[k].hash {
      DefaultKeyDecodesAlike(a[k], b[k]);
    }
    forall k: nat | k < |b| ensures RowOk(hash, b, k) {
      assert RowOk(hash, a, k);
      DefaultKeyDecodesAlike(a[k], b[k]);
      assert LinkBefore(a, k) == LinkBefore(b, k);
    }
  }

  /** Two intact chains with one head therefore differ, row by row, in the key alone. */
  lemma RowsDifferInKeyOnly(hash: Material -> Digest, a: seq<Row>, b: seq<Row>, k: nat)
    requires CollisionFree(hash, a, b) && ChainOk(hash, a) && ChainOk(hash, b)
    requires LinkBefore(a, |a|) == LinkBefore(b, |b|) && k < |a|
    ensures k < |b| && a[k].(dedupeKey := None) == b[k].(dedupeKey := None)
    ensures a[k] == b[k] <==> a[k].dedupeKey == b[k].dedupeKey
    ensures a[k].dedupeKey != b[k].dedupeKey ==> a[k].dedupeKey.None? || b[k].dedupeKey.None?
  {
    ChainFixesRows(hash, a, b);
    assert SameButDefaultKey(a[k], b[k]);
    var r, q := a[k], b[k];
    assert r == r.(dedupeKey := None).(dedupeKey := r.dedupeKey);
    assert q == q.(dedupeKey := None).(dedupeKey := q.dedupeKey);
  }

  /** NULL in place of the default key is invisible: the row is intact either way and decodes to the same event. */
  lemma NullKeyIsInvisible(hash: Material -> Digest, s: Sealed)
    requires s.event.dedupeKey == s.event.(dedupeKey := None).DefaultKey()
    requires StampValid(s.stamp)
    requires hash(MaterialOf(s, Canonical(s.event.payload))) == s.hash
    ensures FromRow(ToRow(s)) == Some(s) == FromRow(ToRow(s).(dedupeKey := None))
    ensures RowDefect(hash, ToRow(s), s.seqNo, s.prevHash).None?
    ensures RowDefect(hash, ToRow(s).(dedupeKey := None), s.seqNo, s.prevHash).None?
  {
  }

  /** Storing and reading back an event loses nothing. */
  lemma RowRoundTrip(s: Sealed)
    requires StampValid(s.stamp)
    ensures FromRow(ToRow(s)) == Some(s) && ToRow(s).schema == 1
  {
  }
}
