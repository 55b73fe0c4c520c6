/** The event vocabulary of the journal: kinds, payloads, validation and default de-duplication keys. */
module Events {
  import opened Options

  type Id = string

  const MAX_ID_LENGTH := 200
  const MAX_ATTEMPTS_LIMIT := 100

  datatype Kind =
    | TaskCreated | TaskClaimed | TaskStarted | TaskProgress | ResultReady | ResultAccepted | ResultRejected
    | TaskComplete | LeaseExpired | TaskRetryScheduled | TaskBlocked | TaskFailed | TaskCancelRequested
    | TaskCancelled | EffectConfirmed | RetryAuthorized | LateResultDiscarded
    | ControllerStarted | ControllerStopped

  predicate IsSystem(k: Kind) {
    k.ControllerStarted? || k.ControllerStopped?
  }

  predicate IsHumanDecision(k: Kind) {
    k.EffectConfirmed? || k.RetryAuthorized?
  }

  datatype EffectClass = Idempotent | NonIdempotent | OtherClass(name: string)

  datatype Artifact = Artifact(path: string, sha256: string)

  /** Whose result, and which artifacts, a dependent task starts from. */
  datatype Input = Input(taskId: Id, dispatchId: Id, resultId: Id, artifacts: seq<Artifact>)

  datatype ResultOutcome = Success | Failure | OtherOutcome(name: string)

  /** What an event carries besides its columns, one constructor for each shape the kinds ask for. Adapter
      parameters and verifier names are not looked into. */
  datatype Payload =
    | Creation(adapter: Id, params: string, effectClass: EffectClass, maxAttempts: int, leaseTtl: int,
               timeout: Option<int>, dependsOn: Option<Id>)
    | Claiming(ttl: int, input: Option<Input>)
    | Report(artifacts: seq<Artifact>, outcome: ResultOutcome, retryable: Option<bool>, note: Option<string>)
    | Rejection(reason: string, mayRetry: bool, verifier: string)
    | Because(reason: string, actor: Option<Id>)
    | Late(artifacts: seq<Artifact>, outcome: ResultOutcome, retryable: Option<bool>, note: Option<string>,
           lateAttempt: int, reason: string)
    | Info(text: string)

  /** What a caller submits; an Event is one that passes validation. */
  datatype EventData = EventData(
    kind: Kind, taskId: Option<Id>, attempt: Option<int>, dispatchId: Option<Id>, workerId: Option<Id>,
    resultId: Option<Id>, payload: Payload, dedupeKey: Option<string>)
  {
    /** What holds of every event object: the key is filled in and everything else is well formed. */
    predicate Valid() {
      && (dedupeKey.None? ==> DefaultKey().None?)
      && ValidId(dedupeKey) && ValidId(taskId) && ValidId(dispatchId) && ValidId(workerId) && ValidId(resultId)
      && (attempt.Some? ==> 1 <= attempt.value <= MAX_ATTEMPTS_LIMIT)
      && EnvelopeComplete()
      && PayloadValid()
    }

    /** The envelope fields each kind requires; a system event takes none of them. */
    predicate EnvelopeComplete() {
      if IsSystem(kind) then
        taskId.None? && attempt.None? && dispatchId.None? && workerId.None? && resultId.None?
      else
        && taskId.Some?
        && (NamesAttempt(kind) ==> attempt.Some?)
        && (NamesDispatch(kind) ==> dispatchId.Some?)
        && (NamesWorker(kind) ==> workerId.Some?)
        && (NamesResult(kind) ==> resultId.Some?)
    }

    predicate PayloadValid() {
      match kind
      case TaskCreated =>
        && payload.Creation?
        && IsId(payload.adapter)
        && !payload.effectClass.OtherClass?
        && 1 <= payload.maxAttempts <= MAX_ATTEMPTS_LIMIT
        && 1 <= payload.leaseTtl
        && (payload.timeout.Some? ==> 1 <= payload.timeout.value)
        && (payload.dependsOn.Some? ==> IsId(payload.dependsOn.value) && payload.dependsOn != taskId)
      case TaskClaimed =>
        payload.Claiming? && 1 <= payload.ttl && (payload.input.Some? ==> InputValid(payload.input.value))
      case ResultReady =>
        payload.Report? && !payload.outcome.OtherOutcome? && ArtifactsValid(payload.artifacts)
      case ResultRejected => payload.Rejection?
      case LateResultDiscarded => payload.Late?
      case LeaseExpired =>
        payload.Because? && payload.reason in {"ttl", "restart_grace"} && ValidId(payload.actor)
      case EffectConfirmed => HumanPayload()
      case RetryAuthorized => HumanPayload()
      case TaskRetryScheduled => payload.Because? && ValidId(payload.actor)
      case TaskBlocked => payload.Because? && ValidId(payload.actor)
      case TaskFailed => payload.Because? && ValidId(payload.actor)
      case TaskCancelRequested => payload.Because? && ValidId(payload.actor)
      case TaskCancelled => payload.Because? && ValidId(payload.actor)
      case _ => payload.Info?
    }

    predicate HumanPayload() {
      payload.Because? && payload.actor.Some? && IsId(payload.actor.value) && !Blank(payload.reason)
    }

    /** What makes two submissions the same effect: everything but the key. */
    function Content(): EventData {
      this.(dedupeKey := None)
    }

    function DefaultKey(): Option<string> {
      if KeyTag(kind).None? then None
      else
        var rest :=
          match kind
          case TaskClaimed => Text(taskId) + ":" + Number(attempt)
          case TaskStarted => Text(dispatchId)
          case ResultReady => Text(dispatchId) + ":" + Text(resultId)
          case LeaseExpired => Text(dispatchId)
          case RetryAuthorized => Text(taskId) + ":" + Number(attempt)
          case _ => Text(taskId);
        Some(KeyTag(kind).value + ":" + rest)
    }

    /** The constructor's last step: an absent key becomes the default key of the event. */
    function WithKey(): EventData {
      if dedupeKey.None? then this.(dedupeKey := DefaultKey()) else this
    }
  }

  type Event = e: EventData | e.Valid()
    witness EventData(ControllerStarted, None, None, None, None, None, Info(""), None)

  predicate IsId(s: string) {
    0 < |s| <= MAX_ID_LENGTH
  }

  predicate ValidId(id: Option<Id>) {
    id.Some? ==> IsId(id.value)
  }

  lemma IdLengths(s: string)
    ensures IsId(s) <==> 1 <= |s| <= 200
  {
  }

  predicate NamesAttempt(k: Kind) {
    || k.TaskClaimed? || k.TaskStarted? || k.TaskProgress? || k.ResultReady? || k.ResultAccepted?
    || k.ResultRejected? || k.TaskComplete? || k.LeaseExpired? || k.TaskRetryScheduled? || k.EffectConfirmed?
    || k.RetryAuthorized?
  }

  predicate NamesDispatch(k: Kind) {
    || k.TaskClaimed? || k.TaskStarted? || k.TaskProgress? || k.ResultReady? || k.ResultAccepted?
    || k.ResultRejected? || k.TaskComplete? || k.LeaseExpired? || k.LateResultDiscarded?
  }

  predicate NamesWorker(k: Kind) {
    || k.TaskClaimed? || k.TaskStarted? || k.ResultReady? || k.LeaseExpired?
  }

  predicate NamesResult(k: Kind) {
    || k.ResultReady? || k.ResultAccepted? || k.ResultRejected? || k.TaskComplete? || k.LateResultDiscarded?
  }

  /** ^[0-9a-f]{64}$ : the anchor also matches just before one trailing newline. */
  predicate IsSha256Hex(s: string) {
    && (|s| == 64 || (|s| == 65 && s[64] == '\n'))
    && forall i | 0 <= i < 64 :: '0' <= s[i] <= '9' || 'a' <= s[i] <= 'f'
  }

  /** A digest is 64 characters, each a decimal digit or one of the first six small letters. */
  lemma DigestCharacters(s: string)
    requires |s| == 64
    ensures IsSha256Hex(s) <==> forall c | c in s :: c in "0123456789abcdef"
    ensures !IsSha256Hex(s[..63]) && (IsSha256Hex(s + "\n") <==> IsSha256Hex(s))
  {
    assert "0123456789abcdef" == ['0', '1', '2', '3', '4', '5', '6', '7', '8', '9', 'a', 'b', 'c', 'd', 'e', 'f'];
    assert forall i | 0 <= i < 64 :: (s + "\n")[i] == s[i];
    if IsSha256Hex(s) {
      forall c | c in s ensures c in "0123456789abcdef" {
        var i :| 0 <= i < 64 && s[i] == c;
      }
    } else {
      var i :| 0 <= i < 64 && !('0' <= s[i] <= '9' || 'a' <= s[i] <= 'f');
      assert s[i] in s && s[i] !in "0123456789abcdef";
    }
  }

  predicate ArtifactsValid(artifacts: seq<Artifact>) {
    forall a | a in artifacts :: a.path != "" && IsSha256Hex(a.sha256)
  }

  predicate InputValid(input: Input) {
    && IsId(input.taskId) && IsId(input.dispatchId) && IsId(input.resultId)
    && input.artifacts != [] && ArtifactsValid(input.artifacts)
  }

  /** Whether an event is well formed, column by column: which kinds may leave it empty, and what it may hold. */
  predicate WellFormed(e: EventData) {
    var k := e.kind;
    && (if k in {ControllerStarted, ControllerStopped}
        then e.taskId == None && e.attempt == None && e.dispatchId == None && e.workerId == None && e.resultId == None
        else e.taskId != None)
    && ShortText(e.taskId) && ShortText(e.dispatchId) && ShortText(e.workerId) && ShortText(e.resultId)
    && ShortText(e.dedupeKey)
    && (e.attempt.Some? ==> 1 <= e.attempt.value <= 100)
    && (e.attempt == None ==>
          k in {TaskCreated, TaskBlocked, TaskFailed, TaskCancelRequested, TaskCancelled, LateResultDiscarded,
                ControllerStarted, ControllerStopped})
    && (e.dispatchId == None ==>
          k in {TaskCreated, TaskRetryScheduled, TaskBlocked, TaskFailed, TaskCancelRequested, TaskCancelled,
                EffectConfirmed, RetryAuthorized, ControllerStarted, ControllerStopped})
    && (e.workerId == None ==> !(k in {TaskClaimed, TaskStarted, ResultReady, LeaseExpired}))
    && (e.resultId == None ==> !(k in {ResultReady, ResultAccepted, ResultRejected, TaskComplete, LateResultDiscarded}))
    && (e.dedupeKey == None ==>
          k in {TaskProgress, ResultRejected, TaskRetryScheduled, TaskBlocked, TaskFailed, TaskCancelRequested,
                TaskCancelled, LateResultDiscarded, ControllerStarted, ControllerStopped})
    && PayloadFits(k, e.taskId, e.payload)
  }

  predicate ShortText(s: Option<string>) {
    s.Some? ==> 1 <= |s.value| <= 200
  }

  predicate PayloadFits(k: Kind, t: Option<Id>, payload: Payload) {
    match payload
    case Creation(adapter, _, effect, attempts, ttl, timeout, dep) =>
      && k == TaskCreated && 1 <= |adapter| <= 200 && (effect == Idempotent || effect == NonIdempotent)
      && 1 <= attempts <= 100 && 1 <= ttl
      && (timeout.Some? ==> 1 <= timeout.value)
      && ShortText(dep) && (dep.Some? ==> dep != t)
    case Claiming(ttl, input) =>
      && k == TaskClaimed && 1 <= ttl
      && (input.Some? ==>
            && ShortText(Some(input.value.taskId)) && ShortText(Some(input.value.dispatchId))
            && ShortText(Some(input.value.resultId))
            && input.value.artifacts != [] && AreArtifacts(input.value.artifacts))
    case Report(artifacts, outcome, _, _) =>
      k == ResultReady && (outcome == Success || outcome == Failure) && AreArtifacts(artifacts)
    case Rejection(_, _, _) => k == ResultRejected
    case Late(_, _, _, _, _, _) => k == LateResultDiscarded
    case Info(_) => k in {TaskStarted, TaskProgress, ResultAccepted, TaskComplete, ControllerStarted, ControllerStopped}
    case Because(reason, actor) =>
      && ShortText(actor)
      && (k in {TaskRetryScheduled, TaskBlocked, TaskFailed, TaskCancelRequested, TaskCancelled}
          || (k == LeaseExpired && (reason == "ttl" || reason == "restart_grace"))
          || (k in {EffectConfirmed, RetryAuthorized} && actor != None && !Blank(reason)))
  }

  /** Each names a path and a digest of 64 characters, perhaps with a newline behind them. */
  predicate AreArtifacts(artifacts: seq<Artifact>) {
    forall a | a in artifacts ::
      && a.path != "" && |a.sha256| >= 64 && (a.sha256[64..] == "" || a.sha256[64..] == "\n")
      && forall c | c in a.sha256[..64] :: c in "0123456789abcdef"
  }

  lemma ArtifactsExactly(artifacts: seq<Artifact>)
    ensures ArtifactsValid(artifacts) <==> AreArtifacts(artifacts)
  {
    forall a | a in artifacts && |a.sha256| >= 64
      ensures IsSha256Hex(a.sha256) <==>
                && (a.sha256[64..] == "" || a.sha256[64..] == "\n")
                && forall c | c in a.sha256[..64] :: c in "0123456789abcdef"
    {
      DigestCharacters(a.sha256[..64]);
      assert a.sha256 == a.sha256[..64] + a.sha256[64..];
    }
  }

  /** Validation accepts exactly the well-formed events. */
  lemma ValidExactly(e: EventData)
    ensures e.Valid() <==> WellFormed(e)
  {
    PayloadExactly(e);
    hide PayloadFits, EventData.PayloadValid;
  }

  lemma PayloadExactly(e: EventData)
    ensures e.PayloadValid() <==> PayloadFits(e.kind, e.taskId, e.payload)
  {
    if e.payload.Report? {
      ArtifactsExactly(e.payload.artifacts);
    } else if e.payload.Claiming? && e.payload.input.Some? {
      ArtifactsExactly(e.payload.input.value.artifacts);
    }
    hide AreArtifacts, ArtifactsValid, Blank;
  }

  /** Nothing but characters that Python counts as white space. */
  predicate Blank(s: string) {
    forall c | c in s :: IsSpace(c)
  }

  predicate IsSpace(c: char) {
    || '\t' <= c <= '\r' || '\U{1C}' <= c <= ' '
    || c in {'\U{85}', '\U{A0}', '\U{1680}', '\U{2028}', '\U{2029}', '\U{202F}', '\U{205F}', '\U{3000}'}
    || '\U{2000}' <= c <= '\U{200A}'
  }

  /** Of the ASCII characters, exactly tab, line feed, vertical tab, form feed, carriage return, the four separators and
      the space are blank. */
  lemma AsciiBlank(c: char)
    requires c as int < 128
    ensures Blank([c]) <==> c as int in {9, 10, 11, 12, 13, 28, 29, 30, 31, 32}
  {
    assert c in [c];
  }

  lemma BlankParts(s: string, t: string)
    ensures Blank("") && (Blank(s + t) <==> Blank(s) && Blank(t))
  {
    assert forall c :: c in s + t <==> c in s || c in t;
  }

  /** The part of a default key before its first colon; kinds without one have no default key. */
  function KeyTag(k: Kind): Option<string> {
    match k
    case TaskCreated => Some("created")
    case TaskClaimed => Some("claim")
    case TaskStarted => Some("start")
    case ResultReady => Some("result")
    case ResultAccepted => Some("accepted")
    case TaskComplete => Some("complete")
    case LeaseExpired => Some("lease_expired")
    case EffectConfirmed => Some("effect_confirmed")
    case RetryAuthorized => Some("retry_authorized")
    case _ => None
  }

  function Text(id: Option<Id>): string {
    if id.Some? then id.value else "None"
  }

  function Number(n: Option<int>): string {
    if n.Some? then Digits(n.value) else "None"
  }

  /** Decimal text of a number, as an f-string prints it. */
  function Digits(n: int): string
    decreases if n < 0 then 1 else 0, if n < 0 then -n else n
  {
    if n < 0 then "-" + Digits(-n)
    else if n < 10 then [Digit(n)]
    else Digits(n / 10) + [Digit(n % 10)]
  }

  function Digit(n: int): char
    requires 0 <= n < 10
  {
    '0' + n as char
  }

  // ------------------------------------------------------------- keys are unambiguous

  lemma {:induction false} DigitsInjective(a: nat, b: nat)
    requires Digits(a) == Digits(b)
    ensures a == b
  {
    DigitsNonEmpty(a / 10);
    DigitsNonEmpty(b / 10);
    if a >= 10 && b >= 10 {
      var s := Digits(a);
      assert s[..|s| - 1] == Digits(a / 10) && s[..|s| - 1] == Digits(b / 10);
      DigitsInjective(a / 10, b / 10);
      assert s[|s| - 1] == Digit(a % 10) == Digit(b % 10);
    } else if a < 10 && b < 10 {
      assert Digits(a)[0] == Digit(a) && Digits(b)[0] == Digit(b);
    }
  }

  lemma DigitsNonEmpty(a: nat)
    ensures |Digits(a)| > 0
    ensures a <= MAX_ATTEMPTS_LIMIT ==> |Digits(a)| <= 3
  {
    if a >= 10 {
      assert a <= MAX_ATTEMPTS_LIMIT ==> a / 10 <= 10;
      assert a <= MAX_ATTEMPTS_LIMIT ==> |Digits(a / 10)| <= 2;
    }
  }

  /** Splitting at the first colon: the part before it fixes the part after it. */
  lemma SplitAtColon(a: string, b: string, x: string, y: string)
    requires ':' !in a && ':' !in b
    requires a + ":" + x == b + ":" + y
    ensures a == b && x == y
  {
    var s, t := a + ":" + x, b + ":" + y;
    assert s[|a|] == ':' && t[|b|] == ':';
    assert |a| == |b|;
    assert a == s[..|a|] == t[..|b|] == b;
    assert x == s[|a| + 1..] == y;
  }

  /** Ids minted by the controller: a prefix and hexadecimal digits. */
  predicate Minted(id: Option<Id>) {
    id.Some? ==> 0 < |id.value| <= 37 && ':' !in id.value
  }

  /** The key the controller gives to a late report, so that it cannot meet the key of the report itself. */
  function LateKey(d: Option<Id>, r: Option<Id>): Option<string> {
    Some("late" + ":" + Text(d) + ":" + Text(r))
  }

  predicate WellKeyed(e: EventData) {
    && Minted(e.taskId) && Minted(e.dispatchId)
    && e.dedupeKey == if e.kind.LateResultDiscarded? then LateKey(e.dispatchId, e.resultId) else e.DefaultKey()
  }

  function Tag(k: Kind): string
    requires KeyTag(k).Some? || k.LateResultDiscarded?
  {
    if k.LateResultDiscarded? then "late" else KeyTag(k).value
  }

  lemma TagHasNoColon(k: Kind)
    requires KeyTag(k).Some? || k.LateResultDiscarded?
    ensures ':' !in Tag(k)
  {
  }

  lemma TagsDiffer(k: Kind, l: Kind)
    requires KeyTag(k).Some? || k.LateResultDiscarded?
    requires KeyTag(l).Some? || l.LateResultDiscarded?
    ensures ':' !in Tag(k)
    ensures Tag(k) == Tag(l) ==> k == l
  {
    TagHasNoColon(k);
    var a, b := Tag(k), Tag(l);
    assert a == b ==> |a| == |b| && a[0] == b[0];
  }

  /** Two well-keyed events share a key only if they are of the same kind and about the same thing. */
  lemma SameKeySameEffect(a: Event, b: Event)
    requires WellKeyed(a) && WellKeyed(b) && a.dedupeKey.Some? && a.dedupeKey == b.dedupeKey
    ensures a.kind == b.kind
    ensures match a.kind
            case TaskClaimed => a.taskId == b.taskId && a.attempt == b.attempt
            case RetryAuthorized => a.taskId == b.taskId && a.attempt == b.attempt
            case TaskStarted => a.dispatchId == b.dispatchId
            case LeaseExpired => a.dispatchId == b.dispatchId
            case ResultReady => a.dispatchId == b.dispatchId && a.resultId == b.resultId
            case LateResultDiscarded => a.dispatchId == b.dispatchId && a.resultId == b.resultId
            case _ => a.taskId == b.taskId
  {
    TagsDiffer(a.kind, b.kind);
    TagsDiffer(b.kind, a.kind);
    SplitAtColon(Tag(a.kind), Tag(b.kind), AfterTag(a), AfterTag(b));
    match a.kind {
      case TaskClaimed => SplitAtColon(Text(a.taskId), Text(b.taskId), Number(a.attempt), Number(b.attempt));
        DigitsInjective(a.attempt.value, b.attempt.value);
      case RetryAuthorized => SplitAtColon(Text(a.taskId), Text(b.taskId), Number(a.attempt), Number(b.attempt));
        DigitsInjective(a.attempt.value, b.attempt.value);
      case ResultReady => SplitAtColon(Text(a.dispatchId), Text(b.dispatchId), Text(a.resultId), Text(b.resultId));
      case LateResultDiscarded =>
        SplitAtColon(Text(a.dispatchId), Text(b.dispatchId), Text(a.resultId), Text(b.resultId));
      case _ =>
    }
  }

  /** The effects that are recorded once have a key, and the same effect always has the same. */
  lemma SameEffectSameKey(a: Event, b: Event)
    requires WellKeyed(a) && WellKeyed(b) && a.kind == b.kind
    requires match a.kind
             case TaskCreated => a.taskId == b.taskId
             case TaskClaimed => a.taskId == b.taskId && a.attempt == b.attempt
             case TaskStarted => a.dispatchId == b.dispatchId
             case ResultReady => a.dispatchId == b.dispatchId && a.resultId == b.resultId
             case ResultAccepted => a.taskId == b.taskId
             case TaskComplete => a.taskId == b.taskId
             case LeaseExpired => a.dispatchId == b.dispatchId
             case EffectConfirmed => a.taskId == b.taskId
             case RetryAuthorized => a.taskId == b.taskId && a.attempt == b.attempt
             case LateResultDiscarded => a.dispatchId == b.dispatchId && a.resultId == b.resultId
             case _ => false
    ensures a.dedupeKey.Some? && a.dedupeKey == b.dedupeKey
  {
  }

  /** Under one key, having the same content means being the same event. */
  lemma ContentIsEvent(a: EventData, b: EventData)
    requires a.dedupeKey == b.dedupeKey
    ensures a.Content() == b.Content() <==> a == b
  {
    assert a == a.(dedupeKey := None).(dedupeKey := a.dedupeKey);
    assert b == b.(dedupeKey := None).(dedupeKey := b.dedupeKey);
  }

  /** The number that decimal digits stand for. */
  function DecimalValue(s: string): int {
    if s == [] then 0 else 10 * DecimalValue(s[..|s| - 1]) + (s[|s| - 1] as int - '0' as int)
  }

  lemma {:induction false} DigitsAreDecimal(n: nat)
    ensures DecimalValue(Digits(n)) == n && (forall c | c in Digits(n) :: '0' <= c <= '9')
    ensures n > 0 ==> Digits(n) != [] && Digits(n)[0] != '0'
  {
    if n >= 10 {
      DigitsAreDecimal(n / 10);
      var front := Digits(n / 10);
      assert Digits(n)[..|front|] == front;
    } else {
      assert Digits(n)[..0] == [];
    }
  }

  /** A well-keyed event's key without its tag. */
  function AfterTag(e: Event): (rest: string)
    requires WellKeyed(e) && e.dedupeKey.Some?
    ensures e.dedupeKey == Some(Tag(e.kind) + ":" + rest)
    ensures rest == match e.kind
                    case TaskClaimed => Text(e.taskId) + ":" + Number(e.attempt)
                    case TaskStarted => Text(e.dispatchId)
                    case ResultReady => Text(e.dispatchId) + ":" + Text(e.resultId)
                    case LateResultDiscarded => Text(e.dispatchId) + ":" + Text(e.resultId)
                    case LeaseExpired => Text(e.dispatchId)
                    case RetryAuthorized => Text(e.taskId) + ":" + Number(e.attempt)
                    case _ => Text(e.taskId)
  {
    var rest := e.dedupeKey.value[|Tag(e.kind)| + 1..];
    assert e.kind.LateResultDiscarded? ==>
        Tag(e.kind) + ":" + (Text(e.dispatchId) + ":" + Text(e.resultId)) == e.dedupeKey.value;
    rest
  }
}
